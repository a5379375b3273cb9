/**
 * The errors `fire` ends with and the exit code of each (src/error.rs). URLs
 * and paths are kept as their text.
 */
module FireErrors {
  import opened Wrappers

  datatype FireError =
    | Timeout(url: string)
    | Connection(url: string)
    | FileNotFound(path: string)
    | NoReadPermission(path: string)
    | NotAFile(path: string)
    | GenericIO(message: string)
    | Template(message: string)
    | Other(message: string)

  /** `Termination::report`: the process exit code of each error. */
  function Report(e: FireError): (code: u8)
    ensures code != 0
  {
    match e
    case Timeout(_) => 3
    case Connection(_) => 4
    case FileNotFound(_) => 5
    case NoReadPermission(_) => 6
    case NotAFile(_) => 7
    case GenericIO(_) => 8
    case Template(_) => 9
    case Other(_) => 1
  }

  /** The position of each variant in the declaration. */
  function Variant(e: FireError): nat {
    match e
    case Timeout(_) => 0
    case Connection(_) => 1
    case FileNotFound(_) => 2
    case NoReadPermission(_) => 3
    case NotAFile(_) => 4
    case GenericIO(_) => 5
    case Template(_) => 6
    case Other(_) => 7
  }

  /** Two errors share an exit code exactly when they are the same variant; the payload plays no part. */
  lemma ReportDistinguishesVariants(a: FireError, b: FireError)
    ensures Report(a) == Report(b) <==> Variant(a) == Variant(b)
  {
  }

  /** The codes, one by one, for any payload. */
  lemma ReportCodes(s: string)
    ensures Report(Timeout(s)) == 3 && Report(Connection(s)) == 4
    ensures Report(FileNotFound(s)) == 5 && Report(NoReadPermission(s)) == 6
    ensures Report(NotAFile(s)) == 7 && Report(GenericIO(s)) == 8
    ensures Report(Template(s)) == 9 && Report(Other(s)) == 1
  {
  }

  /** `exit`: after printing the error it ends with the error's own exit code. */
  function Exit(e: FireError): (code: u8)
    ensures code == Report(e) && code != 0
  {
    Report(e)
  }
}
