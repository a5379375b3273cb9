/** The colour setting `termcolor` takes: its `ColorChoice`. */
module Termcolor {
  datatype ColorChoice = Always | AlwaysAnsi | Auto | Never
}

/** The `--colors` command-line option (src/args.rs). */
module Args {
  import opened Wrappers
  import opened Text
  import Termcolor

  datatype Colors = Always | AlwaysAnsi | Auto | Never

  const InvalidColorChoice: string := "Invalid color choice"

  /** The word that names each choice on the command line. */
  function Word(c: Colors): string {
    match c
    case Always => "always"
    case AlwaysAnsi => "ansi"
    case Auto => "auto"
    case Never => "never"
  }

  /**
   * `Colors::from_str`: lower-case the input, then match one of the four
   * words. `to_lowercase` is taken as ASCII lower-casing; the one non-ASCII
   * character Unicode lower-cases into ASCII, the Kelvin sign, becomes `k`,
   * which no word contains, so acceptance is the same.
   */
  function ParseColors(s: string): (r: Result<Colors, string>)
    ensures r.Err? ==> r.error == InvalidColorChoice
  {
    var l := AsciiLowercase(s);
    if l == "always" then Ok(Always)
    else if l == "ansi" then Ok(AlwaysAnsi)
    else if l == "auto" then Ok(Auto)
    else if l == "never" then Ok(Never)
    else Err(InvalidColorChoice)
  }

  /** An input parses to a choice exactly when, lower-cased, it is that choice's word. */
  lemma ParseColorsIff(s: string, c: Colors)
    ensures ParseColors(s) == Ok(c) <==> AsciiLowercase(s) == Word(c)
  {
    assert "always"[1] != "ansi"[1] && "auto"[1] != "ansi"[1] && "always"[1] != "auto"[1];
  }

  /** An input that is none of the words, in any casing, is refused. */
  lemma ParseColorsRejects(s: string)
    requires forall c: Colors :: AsciiLowercase(s) != Word(c)
    ensures ParseColors(s) == Err(InvalidColorChoice)
  {
    assert AsciiLowercase(s) != Word(Always) && AsciiLowercase(s) != Word(AlwaysAnsi);
    assert AsciiLowercase(s) != Word(Auto) && AsciiLowercase(s) != Word(Never);
  }

  /** Casing never matters: inputs equal up to ASCII case parse alike. */
  lemma ParseColorsIgnoresCase(s1: string, s2: string)
    requires AsciiLowercase(s1) == AsciiLowercase(s2)
    ensures ParseColors(s1) == ParseColors(s2)
  {
  }

  /** Every word parses back to its own choice, whatever its casing. */
  lemma WordRoundTrip(c: Colors, s: string)
    requires AsciiLowercase(s) == Word(c)
    ensures ParseColors(s) == Ok(c)
  {
    ParseColorsIff(s, c);
  }

  /** `Args::use_colors`: no option means Auto; each choice maps onto the `ColorChoice` of the same name. */
  function UseColors(option: Option<Colors>): (r: Termcolor.ColorChoice)
    ensures option.None? ==> r == Termcolor.Auto
    ensures option == Some(Always) ==> r == Termcolor.Always
    ensures option == Some(AlwaysAnsi) ==> r == Termcolor.AlwaysAnsi
    ensures option == Some(Auto) ==> r == Termcolor.Auto
    ensures option == Some(Never) ==> r == Termcolor.Never
  {
    match option
    case None => Termcolor.Auto
    case Some(Always) => Termcolor.Always
    case Some(AlwaysAnsi) => Termcolor.AlwaysAnsi
    case Some(Auto) => Termcolor.Auto
    case Some(Never) => Termcolor.Never
  }

  /** Distinct choices give distinct settings, and every setting is reached. */
  lemma UseColorsOneToOne(a: Colors, b: Colors, t: Termcolor.ColorChoice)
    ensures UseColors(Some(a)) == UseColors(Some(b)) ==> a == b
    ensures exists c: Colors :: UseColors(Some(c)) == t
  {
    match t
    case Always => assert UseColors(Some(Always)) == t;
    case AlwaysAnsi => assert UseColors(Some(AlwaysAnsi)) == t;
    case Auto => assert UseColors(Some(Auto)) == t;
    case Never => assert UseColors(Some(Never)) == t;
  }
}
