/**
 * Properties: key/value pairs tagged with where they came from
 * (src/prop.rs). The source carries a hand-written order, a property is
 * compared by its source alone, and a file's content is read line by line
 * as `KEY=VALUE` entries.
 */
module Prop {
  import opened Wrappers
  import opened Text

  /** Where a value came from; a file records how many path components lead to it. */
  datatype Source = EnvVar | File(depth: nat) | Arg

  datatype Ordering = Less | Equal | Greater

  function Flip(o: Ordering): Ordering {
    match o
    case Less => Greater
    case Equal => Equal
    case Greater => Less
  }

  /** `usize::cmp`. */
  function CompareNat(a: nat, b: nat): (r: Ordering)
    ensures r == Less <==> a < b
    ensures r == Equal <==> a == b
    ensures r == Greater <==> a > b
  {
    if a < b then Less else if a == b then Equal else Greater
  }

  /** `Ord for Source`, arm by arm; the first arm that matches decides. */
  function Compare(a: Source, b: Source): Ordering {
    match (a, b)
    case (EnvVar, EnvVar) => Equal
    case (Arg, Arg) => Equal
    case (File(d0), File(d1)) => CompareNat(d1, d0)
    case (File(_), EnvVar) => Less
    case (EnvVar, _) => Greater
    case (File(_), Arg) => Greater
    case (Arg, _) => Less
  }

  /** The order agrees with the derived equality. */
  lemma CompareEqualIff(a: Source, b: Source)
    ensures Compare(a, b) == Equal <==> a == b
  {
  }

  /** Swapping the operands flips the answer, so the order is antisymmetric. */
  lemma CompareFlip(a: Source, b: Source)
    ensures Compare(b, a) == Flip(Compare(a, b))
  {
  }

  /** The order is transitive, both strictly and non-strictly. */
  lemma CompareTransitive(a: Source, b: Source, c: Source)
    ensures Compare(a, b) == Less && Compare(b, c) == Less ==> Compare(a, c) == Less
    ensures Compare(a, b) != Greater && Compare(b, c) != Greater ==> Compare(a, c) != Greater
  {
  }

  /** Ascending order: Arg first, then files from the deepest to the shallowest, then EnvVar. */
  lemma AscendingOrder(a: Source, b: Source)
    ensures Compare(a, b) == Less <==>
      (a.Arg? && !b.Arg?) || (a.File? && b.EnvVar?) || (a.File? && b.File? && a.depth > b.depth)
  {
  }

  datatype Property = Property(key: string, value: string, source: Source)

  /** `ParsePropertyError`; its `File` variant, which wraps an I/O error message, is `FileError` here. */
  datatype ParsePropertyError = Entry(entry: string) | Key(key: string) | Value(value: string) | FileError(message: string)

  /** `Property::new` never fails and keeps what it is given. */
  function New(key: string, value: string, source: Source): (r: Result<Property, ParsePropertyError>)
    ensures r.Ok? && r.value.key == key && r.value.value == value && r.value.source == source
  {
    Ok(Property(key, value, source))
  }

  /** `with_source` replaces the source and nothing else. */
  function WithSource(p: Property, source: Source): (r: Property)
    ensures r.source == source && r.key == p.key && r.value == p.value
  {
    p.(source := source)
  }

  /** `Ord for Property`: only the sources are compared. */
  function PropertyCompare(a: Property, b: Property): Ordering {
    Compare(a.source, b.source)
  }

  /** Keys and values play no part in the comparison. */
  lemma PropertyCompareIgnoresKeyAndValue(a: Property, b: Property, c: Property, d: Property)
    requires a.source == c.source && b.source == d.source
    ensures PropertyCompare(a, b) == PropertyCompare(c, d)
  {
  }

  /** The order is coarser than the derived equality: two different properties can compare Equal. */
  lemma PropertyEqualOrderWithoutEquality()
    ensures var a, b := Property("key", "one", Arg), Property("key", "two", Arg);
      PropertyCompare(a, b) == Equal && a != b
  {
    assert "one"[0] != "two"[0];
  }

  predicate IsQuote(c: char) {
    c == '\'' || c == '"'
  }

  /** `normalize`: trim whitespace, then strip every leading and trailing quote. */
  function Normalize(s: string): (r: string)
    ensures r == [] || (!IsQuote(r[0]) && !IsQuote(r[|r| - 1]))
    ensures forall c :: c in r ==> c in s
  {
    TrimMatches(Trim(s), IsQuote)
  }

  predicate AllQuotes(q: string) {
    forall i :: 0 <= i < |q| ==> IsQuote(q[i])
  }

  predicate AllWhitespace(w: string) {
    forall i :: 0 <= i < |w| ==> IsWhitespace(w[i])
  }

  /**
   * Whitespace outside any number of quotes of either kind goes, and so do the
   * quotes; what is inside is kept, whitespace at its edges included.
   */
  lemma NormalizeStrips(sp1: string, q1: string, w: string, q2: string, sp2: string)
    requires AllWhitespace(sp1) && AllWhitespace(sp2) && AllQuotes(q1) && AllQuotes(q2)
    requires w != [] && !IsQuote(w[0]) && !IsQuote(w[|w| - 1])
    requires (q1 == [] ==> !IsWhitespace(w[0])) && (q2 == [] ==> !IsWhitespace(w[|w| - 1]))
    ensures Normalize(sp1 + q1 + w + q2 + sp2) == w
  {
    var inner := q1 + w + q2;
    assert sp1 + q1 + w + q2 + sp2 == sp1 + inner + sp2;
    TrimMatchesExactly(sp1, inner, sp2, IsWhitespace);
    TrimMatchesExactly(q1, w, q2, IsQuote);
  }

  /** When `s` is `a + w + b`, the ends `a` and `b` match `p` and the ends of `w` do not, `trim_matches` gives `w`. */
  lemma TrimMatchesExactly(a: string, w: string, b: string, p: char -> bool)
    requires forall i :: 0 <= i < |a| ==> p(a[i])
    requires forall i :: 0 <= i < |b| ==> p(b[i])
    requires w != [] && !p(w[0]) && !p(w[|w| - 1])
    ensures TrimMatches(a + w + b, p) == w
  {
    var s := a + w + b;
    assert s == a + (w + b);
    TrimStartExactly(a, w + b, p);
    TrimEndExactly(w, b, p);
    assert TrimEnd(TrimStart(s, p), p) == w;
  }

  lemma {:induction false} TrimStartExactly(a: string, rest: string, p: char -> bool)
    requires forall i :: 0 <= i < |a| ==> p(a[i])
    requires rest != [] && !p(rest[0])
    ensures TrimStart(a + rest, p) == rest
    decreases |a|
  {
    if a != [] {
      assert (a + rest)[1..] == a[1..] + rest;
      TrimStartExactly(a[1..], rest, p);
    }
  }

  lemma {:induction false} TrimEndExactly(w: string, b: string, p: char -> bool)
    requires forall i :: 0 <= i < |b| ==> p(b[i])
    requires w != [] && !p(w[|w| - 1])
    ensures TrimEnd(w + b, p) == w
    decreases |b|
  {
    if b != [] {
      var s := w + b;
      assert s[..|s| - 1] == w + b[..|b| - 1];
      TrimEndExactly(w, b[..|b| - 1], p);
    }
  }

  const Delimiter: char := '='

  /** `Property::from_str`: parse one `KEY=VALUE` entry; the result comes from the environment. */
  function FromStr(s: string): (r: Result<Property, ParsePropertyError>)
    ensures r.Err? <==> Delimiter !in s
    ensures r.Err? ==> r.error == Entry(s)
    ensures r.Ok? ==> r.value.source == EnvVar && Delimiter !in r.value.key
  {
    match SplitOnce(s, Delimiter)
    case Some((key, value)) => New(Normalize(key), Normalize(value), EnvVar)
    case None => Err(Entry(s))
  }

  /** An entry is split at its first `=`; later ones belong to the value. */
  lemma FromStrSplitsAtFirstDelimiter(key: string, value: string)
    requires Delimiter !in key
    ensures FromStr(key + [Delimiter] + value) == Ok(Property(Normalize(key), Normalize(value), EnvVar))
  {
    SplitOnceAtFirst(key, Delimiter, value);
  }

  /** `TryFrom<(String, String)>`: the pair as it is, from the environment, never an error. */
  function TryFrom(pair: (string, string)): (r: Result<Property, ParsePropertyError>)
    ensures r.Ok? && r.value == Property(pair.0, pair.1, EnvVar)
  {
    New(pair.0, pair.1, EnvVar)
  }

  /** `source`: a file's source counts the components of its path, here given as their list. */
  function SourceOf(components: seq<string>): (s: Source)
    ensures s.File? && s.depth == |components|
  {
    File(|components|)
  }

  predicate IsBlank(line: string) {
    Trim(line) == []
  }

  /** The `filter` step: lines that are not whitespace only, in their order. */
  function NonBlank(lines: seq<string>): (r: seq<string>)
    ensures |r| <= |lines|
    ensures forall i :: 0 <= i < |r| ==> !IsBlank(r[i])
    ensures forall line :: line in r <==> line in lines && !IsBlank(line)
    ensures forall line :: multiset(r)[line] == if IsBlank(line) then 0 else multiset(lines)[line]
  {
    if lines == [] then []
    else
      assert lines == [lines[0]] + lines[1..];
      if IsBlank(lines[0]) then NonBlank(lines[1..])
      else [lines[0]] + NonBlank(lines[1..])
  }

  /** Filtering a concatenation filters each part and keeps them in order. */
  lemma {:induction false} NonBlankAppend(a: seq<string>, b: seq<string>)
    ensures NonBlank(a + b) == NonBlank(a) + NonBlank(b)
  {
    if a == [] {
      assert a + b == b;
    } else {
      assert (a + b)[0] == a[0];
      assert (a + b)[1..] == a[1..] + b;
      NonBlankAppend(a[1..], b);
    }
  }

  /** The position of the first error, or `|rs|` when there is none. */
  function FirstError<T, E>(rs: seq<Result<T, E>>): (i: nat)
    ensures i <= |rs|
    ensures forall j :: 0 <= j < i ==> rs[j].Ok?
    ensures i < |rs| ==> rs[i].Err?
  {
    if rs == [] || rs[0].Err? then 0 else 1 + FirstError(rs[1..])
  }

  /** `collect` into a `Result`: all the values when every item is Ok, else the first error. */
  function Collect<T, E>(rs: seq<Result<T, E>>): (r: Result<seq<T>, E>)
    ensures r.Ok? <==> forall i :: 0 <= i < |rs| ==> rs[i].Ok?
    ensures r.Ok? ==> |r.value| == |rs| && forall i :: 0 <= i < |rs| ==> r.value[i] == rs[i].value
    ensures r.Err? ==> FirstError(rs) < |rs| && r.error == rs[FirstError(rs)].error
  {
    if rs == [] then Ok([])
    else match rs[0]
      case Err(e) => Err(e)
      case Ok(x) =>
        match Collect(rs[1..])
        case Err(e) => Err(e)
        case Ok(xs) => Ok([x] + xs)
  }

  /** The `map(|prop| prop.map(|p| p.with_source(source)))` step. */
  function Tagged(r: Result<Property, ParsePropertyError>, source: Source): Result<Property, ParsePropertyError> {
    match r
    case Ok(p) => Ok(WithSource(p, source))
    case Err(e) => Err(e)
  }

  /** `from_str` each entry, give each the file's source, `collect`. */
  function ParseEntries(ls: seq<string>, source: Source): (r: Result<seq<Property>, ParsePropertyError>)
    ensures r.Ok? <==> forall i :: 0 <= i < |ls| ==> Delimiter in ls[i]
    ensures r.Ok? ==> |r.value| == |ls|
    ensures r.Ok? ==> forall i :: 0 <= i < |ls| ==> r.value[i] == WithSource(FromStr(ls[i]).value, source)
    ensures r.Ok? ==> forall p :: p in r.value ==> p.source == source
    ensures r.Err? ==> FirstMalformed(ls) < |ls| && r.error == Entry(ls[FirstMalformed(ls)])
  {
    var rs := TaggedEntries(ls, source);
    var r := Collect(rs);
    FirstErrorIsFirstMalformed(ls, rs);
    r
  }

  lemma FirstErrorIsFirstMalformed(ls: seq<string>, rs: seq<Result<Property, ParsePropertyError>>)
    requires |rs| == |ls|
    requires forall i :: 0 <= i < |ls| ==> (rs[i].Ok? <==> Delimiter in ls[i])
    ensures FirstError(rs) == FirstMalformed(ls)
  {
  }

  /** The position of the first entry with no `=`, or `|ls|` when every entry has one. */
  function FirstMalformed(ls: seq<string>): (i: nat)
    ensures i <= |ls|
    ensures forall j :: 0 <= j < i ==> Delimiter in ls[j]
    ensures i < |ls| ==> Delimiter !in ls[i]
  {
    if ls == [] || Delimiter !in ls[0] then 0 else 1 + FirstMalformed(ls[1..])
  }

  /** The `from_str` and `with_source` steps, entry by entry. */
  function TaggedEntries(ls: seq<string>, source: Source): (rs: seq<Result<Property, ParsePropertyError>>)
    ensures |rs| == |ls|
    ensures forall i :: 0 <= i < |ls| ==> (rs[i].Ok? <==> Delimiter in ls[i])
    ensures forall i :: 0 <= i < |ls| && rs[i].Err? ==> rs[i].error == Entry(ls[i])
    ensures forall i :: 0 <= i < |ls| && rs[i].Ok? ==> rs[i].value == WithSource(FromStr(ls[i]).value, source)
  {
    seq(|ls|, i requires 0 <= i < |ls| => Tagged(FromStr(ls[i]), source))
  }

  /**
   * The chain of `from_file` once the content is read: `lines`, drop the blank
   * ones, then `ParseEntries`.
   */
  function ParseContent(content: string, source: Source): (r: Result<seq<Property>, ParsePropertyError>)
    ensures r.Ok? <==> forall line :: line in Lines(content) && !IsBlank(line) ==> Delimiter in line
    ensures r.Ok? ==> |r.value| == |NonBlank(Lines(content))| <= |Lines(content)|
    ensures r.Ok? ==> forall i :: 0 <= i < |r.value| ==>
      r.value[i] == WithSource(FromStr(NonBlank(Lines(content))[i]).value, source)
    ensures r.Ok? ==> forall p :: p in r.value ==> p.source == source
    ensures r.Err? ==> exists line :: line in Lines(content) && !IsBlank(line) && r.error == Entry(line) && Delimiter !in line
    ensures r.Err? ==> var ls := NonBlank(Lines(content));
      FirstMalformed(ls) < |ls| && r.error == Entry(ls[FirstMalformed(ls)])
  {
    var ls := NonBlank(Lines(content));
    var r := ParseEntries(ls, source);
    assert r.Ok? <==> forall line :: line in ls ==> Delimiter in line;
    r
  }

  /** Whitespace-only lines are all dropped. */
  lemma {:induction false} BlankLinesDropped(lines: seq<string>)
    requires forall i :: 0 <= i < |lines| ==> IsBlank(lines[i])
    ensures NonBlank(lines) == []
  {
    if lines != [] {
      BlankLinesDropped(lines[1..]);
    }
  }

  /** Content made of whitespace-only lines yields no property and no error. */
  lemma BlankContentIsEmpty(content: string, source: Source)
    requires forall i :: 0 <= i < |Lines(content)| ==> IsBlank(Lines(content)[i])
    ensures ParseContent(content, source) == Ok([])
  {
    BlankLinesDropped(Lines(content));
    var r := ParseEntries([], source);
    assert r.Ok? && |r.value| == 0;
  }

  /** `from_file` with the read turned into its outcome: an I/O failure, or the content read. */
  function FromFile(components: seq<string>, read: Result<string, string>): (r: Result<seq<Property>, ParsePropertyError>)
    ensures read.Err? ==> r == Err(FileError(read.error))
    ensures read.Ok? ==> (r.Ok? <==> forall line :: line in NonBlank(Lines(read.value)) ==> Delimiter in line)
    ensures read.Ok? && r.Ok? ==> forall p :: p in r.value ==> p.source == File(|components|)
  {
    match read
    case Err(message) => Err(FileError(message))
    case Ok(content) =>
      var source := SourceOf(components);
      ParseContent(content, source)
  }

  /** What `slice::sort` promises: no element compares Greater than one after it. */
  predicate Sorted(ps: seq<Property>) {
    forall i, j :: 0 <= i < j < |ps| ==> PropertyCompare(ps[i], ps[j]) != Greater
  }

  /** Put `p` in front of the first element it does not exceed. */
  function Insert(p: Property, ps: seq<Property>): (r: seq<Property>)
    ensures multiset(r) == multiset(ps) + multiset{p}
  {
    if ps == [] then [p]
    else if PropertyCompare(p, ps[0]) != Greater then [p] + ps
    else
      assert ps == [ps[0]] + ps[1..];
      [ps[0]] + Insert(p, ps[1..])
  }

  lemma {:induction false} InsertSorted(p: Property, ps: seq<Property>)
    requires Sorted(ps)
    ensures Sorted(Insert(p, ps))
  {
    if ps != [] {
      var r := Insert(p, ps);
      if PropertyCompare(p, ps[0]) != Greater {
        forall j | 0 < j < |r|
          ensures PropertyCompare(p, r[j]) != Greater
        {
          CompareTransitive(p.source, ps[0].source, r[j].source);
        }
      } else {
        InsertSorted(p, ps[1..]);
        CompareFlip(p.source, ps[0].source);
        var t := Insert(p, ps[1..]);
        forall j | 0 <= j < |t|
          ensures PropertyCompare(ps[0], t[j]) != Greater
        {
          assert t[j] in multiset(t);
          if t[j] != p {
            assert t[j] in ps[1..];
          }
        }
      }
    }
  }

  /** A reference sort by insertion: a sorted permutation of its input. */
  function Sort(ps: seq<Property>): (r: seq<Property>)
    ensures multiset(r) == multiset(ps)
    ensures Sorted(r)
  {
    if ps == [] then []
    else
      var t := Sort(ps[1..]);
      InsertSorted(ps[0], t);
      assert ps == [ps[0]] + ps[1..];
      Insert(ps[0], t)
  }

  predicate DistinctSources(ps: seq<Property>) {
    forall i, j :: 0 <= i < j < |ps| ==> ps[i].source != ps[j].source
  }

  /**
   * With pairwise distinct sources there is a single sorted arrangement, so
   * any sort, Rust's `slice::sort` included, produces it.
   */
  lemma {:induction false} SortedUnique(xs: seq<Property>, ys: seq<Property>)
    requires Sorted(xs) && Sorted(ys) && multiset(xs) == multiset(ys)
    requires DistinctSources(xs)
    ensures xs == ys
    decreases |xs|
  {
    if xs == [] {
      assert |ys| == |multiset(ys)| == 0;
    } else {
      assert |ys| == |multiset(ys)| == |xs|;
      SortedHeadsAgree(xs, ys);
      TailsPermuted(xs, ys);
      SortedUnique(xs[1..], ys[1..]);
    }
  }

  /** Two sorted arrangements of the same elements, distinct by source, start alike. */
  lemma SortedHeadsAgree(xs: seq<Property>, ys: seq<Property>)
    requires Sorted(xs) && Sorted(ys) && multiset(xs) == multiset(ys)
    requires DistinctSources(xs) && xs != [] && ys != []
    ensures xs[0] == ys[0]
  {
    assert xs[0] in multiset(ys);
    var k :| 0 <= k < |ys| && ys[k] == xs[0];
    assert ys[0] in multiset(xs);
    var m :| 0 <= m < |xs| && xs[m] == ys[0];
    var a, b := xs[0].source, ys[0].source;
    assert k == 0 || PropertyCompare(ys[0], ys[k]) != Greater;
    assert Compare(b, a) != Greater;
    assert m == 0 || PropertyCompare(xs[0], xs[m]) != Greater;
    assert Compare(a, b) != Greater;
    CompareFlip(a, b);
    CompareEqualIff(a, b);
  }

  lemma TailsPermuted(xs: seq<Property>, ys: seq<Property>)
    requires xs != [] && ys != [] && xs[0] == ys[0] && multiset(xs) == multiset(ys)
    ensures multiset(xs[1..]) == multiset(ys[1..])
  {
    assert xs == [xs[0]] + xs[1..] && ys == [ys[0]] + ys[1..];
    assert multiset(xs[1..]) == multiset(xs) - multiset{xs[0]};
    assert multiset(ys[1..]) == multiset(ys) - multiset{xs[0]};
  }
}

/** The `tests` module of src/prop.rs. */
module PropTests {
  import opened Prop

  /**
   * The unit test's arrangement for any key and values: whatever sort is
   * applied, the order is the Arg entry, the File(1) entry, the File(0) entry,
   * the EnvVar entry.
   */
  lemma SortOrderShape(key: string, root: string, child: string, arg: string, env: string, sorted: seq<Property>)
    requires Sorted(sorted)
    requires multiset(sorted) == multiset([Property(key, root, File(0)), Property(key, child, File(1)),
                                           Property(key, arg, Arg), Property(key, env, EnvVar)])
    ensures sorted == [Property(key, arg, Arg), Property(key, child, File(1)),
                       Property(key, root, File(0)), Property(key, env, EnvVar)]
  {
    var a, b, c, d := Property(key, root, File(0)), Property(key, child, File(1)),
                      Property(key, arg, Arg), Property(key, env, EnvVar);
    var expected := [c, b, a, d];
    assert multiset(expected) == multiset([a, b, c, d]);
    SortedUnique(expected, sorted);
  }

  /** The scenario of the unit test in src/prop.rs: sorted, the values read arg, file_child, file_root, env_var. */
  lemma SortOrderScenario(sorted: seq<Property>)
    requires Sorted(sorted)
    requires multiset(sorted) == multiset([Property("key", "file_root", File(0)), Property("key", "file_child", File(1)),
                                           Property("key", "arg", Arg), Property("key", "env_var", EnvVar)])
    ensures |sorted| == 4
    ensures sorted[0].value == "arg" && sorted[1].value == "file_child"
    ensures sorted[2].value == "file_root" && sorted[3].value == "env_var"
  {
    SortOrderShape("key", "file_root", "file_child", "arg", "env_var", sorted);
  }

  /** The reference sort meets the scenario's requirements, so the scenario holds of an actual sort. */
  lemma SortTestProperties()
    ensures var sorted := Sort([Property("key", "file_root", File(0)), Property("key", "file_child", File(1)),
                                Property("key", "arg", Arg), Property("key", "env_var", EnvVar)]);
      && |sorted| == 4
      && sorted[0].value == "arg" && sorted[1].value == "file_child"
      && sorted[2].value == "file_root" && sorted[3].value == "env_var"
  {
    SortOrderScenario(Sort([Property("key", "file_root", File(0)), Property("key", "file_child", File(1)),
                            Property("key", "arg", Arg), Property("key", "env_var", EnvVar)]));
  }
}
