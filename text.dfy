/**
 * String facts borrowed from the Rust standard library that the modelled code
 * relies on: `starts_with`, `trim` / `trim_matches`, `to_ascii_lowercase`,
 * the byte length of a UTF-8 `String`, `usize::to_string`, `split_once` and
 * `lines`.
 */
module Text {
  import opened Wrappers

  predicate StartsWith(s: string, prefix: string) {
    |prefix| <= |s| && s[..|prefix|] == prefix
  }

  /** The Unicode White_Space property, which `char::is_whitespace` (and so `str::trim`) tests. */
  predicate IsWhitespace(c: char) {
    var n := c as int;
    (0x09 <= n <= 0x0D) || n == 0x20 || n == 0x85 || n == 0xA0 || n == 0x1680
    || (0x2000 <= n <= 0x200A) || n == 0x2028 || n == 0x2029 || n == 0x202F
    || n == 0x205F || n == 0x3000
  }

  /** `trim_start_matches(p)`: drop the longest prefix whose characters all satisfy `p`. */
  function TrimStart(s: string, p: char -> bool): (r: string)
    ensures |r| <= |s| && r == s[|s| - |r|..]
    ensures r == [] || !p(r[0])
    ensures forall i :: 0 <= i < |s| - |r| ==> p(s[i])
    decreases |s|
  {
    if s != [] && p(s[0]) then TrimStart(s[1..], p) else s
  }

  /** `trim_end_matches(p)`: drop the longest suffix whose characters all satisfy `p`. */
  function TrimEnd(s: string, p: char -> bool): (r: string)
    ensures |r| <= |s| && r == s[..|r|]
    ensures r == [] || !p(r[|r| - 1])
    ensures forall i :: |r| <= i < |s| ==> p(s[i])
    decreases |s|
  {
    if s != [] && p(s[|s| - 1]) then TrimEnd(s[..|s| - 1], p) else s
  }

  /**
   * Trimming `p` from the start and then from the end keeps the contiguous
   * piece `s[i..i + |r|]`, where `i` is what the start trim cut: everything
   * cut on either side satisfies `p`.
   */
  lemma TrimBothPiece(s: string, p: char -> bool)
    ensures var i := |s| - |TrimStart(s, p)|; var r := TrimEnd(TrimStart(s, p), p);
      i + |r| <= |s| && r == s[i..i + |r|]
      && (forall k :: 0 <= k < i ==> p(s[k]))
      && (forall k :: i + |r| <= k < |s| ==> p(s[k]))
  {
    var t := TrimStart(s, p);
    var i := |s| - |t|;
    var r := TrimEnd(t, p);
    assert t == s[i..];
    assert r == t[..|r|];
    forall k | i + |r| <= k < |s|
      ensures p(s[k])
    {
      assert s[k] == t[k - i];
    }
  }

  /**
   * `trim_matches(p)`: both ends at once. What is kept is the contiguous
   * piece `s[i..i + |r|]` of the input, everything cut on either side
   * satisfies `p`, and the two ends of what is kept fail it.
   */
  function TrimMatches(s: string, p: char -> bool): (r: string)
    ensures |r| <= |s|
    ensures r == [] || (!p(r[0]) && !p(r[|r| - 1]))
    ensures var i := |s| - |TrimStart(s, p)|;
      i + |r| <= |s| && r == s[i..i + |r|]
      && (forall k :: 0 <= k < i ==> p(s[k]))
      && (forall k :: i + |r| <= k < |s| ==> p(s[k]))
    ensures forall c :: c in r ==> c in s
  {
    var t := TrimStart(s, p);
    var r := TrimEnd(t, p);
    TrimBothPiece(s, p);
    assert r != [] ==> r[0] == t[0];
    r
  }

  /** `str::trim`. */
  function Trim(s: string): string {
    TrimMatches(s, IsWhitespace)
  }

  function AsciiLower(c: char): (l: char)
    ensures 'A' <= c <= 'Z' ==> l as int == c as int + 32
    ensures !('A' <= c <= 'Z') ==> l == c
  {
    if 'A' <= c <= 'Z' then (c as int + 32) as char else c
  }

  /** `to_ascii_lowercase` on a whole string. */
  function AsciiLowercase(s: string): (r: string)
    ensures |r| == |s|
    ensures forall i :: 0 <= i < |s| ==> r[i] == AsciiLower(s[i])
  {
    seq(|s|, i requires 0 <= i < |s| => AsciiLower(s[i]))
  }

  /** Number of bytes UTF-8 needs for one scalar value. */
  function Utf8Width(c: char): (w: nat)
    ensures 1 <= w <= 4
  {
    var n := c as int;
    if n < 0x80 then 1 else if n < 0x800 then 2 else if n < 0x10000 then 3 else 4
  }

  /** `String::len`: the length in UTF-8 bytes, not in characters. */
  function Utf8Len(s: string): nat {
    if s == [] then 0 else Utf8Len(s[..|s| - 1]) + Utf8Width(s[|s| - 1])
  }

  lemma {:induction false} Utf8LenBounds(s: string)
    ensures |s| <= Utf8Len(s) <= 4 * |s|
    ensures Utf8Len(s) == 0 <==> s == []
  {
    if s != [] {
      Utf8LenBounds(s[..|s| - 1]);
    }
  }

  predicate IsDigit(c: char) { '0' <= c <= '9' }

  function DigitChar(d: nat): (c: char)
    requires d < 10
    ensures IsDigit(c) && c as int - '0' as int == d
  {
    ('0' as int + d) as char
  }

  /** `usize::to_string`: decimal, no sign, no leading zero except for 0 itself. */
  function Decimal(n: nat): (r: string)
    ensures |r| >= 1
    ensures forall i :: 0 <= i < |r| ==> IsDigit(r[i])
    ensures r[0] == '0' ==> n == 0 && r == "0"
  {
    if n < 10 then [DigitChar(n)] else Decimal(n / 10) + [DigitChar(n % 10)]
  }

  function DigitValue(c: char): (d: nat)
    requires IsDigit(c)
    ensures d < 10 && DigitChar(d) == c
  {
    c as int - '0' as int
  }

  /** The number a string of decimal digits denotes. */
  function DecimalValue(s: string): nat
    requires forall i :: 0 <= i < |s| ==> IsDigit(s[i])
  {
    if s == [] then 0 else DecimalValue(s[..|s| - 1]) * 10 + DigitValue(s[|s| - 1])
  }

  /** Reading back what `Decimal` wrote gives the number. */
  lemma {:induction false} DecimalRoundTrip(n: nat)
    ensures DecimalValue(Decimal(n)) == n
  {
    if n >= 10 {
      DecimalRoundTrip(n / 10);
      var s := Decimal(n);
      assert s[..|s| - 1] == Decimal(n / 10);
    }
  }

  /**
   * The position of the first `c` in `s`, the model's `str::find`. It counts
   * characters, where Rust counts UTF-8 bytes; callers only use it to split
   * around `c`, which comes out the same either way.
   */
  function FirstIndex(s: string, c: char): (r: Option<nat>)
    ensures r.None? <==> c !in s
    ensures r.Some? ==> r.value < |s| && s[r.value] == c && c !in s[..r.value]
  {
    if s == [] then None
    else if s[0] == c then Some(0)
    else match FirstIndex(s[1..], c)
      case None => None
      case Some(i) =>
        assert s[..i + 1] == [s[0]] + s[1..][..i];
        Some(i + 1)
  }

  /** `str::split_once(c)`: the text before and the text after the first `c`, or None without one. */
  function SplitOnce(s: string, c: char): (r: Option<(string, string)>)
    ensures r.None? <==> c !in s
    ensures r.Some? ==> s == r.value.0 + [c] + r.value.1 && c !in r.value.0
  {
    match FirstIndex(s, c)
    case None => None
    case Some(i) =>
      assert s == s[..i] + [c] + s[i + 1..];
      Some((s[..i], s[i + 1..]))
  }

  /** The split happens at the first `c`: whatever follows, later `c`s included, is the second part. */
  lemma SplitOnceAtFirst(before: string, c: char, after: string)
    requires c !in before
    ensures SplitOnce(before + [c] + after, c) == Some((before, after))
  {
    var s := before + [c] + after;
    var i := FirstIndex(s, c).value;
    assert s[|before|] == c;
    assert s[..i] == before;
    assert s[i + 1..] == after;
  }

  /** Drop one trailing carriage return. */
  function StripCr(s: string): string {
    if s != [] && s[|s| - 1] == '\r' then s[..|s| - 1] else s
  }

  /**
   * `str::lines`: the text is cut after every `\n`; a piece ended by `\n` loses
   * it and then one `\r` before it; the last piece may have no terminator, and
   * nothing after the final `\n` yields no line at all.
   */
  function Lines(s: string): (r: seq<string>)
    ensures forall i :: 0 <= i < |r| ==> '\n' !in r[i]
    decreases |s|
  {
    if s == [] then []
    else match FirstIndex(s, '\n')
      case None => [s]
      case Some(i) =>
        assert forall c :: c in StripCr(s[..i]) ==> c in s[..i];
        [StripCr(s[..i])] + Lines(s[i + 1..])
  }

  /** One line ended by `\n`, followed by the rest of the text. */
  lemma LinesStep(line: string, rest: string)
    requires '\n' !in line
    ensures Lines(line + "\n" + rest) == [StripCr(line)] + Lines(rest)
  {
    SplitOnceAtFirst(line, '\n', rest);
  }

  /** A `\r\n` ending is removed whole. */
  lemma LinesCrLf(line: string, rest: string)
    requires '\n' !in line
    ensures Lines(line + "\r\n" + rest) == [line] + Lines(rest)
  {
    assert line + "\r\n" + rest == (line + "\r") + "\n" + rest;
    LinesStep(line + "\r", rest);
    assert (line + "\r")[..|line|] == line;
  }

  /** A line `lines` gives back unchanged when it is terminated by `\n`. */
  predicate PlainLine(l: string) {
    '\n' !in l && (l == [] || l[|l| - 1] != '\r')
  }

  /** The lines written out, each followed by `\n`. */
  function Terminated(ls: seq<string>): string {
    if ls == [] then [] else ls[0] + "\n" + Terminated(ls[1..])
  }

  /** `lines` reads back what `Terminated` wrote. */
  lemma {:induction false} LinesOfTerminated(ls: seq<string>)
    requires forall i :: 0 <= i < |ls| ==> PlainLine(ls[i])
    ensures Lines(Terminated(ls)) == ls
  {
    if ls != [] {
      assert PlainLine(ls[0]);
      assert StripCr(ls[0]) == ls[0];
      LinesStep(ls[0], Terminated(ls[1..]));
      LinesOfTerminated(ls[1..]);
      assert ls == [ls[0]] + ls[1..];
    }
  }
}
