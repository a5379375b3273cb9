/**
 * The placeholder scanner `find_keys` of src/templ.rs: a brace-counting
 * automaton run over the characters of a template, collecting the keys of
 * `{{KEY}}` placeholders. The model keeps the automaton exactly as written:
 * none of the five resets to (0, 0) from (2, 0) or (2, 1) clears the
 * identifier buffer, and neither does a `{`, so a key is not always a
 * contiguous piece of the template (see `StaleBufferJoinsKeys`).
 */
module Templ {
  import opened Wrappers

  /** The character classes of `Token`. */
  datatype Token = LeftBrace | RightBrace | Space | IdenChar(c: char) | OtherChar(c: char)

  /** ASCII letters, ASCII digits, `-` and `_`. */
  predicate IsIdentChar(c: char) {
    ('a' <= c <= 'z') || ('A' <= c <= 'Z') || ('0' <= c <= '9') || c == '-' || c == '_'
  }

  /** `Token::from`: every character falls into exactly one class, and the two carrying classes keep it. */
  function TokenOf(c: char): (t: Token)
    ensures t == LeftBrace <==> c == '{'
    ensures t == RightBrace <==> c == '}'
    ensures t == Space <==> c == ' '
    ensures t.IdenChar? <==> IsIdentChar(c)
    ensures t.OtherChar? <==> !IsIdentChar(c) && c != '{' && c != '}' && c != ' '
    ensures (t.IdenChar? || t.OtherChar?) ==> t.c == c
  {
    if IsIdentChar(c) then IdenChar(c)
    else if c == ' ' then Space
    else if c == '{' then LeftBrace
    else if c == '}' then RightBrace
    else OtherChar(c)
  }

  /** The three locals of `find_keys`: the brace pair, the identifier buffer and the keys found so far. */
  datatype Scanner = Scanner(braces: (u8, u8), buffer: seq<char>, keys: set<string>)

  const Start: Scanner := Scanner((0, 0), [], {})

  /** The brace pairs the automaton has an arm for; any other pair reaches `panic!`. */
  predicate ValidBraces(b: (u8, u8)) {
    b == (0, 0) || b == (1, 0) || b == (2, 0) || b == (2, 1)
  }

  /**
   * One iteration of the loop of `find_keys`. Its precondition is what keeps
   * the `panic!` arm away, and its postcondition shows that every step stays
   * among the four handled brace pairs.
   */
  function Step(s: Scanner, c: char): (r: Scanner)
    requires ValidBraces(s.braces)
    ensures ValidBraces(r.braces)
  {
    match s.braces
    case (0, 0) =>
      (match TokenOf(c)
       case LeftBrace => s.(braces := (1, 0))
       case _ => s.(buffer := []))
    case (1, 0) =>
      (match TokenOf(c)
       case LeftBrace => s.(braces := (2, 0))
       case _ => s.(buffer := []))
    case (2, 0) =>
      (match TokenOf(c)
       case LeftBrace => s
       case RightBrace => if s.buffer == [] then s.(braces := (0, 0)) else s.(braces := (2, 1))
       case Space => s.(braces := (0, 0))
       case IdenChar(ch) => s.(buffer := s.buffer + [ch])
       case OtherChar(_) => s.(braces := (0, 0)))
    case (2, 1) =>
      (match TokenOf(c)
       case LeftBrace => s.(braces := (0, 0))
       case RightBrace =>
         if s.buffer != [] then Scanner((0, 0), [], s.keys + {s.buffer}) else s.(braces := (0, 0))
       case Space => s.(braces := (0, 0))
       case IdenChar(ch) => s.(buffer := s.buffer + [ch])
       case OtherChar(_) => s.(braces := (0, 0)))
    case _ => assert false; s
  }

  /** The automaton run over a whole string from a given state; it never leaves the handled pairs. */
  function Run(s: Scanner, t: string): (r: Scanner)
    requires ValidBraces(s.braces)
    ensures ValidBraces(r.braces)
    decreases |t|
  {
    if t == [] then s else Run(Step(s, t[0]), t[1..])
  }

  /** The key set `find_keys` returns for a template. */
  function Keys(template: string): set<string> {
    Run(Start, template).keys
  }

  /** `find_keys`, loop for loop: the `for` over the characters and the `match` on the brace pair. */
  method FindKeys(template: string) returns (keys: set<string>)
    ensures keys == Keys(template)
  {
    keys := {};
    var braces: (u8, u8) := (0, 0);
    var state: seq<char> := [];
    var i := 0;
    while i < |template|
      invariant 0 <= i <= |template|
      invariant ValidBraces(braces)
      invariant Run(Scanner(braces, state, keys), template[i..]) == Run(Start, template)
    {
      ghost var before := Scanner(braces, state, keys);
      var token := TokenOf(template[i]);
      match braces {
        case (0, 0) =>
          match token {
            case LeftBrace => braces := (1, 0);
            case _ => state := [];
          }
        case (1, 0) =>
          match token {
            case LeftBrace => braces := (2, 0);
            case _ => state := [];
          }
        case (2, 0) =>
          match token {
            case LeftBrace =>
            case RightBrace =>
              if state == [] {
                braces := (0, 0);
              } else {
                braces := (2, 1);
              }
            case Space => braces := (0, 0);
            case IdenChar(c) => state := state + [c];
            case OtherChar(_) => braces := (0, 0);
          }
        case (2, 1) =>
          match token {
            case LeftBrace => braces := (0, 0);
            case RightBrace =>
              braces := (0, 0);
              if state != [] {
                keys := keys + {state};
                state := [];
              }
            case Space => braces := (0, 0);
            case IdenChar(c) => state := state + [c];
            case OtherChar(_) => braces := (0, 0);
          }
        case _ => assert false;
      }
      assert Scanner(braces, state, keys) == Step(before, template[i]);
      assert template[i..][1..] == template[i + 1..];
      i := i + 1;
    }
  }

  /**
   * What the scanner has in hand is always made of identifier characters, it
   * is never empty in (2, 1), and every key is a non-empty identifier. The
   * middle clause makes the `!state.is_empty()` test of the (2, 1) arm always
   * true.
   */
  ghost predicate WellFormed(s: Scanner) {
    && (forall i :: 0 <= i < |s.buffer| ==> IsIdentChar(s.buffer[i]))
    && (s.braces == (2, 1) ==> s.buffer != [])
    && (forall k :: k in s.keys ==> IsIdentifier(k))
  }

  /** A non-empty string of identifier characters. */
  predicate IsIdentifier(k: string) {
    k != [] && forall i :: 0 <= i < |k| ==> IsIdentChar(k[i])
  }

  lemma StepWellFormed(s: Scanner, c: char)
    requires ValidBraces(s.braces) && WellFormed(s)
    ensures WellFormed(Step(s, c))
  {
  }

  lemma {:induction false} RunWellFormed(s: Scanner, t: string)
    requires ValidBraces(s.braces) && WellFormed(s)
    ensures WellFormed(Run(s, t))
    decreases |t|
  {
    if t != [] {
      StepWellFormed(s, t[0]);
      RunWellFormed(Step(s, t[0]), t[1..]);
    }
  }

  /** Every key `find_keys` returns is a non-empty identifier. */
  lemma KeysAreIdentifiers(template: string)
    ensures forall k :: k in Keys(template) ==> IsIdentifier(k)
  {
    RunWellFormed(Start, template);
  }

  /** Running over `a + b` is running over `a` and then over `b`. */
  lemma {:induction false} RunAppend(s: Scanner, a: string, b: string)
    requires ValidBraces(s.braces)
    ensures Run(s, a + b) == Run(Run(s, a), b)
    decreases |a|
  {
    if a == [] {
      assert a + b == b;
    } else {
      assert (a + b)[0] == a[0];
      assert (a + b)[1..] == a[1..] + b;
      RunAppend(Step(s, a[0]), a[1..], b);
    }
  }

  /** Without a `{` the automaton stays in (0, 0) and finds nothing. */
  lemma {:induction false} NoBraceStaysIdle(s: Scanner, t: string)
    requires s.braces == (0, 0)
    requires forall i :: 0 <= i < |t| ==> t[i] != '{'
    ensures Run(s, t).braces == (0, 0) && Run(s, t).keys == s.keys
    decreases |t|
  {
    if t != [] {
      NoBraceStaysIdle(Step(s, t[0]), t[1..]);
    }
  }

  /** A template containing no `{` has no keys. */
  lemma NoBraceNoKeys(template: string)
    requires forall i :: 0 <= i < |template| ==> template[i] != '{'
    ensures Keys(template) == {}
  {
    NoBraceStaysIdle(Start, template);
  }

  /** After `{{`, identifier characters only extend the buffer. */
  lemma {:induction false} IdentifierExtendsBuffer(s: Scanner, w: string)
    requires s.braces == (2, 0)
    requires forall i :: 0 <= i < |w| ==> IsIdentChar(w[i])
    ensures Run(s, w) == s.(buffer := s.buffer + w)
    decreases |w|
  {
    if w == [] {
      assert s.buffer + w == s.buffer;
    } else {
      assert s.buffer + [w[0]] + w[1..] == s.buffer + w;
      IdentifierExtendsBuffer(Step(s, w[0]), w[1..]);
    }
  }

  /** A state with nothing pending: brace pair (0, 0) and an empty buffer. */
  predicate Idle(s: Scanner) {
    s.braces == (0, 0) && s.buffer == []
  }

  /** From an idle state, `{{K}}` adds exactly K and leaves the scanner idle again. */
  lemma Placeholder(s: Scanner, k: string)
    requires Idle(s) && IsIdentifier(k)
    ensures Run(s, "{{" + k + "}}") == Scanner((0, 0), [], s.keys + {k})
  {
    var open := Run(s, "{{");
    assert open == Scanner((2, 0), [], s.keys);
    IdentifierExtendsBuffer(open, k);
    assert [] + k == k;
    var filled := Run(open, k);
    assert Run(filled, "}}") == Scanner((0, 0), [], s.keys + {k});
    RunAppend(s, "{{", k);
    RunAppend(s, "{{" + k, "}}");
  }

  /** For a non-empty identifier K, the template `{{K}}` yields exactly {K}. */
  lemma SinglePlaceholderKeys(k: string)
    requires IsIdentifier(k)
    ensures Keys("{{" + k + "}}") == {k}
  {
    Placeholder(Start, k);
  }

  /** `{{}}`, `{{ }}`, `{{  }}` and `{{{}}}` add no key and leave an idle scanner idle. */
  lemma EmptyPlaceholdersIgnored(s: Scanner)
    requires Idle(s)
    ensures Run(s, "{{}}") == s
    ensures Run(s, "{{ }}") == s
    ensures Run(s, "{{  }}") == s
    ensures Run(s, "{{{}}}") == s
  {
  }

  /** From an idle state, a malformed pair or a separator can be skipped over. */
  lemma SkipIgnoredPiece(s: Scanner, p: string, rest: string)
    requires Idle(s)
    requires p in ["{{}}", "{{ }}", "{{  }}", "{{{}}}", " ", "-"]
    ensures Run(s, p + rest) == Run(s, rest)
  {
    EmptyPlaceholdersIgnored(s);
    RunAppend(s, p, rest);
  }

  /** From an idle state, `{{K}}` can be skipped over once K is added. */
  lemma SkipPlaceholder(s: Scanner, k: string, rest: string)
    requires Idle(s) && IsIdentifier(k)
    ensures Run(s, "{{" + k + "}}" + rest) == Run(Scanner((0, 0), [], s.keys + {k}), rest)
  {
    Placeholder(s, k);
    RunAppend(s, "{{" + k + "}}", rest);
  }

  /**
   * The resets to (0, 0) from (2, 0) and (2, 1) keep the buffer, and `{{`
   * does not clear it either, so an abandoned candidate is glued onto the
   * next placeholder: from an idle state `{{A {{B}}` adds the single key A ++ B,
   * even when B is empty and the only closed pair is `{{}}`.
   */
  lemma {:induction false} StaleBufferShape(s: Scanner, a: string, b: string)
    requires Idle(s) && IsIdentifier(a)
    requires forall i :: 0 <= i < |b| ==> IsIdentChar(b[i])
    ensures Run(s, "{{" + a + " {{" + b + "}}") == Scanner((0, 0), [], s.keys + {a + b})
  {
    var r3 := "{{" + (b + "}}");
    var r2 := " " + r3;
    var r1 := a + r2;
    assert "{{" + a + " {{" + b + "}}" == "{{" + r1;
    var s1 := Scanner((2, 0), [], s.keys);
    RunAppend(s, "{{", r1);
    RunAppend(s1, a, r2);
    IdentifierExtendsBuffer(s1, a);
    assert [] + a == a;
    var s2 := Scanner((0, 0), a, s.keys);
    RunAppend(s1.(buffer := a), " ", r3);
    var s3 := Scanner((2, 0), a, s.keys);
    RunAppend(s2, "{{", b + "}}");
    RunAppend(s3, b, "}}");
    IdentifierExtendsBuffer(s3, b);
    assert Run(s3.(buffer := a + b), "}}") == Scanner((0, 0), [], s.keys + {a + b});
  }

  /** `{{A {{B}}` yields the one key AB, and `{{A {{}}` yields A: a key need not appear contiguously in the template. */
  lemma StaleBufferJoinsKeys()
    ensures Keys("{{A {{B}}") == {"AB"}
    ensures Keys("{{A {{}}") == {"A"}
  {
    StaleBufferText();
    StaleBufferShape(Start, "A", "B");
    StaleBufferShape(Start, "A", "");
  }

  /** The two templates of `StaleBufferJoinsKeys`, assembled from their pieces. */
  lemma StaleBufferText()
    ensures "{{" + "A" + " {{" + "B" + "}}" == "{{A {{B}}" && "A" + "B" == "AB"
    ensures "{{" + "A" + " {{" + "" + "}}" == "{{A {{}}" && "A" + "" == "A"
  {
  }

  /** In (1, 0) a character other than `{` clears the buffer but keeps waiting for the second `{`. */
  lemma {:induction false} SingleBraceKeepsWaiting(s: Scanner, c: char, k: string)
    requires Idle(s) && c != '{' && IsIdentifier(k)
    ensures Run(s, "{" + [c] + "{" + k + "}}") == Scanner((0, 0), [], s.keys + {k})
  {
    assert "{" + [c] + "{" + k + "}}" == "{" + ([c] + ("{{" + k + "}}")[1..]);
    RunAppend(s, "{", [c] + ("{{" + k + "}}")[1..]);
    var s1 := Scanner((1, 0), [], s.keys);
    RunAppend(s1, [c], ("{{" + k + "}}")[1..]);
    assert Run(s, "{") == s1;
    assert Run(Run(s, "{"), ("{{" + k + "}}")[1..]) == Run(s, "{{" + k + "}}");
    Placeholder(s, k);
  }
}

/** The `tests` module of src/templ.rs. */
module TemplTests {
  import opened Templ

  /** The template of the unit test in src/templ.rs, cut into the pieces the scanner passes through. */
  lemma TestTemplatePieces(a: string, b: string)
    ensures "{{" + a + "}} {{}}- {{{}}} {{  }} {{" + b + "}}" == "{{" + a + "}}" + (" " + ("{{}}" + ("-" + (" " + ("{{{}}}" + (" " + ("{{  }}" + (" " + ("{{" + b + "}}")))))))))
  {
  }

  /**
   * The template of the unit test in src/templ.rs with any two identifiers in
   * place of FOO and BAR: the malformed pairs between them add nothing.
   */
  lemma TestTemplateShape(s: Scanner, a: string, b: string)
    requires Idle(s) && IsIdentifier(a) && IsIdentifier(b)
    ensures Run(s, "{{" + a + "}} {{}}- {{{}}} {{  }} {{" + b + "}}") == Scanner((0, 0), [], s.keys + {a, b})
  {
    var sa := Scanner((0, 0), [], s.keys + {a});
    var r8 := "{{" + b + "}}";
    var r7 := " " + r8;
    var r6 := "{{  }}" + r7;
    var r5 := " " + r6;
    var r4 := "{{{}}}" + r5;
    var r3 := " " + r4;
    var r2 := "-" + r3;
    var r1 := "{{}}" + r2;
    var r0 := " " + r1;
    TestTemplatePieces(a, b);
    SkipPlaceholder(s, a, r0);
    SkipIgnoredPiece(sa, " ", r1);
    SkipIgnoredPiece(sa, "{{}}", r2);
    SkipIgnoredPiece(sa, "-", r3);
    SkipIgnoredPiece(sa, " ", r4);
    SkipIgnoredPiece(sa, "{{{}}}", r5);
    SkipIgnoredPiece(sa, " ", r6);
    SkipIgnoredPiece(sa, "{{  }}", r7);
    SkipIgnoredPiece(sa, " ", r8);
    Placeholder(sa, b);
    assert s.keys + {a} + {b} == s.keys + {a, b};
  }

  /** The template of the unit test, assembled from its two identifiers and what lies between them. */
  lemma TestTemplateText()
    ensures "{{" + "FOO" + "}} {{}}- {{{}}} {{  }} {{" + "BAR" + "}}" == "{{FOO}} {{}}- {{{}}} {{  }} {{BAR}}"
  {
  }

  /** The scenario of the unit test in src/templ.rs. */
  lemma FindTemplateKeysScenario()
    ensures Keys("{{FOO}} {{}}- {{{}}} {{  }} {{BAR}}") == {"FOO", "BAR"}
  {
    TestTemplateText();
    TestTemplateShape(Start, "FOO", "BAR");
  }
}
