/**
  String literals of kintone's record query language. The plugin writes a value into a
  query as `"` + Escape(value) + `"`, where Escape doubles every backslash and then puts a
  backslash before every double quote. The contact-list filter reads a literal back with
  Unescape, which uses U+0000 as a placeholder for an escaped backslash. ReadLiteral is
  the reading the record store itself is taken to apply: a backslash makes the next
  character literal and an unescaped double quote ends the literal.
 */
module QueryLiteral {
  import opened Wrappers
  import Text

  const NUL: char := '\0'

  /** `s.replace(/c/g, repl)` for a one-character pattern `c`. */
  function ReplaceChar(s: string, c: char, repl: string): string
  {
    if |s| == 0 then "" else (if s[0] == c then repl else [s[0]]) + ReplaceChar(s[1..], c, repl)
  }

  /** `s.replace(/ab/g, repl)` for a two-character pattern: non-overlapping matches, left to right. */
  function ReplacePair(s: string, a: char, b: char, repl: string): string
  {
    if |s| >= 2 && s[0] == a && s[1] == b then repl + ReplacePair(s[2..], a, b, repl)
    else if |s| == 0 then ""
    else [s[0]] + ReplacePair(s[1..], a, b, repl)
  }

  /**
    `escapeQueryValue` of js/desktop.js, and the escaping of the join value in js/sync.js:
    backslashes are doubled first, then double quotes get a backslash.
   */
  function Escape(s: string): string
  {
    ReplaceChar(ReplaceChar(s, '\\', "\\\\"), '"', "\\\"")
  }

  /** `unescapeQueryValue` of js/desktop.js. */
  function Unescape(s: string): string
  {
    ReplaceChar(ReplacePair(ReplacePair(s, '\\', '\\', [NUL]), '\\', '"', "\""), NUL, "\\")
  }

  /** The escaping of one character, as a single pass would do it. */
  function EscapeChar(c: char): string
  {
    if c == '\\' then "\\\\" else if c == '"' then "\\\"" else [c]
  }

  /** Reference definition: escape each character independently. */
  function EscapeEach(s: string): string
  {
    if |s| == 0 then "" else EscapeChar(s[0]) + EscapeEach(s[1..])
  }

  /**
    The store's reading of a literal body: returns the value and what follows the closing
    quote, or None when the text ends before an unescaped quote.
   */
  function ReadLiteral(s: string): Option<(string, string)>
  {
    if |s| == 0 then None
    else if s[0] == '"' then Some(("", s[1..]))
    else if s[0] == '\\' then
      if |s| < 2 then None
      else match ReadLiteral(s[2..])
        case None => None
        case Some(vr) => Some(([s[1]] + vr.0, vr.1))
    else match ReadLiteral(s[1..])
      case None => None
      case Some(vr) => Some(([s[0]] + vr.0, vr.1))
  }

  lemma {:induction false} ReplaceCharAppend(a: string, b: string, c: char, repl: string)
    ensures ReplaceChar(a + b, c, repl) == ReplaceChar(a, c, repl) + ReplaceChar(b, c, repl)
  {
    if |a| == 0 {
      assert a + b == b;
    } else {
      assert (a + b)[0] == a[0];
      assert (a + b)[1..] == a[1..] + b;
      ReplaceCharAppend(a[1..], b, c, repl);
    }
  }

  /** The two-pass escaping equals escaping every character on its own. */
  lemma {:induction false} EscapeIsCharwise(s: string)
    ensures Escape(s) == EscapeEach(s)
  {
    if |s| > 0 {
      var head, tail := [s[0]], s[1..];
      assert s == head + tail;
      ReplaceCharAppend(head, tail, '\\', "\\\\");
      ReplaceCharAppend(ReplaceChar(head, '\\', "\\\\"), ReplaceChar(tail, '\\', "\\\\"), '"', "\\\"");
      EscapeIsCharwise(tail);
      assert ReplaceChar(ReplaceChar(head, '\\', "\\\\"), '"', "\\\"") == EscapeChar(s[0]);
    }
  }

  lemma {:induction false} EscapeEachLength(s: string)
    ensures |EscapeEach(s)| == |s| + Text.Count(s, '\\') + Text.Count(s, '"')
  {
    if |s| > 0 {
      EscapeEachLength(s[1..]);
    }
  }

  /**
    Escaping adds exactly one character per backslash and per double quote, and keeps
    every other character as it is.
   */
  lemma EscapeLength(s: string)
    ensures |Escape(s)| == |s| + Text.Count(s, '\\') + Text.Count(s, '"')
    ensures Text.Count(s, '\\') == 0 && Text.Count(s, '"') == 0 ==> Escape(s) == s
  {
    EscapeIsCharwise(s);
    EscapeEachLength(s);
    if Text.Count(s, '\\') == 0 && Text.Count(s, '"') == 0 {
      assert |EscapeEach(s)| == |s|;
      EscapePlain(s);
    }
  }

  lemma {:induction false} EscapePlain(s: string)
    requires Text.Count(s, '\\') == 0 && Text.Count(s, '"') == 0
    ensures EscapeEach(s) == s
  {
    if |s| > 0 {
      EscapePlain(s[1..]);
      assert s == [s[0]] + s[1..];
    }
  }

  // The round trip below tracks the text after each pass of Unescape.

  /** Text after the first pass: an escaped backslash has become the placeholder. */
  function AfterFirstPass(s: string): string
  {
    if |s| == 0 then ""
    else (if s[0] == '\\' then [NUL] else if s[0] == '"' then "\\\"" else [s[0]]) + AfterFirstPass(s[1..])
  }

  /** Text after the second pass: an escaped quote has become a quote. */
  function AfterSecondPass(s: string): string
  {
    if |s| == 0 then ""
    else (if s[0] == '\\' then [NUL] else [s[0]]) + AfterSecondPass(s[1..])
  }

  lemma {:induction false} FirstPass(s: string)
    ensures ReplacePair(EscapeEach(s), '\\', '\\', [NUL]) == AfterFirstPass(s)
  {
    if |s| > 0 {
      var rest := EscapeEach(s[1..]);
      var e := EscapeEach(s);
      assert e == EscapeChar(s[0]) + rest;
      FirstPass(s[1..]);
      if s[0] == '\\' {
        assert e[2..] == rest;
      } else if s[0] == '"' {
        assert e[1..] == ['"'] + rest;
        assert (['"'] + rest)[1..] == rest;
      } else {
        assert e[1..] == rest;
      }
    }
  }

  lemma {:induction false} SecondPass(s: string)
    ensures ReplacePair(AfterFirstPass(s), '\\', '"', "\"") == AfterSecondPass(s)
  {
    if |s| > 0 {
      var rest := AfterFirstPass(s[1..]);
      var e := AfterFirstPass(s);
      SecondPass(s[1..]);
      if s[0] == '"' {
        assert e == "\\\"" + rest;
        assert e[2..] == rest;
      } else {
        assert e[1..] == rest;
      }
    }
  }

  lemma {:induction false} ThirdPass(s: string)
    requires forall i :: 0 <= i < |s| ==> s[i] != NUL
    ensures ReplaceChar(AfterSecondPass(s), NUL, "\\") == s
  {
    if |s| > 0 {
      var rest := AfterSecondPass(s[1..]);
      var e := AfterSecondPass(s);
      ThirdPass(s[1..]);
      assert e[1..] == rest;
      assert s == [s[0]] + s[1..];
    }
  }

  /** `unescapeQueryValue(escapeQueryValue(s)) == s` for every value without U+0000. */
  lemma UnescapeEscape(s: string)
    requires forall i :: 0 <= i < |s| ==> s[i] != NUL
    ensures Unescape(Escape(s)) == s
  {
    EscapeIsCharwise(s);
    FirstPass(s);
    SecondPass(s);
    ThirdPass(s);
  }

  /** Without that requirement the round trip fails: the placeholder itself comes back as a backslash. */
  lemma UnescapeEscapeNul()
    ensures Unescape(Escape([NUL])) == "\\"
  {
    EscapeIsCharwise([NUL]);
    assert EscapeEach([NUL]) == [NUL] + EscapeEach([]);
    assert Escape([NUL]) == [NUL];
    assert ReplacePair([NUL], '\\', '\\', [NUL]) == [NUL];
    assert ReplacePair([NUL], '\\', '"', "\"") == [NUL];
    assert ReplaceChar([NUL], NUL, "\\") == "\\" + ReplaceChar([], NUL, "\\");
  }

  lemma {:induction false} ReplacePairShape(s: string, a: char, b: char, repl: string)
    requires |repl| <= 2
    ensures |ReplacePair(s, a, b, repl)| <= |s|
    ensures Text.Count(s, a) == 0 ==> ReplacePair(s, a, b, repl) == s
  {
    if |s| >= 2 && s[0] == a && s[1] == b {
      ReplacePairShape(s[2..], a, b, repl);
    } else if |s| > 0 {
      ReplacePairShape(s[1..], a, b, repl);
      assert s == [s[0]] + s[1..];
    }
  }

  lemma {:induction false} ReplaceCharShape(s: string, c: char, repl: string)
    requires |repl| == 1
    ensures |ReplaceChar(s, c, repl)| == |s|
    ensures Text.Count(s, c) == 0 ==> ReplaceChar(s, c, repl) == s
  {
    if |s| > 0 {
      ReplaceCharShape(s[1..], c, repl);
      assert s == [s[0]] + s[1..];
    }
  }

  /** Unescaping never lengthens a text, and keeps one without backslashes or U+0000 as it is. */
  lemma UnescapeShape(s: string)
    ensures |Unescape(s)| <= |s|
    ensures Text.Count(s, '\\') == 0 && Text.Count(s, NUL) == 0 ==> Unescape(s) == s
  {
    var p1 := ReplacePair(s, '\\', '\\', [NUL]);
    ReplacePairShape(s, '\\', '\\', [NUL]);
    var p2 := ReplacePair(p1, '\\', '"', "\"");
    ReplacePairShape(p1, '\\', '"', "\"");
    ReplaceCharShape(p2, NUL, "\\");
  }

  lemma {:induction false} ReadEscaped(v: string, rest: string)
    ensures ReadLiteral(EscapeEach(v) + "\"" + rest) == Some((v, rest))
  {
    var e := EscapeEach(v) + "\"" + rest;
    if |v| == 0 {
      assert e == "\"" + rest;
      assert e[1..] == rest;
    } else {
      var tail := EscapeEach(v[1..]) + "\"" + rest;
      ReadEscaped(v[1..], rest);
      assert e == EscapeChar(v[0]) + tail;
      if v[0] == '\\' || v[0] == '"' {
        assert e[2..] == tail;
      } else {
        assert e[1..] == tail;
      }
      assert v == [v[0]] + v[1..];
    }
  }

  /**
    An escaped value embedded between double quotes is read back by the store as exactly
    that value, ending at the quote the plugin wrote, for every value (U+0000 included).
   */
  lemma ReadLiteralEscape(v: string, rest: string)
    ensures ReadLiteral(Escape(v) + "\"" + rest) == Some((v, rest))
  {
    EscapeIsCharwise(v);
    ReadEscaped(v, rest);
  }
}
