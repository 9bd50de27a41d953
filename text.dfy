/**
 * The string operations the stream handlers rely on, as JavaScript defines
 * them: `String.prototype.trim`, `String.prototype.split("\n")`, and the
 * decimal text that a template literal gives a number.
 */
module Text {

  // ---------------------------------------------------------------------------
  // trim
  // ---------------------------------------------------------------------------

  /** The code points `trim` removes: ECMA-262's WhiteSpace and LineTerminator. */
  predicate IsWhitespace(c: char) {
    || c == '\t' || c == '\n' || c == '\U{000B}' || c == '\U{000C}' || c == '\r'
    || c == ' ' || c == '\U{00A0}' || c == '\U{1680}'
    || ('\U{2000}' <= c <= '\U{200A}')
    || c == '\U{2028}' || c == '\U{2029}' || c == '\U{202F}' || c == '\U{205F}'
    || c == '\U{3000}' || c == '\U{FEFF}'
  }

  /** Every character of `s` is whitespace (the empty string included). */
  ghost predicate IsBlank(s: string) {
    forall i :: 0 <= i < |s| ==> IsWhitespace(s[i])
  }

  function TrimStart(s: string): (r: string)
    ensures |r| <= |s| && r == s[|s| - |r|..]
    ensures r != "" ==> !IsWhitespace(r[0])
    ensures IsBlank(s[..|s| - |r|])
  {
    if |s| > 0 && IsWhitespace(s[0]) then
      var t := s[1..];
      var r := TrimStart(t);
      assert r == s[|s| - |r|..] by { assert t[|t| - |r|..] == s[|s| - |r|..]; }
      var dropped := s[..|s| - |r|];
      assert IsBlank(dropped) by {
        forall i | 0 <= i < |dropped| ensures IsWhitespace(dropped[i]) {
          if i > 0 { assert dropped[i] == t[..|t| - |r|][i - 1]; }
        }
      }
      r
    else s
  }

  function TrimEnd(s: string): (r: string)
    ensures |r| <= |s| && r == s[..|r|]
    ensures r != "" ==> !IsWhitespace(r[|r| - 1])
    ensures IsBlank(s[|r|..])
  {
    if |s| > 0 && IsWhitespace(s[|s| - 1]) then
      var t := s[..|s| - 1];
      var r := TrimEnd(t);
      assert r == s[..|r|] by { assert t[..|r|] == s[..|r|]; }
      var dropped := s[|r|..];
      assert IsBlank(dropped) by {
        forall i | 0 <= i < |dropped| ensures IsWhitespace(dropped[i]) {
          if i < |dropped| - 1 { assert dropped[i] == t[|r|..][i]; }
        }
      }
      r
    else s
  }

  /**
   * `s.trim()`: what remains once leading and trailing whitespace are gone;
   * nothing remains exactly when `s` is all whitespace.
   */
  function Trim(s: string): (r: string)
    ensures r != "" ==> !IsWhitespace(r[0]) && !IsWhitespace(r[|r| - 1])
    ensures r == "" <==> IsBlank(s)
  {
    TrimEndEmptyIffBlank(TrimStart(s));
    TrimStartKeepsBlankness(s);
    TrimEnd(TrimStart(s))
  }

  /** A line the stdout handler keeps: `line.trim()` is truthy. */
  predicate IsContentLine(line: string) {
    Trim(line) != ""
  }

  lemma {:induction false} TrimEndEmptyIffBlank(s: string)
    ensures TrimEnd(s) == "" <==> IsBlank(s)
    decreases |s|
  {
    if |s| > 0 && IsWhitespace(s[|s| - 1]) {
      TrimEndEmptyIffBlank(s[..|s| - 1]);
      assert IsBlank(s[..|s| - 1]) ==> IsBlank(s) by {
        if IsBlank(s[..|s| - 1]) {
          forall i | 0 <= i < |s| ensures IsWhitespace(s[i]) {
            if i < |s| - 1 { assert s[i] == s[..|s| - 1][i]; }
          }
        }
      }
      assert IsBlank(s) ==> IsBlank(s[..|s| - 1]) by {
        if IsBlank(s) {
          var init := s[..|s| - 1];
          forall i | 0 <= i < |init| ensures IsWhitespace(init[i]) {
            assert init[i] == s[i];
          }
        }
      }
    } else if |s| > 0 {
      assert !IsWhitespace(s[|s| - 1]);
    }
  }

  lemma {:induction false} TrimStartKeepsBlankness(s: string)
    ensures IsBlank(TrimStart(s)) <==> IsBlank(s)
    decreases |s|
  {
    if |s| > 0 && IsWhitespace(s[0]) {
      TrimStartKeepsBlankness(s[1..]);
      assert IsBlank(s[1..]) ==> IsBlank(s) by {
        if IsBlank(s[1..]) {
          forall i | 0 <= i < |s| ensures IsWhitespace(s[i]) {
            if i > 0 { assert s[i] == s[1..][i - 1]; }
          }
        }
      }
      assert IsBlank(s) ==> IsBlank(s[1..]) by {
        if IsBlank(s) {
          var tail := s[1..];
          forall i | 0 <= i < |tail| ensures IsWhitespace(tail[i]) {
            assert tail[i] == s[i + 1];
          }
        }
      }
    }
  }

  // ---------------------------------------------------------------------------
  // split("\n") and join("\n")
  // ---------------------------------------------------------------------------

  /**
   * `s.split("\n")`: the pieces between newlines, in order. As in
   * JavaScript there is always at least one piece, and a leading, trailing
   * or doubled newline gives an empty piece.
   */
  function Split(s: string): (pieces: seq<string>)
    ensures |pieces| >= 1
    decreases |s|
  {
    if |s| == 0 then [""]
    else if s[0] == '\n' then [""] + Split(s[1..])
    else
      var rest := Split(s[1..]);
      [[s[0]] + rest[0]] + rest[1..]
  }

  /** `pieces.join("\n")` */
  function Join(pieces: seq<string>): string
  {
    if |pieces| == 0 then ""
    else if |pieces| == 1 then pieces[0]
    else pieces[0] + "\n" + Join(pieces[1..])
  }

  /** No piece of a split contains the separator. */
  lemma {:induction false} SplitPiecesHaveNoNewline(s: string)
    ensures forall p :: p in Split(s) ==> '\n' !in p
    decreases |s|
  {
    if |s| > 0 {
      SplitPiecesHaveNoNewline(s[1..]);
    }
  }

  /** Joining the pieces of a split gives back the string. */
  lemma {:induction false} JoinSplit(s: string)
    ensures Join(Split(s)) == s
    decreases |s|
  {
    if |s| > 0 {
      JoinSplit(s[1..]);
      var rest := Split(s[1..]);
      if s[0] != '\n' && |rest| > 1 {
        assert rest == [rest[0]] + rest[1..];
      }
    }
  }

  /** Splitting a string with no newline in front of `t` glues it to the first piece of `t`. */
  lemma {:induction false} SplitPrefix(p: string, t: string)
    requires '\n' !in p
    ensures Split(p + t) == [p + Split(t)[0]] + Split(t)[1..]
    decreases |p|
  {
    if |p| > 0 {
      assert (p + t)[0] == p[0] && (p + t)[1..] == p[1..] + t;
      SplitPrefix(p[1..], t);
      var rest := Split(p[1..] + t);
      assert rest[0] == p[1..] + Split(t)[0] && rest[1..] == Split(t)[1..];
      assert p[0] != '\n';
      assert Split(p + t) == [[p[0]] + rest[0]] + rest[1..];
      assert [p[0]] + (p[1..] + Split(t)[0]) == p + Split(t)[0];
    } else {
      assert p + t == t && p + Split(t)[0] == Split(t)[0];
      assert Split(t) == [Split(t)[0]] + Split(t)[1..];
    }
  }

  /** Splitting the join of newline-free pieces gives back the pieces. */
  lemma {:induction false} SplitJoin(pieces: seq<string>)
    requires |pieces| >= 1
    requires forall p :: p in pieces ==> '\n' !in p
    ensures Split(Join(pieces)) == pieces
    decreases |pieces|
  {
    if |pieces| == 1 {
      SplitPrefix(pieces[0], "");
      assert pieces[0] + "" == pieces[0];
      assert Split("") == [""];
      assert pieces == [pieces[0]];
    } else {
      var tail := Join(pieces[1..]);
      SplitJoin(pieces[1..]);
      SplitPrefix(pieces[0], "\n" + tail);
      assert ("\n" + tail)[1..] == tail;
      assert Split("\n" + tail) == [""] + pieces[1..];
      assert pieces[0] + "\n" + tail == pieces[0] + ("\n" + tail);
      assert pieces[0] + "" == pieces[0];
      assert pieces == [pieces[0]] + pieces[1..];
    }
  }

  /** A newline in a chunk separates the pieces of the two sides. */
  lemma {:induction false} SplitAtNewline(a: string, b: string)
    ensures Split(a + "\n" + b) == Split(a) + Split(b)
    decreases |a|
  {
    if |a| == 0 {
      assert a + "\n" + b == "\n" + b;
      assert ("\n" + b)[1..] == b;
    } else {
      assert (a + "\n" + b)[1..] == a[1..] + "\n" + b;
      assert (a + "\n" + b)[0] == a[0];
      SplitAtNewline(a[1..], b);
    }
  }

  // ---------------------------------------------------------------------------
  // The lines the stdout handler visits
  // ---------------------------------------------------------------------------

  /** `.filter((line) => line.trim())` */
  function KeepContentLines(pieces: seq<string>): (kept: seq<string>)
    ensures |kept| <= |pieces|
  {
    if |pieces| == 0 then []
    else (if IsContentLine(pieces[0]) then [pieces[0]] else []) + KeepContentLines(pieces[1..])
  }

  /** `chunk.split("\n").filter((line) => line.trim())` */
  function Lines(chunk: string): seq<string> {
    KeepContentLines(Split(chunk))
  }

  lemma {:induction false} KeepContentLinesConcat(a: seq<string>, b: seq<string>)
    ensures KeepContentLines(a + b) == KeepContentLines(a) + KeepContentLines(b)
    decreases |a|
  {
    if |a| == 0 {
      assert a + b == b;
    } else {
      assert (a + b)[1..] == a[1..] + b;
      assert (a + b)[0] == a[0];
      KeepContentLinesConcat(a[1..], b);
      var head := if IsContentLine(a[0]) then [a[0]] else [];
      var kr, kb := KeepContentLines(a[1..]), KeepContentLines(b);
      assert head + (kr + kb) == head + kr + kb;
    }
  }

  lemma {:induction false} KeepContentLinesMembers(pieces: seq<string>)
    ensures forall l :: l in KeepContentLines(pieces) <==> l in pieces && IsContentLine(l)
    decreases |pieces|
  {
    if |pieces| > 0 {
      KeepContentLinesMembers(pieces[1..]);
      assert pieces == [pieces[0]] + pieces[1..];
    }
  }

  /**
   * The lines visited are exactly the non-blank pieces of the split, and none
   * of them contains a newline.
   */
  lemma LinesAreNonBlankPieces(chunk: string)
    ensures forall l :: l in Lines(chunk) <==> l in Split(chunk) && !IsBlank(l)
    ensures forall l :: l in Lines(chunk) ==> '\n' !in l
  {
    KeepContentLinesMembers(Split(chunk));
    SplitPiecesHaveNoNewline(chunk);
  }

  /** The lines of a chunk are the lines before its first newline and those after it. */
  lemma LinesAtNewline(a: string, b: string)
    ensures Lines(a + "\n" + b) == Lines(a) + Lines(b)
  {
    SplitAtNewline(a, b);
    KeepContentLinesConcat(Split(a), Split(b));
  }

  /** A chunk without a newline is one line, visited only when it is not blank. */
  lemma LinesOfOneLine(p: string)
    requires '\n' !in p
    ensures Lines(p) == if IsBlank(p) then [] else [p]
  {
    SplitPrefix(p, "");
    assert p + "" == p;
  }

  /** An empty or whitespace-only line contributes nothing to the lines of a chunk. */
  lemma BlankLineIsDropped(a: string, w: string, b: string)
    requires '\n' !in w && IsBlank(w)
    ensures Lines(a + "\n" + w + "\n" + b) == Lines(a + "\n" + b)
  {
    var tail := w + "\n" + b;
    assert a + "\n" + w + "\n" + b == a + "\n" + tail;
    LinesAtNewline(a, tail);
    assert Lines(a + "\n" + tail) == Lines(a) + Lines(tail);
    LinesAtNewline(w, b);
    assert Lines(tail) == Lines(w) + Lines(b);
    LinesOfOneLine(w);
    assert Lines(w) == [];
    assert Lines(tail) == Lines(b);
    LinesAtNewline(a, b);
    assert Lines(a + "\n" + b) == Lines(a) + Lines(b);
  }

  // ---------------------------------------------------------------------------
  // Decimal text of a number, as `${code}` renders it
  // ---------------------------------------------------------------------------

  predicate IsDigit(c: char) {
    '0' <= c <= '9'
  }

  function DigitChar(d: nat): (c: char)
    requires d < 10
    ensures IsDigit(c)
  {
    ('0' as int + d) as char
  }

  function DigitValue(c: char): nat
    requires IsDigit(c)
  {
    c as int - '0' as int
  }

  /** Decimal digits of `n`, most significant first, without leading zeros. */
  function NatText(n: nat): (s: string)
    ensures |s| >= 1
    ensures forall i :: 0 <= i < |s| ==> IsDigit(s[i])
    ensures s[0] == '0' <==> n == 0
    decreases n
  {
    if n < 10 then [DigitChar(n)] else NatText(n / 10) + [DigitChar(n % 10)]
  }

  /** `${n}` for an integer `n`: a minus sign exactly when `n` is negative, then its digits. */
  function IntText(n: int): (s: string)
    ensures |s| >= 1
    ensures s[0] == '-' <==> n < 0
    ensures forall i :: 0 <= i < |s| ==> IsDigit(s[i]) || (i == 0 && s[i] == '-')
  {
    if n < 0 then "-" + NatText(-n) else NatText(n)
  }

  function ParseNat(s: string): nat
    requires forall i :: 0 <= i < |s| ==> IsDigit(s[i])
  {
    if |s| == 0 then 0 else 10 * ParseNat(s[..|s| - 1]) + DigitValue(s[|s| - 1])
  }

  /** Reads back a decimal integer with an optional leading minus sign. */
  function ParseInt(s: string): int
    requires forall i :: 0 <= i < |s| ==> IsDigit(s[i]) || (i == 0 && s[i] == '-')
  {
    if |s| > 0 && s[0] == '-' then -(ParseNat(s[1..]) as int) else ParseNat(s)
  }

  lemma {:induction false} NatTextRoundTrip(n: nat)
    ensures ParseNat(NatText(n)) == n
    decreases n
  {
    if n >= 10 {
      NatTextRoundTrip(n / 10);
      var s := NatText(n);
      assert s[..|s| - 1] == NatText(n / 10);
    }
  }

  /** The decimal text of an integer is digits after an optional minus sign, and reads back to it. */
  lemma IntTextRoundTrip(n: int)
    ensures forall i :: 0 <= i < |IntText(n)| ==> IsDigit(IntText(n)[i]) || (i == 0 && IntText(n)[i] == '-')
    ensures ParseInt(IntText(n)) == n
  {
    if n < 0 {
      NatTextRoundTrip(-n);
      assert IntText(n)[1..] == NatText(-n);
    } else {
      NatTextRoundTrip(n);
    }
  }

  // ---------------------------------------------------------------------------
  // Substrings
  // ---------------------------------------------------------------------------

  /** `s.includes(p)` */
  predicate Contains(s: string, p: string)
    decreases |s|
  {
    |p| <= |s| && (s[..|p|] == p || Contains(s[1..], p))
  }

  /** A string contains each of its infixes. */
  lemma {:induction false} ContainsInfix(a: string, p: string, b: string)
    ensures Contains(a + p + b, p)
    decreases |a|
  {
    var s := a + p + b;
    if |a| == 0 {
      assert s[..|p|] == p;
    } else {
      assert s[1..] == a[1..] + p + b;
      ContainsInfix(a[1..], p, b);
    }
  }
}
