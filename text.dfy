/**
 * The string primitives the pipeline is built from: Python's `str.strip()`,
 * `str.split('\n')`, `re.findall(r'\d+', ...)` over ASCII digits, and the
 * decimal rendering `str(n)` of integers.
 */
module Text {

  /** ASCII decimal digit (what `\d` matches in the model). */
  predicate IsDigit(c: char) {
    '0' <= c <= '9'
  }

  /** The characters Python's `str.isspace()` accepts, i.e. what `strip()` removes. */
  predicate IsSpace(c: char) {
    || c == ' '
    || '\t' <= c <= '\r'
    || '\U{1c}' <= c <= '\U{1f}'
    || c == '\U{85}' || c == '\U{a0}' || c == '\U{1680}'
    || '\U{2000}' <= c <= '\U{200a}'
    || c == '\U{2028}' || c == '\U{2029}' || c == '\U{202f}'
    || c == '\U{205f}' || c == '\U{3000}'
  }

  lemma SpaceIsNotDigit(c: char)
    ensures IsSpace(c) ==> !IsDigit(c)
  {
  }

  /** A non-empty run of digits: the shape of every token `\d+` yields. */
  predicate IsNumeral(s: string) {
    |s| > 0 && forall i :: 0 <= i < |s| ==> IsDigit(s[i])
  }

  predicate NoDigits(s: string) {
    forall i :: 0 <= i < |s| ==> !IsDigit(s[i])
  }

  // ---------------------------------------------------------------------------
  // strip()

  /** `s.lstrip()`: the longest suffix of `s` that does not start with whitespace. */
  function TrimStart(s: string): (r: string)
    ensures |r| <= |s| && r == s[|s| - |r|..]
    ensures r == [] || !IsSpace(r[0])
    ensures forall i :: 0 <= i < |s| - |r| ==> IsSpace(s[i])
  {
    if s != [] && IsSpace(s[0]) then
      var r := TrimStart(s[1..]);
      assert s[1..][|s| - 1 - |r|..] == s[|s| - |r|..];
      assert forall i :: 0 <= i < |s| - |r| ==> IsSpace(s[i]) by {
        forall i | 1 <= i < |s| - |r| ensures IsSpace(s[i]) {
          assert s[i] == s[1..][i - 1];
        }
      }
      r
    else s
  }

  /** `s.rstrip()`: the longest prefix of `s` that does not end with whitespace. */
  function TrimEnd(s: string): (r: string)
    ensures |r| <= |s| && r == s[..|r|]
    ensures r == [] || !IsSpace(r[|r| - 1])
    ensures forall i :: |r| <= i < |s| ==> IsSpace(s[i])
  {
    if s != [] && IsSpace(s[|s| - 1]) then
      var r := TrimEnd(s[..|s| - 1]);
      assert s[..|s| - 1][..|r|] == s[..|r|];
      r
    else s
  }

  /** `s.strip()`: removes leading and trailing whitespace, keeps the middle. */
  function Strip(s: string): (r: string)
    ensures exists a, b :: 0 <= a <= b <= |s| && r == s[a..b]
                           && (forall i :: 0 <= i < a ==> IsSpace(s[i]))
                           && (forall i :: b <= i < |s| ==> IsSpace(s[i]))
    ensures r == [] || (!IsSpace(r[0]) && !IsSpace(r[|r| - 1]))
  {
    var t := TrimStart(s);
    var r := TrimEnd(t);
    assert r == s[|s| - |t|..|s| - |t| + |r|];
    r
  }

  // ---------------------------------------------------------------------------
  // split('\n') and its inverse '\n'.join

  /** Number of occurrences of `c` in `s`. */
  function Count(c: char, s: string): nat {
    if s == [] then 0 else (if s[0] == c then 1 else 0) + Count(c, s[1..])
  }

  /**
   * `s.split('\n')`: the pieces between newline characters. Only '\n'
   * separates; '\r' and the other line breaks stay inside the pieces.
   */
  function SplitLines(s: string): (r: seq<string>)
    ensures |r| == Count('\n', s) + 1
    ensures forall i :: 0 <= i < |r| ==> '\n' !in r[i]
  {
    if s == [] then [""]
    else
      var rest := SplitLines(s[1..]);
      if s[0] == '\n' then [""] + rest
      else [[s[0]] + rest[0]] + rest[1..]
  }

  /** `'\n'.join(parts)`. */
  function JoinLines(parts: seq<string>): string
    requires |parts| >= 1
  {
    if |parts| == 1 then parts[0] else parts[0] + "\n" + JoinLines(parts[1..])
  }

  /** Joining the pieces back gives the page text: nothing is lost or reordered. */
  lemma {:induction false} JoinSplitLines(s: string)
    ensures JoinLines(SplitLines(s)) == s
  {
    if s != [] {
      JoinSplitLines(s[1..]);
      var rest := SplitLines(s[1..]);
      if s[0] == '\n' {
        assert SplitLines(s)[1..] == rest;
      } else {
        var r := SplitLines(s);
        if |rest| == 1 {
          assert r == [[s[0]] + rest[0]];
        } else {
          assert r[1..] == rest[1..];
          assert JoinLines(rest) == rest[0] + "\n" + JoinLines(rest[1..]);
        }
      }
    }
  }

  /** A piece without newlines is split into itself. */
  lemma {:induction false} SplitLinesNoNewline(a: string)
    requires '\n' !in a
    ensures SplitLines(a) == [a]
  {
    if a != [] {
      assert '\n' !in a[1..] by {
        forall i | 0 <= i < |a[1..]| ensures a[1..][i] != '\n' {
          assert a[1..][i] == a[i + 1];
        }
      }
      SplitLinesNoNewline(a[1..]);
      assert a[0] != '\n' && [a[0]] + a[1..] == a;
    }
  }

  /** The first newline ends the first piece. */
  lemma {:induction false} SplitLinesAtNewline(a: string, b: string)
    requires '\n' !in a
    ensures SplitLines(a + "\n" + b) == [a] + SplitLines(b)
  {
    if a == [] {
      assert a + "\n" + b == "\n" + b;
      assert ("\n" + b)[1..] == b;
    } else {
      assert '\n' !in a[1..] by {
        forall i | 0 <= i < |a[1..]| ensures a[1..][i] != '\n' {
          assert a[1..][i] == a[i + 1];
        }
      }
      SplitLinesAtNewline(a[1..], b);
      assert (a + "\n" + b)[1..] == a[1..] + "\n" + b;
      assert [a[0]] + a[1..] == a;
    }
  }

  /** Splitting a join of newline-free pieces gives the pieces back. */
  lemma {:induction false} SplitJoinLines(parts: seq<string>)
    requires |parts| >= 1
    requires forall i :: 0 <= i < |parts| ==> '\n' !in parts[i]
    ensures SplitLines(JoinLines(parts)) == parts
  {
    if |parts| == 1 {
      SplitLinesNoNewline(parts[0]);
    } else {
      SplitJoinLines(parts[1..]);
      SplitLinesAtNewline(parts[0], JoinLines(parts[1..]));
    }
  }

  // ---------------------------------------------------------------------------
  // re.findall(r'\d+', s)

  /** Length of the run of digits that `s` starts with. */
  function DigitPrefixLength(s: string): (n: nat)
    ensures n <= |s|
    ensures forall i :: 0 <= i < n ==> IsDigit(s[i])
    ensures n == |s| || !IsDigit(s[n])
  {
    if s != [] && IsDigit(s[0]) then 1 + DigitPrefixLength(s[1..]) else 0
  }

  /** The run length is determined by where the first non-digit stands. */
  lemma DigitPrefixLengthUnique(s: string, n: nat)
    requires n <= |s|
    requires forall i :: 0 <= i < n ==> IsDigit(s[i])
    requires n == |s| || !IsDigit(s[n])
    ensures DigitPrefixLength(s) == n
  {
  }

  /** `re.findall(r'\d+', s)`: the maximal runs of digits, left to right. */
  function DigitRuns(s: string): (r: seq<string>)
    ensures forall k :: 0 <= k < |r| ==> IsNumeral(r[k])
    decreases |s|
  {
    if s == [] then []
    else if !IsDigit(s[0]) then DigitRuns(s[1..])
    else
      var n := DigitPrefixLength(s);
      [s[..n]] + DigitRuns(s[n..])
  }

  /** A string without digits yields no tokens, and a token-free string has no digits. */
  lemma {:induction false} DigitRunsEmpty(s: string)
    ensures DigitRuns(s) == [] <==> NoDigits(s)
    decreases |s|
  {
    if s != [] && !IsDigit(s[0]) {
      DigitRunsEmpty(s[1..]);
      if NoDigits(s[1..]) {
        forall i | 0 <= i < |s| ensures !IsDigit(s[i]) {
          if i > 0 { assert s[i] == s[1..][i - 1]; }
        }
      } else {
        var i :| 0 <= i < |s[1..]| && IsDigit(s[1..][i]);
        assert IsDigit(s[i + 1]);
      }
    }
  }

  /** A whole run of digits is one token. */
  lemma DigitRunsNumeral(w: string)
    requires IsNumeral(w)
    ensures DigitRuns(w) == [w]
  {
    DigitPrefixLengthUnique(w, |w|);
    assert w[|w|..] == [];
    assert w[..|w|] == w;
  }

  /**
   * Tokens never span a non-digit: when the join point is not inside a run
   * of digits, the tokens of `a + b` are those of `a` followed by those of `b`.
   */
  lemma {:induction false} DigitRunsAppend(a: string, b: string)
    requires a == [] || b == [] || !IsDigit(a[|a| - 1]) || !IsDigit(b[0])
    ensures DigitRuns(a + b) == DigitRuns(a) + DigitRuns(b)
    decreases |a|
  {
    if a == [] {
      assert a + b == b;
    } else if b == [] {
      assert a + b == a;
    } else if !IsDigit(a[0]) {
      assert (a + b)[1..] == a[1..] + b;
      DigitRunsAppend(a[1..], b);
    } else {
      var n := DigitPrefixLength(a);
      if n < |a| {
        DigitPrefixLengthUnique(a + b, n);
        assert (a + b)[..n] == a[..n];
        assert (a + b)[n..] == a[n..] + b;
        DigitRunsAppend(a[n..], b);
      } else {
        DigitPrefixLengthUnique(a + b, |a|);
        assert (a + b)[..|a|] == a;
        assert (a + b)[|a|..] == b;
        assert a[..n] == a && a[n..] == [];
        assert DigitRuns(a) == [a];
      }
    }
  }

  /** Leading whitespace holds no digits, so `lstrip()` keeps the tokens. */
  lemma TrimStartKeepsDigitRuns(s: string)
    ensures DigitRuns(TrimStart(s)) == DigitRuns(s)
  {
    var t := TrimStart(s);
    var head := s[..|s| - |t|];
    assert s == head + t;
    forall i | 0 <= i < |head| ensures !IsDigit(head[i]) { SpaceIsNotDigit(s[i]); }
    DigitRunsEmpty(head);
    DigitRunsAppend(head, t);
  }

  /** Trailing whitespace holds no digits, so `rstrip()` keeps the tokens. */
  lemma TrimEndKeepsDigitRuns(s: string)
    ensures DigitRuns(TrimEnd(s)) == DigitRuns(s)
  {
    var t := TrimEnd(s);
    var tail := s[|t|..];
    assert s == t + tail;
    forall i | 0 <= i < |tail| ensures !IsDigit(tail[i]) { SpaceIsNotDigit(s[|t| + i]); }
    DigitRunsEmpty(tail);
    DigitRunsAppend(t, tail);
  }

  /** Surrounding whitespace holds no digits, so stripping never changes the tokens. */
  lemma StripKeepsDigitRuns(s: string)
    ensures DigitRuns(Strip(s)) == DigitRuns(s)
  {
    TrimStartKeepsDigitRuns(s);
    TrimEndKeepsDigitRuns(TrimStart(s));
  }

  /** The digits of `s`, in order, with everything else dropped. */
  function Digits(s: string): string {
    if s == [] then [] else (if IsDigit(s[0]) then [s[0]] else []) + Digits(s[1..])
  }

  function Concat(parts: seq<string>): string {
    if parts == [] then [] else parts[0] + Concat(parts[1..])
  }

  lemma {:induction false} DigitsAppend(a: string, b: string)
    ensures Digits(a + b) == Digits(a) + Digits(b)
  {
    if a == [] {
      assert a + b == b;
    } else {
      var h: string := if IsDigit(a[0]) then [a[0]] else [];
      assert (a + b)[0] == a[0] && (a + b)[1..] == a[1..] + b;
      DigitsAppend(a[1..], b);
      calc {
        Digits(a + b);
        h + Digits(a[1..] + b);
        h + (Digits(a[1..]) + Digits(b));
        (h + Digits(a[1..])) + Digits(b);
      }
    }
  }

  lemma {:induction false} DigitsOfNumeral(w: string)
    requires forall i :: 0 <= i < |w| ==> IsDigit(w[i])
    ensures Digits(w) == w
  {
    if w != [] {
      DigitsOfNumeral(w[1..]);
    }
  }

  /** The tokens, concatenated, are exactly the digits of `s` in order. */
  lemma {:induction false} DigitRunsCoverDigits(s: string)
    ensures Concat(DigitRuns(s)) == Digits(s)
    decreases |s|
  {
    if s != [] {
      if !IsDigit(s[0]) {
        DigitRunsCoverDigits(s[1..]);
      } else {
        var n := DigitPrefixLength(s);
        DigitRunsCoverDigits(s[n..]);
        assert s == s[..n] + s[n..];
        DigitsAppend(s[..n], s[n..]);
        DigitsOfNumeral(s[..n]);
        assert ([s[..n]] + DigitRuns(s[n..]))[1..] == DigitRuns(s[n..]);
      }
    }
  }

  // ---------------------------------------------------------------------------
  // str(n) for integers

  function DigitChar(d: nat): (c: char)
    requires d < 10
    ensures IsDigit(c)
  {
    '0' + d as char
  }

  function DigitValue(c: char): nat
    requires IsDigit(c)
  {
    (c - '0') as nat
  }

  /** `str(n)` for a non-negative integer: its decimal numeral, no leading zeros. */
  function NatToString(n: nat): (s: string)
    ensures IsNumeral(s)
    ensures s[0] == '0' ==> n == 0
  {
    if n < 10 then [DigitChar(n)] else NatToString(n / 10) + [DigitChar(n % 10)]
  }

  /** `str(i)` for any integer. */
  function IntToString(i: int): (s: string)
    ensures |s| > 0
  {
    if i < 0 then "-" + NatToString(-i) else NatToString(i)
  }

  /** The value a numeral denotes, read most significant digit first. */
  function NumeralValue(s: string): nat
    requires forall i :: 0 <= i < |s| ==> IsDigit(s[i])
  {
    if s == [] then 0 else 10 * NumeralValue(s[..|s| - 1]) + DigitValue(s[|s| - 1])
  }

  /** Rendering is faithful: reading the numeral back gives the number. */
  lemma {:induction false} NatToStringValue(n: nat)
    ensures NumeralValue(NatToString(n)) == n
  {
    if n >= 10 {
      NatToStringValue(n / 10);
      var s := NatToString(n);
      assert s[..|s| - 1] == NatToString(n / 10);
    }
  }
}
