/**
 * Text and byte helpers that stand in for the JavaScript built-ins the
 * compiler relies on: template-literal printing of naturals, `Number(s)`,
 * `String.prototype.split(" ")`, `Array.prototype.join(" ")`, `startsWith`,
 * `endsWith` and `TextEncoder.encode` (UTF-8).
 */
module Strings {
  import opened Common

  /** One element of a `Uint8Array`. */
  type byte = b: int | 0 <= b < 256

  predicate IsDigit(c: char) { '0' <= c <= '9' }

  predicate AllDigits(s: string) {
    forall i :: 0 <= i < |s| ==> IsDigit(s[i])
  }

  predicate StartsWith(s: string, prefix: string) {
    |prefix| <= |s| && s[..|prefix|] == prefix
  }

  /** A string that starts with `p` agrees with `p` on its first characters. */
  lemma StartsWithAt(s: string, p: string, i: nat)
    ensures StartsWith(s, p) && i < |p| ==> s[i] == p[i]
  {
    if StartsWith(s, p) && i < |p| {
      assert s[..|p|][i] == s[i];
    }
  }

  predicate EndsWith(s: string, c: char) {
    |s| > 0 && s[|s| - 1] == c
  }

  function DigitChar(d: nat): (c: char)
    requires d < 10
    ensures IsDigit(c)
  {
    ('0' as int + d) as char
  }

  function DigitValue(c: char): (d: nat)
    requires IsDigit(c)
    ensures d < 10
  {
    c as int - '0' as int
  }

  /** The decimal text a template literal gives a natural number. */
  function Dec(n: nat): (s: string)
    ensures |s| > 0 && AllDigits(s)
  {
    if n < 10 then [DigitChar(n)] else Dec(n / 10) + [DigitChar(n % 10)]
  }

  /** The value of a run of decimal digits. */
  function DigitsValue(s: string): nat
    requires AllDigits(s)
  {
    if s == [] then 0 else DigitsValue(s[..|s| - 1]) * 10 + DigitValue(s[|s| - 1])
  }

  /** The text a template literal gives an integer: its digits, after a `-` when negative. */
  function IntText(v: int): string {
    if v < 0 then "-" + Dec(-v) else Dec(v)
  }

  /**
   * `Number(s)` on the operands this model admits: a run of decimal digits,
   * possibly after one `-`, is a number (the empty text is 0, as in
   * JavaScript), any other text is NaN (None).
   */
  function ParseNumber(s: string): Option<int> {
    if AllDigits(s) then Some(DigitsValue(s))
    else if |s| > 1 && s[0] == '-' && AllDigits(s[1..]) then Some(0 - DigitsValue(s[1..]) as int)
    else None
  }

  lemma {:induction false} ParseDec(n: nat)
    ensures ParseNumber(Dec(n)) == Some(n)
  {
    var s := Dec(n);
    if n < 10 {
      assert s == [DigitChar(n)];
      assert s[..|s| - 1] == [];
      assert DigitValue(DigitChar(n)) == n;
      assert DigitsValue(s) == DigitsValue(s[..|s| - 1]) * 10 + DigitValue(s[0]);
    } else {
      assert DigitValue(DigitChar(n % 10)) == n % 10;
      ParseDec(n / 10);
      assert s[..|s| - 1] == Dec(n / 10);
    }
  }

  /** `Number` reads an integer's printed text back, the sign included. */
  lemma ParseIntText(v: int)
    ensures ParseNumber(IntText(v)) == Some(v)
  {
    if v < 0 {
      var s := IntText(v);
      ParseDec(-v);
      assert s[1..] == Dec(-v);
      assert !IsDigit(s[0]);
    } else {
      ParseDec(v);
    }
  }

  /** An integer's text has no space and ends with a digit. */
  lemma IntTextShape(v: int)
    ensures var s := IntText(v); ' ' !in s && |s| > 0 && IsDigit(s[|s| - 1])
  {
    var d := if v < 0 then Dec(-v) else Dec(v);
    var s := IntText(v);
    forall k | 0 <= k < |d| ensures d[k] != ' ' { assert IsDigit(d[k]); }
    assert s[|s| - 1] == d[|d| - 1];
    assert s == d || (s == "-" + d && forall k :: 1 <= k < |s| ==> s[k] == d[k - 1]);
  }

  /** Distinct naturals print as distinct texts. */
  lemma DecInjective(a: nat, b: nat)
    requires Dec(a) == Dec(b)
    ensures a == b
  {
    ParseDec(a);
    ParseDec(b);
  }

  /** `s.split(" ")`: the pieces between spaces, always at least one. */
  function Split(s: string): (r: seq<string>)
    ensures |r| >= 1
    ensures forall i :: 0 <= i < |r| ==> ' ' !in r[i]
  {
    if s == [] then [""]
    else if s[0] == ' ' then [""] + Split(s[1..])
    else
      var t := Split(s[1..]);
      [[s[0]] + t[0]] + t[1..]
  }

  /** `ws.join(" ")`. */
  function Join(ws: seq<string>): string {
    if ws == [] then ""
    else if |ws| == 1 then ws[0]
    else ws[0] + " " + Join(ws[1..])
  }

  /** Number of space characters in `s`. */
  function Spaces(s: string): nat {
    if s == [] then 0 else (if s[0] == ' ' then 1 else 0) + Spaces(s[1..])
  }

  /** Joining the pieces of a split gives the original text back. */
  lemma {:induction false} JoinSplit(s: string)
    ensures Join(Split(s)) == s
  {
    if s == [] {
    } else if s[0] == ' ' {
      JoinSplit(s[1..]);
      assert s == " " + s[1..];
    } else {
      JoinSplit(s[1..]);
      var t := Split(s[1..]);
      if |t| == 1 {
        assert s == [s[0]] + t[0];
      } else {
        assert Join(t) == t[0] + " " + Join(t[1..]);
        assert s == [s[0]] + t[0] + " " + Join(t[1..]);
      }
    }
  }

  /** Splitting a space-free text gives it back whole. */
  lemma {:induction false} SplitNoSpace(s: string)
    requires ' ' !in s
    ensures Split(s) == [s]
  {
    if s != [] {
      assert ' ' !in s[1..];
      SplitNoSpace(s[1..]);
      assert [s[0]] + s[1..] == s;
    }
  }

  /** Splitting `w + " " + rest` (with `w` space-free) peels `w` off. */
  lemma {:induction false} SplitAfterWord(w: string, rest: string)
    requires ' ' !in w
    ensures Split(w + " " + rest) == [w] + Split(rest)
  {
    if w == [] {
      assert w + " " + rest == [' '] + rest;
      assert (w + " " + rest)[1..] == rest;
    } else {
      assert (w + " " + rest)[1..] == w[1..] + " " + rest;
      assert ' ' !in w[1..];
      SplitAfterWord(w[1..], rest);
      assert [w[0]] + w[1..] == w;
    }
  }

  /** Splitting a join of space-free words gives the words back. */
  lemma {:induction false} SplitJoin(ws: seq<string>)
    requires |ws| >= 1
    requires forall i :: 0 <= i < |ws| ==> ' ' !in ws[i]
    ensures Split(Join(ws)) == ws
  {
    if |ws| == 1 {
      SplitNoSpace(ws[0]);
    } else {
      SplitJoin(ws[1..]);
      SplitAfterWord(ws[0], Join(ws[1..]));
    }
  }

  /** A split has exactly one more piece than the text has spaces. */
  lemma {:induction false} SplitCount(s: string)
    ensures |Split(s)| == Spaces(s) + 1
  {
    if s != [] {
      SplitCount(s[1..]);
    }
  }

  /** The UTF-8 bytes of one Unicode scalar value. */
  function Utf8Char(c: char): (r: seq<byte>)
    ensures 1 <= |r| <= 4
    ensures c == ' ' ==> r == [32]
  {
    var cp := c as int;
    if cp < 0x80 then [cp]
    else if cp < 0x800 then [0xC0 + cp / 0x40, 0x80 + cp % 0x40]
    else if cp < 0x10000 then [0xE0 + cp / 0x1000, 0x80 + (cp / 0x40) % 0x40, 0x80 + cp % 0x40]
    else [0xF0 + (cp / 0x40000) % 8, 0x80 + (cp / 0x1000) % 0x40, 0x80 + (cp / 0x40) % 0x40, 0x80 + cp % 0x40]
  }

  /** `new TextEncoder().encode(s)`. */
  function Utf8(s: string): seq<byte> {
    if s == [] then [] else Utf8Char(s[0]) + Utf8(s[1..])
  }

  lemma {:induction false} Utf8Append(a: string, b: string)
    ensures Utf8(a + b) == Utf8(a) + Utf8(b)
  {
    if a == [] {
      assert a + b == b;
    } else {
      assert (a + b)[1..] == a[1..] + b;
      Utf8Append(a[1..], b);
    }
  }
}
