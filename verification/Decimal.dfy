/** Decimal notation of natural numbers, as text. */
module Decimal {

  predicate IsDigit(c: char) {
    '0' <= c <= '9'
  }

  predicate AllDigits(s: string) {
    forall i :: 0 <= i < |s| ==> IsDigit(s[i])
  }

  function Digit(d: nat): (c: char)
    requires d < 10
    ensures IsDigit(c) && DigitValue(c) == d
  {
    ('0' as int + d) as char
  }

  function DigitValue(c: char): nat
    requires IsDigit(c)
  {
    c as int - '0' as int
  }

  /** The shortest notation. */
  function Print(n: nat): (s: string)
    ensures s != [] && AllDigits(s)
  {
    if n < 10 then [Digit(n)] else Print(n / 10) + [Digit(n % 10)]
  }

  /** The number a notation stands for, leading zeros included. */
  function Parse(s: string): nat
    requires AllDigits(s)
  {
    if s == [] then 0 else 10 * Parse(s[..|s| - 1]) + DigitValue(s[|s| - 1])
  }

  lemma {:induction false} ParsePrint(n: nat)
    ensures Parse(Print(n)) == n
  {
    if n >= 10 {
      ParsePrint(n / 10);
      assert Print(n)[..|Print(n)| - 1] == Print(n / 10);
    }
  }

  /** Left-pads with zeros. */
  function Pad(s: string, width: nat): (r: string)
    ensures |s| <= width ==> |r| == width
    ensures AllDigits(s) ==> AllDigits(r)
    decreases width - |s|
  {
    if |s| >= width then s else Pad("0" + s, width)
  }

  lemma {:induction false} ParseZero(s: string)
    requires AllDigits(s)
    ensures Parse("0" + s) == Parse(s)
    decreases |s|
  {
    var z := "0" + s;
    if s == [] {
      assert z == [Digit(0)] && z[..0] == [];
    } else {
      ParseZero(s[..|s| - 1]);
      assert z[..|z| - 1] == "0" + s[..|s| - 1];
    }
  }

  lemma {:induction false} ParsePad(s: string, width: nat)
    requires AllDigits(s)
    ensures Parse(Pad(s, width)) == Parse(s)
    decreases width - |s|
  {
    if |s| < width {
      ParseZero(s);
      ParsePad("0" + s, width);
    }
  }

  /** A bound on the number bounds the length of its notation. */
  lemma {:induction false} PrintLength(n: nat, width: nat)
    requires width > 0 && n < Pow10(width)
    ensures |Print(n)| <= width
  {
    if n >= 10 {
      PrintLength(n / 10, width - 1);
    }
  }

  function Pow10(k: nat): (p: nat)
    ensures p > 0
  {
    if k == 0 then 1 else 10 * Pow10(k - 1)
  }

  /** A zero-padded field of fixed width reads back as its number. */
  lemma PaddedField(n: nat, width: nat)
    requires width > 0 && n < Pow10(width)
    ensures |Pad(Print(n), width)| == width && AllDigits(Pad(Print(n), width))
    ensures Parse(Pad(Print(n), width)) == n
  {
    PrintLength(n, width);
    ParsePad(Print(n), width);
    ParsePrint(n);
  }
}
