/** Positional numerals as ASCII text: what the printers emit and the scanners read. */
module Numerals {
  import opened Bytes

  /** The bytes of a text; every text here is ASCII or passed through untouched. */
  type Text = seq<byte>

  const MINUS: byte := 45
  const PLUS: byte := 43
  const SPACE: byte := 32
  const ZERO: byte := 48

  /** The bases numerals are written in here. */
  type Radix = r: nat | r == 2 || r == 8 || r == 10 || r == 16 witness 10

  /** The value of a digit byte in any base up to 16; 16 and more means not a digit. */
  function DigitValue(b: byte): nat {
    if 48 <= b <= 57 then b - 48
    else if 97 <= b <= 102 then b - 87
    else if 65 <= b <= 70 then b - 55
    else 16
  }

  predicate IsDigit(b: byte, radix: nat) {
    DigitValue(b) < radix
  }

  function Digit(d: nat, upper: bool): (b: byte)
    requires d < 16
    ensures DigitValue(b) == d
  {
    if d < 10 then 48 + d else if upper then 55 + d else 87 + d
  }

  predicate AllDigits(s: Text, radix: nat) {
    forall i :: 0 <= i < |s| ==> IsDigit(s[i], radix)
  }

  /** The shortest numeral of `n`. */
  function Numeral(n: nat, radix: Radix, upper: bool): (s: Text)
    ensures |s| > 0 && AllDigits(s, radix)
    decreases n
  {
    if n < radix then [Digit(n, upper)] else Numeral(n / radix, radix, upper) + [Digit(n % radix, upper)]
  }

  function Decimal(n: nat): (s: Text)
    ensures |s| > 0 && AllDigits(s, 10)
  {
    Numeral(n, 10, false)
  }

  function SignedDecimal(n: int): Text {
    if n < 0 then [MINUS] + Decimal(-n) else Decimal(n)
  }

  function Repeat(b: byte, n: nat): (s: Text)
    ensures |s| == n && forall i :: 0 <= i < n ==> s[i] == b
  {
    seq(n, i => b)
  }

  /** The number a run of digits stands for. */
  function Value(s: Text, radix: nat): nat {
    if s == [] then 0 else Value(s[..|s| - 1], radix) * radix + DigitValue(s[|s| - 1])
  }

  /** How many digits a text starts with. */
  function DigitRun(s: Text, radix: nat): (n: nat)
    ensures n <= |s|
  {
    if s == [] || !IsDigit(s[0], radix) then 0 else 1 + DigitRun(s[1..], radix)
  }

  lemma {:induction false} DivMod(n: nat, radix: Radix)
    ensures n / radix * radix + n % radix == n
  {
    if radix == 2 {
      assert n / 2 * 2 + n % 2 == n;
    } else if radix == 8 {
      assert n / 8 * 8 + n % 8 == n;
    } else if radix == 10 {
      assert n / 10 * 10 + n % 10 == n;
    } else {
      assert n / 16 * 16 + n % 16 == n;
    }
  }

  lemma {:induction false} ValueSnoc(s: Text, b: byte, radix: nat)
    ensures Value(s + [b], radix) == Value(s, radix) * radix + DigitValue(b)
  {
    assert (s + [b])[..|s|] == s;
  }

  lemma {:induction false} NumeralValue(n: nat, radix: Radix, upper: bool)
    ensures Value(Numeral(n, radix, upper), radix) == n
    decreases n
  {
    if n < radix {
      ValueSnoc([], Digit(n, upper), radix);
    } else {
      var q, d := n / radix, n % radix;
      NumeralValue(q, radix, upper);
      ValueSnoc(Numeral(q, radix, upper), Digit(d, upper), radix);
      DivMod(n, radix);
    }
  }

  /** A numeral starts with no zero it could do without. */
  lemma {:induction false} NumeralHead(n: nat, radix: Radix, upper: bool)
    ensures n > 0 ==> Numeral(n, radix, upper)[0] != ZERO
    decreases n
  {
    if n >= radix {
      NumeralHead(n / radix, radix, upper);
    }
  }

  lemma {:induction false} LeadingZeros(k: nat, s: Text, radix: nat)
    ensures Value(Repeat(ZERO, k) + s, radix) == Value(s, radix)
    decreases k + |s|
  {
    var t := Repeat(ZERO, k) + s;
    if s != [] {
      LeadingZeros(k, s[..|s| - 1], radix);
      assert t[..|t| - 1] == Repeat(ZERO, k) + s[..|s| - 1];
    } else if k > 0 {
      LeadingZeros(k - 1, s, radix);
      assert t[..|t| - 1] == Repeat(ZERO, k - 1) + s;
      assert Repeat(ZERO, k - 1) + s == Repeat(ZERO, k - 1);
    }
  }

  function Power(radix: nat, k: nat): nat {
    if k == 0 then 1 else radix * Power(radix, k - 1)
  }

  lemma {:induction false} HexLength(n: nat, k: nat, upper: bool)
    requires k > 0 && n < Power(16, k)
    ensures |Numeral(n, 16, upper)| <= k
    decreases k
  {
    if n >= 16 {
      HexLength(n / 16, k - 1, upper);
    }
  }

  /** A 32-bit number has at most eight hex digits. */
  lemma {:induction false} HexLength32(n: nat, upper: bool)
    requires n < 0x1_0000_0000
    ensures |Numeral(n, 16, upper)| <= 8
  {
    assert Power(16, 4) == 0x1_0000;
    assert Power(16, 8) == 0x1_0000_0000;
    HexLength(n, 8, upper);
  }

  /** A run of digits is read up to the first byte that is not one. */
  lemma {:induction false} RunEnds(s: Text, rest: Text, radix: nat)
    requires AllDigits(s, radix)
    requires rest == [] || !IsDigit(rest[0], radix)
    ensures DigitRun(s + rest, radix) == |s|
  {
    if s == [] {
      assert s + rest == rest;
    } else {
      RunEnds(s[1..], rest, radix);
      assert (s + rest)[1..] == s[1..] + rest;
    }
  }

  /** C's `isspace` in the C locale. */
  predicate IsSpace(b: byte) {
    b == 32 || 9 <= b <= 13
  }

  function SkipSpace(s: Text): Text {
    if s != [] && IsSpace(s[0]) then SkipSpace(s[1..]) else s
  }

  lemma {:induction false} SpacesSkipped(n: nat, t: Text)
    requires t != [] ==> !IsSpace(t[0])
    ensures SkipSpace(Repeat(SPACE, n) + t) == t
  {
    if n > 0 {
      assert (Repeat(SPACE, n) + t)[1..] == Repeat(SPACE, n - 1) + t;
      SpacesSkipped(n - 1, t);
    } else {
      assert Repeat(SPACE, n) + t == t;
    }
  }
}
