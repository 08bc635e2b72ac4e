/** C's `sscanf` over a device reply, one conversion at a time (drivers/ip/src/scan.rs). */
module CScan {
  import opened Wrappers
  import opened Bytes
  import opened Numerals

  /** ASCII white space, without the vertical tab. */
  predicate IsBlank(b: byte) {
    b == 32 || b == 9 || b == 10 || b == 12 || b == 13
  }

  function TrimStart(s: Text): (t: Text)
    ensures |t| <= |s|
  {
    if s != [] && IsBlank(s[0]) then TrimStart(s[1..]) else s
  }

  /** Which bytes are skipped: space, tab, newline, form feed and return here; C's `isspace` has the vertical tab as well. */
  lemma {:induction false} SkippedBytes(b: byte, t: Text)
    ensures TrimStart([b] + t) == if b in [32, 9, 10, 12, 13] then TrimStart(t) else [b] + t
    ensures SkipSpace([b] + t) == if b in [32, 9, 10, 11, 12, 13] then SkipSpace(t) else [b] + t
  {
    assert ([b] + t)[1..] == t;
  }

  /** How many bytes of sign a text starts with. */
  function SignLength(s: Text): (n: nat)
    ensures n <= 1 && n <= |s|
  {
    if s != [] && (s[0] == MINUS || s[0] == PLUS) then 1 else 0
  }

  predicate Negative(s: Text) {
    s != [] && s[0] == MINUS
  }

  /** A number parsed into 64 bits, 0 when it does not fit, and saturated to 32. */
  function Clamped(negative: bool, magnitude: nat): int {
    var v: int := if negative then 0 - magnitude as int else magnitude;
    if v < -0x8000_0000_0000_0000 || v > 0x7FFF_FFFF_FFFF_FFFF then 0
    else if v < -0x8000_0000 then -0x8000_0000
    else if v > 0x7FFF_FFFF then 0x7FFF_FFFF
    else v
  }

  /** `%d`: the number and the text behind it. */
  function ScanInt(s: Text): Option<(int, Text)> {
    var t := TrimStart(s);
    var at := SignLength(t);
    var n := DigitRun(t[at..], 10);
    if n == 0 then None else Some((Clamped(Negative(t), Value(t[at..][..n], 10)), t[at..][n..]))
  }

  /** Where the digits of a hexadecimal number start: behind a `0x` that has a digit behind it. */
  function PrefixLength(s: Text): (n: nat)
    ensures n <= |s|
  {
    if |s| > 2 && s[0] == ZERO && (s[1] == 120 || s[1] == 88) && IsDigit(s[2], 16) then 2 else 0
  }

  /** The low 32 bits of a parsed 64-bit magnitude, as a signed number. */
  function Low32(negative: bool, magnitude: nat): int {
    var bits := (if magnitude < 0x1_0000_0000_0000_0000 then magnitude else 0xFFFF_FFFF_FFFF_FFFF) % 0x1_0000_0000;
    var v: int := if bits < 0x8000_0000 then bits else bits - 0x1_0000_0000;
    if !negative || v == -0x8000_0000 then v else -v
  }

  /** What a decimal of any length is read as: 0 when it is past 64 bits, else the nearest 32-bit number. */
  lemma {:induction false} ClampedIs(negative: bool, magnitude: nat)
    ensures var v: int := if negative then 0 - magnitude as int else magnitude;
            var r := Clamped(negative, magnitude);
            && (v < -0x8000_0000_0000_0000 || v > 0x7FFF_FFFF_FFFF_FFFF ==> r == 0)
            && -0x8000_0000 <= r <= 0x7FFF_FFFF
            && (-0x8000_0000_0000_0000 <= v < -0x8000_0000 ==> r == -0x8000_0000)
            && (0x7FFF_FFFF < v <= 0x7FFF_FFFF_FFFF_FFFF ==> r == 0x7FFF_FFFF)
            && (-0x8000_0000 <= v <= 0x7FFF_FFFF ==> r == v)
  {
  }

  /** What a hexadecimal number is read as: the 32-bit number equal to it modulo 2^32; one past 64 bits is taken for the last. */
  lemma {:induction false} Low32Is(negative: bool, magnitude: nat)
    ensures var m: int := if magnitude >= 0x1_0000_0000_0000_0000 then 0xFFFF_FFFF_FFFF_FFFF else magnitude;
            var r := Low32(negative, magnitude);
            -0x8000_0000 <= r < 0x8000_0000 && (if negative then r + m else r - m) % 0x1_0000_0000 == 0
  {
    var m: int := if magnitude >= 0x1_0000_0000_0000_0000 then 0xFFFF_FFFF_FFFF_FFFF else magnitude;
    var q, bits := m / 0x1_0000_0000, m % 0x1_0000_0000;
    var r := Low32(negative, magnitude);
    var d := if negative then r + m else r - m;
    var k := if bits < 0x8000_0000 || (negative && bits == 0x8000_0000) then q else q + 1;
    assert d == if negative then k * 0x1_0000_0000 else -k * 0x1_0000_0000;
    MultipleOf(if negative then k else -k);
  }

  lemma {:induction false} MultipleOf(k: int)
    ensures k * 0x1_0000_0000 % 0x1_0000_0000 == 0
  {
  }

  /** `%x` into an `int`. */
  function ScanHex(s: Text): Option<(int, Text)> {
    var t := TrimStart(s);
    var u := t[SignLength(t)..];
    var digits := u[PrefixLength(u)..];
    var n := DigitRun(digits, 16);
    if n == 0 then None else Some((Low32(Negative(t), Value(digits[..n], 16)), digits[n..]))
  }

  /** A `0x` without a digit behind it is the number 0, and its `x` is left. */
  lemma {:induction false} BarePrefix(letter: byte, rest: Text)
    requires (letter == 120 || letter == 88) && (rest == [] || !IsDigit(rest[0], 16))
    ensures ScanHex([ZERO, letter] + rest) == Some((0, [letter] + rest))
  {
    var s := [ZERO, letter] + rest;
    assert TrimStart(s) == s && s[0..] == s && s[1..] == [letter] + rest;
    assert s[1..][0] == letter && DigitRun(s, 16) == 1;
    assert rest != [] ==> s[2] == rest[0];
    assert PrefixLength(s) == 0 && s[..1] == [ZERO] && [ZERO][..0] == [];
    assert Value([ZERO], 16) == 0;
  }

  /** How one conversion leaves the scan. */
  ghost predicate Converted(c: Option<(int, Text)>, failedBefore: bool, restBefore: Text,
                            r: Option<int>, failed: bool, rest: Text)
  {
    if failedBefore then r == None && failed && rest == restBefore
    else
      match c
      case None => r == None && failed && rest == restBefore
      case Some(found) => r == Some(found.0) && !failed && rest == found.1
  }

  /** A failed conversion stops the scan and leaves the rest unread. */
  class Scan {
    var rest: Text
    var failed: bool

    constructor (text: Text)
      ensures rest == text && !failed
    {
      rest, failed := text, false;
    }

    method Int() returns (r: Option<int>)
      modifies this
      ensures Converted(ScanInt(old(rest)), old(failed), old(rest), r, failed, rest)
    {
      if failed {
        return None;
      }
      var s := SkipBlanks(rest);
      var sign := SignLength(s);
      var digits := CountDigits(s[sign..], 10);
      if digits == 0 {
        failed := true;
        return None;
      }
      r := Some(Clamped(Negative(s), Value(s[sign..][..digits], 10)));
      rest := s[sign..][digits..];
    }

    method Hex() returns (r: Option<int>)
      modifies this
      ensures Converted(ScanHex(old(rest)), old(failed), old(rest), r, failed, rest)
    {
      if failed {
        return None;
      }
      var s := SkipBlanks(rest);
      var u := s[SignLength(s)..];
      var tail := u[PrefixLength(u)..];
      var digits := CountDigits(tail, 16);
      if digits == 0 {
        failed := true;
        return None;
      }
      r := Some(Low32(Negative(s), Value(tail[..digits], 16)));
      rest := tail[digits..];
    }

    method Char() returns (r: Option<byte>)
      modifies this
      ensures r == if old(failed) || old(rest) == [] then None else Some(old(rest)[0])
      ensures failed == (old(failed) || old(rest) == [])
      ensures rest == if failed then old(rest) else old(rest)[1..]
    {
      if failed {
        return None;
      }
      if rest == [] {
        failed := true;
        return None;
      }
      r := Some(rest[0]);
      rest := rest[1..];
    }

    method Literal(b: byte)
      modifies this
      ensures failed == (old(failed) || old(rest) == [] || old(rest)[0] != b)
      ensures rest == if failed then old(rest) else old(rest)[1..]
    {
      if !failed {
        if rest != [] && rest[0] == b {
          rest := rest[1..];
        } else {
          failed := true;
        }
      }
    }
  }

  method SkipBlanks(s: Text) returns (t: Text)
    ensures t == TrimStart(s)
  {
    var i := 0;
    while i < |s| && IsBlank(s[i])
      invariant i <= |s| && TrimStart(s) == TrimStart(s[i..])
    {
      assert s[i..][1..] == s[i + 1..];
      i := i + 1;
    }
    t := s[i..];
  }

  method CountDigits(s: Text, radix: nat) returns (n: nat)
    ensures n == DigitRun(s, radix)
  {
    n := 0;
    while n < |s| && IsDigit(s[n], radix)
      invariant n <= |s| && DigitRun(s, radix) == n + DigitRun(s[n..], radix)
    {
      assert s[n..][1..] == s[n + 1..];
      n := n + 1;
    }
  }

  // ---------------------------------------------------------------------------
  // What is read of a number with blanks, sign, prefix and leading zeros
  // ---------------------------------------------------------------------------

  lemma {:induction false} BlanksSkipped(n: nat, t: Text)
    ensures TrimStart(Repeat(SPACE, n) + t) == TrimStart(t)
  {
    var s := Repeat(SPACE, n) + t;
    if n == 0 {
      assert s == t;
    } else {
      BlanksSkipped(n - 1, t);
      assert s[1..] == Repeat(SPACE, n - 1) + t;
    }
  }

  /** Blanks, a sign, leading zeros and digits, up to what cannot go on with the number. */
  lemma {:induction false} IntReads(blanks: nat, sign: Text, digits: Text, rest: Text)
    requires sign == [] || sign == [MINUS] || sign == [PLUS] || sign == [SPACE]
    requires digits != [] && AllDigits(digits, 10) && (rest == [] || !IsDigit(rest[0], 10))
    ensures ScanInt(Repeat(SPACE, blanks) + (sign + (digits + rest)))
         == Some((Clamped(sign == [MINUS], Value(digits, 10)), rest))
  {
    var body := digits + rest;
    BlanksSkipped(blanks, sign + body);
    assert IsDigit(digits[0], 10) && body[0] == digits[0];
    if sign == [SPACE] {
      BlanksSkipped(1, body);
      assert Repeat(SPACE, 1) == [SPACE];
    }
    var t := TrimStart(sign + body);
    assert t[SignLength(t)..] == body;
    RunEnds(digits, rest, 10);
    assert body[..|digits|] == digits && body[|digits|..] == rest;
  }

  predicate EndsHex(rest: Text) {
    rest == [] || (!IsDigit(rest[0], 16) && rest[0] != 120 && rest[0] != 88)
  }

  /** The same for a hexadecimal number, with or without its prefix. */
  lemma {:induction false} HexReads(blanks: nat, prefix: Text, digits: Text, rest: Text)
    requires prefix == [] || prefix == [ZERO, 120] || prefix == [ZERO, 88]
    requires digits != [] && AllDigits(digits, 16) && EndsHex(rest)
    ensures ScanHex(Repeat(SPACE, blanks) + (prefix + (digits + rest)))
         == Some((Low32(false, Value(digits, 16)), rest))
  {
    var body := digits + rest;
    var u := prefix + body;
    BlanksSkipped(blanks, u);
    assert IsDigit(digits[0], 16) && body[0] == digits[0];
    assert TrimStart(u) == u && SignLength(u) == 0 && u[0..] == u;
    if prefix == [] {
      assert u == body;
      if |digits| > 1 {
        assert IsDigit(digits[1], 16) && body[1] == digits[1];
      } else if rest != [] {
        assert body[1] == rest[0];
      }
      assert PrefixLength(u) == 0;
    }
    assert u[PrefixLength(u)..] == body;
    RunEnds(digits, rest, 16);
    assert body[..|digits|] == digits && body[|digits|..] == rest;
  }
}
