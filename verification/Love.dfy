/** The checksummed reply frame of Love controllers (drivers/love/src/wire.rs). */
module Love {
  import opened Wrappers
  import opened Bytes
  import opened Numerals

  const STX: byte := 2

  /** The sum of the bytes modulo 256. */
  function CalcChecksum(data: seq<byte>): byte {
    if data == [] then 0 else (CalcChecksum(data[..|data| - 1]) as int + data[|data| - 1] as int) % 0x100
  }

  function Min(a: nat, b: nat): nat {
    if a <= b then a else b
  }

  /** Behind a sign, if there is one. */
  function Unsigned(s: Text): Text {
    if s != [] && (s[0] == MINUS || s[0] == PLUS) then s[1..] else s
  }

  function WithoutPrefix(s: Text, radix: nat): Text {
    if radix == 16 && |s| > 1 && s[0] == ZERO && (s[1] == 120 || s[1] == 88) then s[2..] else s
  }

  /** `%<width>x` or `%<width>d` at an offset; white space does not count toward the width. */
  function ScanField(reply: Text, start: nat, width: nat, radix: nat): int {
    var t := SkipSpace(if start <= |reply| then reply[start..] else []);
    var s := t[..Min(|t|, width)];
    var u := WithoutPrefix(Unsigned(s), radix);
    var magnitude: int := Value(u[..DigitRun(u, radix)], radix);
    if s != [] && s[0] == MINUS then -magnitude else magnitude
  }

  /** Into an `unsigned int`. */
  function ScanHex(reply: Text, start: nat, width: nat): nat {
    ScanField(reply, start, width, 16) % 0x1_0000_0000
  }

  /**
   * A field is read behind blanks, which do not count toward its width; a sign counts, and a `0x` before hexadecimal
   * digits.
   */
  lemma {:induction false} FieldReads(lead: Text, blanks: nat, sign: Text, prefix: Text, digits: Text, rest: Text, radix: nat)
    requires (radix == 10 && prefix == []) || (radix == 16 && (prefix == [] || prefix == [ZERO, 120] || prefix == [ZERO, 88]))
    requires sign == [] || sign == [MINUS] || sign == [PLUS]
    requires digits != [] && AllDigits(digits, radix)
    ensures var width := |sign| + |prefix| + |digits|;
            ScanField(lead + (Repeat(SPACE, blanks) + (sign + (prefix + (digits + rest)))), |lead|, width, radix)
            == Signed(sign, Value(digits, radix))
  {
    var field := sign + (prefix + digits);
    Regrouped(sign, prefix, digits, rest);
    FieldParts(sign, prefix, digits, radix);
    SpacesSkipped(blanks, field + rest);
    FieldAt(lead, Repeat(SPACE, blanks) + (field + rest), field, rest, radix);
  }

  lemma {:induction false} Regrouped(a: Text, b: Text, c: Text, d: Text)
    ensures a + (b + (c + d)) == a + (b + c) + d
  {
  }

  /** A negative hexadecimal field is taken for the unsigned number of its 32 bits. */
  lemma {:induction false} NegativeHex(digits: Text)
    requires digits != [] && AllDigits(digits, 16) && 0 < Value(digits, 16) <= 0x1_0000_0000
    ensures ScanHex([MINUS] + digits, 0, 1 + |digits|) == 0x1_0000_0000 - Value(digits, 16)
  {
    var field := [MINUS] + digits;
    assert field + [] == field && [] + field == field && [MINUS] + ([] + digits) == field;
    FieldParts([MINUS], [], digits, 16);
    FieldAt([], field, field, [], 16);
    ModOfMinus(Value(digits, 16));
  }

  lemma {:induction false} ModOfMinus(v: int)
    requires 0 < v <= 0x1_0000_0000
    ensures -v % 0x1_0000_0000 == 0x1_0000_0000 - v
  {
  }

  function Signed(sign: Text, magnitude: int): int {
    if sign == [MINUS] then -magnitude else magnitude
  }

  lemma {:induction false} FieldAt(lead: Text, text: Text, field: Text, rest: Text, radix: nat)
    requires SkipSpace(text) == field + rest && field != []
    ensures var u := WithoutPrefix(Unsigned(field), radix);
            var v: int := Value(u[..DigitRun(u, radix)], radix);
            ScanField(lead + text, |lead|, |field|, radix) == if field[0] == MINUS then -v else v
  {
    assert (lead + text)[|lead|..] == text;
    assert (field + rest)[..|field|] == field;
  }

  lemma {:induction false} FieldParts(sign: Text, prefix: Text, digits: Text, radix: nat)
    requires (radix == 10 && prefix == []) || (radix == 16 && (prefix == [] || prefix == [ZERO, 120] || prefix == [ZERO, 88]))
    requires sign == [] || sign == [MINUS] || sign == [PLUS]
    requires digits != [] && AllDigits(digits, radix)
    ensures var u := WithoutPrefix(Unsigned(sign + (prefix + digits)), radix);
            u == digits && u[..DigitRun(u, radix)] == digits
    ensures var field := sign + (prefix + digits);
            field != [] && !IsSpace(field[0]) && (field[0] == MINUS <==> sign == [MINUS])
  {
    var tail := prefix + digits;
    assert IsDigit(digits[0], radix) && (|digits| > 1 ==> IsDigit(digits[1], radix));
    assert sign == [] ==> sign + tail == tail;
    assert sign != [] ==> (sign + tail)[1..] == tail;
    assert Unsigned(sign + tail) == tail;
    if prefix == [] {
      assert tail == digits;
    } else {
      assert tail[2..] == digits;
    }
    RunEnds(digits, [], radix);
    assert digits + [] == digits;
  }

  datatype EvalError =
    | MissingStx
    | TooShort
    | DeviceError(code: int) // a seven-byte reply carries an error code
    | ChecksumMismatch

  /** The payload of a reply: what is between its four-byte head and its two-byte checksum. */
  function EvalMessage(raw: seq<byte>): Result<seq<byte>, EvalError> {
    if raw == [] || raw[0] != STX then Err(MissingStx)
    else if |raw| < 7 then Err(TooShort)
    else if |raw| == 7 then Err(DeviceError(ScanField(raw, 5, 2, 10)))
    else if ScanHex(raw, |raw| - 2, 2) != CalcChecksum(raw[1..|raw| - 2]) as int then Err(ChecksumMismatch)
    else Ok(raw[4..|raw| - 2])
  }

  /** A checksum as two characters, padded with a zero or with a space. */
  function ChecksumText(cs: byte, upper: bool, spaced: bool): (t: Text)
    ensures |t| == 2
  {
    [if cs < 16 && spaced then SPACE else Digit(cs / 16, upper), Digit(cs % 16, upper)]
  }

  /** A reply as a device sends it. */
  function Frame(header: seq<byte>, payload: seq<byte>, upper: bool, spaced: bool): seq<byte> {
    [STX] + (header + payload) + ChecksumText(CalcChecksum(header + payload), upper, spaced)
  }

  lemma {:induction false} TwoDigits(a: byte, b: byte)
    requires IsDigit(a, 16) && IsDigit(b, 16)
    ensures DigitRun([a, b], 16) == 2 && Value([a, b], 16) == 16 * DigitValue(a) + DigitValue(b)
    ensures DigitRun([b], 16) == 1 && Value([b], 16) == DigitValue(b)
  {
    assert [a, b][1..] == [b] && [b][1..] == [];
    assert [a, b][..1] == [a] && [a][..0] == [] && [b][..0] == [];
    assert Value([a], 16) == DigitValue(a);
  }

  /** Either padding is read as the checksum. */
  lemma {:induction false} ChecksumReads(lead: seq<byte>, cs: byte, upper: bool, spaced: bool)
    ensures ScanHex(lead + ChecksumText(cs, upper, spaced), |lead|, 2) == cs
  {
    var t := ChecksumText(cs, upper, spaced);
    assert (lead + t)[|lead|..] == t;
    TwoDigits(Digit(cs / 16, upper), t[1]);
    if t[0] == SPACE {
      assert t[1..] == [t[1]];
      assert SkipSpace(t) == [t[1]] && [t[1]][..1] == [t[1]];
    } else {
      assert SkipSpace(t) == t && t[..2] == t;
    }
  }

  /**
   * A body framed with the checksum `cs` is accepted exactly when `cs` is its own checksum and it has room
   * for the header and two bytes of payload.
   */
  lemma {:induction false} AcceptedWhen(body: seq<byte>, cs: byte, upper: bool, spaced: bool)
    ensures var raw := [STX] + body + ChecksumText(cs, upper, spaced);
            && (EvalMessage(raw).Ok? <==> |body| >= 5 && CalcChecksum(body) == cs)
            && (EvalMessage(raw).Ok? ==> EvalMessage(raw) == Ok(body[3..]))
            && (|body| >= 5 && CalcChecksum(body) != cs ==> EvalMessage(raw) == Err(ChecksumMismatch))
  {
    var raw := [STX] + body + ChecksumText(cs, upper, spaced);
    ChecksumReads([STX] + body, cs, upper, spaced);
    assert raw[1..|raw| - 2] == body;
    if |body| >= 5 {
      assert raw[4..|raw| - 2] == body[3..];
    }
  }

  /** A reply of seven bytes carries a device's error code in its last two; one that is shorter, or has no STX, is no reply. */
  lemma {:induction false} ErrorReplies(header: seq<byte>, tens: nat, ones: nat, raw: seq<byte>)
    requires |header| == 4 && tens < 10 && ones < 10
    ensures EvalMessage([STX] + header + [Digit(tens, false), Digit(ones, false)]) == Err(DeviceError(10 * tens + ones))
    ensures raw == [] || raw[0] != 2 <==> EvalMessage(raw) == Err(MissingStx)
    ensures raw != [] && raw[0] == 2 && |raw| < 7 <==> EvalMessage(raw) == Err(TooShort)
  {
    var digits := [Digit(tens, false), Digit(ones, false)];
    var lead := [STX] + header;
    FieldReads(lead, 0, [], [], digits, [], 10);
    assert Repeat(SPACE, 0) + ([] + ([] + (digits + []))) == digits;
    assert digits[..1] == [digits[0]];
    assert Value(digits, 10) == 10 * tens + ones by {
      assert Value([digits[0]], 10) == tens;
    }
  }

  /** A reply gives back exactly its payload, however its checksum is padded, from two bytes of payload on. */
  lemma {:induction false} FrameGivesPayload(header: seq<byte>, payload: seq<byte>, upper: bool, spaced: bool)
    requires |header| == 3
    ensures EvalMessage(Frame(header, payload, upper, spaced)) == Ok(payload) <==> |payload| >= 2
  {
    AcceptedWhen(header + payload, CalcChecksum(header + payload), upper, spaced);
    assert (header + payload)[3..] == payload;
  }

  function Total(data: seq<byte>): nat {
    if data == [] then 0 else Total(data[..|data| - 1]) + data[|data| - 1] as int
  }

  lemma {:induction false} AddMod(t: nat, b: byte)
    ensures (t % 0x100 + b as int) % 0x100 == (t + b as int) % 0x100
  {
  }

  lemma {:induction false} ChecksumIsTotal(data: seq<byte>)
    ensures CalcChecksum(data) as int == Total(data) % 0x100
  {
    if data != [] {
      ChecksumIsTotal(data[..|data| - 1]);
      AddMod(Total(data[..|data| - 1]), data[|data| - 1]);
    }
  }

  lemma {:induction false} OneByteShows(data: seq<byte>, i: nat, b: byte)
    requires i < |data|
    ensures Total(data[i := b]) == Total(data) + b as int - data[i] as int
  {
    var n := |data| - 1;
    var after := data[i := b];
    if i < n {
      OneByteShows(data[..n], i, b);
      assert after[..n] == data[..n][i := b];
    } else {
      assert after[..n] == data[..n];
    }
  }

  lemma {:induction false} ModDiffers(t: nat, u: nat)
    requires t < u < t + 0x100 || u < t < u + 0x100
    ensures t % 0x100 != u % 0x100
  {
  }

  /** A changed byte changes the checksum. */
  lemma {:induction false} OneByteChanges(data: seq<byte>, i: nat, b: byte)
    requires i < |data| && b != data[i]
    ensures CalcChecksum(data[i := b]) != CalcChecksum(data)
  {
    ChecksumIsTotal(data);
    ChecksumIsTotal(data[i := b]);
    OneByteShows(data, i, b);
    ModDiffers(Total(data), Total(data[i := b]));
  }

  lemma {:induction false} FrameWithChange(body: seq<byte>, t: seq<byte>, i: nat, b: byte)
    requires 1 <= i <= |body|
    ensures ([STX] + body + t)[i] == body[i - 1]
    ensures ([STX] + body + t)[i := b] == [STX] + body[i - 1 := b] + t
  {
  }

  /** Any single byte changed between the STX and the checksum is noticed. */
  lemma {:induction false} OneByteChangeRejected(header: seq<byte>, payload: seq<byte>, upper: bool, spaced: bool, i: nat, b: byte)
    requires |header| == 3 && |payload| >= 2 && 1 <= i < 4 + |payload|
    requires b != Frame(header, payload, upper, spaced)[i]
    ensures EvalMessage(Frame(header, payload, upper, spaced)[i := b]) == Err(ChecksumMismatch)
  {
    var body := header + payload;
    var cs := CalcChecksum(body);
    FrameWithChange(body, ChecksumText(cs, upper, spaced), i, b);
    AcceptedWhen(body[i - 1 := b], cs, upper, spaced);
    OneByteChanges(body, i - 1, b);
  }

  /** Two bytes exchanged are not noticed: the sum does not tell their order. */
  lemma {:induction false} SwapUnnoticed(body: seq<byte>, i: nat, j: nat, upper: bool, spaced: bool)
    requires |body| >= 5 && i < j < |body|
    ensures var swapped := body[i := body[j]][j := body[i]];
            EvalMessage([STX] + swapped + ChecksumText(CalcChecksum(body), upper, spaced)) == Ok(swapped[3..])
  {
    var once := body[i := body[j]];
    var swapped := once[j := body[i]];
    OneByteShows(body, i, body[j]);
    OneByteShows(once, j, body[i]);
    ChecksumIsTotal(body);
    ChecksumIsTotal(swapped);
    AcceptedWhen(swapped, CalcChecksum(body), upper, spaced);
  }
}
