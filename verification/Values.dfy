/** Element accessors over a raw `[type][data]` buffer (drivers/ether-ip/src/cip.rs). */
module Values {
  import opened Wrappers
  import opened Bytes
  import opened Cip

  /** Offset of an element in its buffer. */
  function ElementOffset(t: CipType, element: nat): nat {
    TYPECODE_SIZE + element * Size(t)
  }

  function WriteSlice(raw: seq<byte>, at: nat, src: seq<byte>): (r: Option<seq<byte>>)
    ensures r.Some? ==> |r.value| == |raw|
  {
    if at + |src| <= |raw| then Some(raw[..at] + src + raw[at + |src|..]) else None
  }

  /** An element as a 32-bit pattern; floating-point elements are not modelled. */
  function GetUdint(raw: seq<byte>, element: nat): (r: Option<nat>)
  {
    match TypeOf(raw)
    case None => None
    case Some(t) =>
      var at := ElementOffset(t, element);
      match t
      case Bool | Sint => if at < |raw| then Some(raw[at]) else None
      case Int | Uint => Rd16(raw, at)
      case Dint | Bits => Rd32(raw, at)
      case _ => None
  }

  /** The bytes an element of a type takes from a 32-bit pattern. */
  function PatternBytes(t: CipType, value: nat): Option<seq<byte>> {
    match t
    case Bool | Sint => Some([value % 0x100])
    case Int | Uint => Some(U16(value))
    case Dint | Bits => Some(U32(value))
    case _ => None
  }

  function PutUdint(raw: seq<byte>, element: nat, value: nat): (r: Option<seq<byte>>)
    ensures r.Some? ==> |r.value| == |raw|
  {
    match TypeOf(raw)
    case None => None
    case Some(t) =>
      match PatternBytes(t, value)
      case None => None
      case Some(src) => WriteSlice(raw, ElementOffset(t, element), src)
  }

  function AsInt(bits: nat, width: nat): int {
    if 2 * bits >= width then bits - width else bits
  }

  /** An element as a signed 32-bit number, widened the way the driver widens it. */
  function GetDint(raw: seq<byte>, element: nat): Option<int> {
    match (TypeOf(raw), GetUdint(raw, element))
    case (Some(t), Some(bits)) =>
      (match t
       case Int | Uint => Some(AsInt(bits, 0x1_0000))
       case Dint | Bits => Some(AsInt(bits, 0x1_0000_0000))
       case _ => Some(bits))
    case _ => None
  }

  function PutDint(raw: seq<byte>, element: nat, value: int): (r: Option<seq<byte>>)
    ensures r.Some? ==> |r.value| == |raw|
  {
    match TypeOf(raw)
    case None => None
    case Some(t) =>
      match t
      case Lint | Ulint => WriteSlice(raw, ElementOffset(t, element), U64(value % 0x1_0000_0000_0000_0000))
      case _ => PutUdint(raw, element, value % 0x1_0000_0000)
  }

  function GetLint(raw: seq<byte>, element: nat): Option<int> {
    match TypeOf(raw)
    case None => None
    case Some(t) =>
      match t
      case Lint | Ulint =>
        (match Rd64(raw, ElementOffset(t, element))
         case None => None
         case Some(bits) => Some(AsInt(bits, 0x1_0000_0000_0000_0000)))
      case _ => None
  }

  function PutLint(raw: seq<byte>, element: nat, value: int): (r: Option<seq<byte>>)
    ensures r.Some? ==> |r.value| == |raw|
  {
    match TypeOf(raw)
    case None => None
    case Some(t) =>
      match t
      case Lint | Ulint => WriteSlice(raw, ElementOffset(t, element), U64(value % 0x1_0000_0000_0000_0000))
      case _ => None
  }

  // ---------------------------------------------------------------------------
  // What a write leaves behind
  // ---------------------------------------------------------------------------

  /** A slice written past the type code leaves the type and the length alone. */
  lemma {:induction false} SliceKeepsType(raw: seq<byte>, at: nat, src: seq<byte>)
    requires at >= TYPECODE_SIZE && WriteSlice(raw, at, src).Some?
    ensures TypeOf(WriteSlice(raw, at, src).value) == TypeOf(raw)
  {
    var r := WriteSlice(raw, at, src).value;
    assert r[0] == raw[0] && r[1] == raw[1];
  }

  lemma {:induction false} Rd16Written(raw: seq<byte>, at: nat, n: nat)
    requires WriteSlice(raw, at, U16(n)).Some?
    ensures Rd16(WriteSlice(raw, at, U16(n)).value, at) == Some(n % 0x1_0000)
  {
    ReadU16(raw[..at], n, raw[at + 2..]);
  }

  lemma {:induction false} Rd32Written(raw: seq<byte>, at: nat, n: nat)
    requires WriteSlice(raw, at, U32(n)).Some?
    ensures Rd32(WriteSlice(raw, at, U32(n)).value, at) == Some(n % 0x1_0000_0000)
  {
    ReadU32(raw[..at], n, raw[at + 4..]);
  }

  lemma {:induction false} Rd32Whole(raw: seq<byte>, at: nat, n: nat, put: seq<byte>)
    requires n < 0x1_0000_0000 && WriteSlice(raw, at, U32(n)) == Some(put)
    ensures Rd32(put, at) == Some(n)
  {
    Rd32Written(raw, at, n);
    Whole32(n);
  }

  lemma {:induction false} ModWhole(n: nat)
    requires n < 0x1_0000_0000_0000_0000
    ensures n % 0x1_0000_0000_0000_0000 == n
  {
  }

  lemma {:induction false} Rd64Whole(raw: seq<byte>, at: nat, n: nat, put: seq<byte>)
    requires n < 0x1_0000_0000_0000_0000 && WriteSlice(raw, at, U64(n)) == Some(put)
    ensures Rd64(put, at) == Some(n)
  {
    ReadU64(raw[..at], n, raw[at + 8..]);
    ModWhole(n);
  }

  /** Bits of a 32-bit pattern an element of a type holds. */
  function Width(t: CipType): nat {
    8 * Size(t)
  }

  predicate HasPattern(t: CipType) {
    t.Bool? || t.Sint? || t.Int? || t.Uint? || t.Dint? || t.Bits?
  }

  /** Only elements of the integer types that lie wholly inside the buffer can be read. */
  lemma {:induction false} ReadableElements(raw: seq<byte>, element: nat)
    ensures GetUdint(raw, element).Some? <==>
              TypeOf(raw).Some? && HasPattern(TypeOf(raw).value)
              && ElementOffset(TypeOf(raw).value, element + 1) <= |raw|
  {
  }

  /** What an element of a type keeps of a 32-bit pattern. */
  function Cut(t: CipType, value: nat): nat {
    if Size(t) == 1 then value % 0x100 else if Size(t) == 2 then value % 0x1_0000 else value
  }

  /** What was put is read back, cut to the width of the type. */
  lemma {:induction false} PatternReadsBack(raw: seq<byte>, element: nat, value: nat)
    requires PutUdint(raw, element, value).Some? && value < 0x1_0000_0000
    ensures GetUdint(PutUdint(raw, element, value).value, element)
         == Some(Cut(TypeOf(raw).value, value))
  {
    var t := TypeOf(raw).value;
    var at, src := ElementOffset(t, element), PatternBytes(t, value).value;
    var put := WriteSlice(raw, at, src).value;
    SliceKeepsType(raw, at, src);
    if Size(t) == 2 {
      assert Rd16(put, at) == Some(value % 0x1_0000) by {
        Rd16Written(raw, at, value);
      }
    } else if Size(t) == 4 {
      assert Rd32(put, at) == Some(value) by {
        Rd32Whole(raw, at, value, put);
      }
    } else {
      assert put[at] == value % 0x100;
    }
  }

  lemma {:induction false} OffsetsApart(t: CipType, element: nat, other: nat)
    requires element != other
    ensures ElementOffset(t, other) + Size(t) <= ElementOffset(t, element)
         || ElementOffset(t, element) + Size(t) <= ElementOffset(t, other)
  {
    if element < other {
      assert other * Size(t) == element * Size(t) + Size(t) + (other - element - 1) * Size(t);
    } else {
      assert element * Size(t) == other * Size(t) + Size(t) + (element - other - 1) * Size(t);
    }
  }

  /** Every other element is left alone. */
  lemma {:induction false} PatternElsewhere(raw: seq<byte>, element: nat, value: nat, other: nat)
    requires PutUdint(raw, element, value).Some? && other != element
    ensures GetUdint(PutUdint(raw, element, value).value, other) == GetUdint(raw, other)
  {
    var t := TypeOf(raw).value;
    var at, src := ElementOffset(t, element), PatternBytes(t, value).value;
    var r := WriteSlice(raw, at, src).value;
    SliceKeepsType(raw, at, src);
    OffsetsApart(t, element, other);
    assert forall k :: 0 <= k < at || at + |src| <= k < |raw| ==> r[k] == raw[k];
  }

  /** An element that can be read can be written, and the other way round. */
  lemma {:induction false} WritableWhenReadable(raw: seq<byte>, element: nat, value: nat)
    ensures GetUdint(raw, element).Some? <==> PutUdint(raw, element, value).Some?
  {
    ReadableElements(raw, element);
  }

  lemma {:induction false} AsIntInverts(value: int)
    ensures -0x8000_0000 <= value < 0x8000_0000 ==> AsInt(value % 0x1_0000_0000, 0x1_0000_0000) == value
    ensures -0x8000_0000_0000_0000 <= value < 0x8000_0000_0000_0000 ==>
              AsInt(value % 0x1_0000_0000_0000_0000, 0x1_0000_0000_0000_0000) == value
  {
  }

  /** A 32-bit number put into a DINT or BITS element reads back as itself. */
  lemma {:induction false} DintReadsBack(raw: seq<byte>, element: nat, value: int)
    requires -0x8000_0000 <= value < 0x8000_0000
    requires TypeOf(raw) == Some(Dint) || TypeOf(raw) == Some(Bits)
    requires PutDint(raw, element, value).Some?
    ensures GetDint(PutDint(raw, element, value).value, element) == Some(value)
  {
    var bits := value % 0x1_0000_0000;
    var put := PutDint(raw, element, value).value;
    assert GetUdint(put, element) == Some(bits) by {
      PatternReadsBack(raw, element, bits);
    }
    assert TypeOf(put) == TypeOf(raw) by {
      SliceKeepsType(raw, ElementOffset(TypeOf(raw).value, element), U32(bits));
    }
    AsIntInverts(value);
  }

  lemma {:induction false} LintReadsBack(raw: seq<byte>, element: nat, value: int)
    requires -0x8000_0000_0000_0000 <= value < 0x8000_0000_0000_0000
    requires PutLint(raw, element, value).Some?
    ensures GetLint(PutLint(raw, element, value).value, element) == Some(value)
  {
    var bits, at := value % 0x1_0000_0000_0000_0000, ElementOffset(TypeOf(raw).value, element);
    var put := PutLint(raw, element, value).value;
    Rd64Whole(raw, at, bits, put);
    assert TypeOf(put) == TypeOf(raw) by {
      SliceKeepsType(raw, at, U64(bits));
    }
    AsIntInverts(value);
  }

  /** A 32-bit number put into a LINT is read back as itself. */
  lemma {:induction false} DintInLint(raw: seq<byte>, element: nat, value: int)
    requires -0x8000_0000 <= value < 0x8000_0000 && (TypeOf(raw) == Some(Lint) || TypeOf(raw) == Some(Ulint))
    ensures PutDint(raw, element, value).Some? <==> TYPECODE_SIZE + 8 * element + 8 <= |raw|
    ensures PutDint(raw, element, value).Some? ==> GetLint(PutDint(raw, element, value).value, element) == Some(value)
  {
    if PutLint(raw, element, value).Some? {
      LintReadsBack(raw, element, value);
    }
  }

  // ---------------------------------------------------------------------------
  // Logix STRINGs
  // ---------------------------------------------------------------------------

  const STRING_MAX := 82
  const STRING_BUF := 84
  const STRING_LEN_BYTES := 4
  const STRING_STRIDE := 88

  /** Where the text of the first STRING element starts. */
  const TEXT_AT := 8

  function Min(a: nat, b: nat): nat {
    if a <= b then a else b
  }

  predicate IsString(raw: seq<byte>) {
    TypeOf(raw) == Some(Struct) && Rd16(raw, TYPECODE_SIZE) == Some(STRING_HANDLE)
  }

  /** A text up to its first NUL. */
  function UpToNul(text: seq<byte>): seq<byte> {
    text[..TextLength(text)]
  }

  /** An element as a text of at most `max` bytes with its terminator. */
  function GetString(raw: seq<byte>, element: nat, max: nat): Option<seq<byte>> {
    if max == 0 then None
    else
      match TypeOf(raw)
      case Some(String) =>
        if |raw| < TYPECODE_SIZE + 2 then None
        else
          var data := raw[TYPECODE_SIZE + 2..];
          Some(UpToNul(data[..Min(|data|, max - 1)]))
      case Some(Struct) =>
        var base := TYPECODE_SIZE + 2 + element * STRING_STRIDE;
        if !IsString(raw) || Rd16(raw, base).None? || base + STRING_LEN_BYTES > |raw| then None
        else
          var text := raw[base + STRING_LEN_BYTES..];
          Some(UpToNul(text[..Min(Min(Rd16(raw, base).value, max - 1), Min(|text|, STRING_BUF))]))
      case _ => None
  }

  /** A Logix STRING is told by its type and its handle. */
  lemma {:induction false} StringIsTold(raw: seq<byte>)
    ensures IsString(raw) <==> |raw| >= 4 && raw[..4] == [0xA0, 0x02, 0xCE, 0x0F]
  {
    if |raw| >= 4 {
      assert raw[..4] == [raw[0], raw[1], raw[2], raw[3]];
    }
  }

  /**
   * Element `el` of an array of Logix STRINGs, 88 bytes behind the one before, is read as the text its length announces,
   * and as far as its 84 bytes and the reader go.
   */
  lemma {:induction false} StringElementReads(lead: seq<byte>, el: nat, len: nat, pad: seq<byte>, text: seq<byte>, max: nat)
    requires |lead| == 4 + 88 * el && lead[..4] == [0xA0, 0x02, 0xCE, 0x0F] && len < 0x1_0000 && |pad| == 2 && max > 0
    ensures var n := Min(Min(len, max - 1), Min(|text|, 84));
            GetString(lead + (U16(len) + (pad + text)), el, max) == Some(UpToNul(text[..n]))
  {
    var raw := lead + (U16(len) + (pad + text));
    assert raw[..4] == lead[..4];
    StringIsTold(raw);
    assert lead + U16(len) + (pad + text) == raw;
    ReadU16(lead, len, pad + text);
    assert raw[|lead| + 4..] == text;
  }

  /** A plain CIP STRING is read behind its type and one more word. */
  lemma {:induction false} PlainStringReads(word: seq<byte>, text: seq<byte>, el: nat, max: nat)
    requires |word| == 2 && max > 0
    ensures GetString([0xD0, 0] + word + text, el, max) == Some(UpToNul(text[..Min(|text|, max - 1)]))
  {
    var raw := [0xD0, 0] + word + text;
    assert raw[4..] == text;
    assert TypeOf(raw) == Some(String);
  }

  /** How much of a text a STRING buffer takes: room is left for the NUL. */
  function StoredLength(raw: seq<byte>, value: seq<byte>): nat
    requires TEXT_AT < |raw|
  {
    Min(Min(|value|, |raw| - TEXT_AT - 1), STRING_MAX)
  }

  /** Sets the first STRING element; None when the buffer is no STRING. */
  function PutString(raw: seq<byte>, value: seq<byte>): (r: Option<seq<byte>>)
    ensures r.Some? ==> |r.value| == |raw|
  {
    if !IsString(raw) || TEXT_AT >= |raw| then None
    else
      var len := StoredLength(raw, value);
      match WriteSlice(raw, TEXT_AT - STRING_LEN_BYTES, U16(len))
      case None => None
      case Some(sized) =>
        match WriteSlice(sized, TEXT_AT, value[..len])
        case None => None
        case Some(filled) => Some(filled[TEXT_AT + len := 0])
  }

  /** A text is stored as its leading bytes, its length and a NUL; the type stays. */
  lemma {:induction false} StringStored(raw: seq<byte>, value: seq<byte>)
    requires IsString(raw) && TEXT_AT < |raw|
    ensures PutString(raw, value).Some?
    ensures var put, len := PutString(raw, value).value, StoredLength(raw, value);
            && len == Min(|value|, Min(82, |raw| - 9))
            && put[..4] == raw[..4] && Rd16(put, 4) == Some(len)
            && put[TEXT_AT..TEXT_AT + len] == value[..len] && put[TEXT_AT + len] == 0
  {
    var len := StoredLength(raw, value);
    var sized := WriteSlice(raw, 4, U16(len)).value;
    Rd16Written(raw, 4, len);
    var filled := WriteSlice(sized, TEXT_AT, value[..len]).value;
    assert filled[TEXT_AT..TEXT_AT + len] == value[..len];
    assert filled[..TEXT_AT] == sized[..TEXT_AT];
    assert sized[..4] == raw[..4];
  }

  /** Cutting a text at its first NUL leaves it whole exactly when it has none. */
  lemma {:induction false} UpToNulWhole(text: seq<byte>)
    ensures UpToNul(text) == text <==> 0 !in text
  {
    if text != [] {
      UpToNulWhole(text[1..]);
      var n := TextLength(text[1..]);
      if text[0] != 0 {
        assert text == [text[0]] + text[1..];
        assert n == |text[1..]| ==> UpToNul(text[1..]) == text[1..];
      }
    }
  }

  lemma {:induction false} GetStringOfFirst(raw: seq<byte>, max: nat, len: nat)
    requires IsString(raw) && TEXT_AT <= |raw| && max > 0 && Rd16(raw, 4) == Some(len)
    ensures GetString(raw, 0, max)
         == Some(UpToNul(raw[TEXT_AT..][..Min(Min(len, max - 1), Min(|raw| - TEXT_AT, STRING_BUF))]))
  {
    assert 0 * STRING_STRIDE == 0;
  }

  /** A staged text reads back whole exactly when it has no NUL and fits the buffer and the reader. */
  lemma {:induction false} StringReadsBack(raw: seq<byte>, value: seq<byte>, max: nat)
    requires IsString(raw) && TEXT_AT < |raw| && max > 0
    ensures PutString(raw, value).Some?
    ensures GetString(PutString(raw, value).value, 0, max) == Some(value)
       <==> 0 !in value && |value| <= StoredLength(raw, value) && |value| < max
  {
    StringStored(raw, value);
    var put, len := PutString(raw, value).value, StoredLength(raw, value);
    assert TypeOf(put) == TypeOf(raw) && Rd16(put, 2) == Rd16(raw, 2) by {
      assert forall k :: 0 <= k < 4 ==> put[k] == put[..4][k] == raw[k];
    }
    GetStringOfFirst(put, max, len);
    var n := Min(len, max - 1);
    var got := put[TEXT_AT..][..n];
    assert got == value[..n] by {
      assert got == put[TEXT_AT..TEXT_AT + len][..n];
    }
    if n == |value| {
      assert value[..n] == value;
      UpToNulWhole(value);
    }
  }
}
