/**
 * The mutable half of a tag: its raw value, the two flags of the write handshake and the
 * sizes learned from the probe read (drivers/ether-ip/src/driver.rs, drivers/ether-ip/src/device.rs).
 */
module TagBuffer {
  import opened Wrappers
  import opened Bytes
  import opened Bits
  import opened TagPath
  import opened Cip
  import opened Values
  import opened BitArray
  import opened Packing
  import opened Encap

  datatype TagData = TagData(
    buf: seq<byte>,  // raw [type][data], as the PLC returned it
    valid: nat,      // size of the valid value; 0 when there is none
    doWrite: bool,   // a write is staged and not yet taken by a pass
    isWriting: bool, // a pass has taken the write
    rReq: nat, rResp: nat, wReq: nat, wResp: nat)

  const FRESH := TagData([], 0, false, false, 0, 0, 0, 0)

  // ---------------------------------------------------------------------------
  // The scan thread's steps
  // ---------------------------------------------------------------------------

  /** The sizes after the probe read: its data, or None when the read failed. */
  function Probe(d: TagData, tag: Path, reply: Option<seq<byte>>): TagData {
    match reply
    case None => d.(rReq := 0, rResp := 0, wReq := 0, wResp := 0)
    case Some(data) =>
      var read := ReadDataSize(tag);
      d.(rReq := read, rResp := 4 + |data|,
         wReq := if data == [] then 0 else read + |data|,
         wResp := if data == [] then 0 else 4)
  }

  predicate Usable(d: TagData) {
    d.rReq != 0 && d.wReq != 0
  }

  /** A tag is used once a probe has brought a value of it, and no longer when it could not be read. */
  lemma {:induction false} UsableWhenProbed(d: TagData, tag: Path, reply: Option<seq<byte>>)
    ensures Usable(Probe(d, tag, reply)) <==> reply.Some? && reply.value != []
    ensures var after := Probe(d, tag, reply);
            && after == d.(rReq := after.rReq, rResp := after.rResp, wReq := after.wReq, wResp := after.wResp)
            && (reply == None ==> after.rReq == after.rResp == after.wReq == after.wResp == 0)
  {
  }

  /** The write half of the handshake taken; a write with nothing to write falls back to a read. */
  function Take(d: TagData): TagData {
    var writing := (d.doWrite || d.isWriting) && TypeOf(d.buf).Some?;
    d.(doWrite := false, isWriting := writing)
  }

  /** The budget of a tag's next request. */
  function CostOf(d: TagData): Cost {
    if Take(d).isWriting then Cost(d.wReq, d.wResp) else Cost(d.rReq, d.rResp)
  }

  /** A write of the whole buffer. */
  function WriteBytes(buf: seq<byte>, tag: Path, elements: nat, limit: nat): seq<byte>
    requires TypeOf(buf).Some?
  {
    var t, raw := TypeOf(buf).value, buf[TYPECODE_SIZE..];
    if t == Struct then WriteStringBytes(tag, elements, raw, limit) else WriteDataBytes(tag, t, elements, raw)
  }

  /** The request a pass builds; the element count goes out as 16 bits. */
  function RequestOf(d: TagData, tag: Path, elements: nat, limit: nat): seq<byte> {
    if Take(d).isWriting then WriteBytes(d.buf, tag, elements % 0x1_0000, limit)
    else ReadDataBytes(tag, elements % 0x1_0000)
  }

  /**
   * What a target finds in the request a pass builds: a read of the tag, or a write of it by the buffer's type; either for
   * the low 16 bits of its element count.
   */
  lemma {:induction false} RequestReachesTarget(d: TagData, tag: Path, elements: nat, limit: nat)
    requires PathWords(tag) < 0x100 && forall k :: 0 <= k < |tag| ==> Encodable(tag[k])
    requires |d.buf| < 0x1_0000
    ensures var request, writing := RequestOf(d, tag, elements, limit), (d.doWrite || d.isWriting) && |d.buf| >= 2;
            var count := elements - elements / 65536 * 65536;
            && (!writing ==> ReadFound(request) == Some((tag, count)))
            && (writing ==> FoundAs(WriteFound(request), d.buf, tag, count))
  {
    var count := elements % 0x1_0000;
    Low16(elements);
    if Take(d).isWriting {
      WriteFoundAs(d.buf, tag, count, limit);
    } else {
      ReadReachesTarget(tag, count);
    }
  }

  /** A write of a buffer as a target finds it: a text if it is a struct, else elements of its own type code. */
  ghost predicate FoundAs(found: Option<(Path, Asked)>, buf: seq<byte>, tag: Path, count: nat)
    requires |buf| >= 2
  {
    && found.Some? && found.value.0 == tag && found.value.1.count == count
    && found.value.1.Text? == (buf[..2] == [0xA0, 0x02])
    && (found.value.1.Elements? ==> Some(found.value.1.code) == Rd16(buf, 0))
  }

  lemma {:induction false} WriteFoundAs(buf: seq<byte>, tag: Path, count: nat, limit: nat)
    requires PathWords(tag) < 0x100 && forall k :: 0 <= k < |tag| ==> Encodable(tag[k])
    requires 2 <= |buf| < 0x1_0000 && count < 0x1_0000 && TypeOf(buf).Some?
    ensures FoundAs(WriteFound(WriteBytes(buf, tag, count, limit)), buf, tag, count)
  {
    TypeFromBuffer(buf);
    if TypeOf(buf) == Some(Struct) {
      TextReachesTarget(tag, count, buf[TYPECODE_SIZE..], limit);
    } else {
      ElementsFoundAs(buf, tag, count, limit);
    }
  }

  lemma {:induction false} ElementsFoundAs(buf: seq<byte>, tag: Path, count: nat, limit: nat)
    requires PathWords(tag) < 0x100 && forall k :: 0 <= k < |tag| ==> Encodable(tag[k])
    requires 2 <= |buf| && count < 0x1_0000 && TypeOf(buf).Some? && TypeOf(buf) != Some(Struct)
    ensures FoundAs(WriteFound(WriteBytes(buf, tag, count, limit)), buf, tag, count)
  {
    TypeFromBuffer(buf);
    CodeOfType(TypeOf(buf).value);
    WriteReachesTarget(tag, TypeOf(buf).value, count, buf[TYPECODE_SIZE..]);
  }

  /** A code and its type tell each other. */
  lemma {:induction false} CodeOfType(t: CipType)
    requires FromCode(Code(t)) == t
    ensures forall code: nat :: FromCode(code) == t ==> code == Code(t)
  {
  }

  lemma {:induction false} Low16(n: nat)
    ensures n % 0x1_0000 == n - n / 65536 * 65536
  {
  }

  lemma {:induction false} TypeFromBuffer(buf: seq<byte>)
    requires |buf| >= 2
    ensures TypeOf(buf).Some? && FromCode(Code(TypeOf(buf).value)) == TypeOf(buf).value
    ensures Some(Code(TypeOf(buf).value)) == Rd16(buf, 0)
    ensures TypeOf(buf) == Some(Struct) <==> buf[..2] == [0xA0, 0x02]
  {
    assert buf[..2] == [buf[0], buf[1]];
  }

  /** One reply applied to its tag. */
  function Apply(d: TagData, writing: bool, reply: seq<byte>): TagData {
    if writing then
      if GoodWriteReply(reply) then d.(isWriting := false) else d.(isWriting := false, valid := 0)
    else
      match ReadReplyData(reply)
      case None => d.(valid := 0)
      case Some(data) =>
        if data == [] then d.(valid := 0)
        else if d.doWrite then d
        else if |data| < BUFFER_SIZE then d.(buf := data, valid := |data|)
        else d.(valid := 0)
  }

  /** A write given back after a failed transfer, without sending it. */
  function Release(d: TagData, writing: bool): TagData {
    if writing then d.(isWriting := false) else d
  }

  function Invalidate(d: TagData): TagData {
    d.(isWriting := false, doWrite := false, valid := 0)
  }

  /** What a reply's bytes come to for its tag. */
  datatype Effect = Lost | Kept | Filled(data: seq<byte>)

  /**
   * A refused reply, and one to a read that brings no data or too many, loses the value. A good reply to a write, and one
   * to a read that a write was staged behind, keeps it. Any other brings a new one.
   */
  function EffectOf(staged: bool, writing: bool, reply: seq<byte>): Effect {
    if Refused(reply, if writing then 0x4D else 0x4C) then Lost
    else if writing then Kept
    else if ReplyBody(reply) == [] then Lost
    else if staged then Kept
    else if |ReplyBody(reply)| >= 580 then Lost
    else Filled(ReplyBody(reply))
  }

  /**
   * What a record finds after any reply: nothing to compare with once the value is lost, whatever it stages; the value and
   * its length as they were once it is kept; else the data of the reply. A write is taken no longer either way, and what
   * is staged stays so.
   */
  lemma {:induction false} ReplySettles(d: TagData, writing: bool, reply: seq<byte>, elements: nat, e: Edit)
    ensures var after := Apply(d, writing, reply);
            && (match EffectOf(d.doWrite, writing, reply)
                case Lost => after.valid == 0 && !Stageable(after, elements, e) && after.buf == d.buf
                case Kept => after.valid == d.valid && after.buf == d.buf && (Stageable(after, elements, e) <==> Stageable(d, elements, e))
                case Filled(data) => after.valid == |data| > 0 && after.buf == data && (Stageable(after, elements, e) <==> elements > e.element))
            && after == d.(buf := after.buf, valid := after.valid, isWriting := d.isWriting && !writing)
  {
    GoodReplies(reply);
  }

  lemma {:induction false} TakeTwice(d: TagData)
    ensures Take(Take(d)) == Take(d) && CostOf(Take(d)) == CostOf(d)
  {
  }

  // ---------------------------------------------------------------------------
  // The record's step
  // ---------------------------------------------------------------------------

  /** What an output record puts into the buffer; floating-point values are not modelled. */
  datatype Edit =
    | SetDint(element: nat, value: int)
    | SetLint(element: nat, value: int)
    | SetBits(element: nat, bit: nat, bits: nat, rval: nat)
    | SetText(element: nat, size: nat, text: seq<byte>)

  predicate WellFormed(e: Edit) {
    match e
    case SetDint(_, v) => -0x8000_0000 <= v < 0x8000_0000
    case SetLint(_, v) => -0x8000_0000_0000_0000 <= v < 0x8000_0000_0000_0000
    case SetBits(_, bit, bits, rval) => bit < 32 && bits <= 32 && rval < 0x1_0000_0000
    case SetText(_, _, _) => true
  }

  /** Whether the buffer can be read for this record and holds something else than its value. */
  predicate Differs(buf: seq<byte>, e: Edit) {
    match e
    case SetDint(el, v) =>
      !(TypeOf(buf) == Some(Real) || TypeOf(buf) == Some(Lreal)) && GetDint(buf, el).Some? && GetDint(buf, el) != Some(v)
    case SetLint(el, v) => GetLint(buf, el).Some? && GetLint(buf, el) != Some(v)
    case SetBits(el, bit, bits, rval) =>
      var now := BitsAt(buf, 32 * el + bit, Max1(bits));
      now.Some? && now != Some(rval)
    case SetText(el, size, text) => GetString(buf, el, size).Some? && GetString(buf, el, size) != Some(text)
  }

  /** What putting the record's value makes of the buffer; None of it when the put is refused. */
  ghost predicate Put(before: seq<byte>, e: Edit, after: seq<byte>, ok: bool) {
    match e
    case SetDint(el, v) =>
      ok == PutDint(before, el, v).Some? && after == if ok then PutDint(before, el, v).value else before
    case SetLint(el, v) =>
      ok == PutLint(before, el, v).Some? && after == if ok then PutLint(before, el, v).value else before
    case SetBits(el, bit, bits, rval) =>
      var n, count := 32 * el + bit, Max1(bits);
      ok == Reaches(before, n, count) && Scattered(before, after, n, n + count, rval)
    case SetText(_, _, text) =>
      ok == PutString(before, text).Some? && after == if ok then PutString(before, text).value else before
  }

  /** Whether a record finds a value to compare with: otherwise it only raises an alarm. */
  predicate Stageable(d: TagData, elements: nat, e: Edit) {
    d.valid > 0 && elements > e.element
  }

  /** The record's value put into the buffer if another one is there; `changed` tells whether it was. */
  ghost predicate Edited(d: TagData, e: Edit, after: TagData, changed: bool) {
    && after == d.(buf := after.buf)
    && if Differs(d.buf, e) then Put(d.buf, e, after.buf, changed) else after == d && !changed
  }

  /** The record's value staged and the write flagged, or nothing done; `staged` tells which. */
  ghost predicate Stages(d: TagData, elements: nat, e: Edit, after: TagData, staged: bool) {
    if Stageable(d, elements, e) then
      && Edited(d, e, d.(buf := after.buf), staged)
      && after == if staged then d.(buf := after.buf, doWrite := true) else d.(buf := after.buf)
    else after == d && !staged
  }

  lemma {:induction false} LintWritable(buf: seq<byte>, el: nat, v: int)
    requires GetLint(buf, el).Some?
    ensures PutLint(buf, el, v).Some?
  {
  }

  lemma {:induction false} DintWritable(buf: seq<byte>, el: nat, v: int)
    requires GetDint(buf, el).Some?
    ensures PutDint(buf, el, v).Some?
  {
    WritableWhenReadable(buf, el, v % 0x1_0000_0000);
  }

  /** Put of a readable value fails only for a text in a plain CIP STRING or a too short STRING. */
  lemma {:induction false} PutSucceeds(buf: seq<byte>, e: Edit, after: seq<byte>, ok: bool)
    requires WellFormed(e) && Differs(buf, e) && Put(buf, e, after, ok)
    ensures ok <==> (e.SetText? ==> IsString(buf) && |buf| > TEXT_AT)
    ensures !ok ==> after == buf
  {
    match e
    case SetDint(el, v) => DintWritable(buf, el, v);
    case SetLint(el, v) => LintWritable(buf, el, v);
    case SetBits(_, _, _, _) =>
    case SetText(_, _, text) =>
      if IsString(buf) && |buf| > TEXT_AT {
        StringStored(buf, text);
      }
  }

  lemma {:induction false} PutKeepsShape(before: seq<byte>, e: Edit, after: seq<byte>, ok: bool)
    requires Put(before, e, after, ok)
    ensures |after| == |before| && TypeOf(after) == TypeOf(before)
  {
    match e
    case SetDint(el, v) =>
      if ok {
        DintKeepsType(before, el, v);
      }
    case SetLint(el, v) =>
      if ok {
        SliceKeepsType(before, ElementOffset(TypeOf(before).value, el), U64(v % 0x1_0000_0000_0000_0000));
      }
    case SetBits(_, _, _, _) =>
    case SetText(_, _, text) =>
      if ok {
        StringStored(before, text);
        assert after[0] == after[..4][0] == before[0] && after[1] == after[..4][1] == before[1];
      }
  }

  lemma {:induction false} DintKeepsType(raw: seq<byte>, el: nat, v: int)
    requires PutDint(raw, el, v).Some?
    ensures TypeOf(PutDint(raw, el, v).value) == TypeOf(raw)
  {
    var t := TypeOf(raw).value;
    if t == Lint || t == Ulint {
      SliceKeepsType(raw, ElementOffset(t, el), U64(v % 0x1_0000_0000_0000_0000));
    } else {
      SliceKeepsType(raw, ElementOffset(t, el), PatternBytes(t, v % 0x1_0000_0000).value);
    }
  }

  /** The value the record would find in the buffer. */
  predicate Carries(buf: seq<byte>, e: Edit) {
    match e
    case SetDint(el, v) => GetDint(buf, el) == Some(v)
    case SetLint(el, v) => GetLint(buf, el) == Some(v)
    case SetBits(el, bit, bits, rval) =>
      BitsAt(buf, 32 * el + bit, Max1(bits)) == Some(rval % Pow2(Max1(bits)))
    case SetText(el, size, text) => GetString(buf, el, size) == Some(text)
  }

  /** Every bit set in a value has a place in the words of this buffer. */
  predicate BitsFit(buf: seq<byte>, n: nat, count: nat, rval: nat) {
    forall i :: 0 <= i < count && Bit(rval, i) ==> TypeOf(buf).Some? && (n + i) % 32 < Width(TypeOf(buf).value)
  }

  /** A bit that has no place in its word stays clear. */
  lemma {:induction false} ScatteredBit(before: seq<byte>, after: seq<byte>, n: nat, count: nat, rval: nat, i: nat)
    requires i < count && Reaches(before, n, count) && Scattered(before, after, n, n + count, rval)
    ensures Flat(after, n + i) <==> (n + i) % 32 < Width(TypeOf(before).value) && Bit(rval, i)
  {
    var m := n + i;
    ReadableBelow(before, m / 32, (n + count - 1) / 32);
    WordFits(before, m / 32, m % 32);
    assert Flat(after, m) <==> if Holds(before, m) then Bit(rval, m - n) else Flat(before, m);
  }

  lemma {:induction false} BitsHeld(before: seq<byte>, n: nat, count: nat, rval: nat, after: seq<byte>)
    requires count > 0 && Reaches(before, n, count) && Scattered(before, after, n, n + count, rval)
    ensures BitsAt(after, n, count) == Some(rval % Pow2(count)) <==> BitsFit(before, n, count, rval)
  {
    if BitsFit(before, n, count, rval) {
      forall i | 0 <= i < count
        ensures Flat(after, n + i) <==> Bit(rval, i)
      {
        ScatteredBit(before, after, n, count, rval, i);
      }
      GatheredIs(after, n, count, rval);
    } else {
      var i :| 0 <= i < count && Bit(rval, i) && (n + i) % 32 >= Width(TypeOf(before).value);
      ScatteredBit(before, after, n, count, rval, i);
      GatheredBit(after, n, count, i);
      BitOfMod(rval, count, i);
    }
  }

  /** A 32-bit number in an element's range. */
  predicate InRange(t: CipType, v: int) {
    match t
    case Bool | Sint => 0 <= v < 0x100
    case Int | Uint => -0x8000 <= v < 0x8000
    case _ => true
  }

  lemma {:induction false} CutReads(t: CipType, v: int)
    requires -0x8000_0000 <= v < 0x8000_0000
    ensures t.Bool? || t.Sint? ==> (Cut(t, v % 0x1_0000_0000) == v <==> InRange(t, v))
    ensures t.Int? || t.Uint? ==> (AsInt(Cut(t, v % 0x1_0000_0000), 0x1_0000) == v <==> InRange(t, v))
  {
    assert v % 0x1_0000_0000 == if v < 0 then v + 0x1_0000_0000 else v;
  }

  lemma {:induction false} DintHeld(before: seq<byte>, el: nat, v: int)
    requires -0x8000_0000 <= v < 0x8000_0000 && GetDint(before, el).Some? && PutDint(before, el, v).Some?
    ensures GetDint(PutDint(before, el, v).value, el) == Some(v) <==> InRange(TypeOf(before).value, v)
  {
    var t := TypeOf(before).value;
    if t == Dint || t == Bits {
      DintReadsBack(before, el, v);
    } else {
      DintKeepsType(before, el, v);
      PatternReadsBack(before, el, v % 0x1_0000_0000);
      CutReads(t, v);
    }
  }

  /** A text put into the first STRING leaves all others alone. */
  lemma {:induction false} OtherTextKept(before: seq<byte>, el: nat, size: nat, text: seq<byte>)
    requires el > 0 && PutString(before, text).Some?
    ensures GetString(PutString(before, text).value, el, size) == GetString(before, el, size)
  {
    StringStored(before, text);
    var after, base := PutString(before, text).value, TYPECODE_SIZE + 2 + el * STRING_STRIDE;
    assert forall k :: 0 <= k < 4 ==> after[k] == after[..4][k] == before[k];
    assert base >= 92;
    TextStaysInElement(before, text);
    if base <= |before| {
      assert after[base..] == after[92..][base - 92..] == before[base..];
      assert base + STRING_LEN_BYTES <= |before| ==> after[base + 4..] == after[base..][4..];
      assert base + STRING_LEN_BYTES <= |before| ==> before[base + 4..] == before[base..][4..];
      assert base + 2 <= |before| ==> after[base] == after[base..][0] && after[base + 1] == after[base..][1];
    }
  }

  lemma {:induction false} TextStaysInElement(before: seq<byte>, text: seq<byte>)
    requires PutString(before, text).Some?
    ensures |before| >= 92 ==> PutString(before, text).value[92..] == before[92..]
  {
    var len := StoredLength(before, text);
    var sized := WriteSlice(before, 4, U16(len)).value;
    var filled := WriteSlice(sized, TEXT_AT, text[..len]).value;
    assert PutString(before, text).value == filled[TEXT_AT + len := 0];
  }

  lemma {:induction false} TextHeld(before: seq<byte>, el: nat, size: nat, text: seq<byte>)
    requires PutString(before, text).Some? && GetString(before, el, size).Some? && GetString(before, el, size) != Some(text)
    ensures GetString(PutString(before, text).value, el, size) == Some(text)
       <==> el == 0 && 0 !in text && |text| < size && |text| <= StoredLength(before, text)
  {
    if el == 0 {
      StringReadsBack(before, text, size);
    } else {
      OtherTextKept(before, el, size, text);
    }
  }

  /** Whether a buffer can hold the record's value without cutting it. */
  predicate HasRoom(buf: seq<byte>, e: Edit) {
    match e
    case SetDint(_, v) => TypeOf(buf).Some? && InRange(TypeOf(buf).value, v)
    case SetLint(_, _) => true
    case SetBits(el, bit, bits, rval) => BitsFit(buf, 32 * el + bit, Max1(bits), rval)
    case SetText(el, size, text) =>
      el == 0 && 0 !in text && |text| < size && |buf| > TEXT_AT && |text| <= StoredLength(buf, text)
  }

  lemma {:induction false} BitsEditHeld(before: seq<byte>, e: Edit, after: seq<byte>)
    requires e.SetBits? && Put(before, e, after, true)
    ensures Carries(after, e) <==> HasRoom(before, e)
    ensures !Differs(after, e) <==> HasRoom(before, e) && e.rval < Pow2(Max1(e.bits))
  {
    var n, count := 32 * e.element + e.bit, Max1(e.bits);
    BitsHeld(before, n, count, e.rval, after);
    BitsOnce(before, after, n, count, e.rval);
  }

  lemma {:induction false} DintEditHeld(before: seq<byte>, e: Edit, after: seq<byte>)
    requires WellFormed(e) && e.SetDint? && Put(before, e, after, true) && Differs(before, e)
    ensures Carries(after, e) <==> HasRoom(before, e)
    ensures !Differs(after, e) <==> HasRoom(before, e)
  {
    DintHeld(before, e.element, e.value);
    StillReadable(before, e.element, e.value);
    DintKeepsType(before, e.element, e.value);
  }

  lemma {:induction false} LintEditHeld(before: seq<byte>, e: Edit, after: seq<byte>)
    requires WellFormed(e) && e.SetLint? && Put(before, e, after, true)
    ensures Carries(after, e) && HasRoom(before, e) && !Differs(after, e)
  {
    LintReadsBack(before, e.element, e.value);
  }

  lemma {:induction false} TextEditHeld(before: seq<byte>, e: Edit, after: seq<byte>)
    requires e.SetText? && Put(before, e, after, true) && Differs(before, e)
    ensures Carries(after, e) <==> HasRoom(before, e)
    ensures !Differs(after, e) <==> HasRoom(before, e)
  {
    TextHeld(before, e.element, e.size, e.text);
    TextStillThere(before, e.element, e.size, e.text);
  }

  /**
   * A staged value is what the record finds afterwards exactly when the buffer has room for it. It is not staged
   * again exactly then, and, of a bit record, when it has no more bits than the record: any other is put into the
   * buffer on every process.
   */
  lemma {:induction false} StagedValueHeld(before: seq<byte>, e: Edit, after: seq<byte>)
    requires WellFormed(e) && Put(before, e, after, true) && Differs(before, e)
    ensures Carries(after, e) <==> HasRoom(before, e)
    ensures !Differs(after, e) <==> HasRoom(before, e) && (e.SetBits? ==> e.rval < Pow2(Max1(e.bits)))
  {
    match e {
      case SetDint(_, _) => DintEditHeld(before, e, after);
      case SetLint(_, _) => LintEditHeld(before, e, after);
      case SetBits(_, _, _, _) => BitsEditHeld(before, e, after);
      case SetText(_, _, _) => TextEditHeld(before, e, after);
    }
  }

  lemma {:induction false} StillReadable(before: seq<byte>, el: nat, v: int)
    requires GetDint(before, el).Some? && PutDint(before, el, v).Some?
    ensures GetDint(PutDint(before, el, v).value, el).Some?
  {
    DintKeepsType(before, el, v);
    ReadableElements(before, el);
    ReadableElements(PutDint(before, el, v).value, el);
  }

  lemma {:induction false} BitsOnce(before: seq<byte>, after: seq<byte>, n: nat, count: nat, rval: nat)
    requires count > 0 && Reaches(before, n, count) && Scattered(before, after, n, n + count, rval)
    ensures BitsAt(after, n, count).Some?
    ensures BitsAt(after, n, count) == Some(rval) <==> BitsFit(before, n, count, rval) && rval < Pow2(count)
  {
    BitsHeld(before, n, count, rval, after);
    GatheredBound(after, n, count);
    if rval < Pow2(count) {
      SmallMod(rval, Pow2(count));
    }
  }

  lemma {:induction false} SmallMod(a: nat, b: nat)
    requires a < b
    ensures a % b == a
  {
  }

  lemma {:induction false} TextStillThere(before: seq<byte>, el: nat, size: nat, text: seq<byte>)
    requires GetString(before, el, size).Some? && PutString(before, text).Some?
    ensures GetString(PutString(before, text).value, el, size).Some?
  {
    if el > 0 {
      OtherTextKept(before, el, size, text);
    } else {
      StringStored(before, text);
      var after := PutString(before, text).value;
      assert forall k :: 0 <= k < 4 ==> after[k] == after[..4][k] == before[k];
      GetStringOfFirst(after, size, StoredLength(before, text));
    }
  }

  // ---------------------------------------------------------------------------
  // Requests against their budgets
  // ---------------------------------------------------------------------------

  /**
   * Sized by a probe at this element count, and every later value as long as the probe's:
   * a value of fixed-size elements holds exactly that many of them.
   */
  predicate SizedFor(d: TagData, tag: Path, elements: nat) {
    && TypeOf(d.buf).Some?
    && d == Probe(d, tag, Some(d.buf))
    && (Size(TypeOf(d.buf).value) > 0 ==> |d.buf| == TYPECODE_SIZE + Size(TypeOf(d.buf).value) * elements)
    && (TypeOf(d.buf) == Some(Struct) ==> |d.buf| >= TEXT_AT)
  }

  /** The text of a STRING value. */
  function TextOf(buf: seq<byte>): seq<byte>
    requires |buf| >= TYPECODE_SIZE
  {
    StringText(buf[TYPECODE_SIZE..])
  }

  lemma {:induction false} WriteBodyWithin(d: TagData, tag: Path, elements: nat, limit: nat)
    requires SizedFor(d, tag, elements) && TypeOf(d.buf) != Some(Struct)
    ensures |WriteBytes(d.buf, tag, elements, limit)| <= d.wReq
  {
    RequestSizesAreExact(tag, TypeOf(d.buf).value, elements, d.buf[TYPECODE_SIZE..], limit);
  }

  lemma {:induction false} TextWriteSize(d: TagData, tag: Path, elements: nat, limit: nat)
    requires SizedFor(d, tag, elements) && TypeOf(d.buf) == Some(Struct)
    ensures |WriteBytes(d.buf, tag, elements, limit)|
         == d.wReq + 1 + SentLength(tag, d.buf[TYPECODE_SIZE..], limit) - |TextOf(d.buf)|
  {
    RequestSizesAreExact(tag, Struct, elements, d.buf[TYPECODE_SIZE..], limit);
  }

  /** A text is sent short of its last byte exactly when it holds a NUL or the limit cuts it. */
  lemma {:induction false} SentShort(tag: Path, raw: seq<byte>, limit: nat)
    requires |raw| >= TEXT_OFF
    ensures SentLength(tag, raw, limit) < |StringText(raw)|
       <==> StringText(raw) != []
            && (0 in StringText(raw) || StringHeadSize(tag) + |StringText(raw)| + 1 > limit)
  {
    var text := StringText(raw);
    UpToNulWhole(text);
    if TextLength(text) == |text| {
      assert text[..|text|] == text;
    }
  }

  /** Whether the whole text of a STRING would be sent although it brings no NUL of its own. */
  predicate SentWithoutNul(buf: seq<byte>, tag: Path, limit: nat)
    requires |buf| >= TYPECODE_SIZE
  {
    var text := TextOf(buf);
    TypeOf(buf) == Some(Struct) && (text == [] || (0 !in text && StringHeadSize(tag) + |text| + 1 <= limit))
  }

  lemma {:induction false} WriteKeepsToBudget(d: TagData, tag: Path, elements: nat, limit: nat)
    requires SizedFor(d, tag, elements)
    ensures var size := |WriteBytes(d.buf, tag, elements, limit)|;
            size <= d.wReq + 1 && (size == d.wReq + 1 <==> SentWithoutNul(d.buf, tag, limit))
  {
    if TypeOf(d.buf) != Some(Struct) {
      WriteBodyWithin(d, tag, elements, limit);
    } else {
      TextWriteSize(d, tag, elements, limit);
      SentShort(tag, d.buf[TYPECODE_SIZE..], limit);
    }
  }

  /** The value as a write carries it: what is behind type and count or, of a STRING, behind its length. */
  function ValueOnWire(buf: seq<byte>, tag: Path, elements: nat, limit: nat): seq<byte>
    requires TypeOf(buf).Some?
  {
    var request := WriteBytes(buf, tag, elements, limit);
    var head := if TypeOf(buf) == Some(Struct) then StringHeadSize(tag) else WriteDataSize(tag, 0);
    if head <= |request| then request[head..] else []
  }

  /** The whole value of a buffer: all its data or, of a STRING, its text with a NUL. */
  function WholeValue(buf: seq<byte>): seq<byte>
    requires TypeOf(buf).Some?
  {
    if TypeOf(buf) == Some(Struct) then UpToNul(TextOf(buf)) + [0] else buf[TYPECODE_SIZE..]
  }

  /** The buffer holds just the elements a write is for, or its text fits the limit. */
  predicate SentWhole(buf: seq<byte>, tag: Path, elements: nat, limit: nat)
    requires TypeOf(buf).Some?
  {
    if TypeOf(buf) == Some(Struct) then
      var text := UpToNul(TextOf(buf));
      text == [] || StringHeadSize(tag) + |text| + 1 <= limit
    else |buf| == TYPECODE_SIZE + Size(TypeOf(buf).value) * elements
  }

  lemma {:induction false} Behind(head: seq<byte>, body: seq<byte>, n: nat)
    requires n == |head|
    ensures n <= |head + body| && (head + body)[n..] == body
  {
  }

  /** The data of a write are the buffer's, cut or filled up with zeros to the elements it is for. */
  lemma {:induction false} DataOnWire(buf: seq<byte>, tag: Path, elements: nat, limit: nat)
    requires TypeOf(buf).Some? && TypeOf(buf) != Some(Struct)
    ensures ValueOnWire(buf, tag, elements, limit) == Payload(buf[TYPECODE_SIZE..], Size(TypeOf(buf).value) * elements)
  {
    var t, raw := TypeOf(buf).value, buf[TYPECODE_SIZE..];
    var data := Payload(raw, Size(t) * elements);
    TagHeadSize(WRITE_DATA, tag);
    Assoc(TagHead(WRITE_DATA, tag), U16(Code(t)) + U16(elements), data);
    Behind(TagHead(WRITE_DATA, tag) + (U16(Code(t)) + U16(elements)), data, WriteDataSize(tag, 0));
  }

  lemma {:induction false} TextOnWire(buf: seq<byte>, tag: Path, elements: nat, limit: nat)
    requires TypeOf(buf) == Some(Struct)
    ensures ValueOnWire(buf, tag, elements, limit)
         == TextOf(buf)[..SentLength(tag, buf[TYPECODE_SIZE..], limit)] + [0]
  {
    var sent := TextOf(buf)[..SentLength(tag, buf[TYPECODE_SIZE..], limit)];
    TagHeadSize(WRITE_DATA, tag);
    Assoc(TagHead(WRITE_DATA, tag), StringHead(elements, |sent|), sent + [0]);
    Behind(TagHead(WRITE_DATA, tag) + StringHead(elements, |sent|), sent + [0], StringHeadSize(tag));
  }

  lemma {:induction false} PayloadWhole(raw: seq<byte>, want: nat)
    ensures Payload(raw, want) == raw <==> |raw| == want
  {
    if want == |raw| {
      assert raw[..want] == raw;
    }
  }

  /** A write carries the whole value of its buffer exactly when it is for all of it, and a text fits the limit. */
  lemma {:induction false} CarriedWholeWhen(buf: seq<byte>, tag: Path, elements: nat, limit: nat)
    requires TypeOf(buf).Some?
    ensures ValueOnWire(buf, tag, elements, limit) == WholeValue(buf) <==> SentWhole(buf, tag, elements, limit)
  {
    if TypeOf(buf) == Some(Struct) {
      var text := TextOf(buf);
      var n := SentLength(tag, buf[TYPECODE_SIZE..], limit);
      TextOnWire(buf, tag, elements, limit);
      assert |text[..n] + [0]| == n + 1 && |UpToNul(text) + [0]| == TextLength(text) + 1;
    } else {
      DataOnWire(buf, tag, elements, limit);
      PayloadWhole(buf[TYPECODE_SIZE..], Size(TypeOf(buf).value) * elements);
    }
  }

  lemma {:induction false} CountFits(elements: nat)
    requires elements < 0x1_0000
    ensures elements % 0x1_0000 == elements
  {
  }

  /**
   * A tag probed at its element count: a read is exactly its budget, and a write keeps to its
   * budget except for a STRING whose whole text is sent without a NUL of its own, which takes
   * exactly one byte more.
   */
  lemma {:induction false} RequestsKeepToBudget(d: TagData, tag: Path, elements: nat, limit: nat)
    requires SizedFor(d, tag, elements) && elements < 0x1_0000
    ensures var size, budget := |RequestOf(d, tag, elements, limit)|, CostOf(d).req;
            && (!Take(d).isWriting ==> size == budget)
            && size <= budget + 1
            && (size == budget + 1 <==> Take(d).isWriting && SentWithoutNul(d.buf, tag, limit))
  {
    CountFits(elements);
    if Take(d).isWriting {
      WriteKeepsToBudget(d, tag, elements, limit);
    } else {
      RequestSizesAreExact(tag, Bool, elements, [], limit);
    }
  }

  /** The buffer of a staged text always holds a NUL, so its write keeps to the budget. */
  lemma {:induction false} StagedTextHasNul(before: seq<byte>, text: seq<byte>)
    requires PutString(before, text).Some?
    ensures 0 in TextOf(PutString(before, text).value)
  {
    StringStored(before, text);
    var put, len := PutString(before, text).value, StoredLength(before, text);
    assert TextOf(put) == put[TEXT_AT..];
    assert put[TEXT_AT..][len] == 0;
  }

  /** Assembled from requests within their budgets, a MultiRequest that fits is at most `limit` bytes. */
  lemma {:induction false} AssembledWithinLimit(requests: seq<seq<byte>>, costs: seq<Cost>, limit: nat)
    requires |requests| == |costs| && Fits(limit, costs)
    requires forall k :: 0 <= k < |requests| ==> |requests[k]| <= costs[k].req
    ensures |MultiRequestBytes(requests)| <= limit
  {
    MultiRequestSizeIsExact(requests);
    ConcatWithin(requests, costs);
  }

  /** Answered by replies within their budgets, it has a reply of at most `limit` bytes. */
  lemma {:induction false} AnsweredWithinLimit(head: seq<byte>, replies: seq<seq<byte>>, costs: seq<Cost>, limit: nat)
    requires |head| == 4 && |replies| == |costs| && Fits(limit, costs)
    requires forall k :: 0 <= k < |replies| ==> |replies[k]| <= costs[k].resp
    ensures |MultiReplyBytes(head, [], replies)| <= limit
  {
    MultiResponseSizeIsExact(head, replies);
    RepliesWithin(replies, costs);
  }

  lemma {:induction false} RepliesWithin(replies: seq<seq<byte>>, costs: seq<Cost>)
    requires |replies| == |costs|
    requires forall k :: 0 <= k < |replies| ==> |replies[k]| <= costs[k].resp
    ensures |Concat(replies)| <= Responses(costs)
  {
    if replies != [] {
      RepliesWithin(replies[1..], costs[1..]);
    }
  }

  /** A good reply without extended status: to a write, or to a read with this data. */
  function GoodReply(writing: bool, data: seq<byte>): seq<byte> {
    if writing then [0xCD, 0, 0, 0] else [0xCC, 0, 0, 0] + data
  }

  /** The reply to a probed tag's next request is exactly as long as its budget, as long as the tag's data are. */
  lemma {:induction false} RepliesKeepToBudget(d: TagData, tag: Path, elements: nat, data: seq<byte>)
    requires SizedFor(d, tag, elements) && |data| == |d.buf|
    ensures |GoodReply(Take(d).isWriting, data)| == CostOf(d).resp
    ensures EffectOf(false, Take(d).isWriting, GoodReply(Take(d).isWriting, data))
         == if Take(d).isWriting then Kept else if |data| < 580 then Filled(data) else Lost
  {
    var reply := GoodReply(Take(d).isWriting, data);
    assert !Take(d).isWriting ==> reply[4..] == data;
  }

  lemma {:induction false} ConcatWithin(requests: seq<seq<byte>>, costs: seq<Cost>)
    requires |requests| == |costs|
    requires forall k :: 0 <= k < |requests| ==> |requests[k]| <= costs[k].req
    ensures |Concat(requests)| <= Requests(costs)
  {
    if requests != [] {
      ConcatWithin(requests[1..], costs[1..]);
    }
  }
}
