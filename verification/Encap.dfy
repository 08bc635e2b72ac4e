/** The EtherNet/IP encapsulation of a message and back (drivers/ether-ip/src/encap.rs). */
module Encap {
  import opened Wrappers
  import opened Bytes
  import opened Numerals

  const BUFFER_SIZE := 580
  const HEADER_SIZE := 24
  const RRDATA_SIZE := 40
  const SEND_RR_DATA := 0x006F

  // ---------------------------------------------------------------------------
  // Transaction ids
  // ---------------------------------------------------------------------------

  const ID_MIN := 1
  const ID_MAX := 0x7FFF_FFFF

  /** Eight uppercase hex digits. */
  function IdOf(n: nat): (id: seq<byte>)
    requires n < 0x1_0000_0000
    ensures |id| == 8
  {
    HexLength32(n, true);
    var digits := Numeral(n, 16, true);
    Repeat(ZERO, 8 - |digits|) + digits
  }

  /** Different counters give different ids. */
  lemma {:induction false} IdsDiffer(m: nat, n: nat)
    requires m < 0x1_0000_0000 && n < 0x1_0000_0000 && IdOf(m) == IdOf(n)
    ensures m == n
  {
    IdValue(m);
    IdValue(n);
  }

  lemma {:induction false} IdValue(n: nat)
    requires n < 0x1_0000_0000
    ensures Value(IdOf(n), 16) == n
  {
    HexLength32(n, true);
    var digits := Numeral(n, 16, true);
    LeadingZeros(8 - |digits|, digits, 16);
    NumeralValue(n, 16, true);
  }

  /** The counter after `n`: back to 1 before `ID_MAX`. */
  function NextId(n: nat): nat {
    if n + 1 >= ID_MAX then ID_MIN else n + 1
  }

  function IdAfter(n: nat, steps: nat): nat {
    if steps == 0 then n else NextId(IdAfter(n, steps - 1))
  }

  lemma {:induction false} IdAfterIs(n: nat, steps: nat)
    requires ID_MIN <= n < ID_MAX && n - 1 + steps < 2 * (ID_MAX - 1)
    ensures IdAfter(n, steps) == if n + steps < ID_MAX then n + steps else n + steps - (ID_MAX - 1)
  {
    if steps > 0 {
      IdAfterIs(n, steps - 1);
    }
  }

  /** The counter runs round: 2^31 - 2 steps on it is where it was, and an id is spelled in capital hexadecimal digits. */
  lemma {:induction false} IdsRunRound(n: nat)
    requires 1 <= n < 0x7FFF_FFFF
    ensures IdAfter(n, 0x7FFF_FFFE) == n && Value(IdOf(n), 16) == n && |IdOf(n)| == 8
  {
    IdAfterIs(n, 0x7FFF_FFFE);
    IdValue(n);
  }

  /** No id repeats within 2^31 - 2 consecutive ones. */
  lemma {:induction false} IdsRunDistinct(n: nat, i: nat, j: nat)
    requires 1 <= n < 0x7FFF_FFFF && i < j < 0x7FFF_FFFE
    ensures 1 <= IdAfter(n, i) < 0x7FFF_FFFF && 1 <= IdAfter(n, j) < 0x7FFF_FFFF
    ensures IdOf(IdAfter(n, i)) != IdOf(IdAfter(n, j))
  {
    IdAfterIs(n, i);
    IdAfterIs(n, j);
    if IdOf(IdAfter(n, i)) == IdOf(IdAfter(n, j)) {
      IdsDiffer(IdAfter(n, i), IdAfter(n, j));
    }
  }

  /** The process-wide counter. */
  class TransactionIds {
    var next: nat

    ghost predicate Valid()
      reads this
    {
      ID_MIN <= next < ID_MAX
    }

    constructor ()
      ensures Valid()
    {
      next := ID_MIN;
    }

    method Generate() returns (id: seq<byte>)
      requires Valid()
      modifies this
      ensures Valid() && next == NextId(old(next)) && id == IdOf(old(next))
    {
      id := IdOf(next);
      next := if next + 1 >= ID_MAX then ID_MIN else next + 1;
    }
  }

  // ---------------------------------------------------------------------------
  // The header
  // ---------------------------------------------------------------------------

  datatype Header = Header(command: nat, length: nat, session: nat, status: nat, id: seq<byte>, options: nat)

  /** A request header; its status is always 0. */
  function HeaderBytes(command: nat, length: nat, session: nat, id: seq<byte>, options: nat): (h: seq<byte>)
    ensures |h| == 16 + |id|
  {
    U16(command) + (U16(length) + (U32(session) + (U32(0) + (id + U32(options)))))
  }

  method EncodeHeader(command: nat, length: nat, session: nat, id: seq<byte>, options: nat, out: Vec)
    modifies out
    ensures out.bytes == old(out.bytes) + HeaderBytes(command, length, session, id, options)
  {
    ghost var b0 := out.bytes;
    out.Extend(U16(command));
    ghost var b1 := out.bytes;
    out.Extend(U16(length));
    ghost var b2 := out.bytes;
    out.Extend(U32(session));
    ghost var b3 := out.bytes;
    out.Extend(U32(0));
    ghost var b4 := out.bytes;
    out.Extend(id);
    out.Extend(U32(options));
    Assoc(b4, id, U32(options));
    Assoc(b3, U32(0), id + U32(options));
    Assoc(b2, U32(session), U32(0) + (id + U32(options)));
    Assoc(b1, U16(length), U32(session) + (U32(0) + (id + U32(options))));
    Assoc(b0, U16(command), U16(length) + (U32(session) + (U32(0) + (id + U32(options)))));
  }

  function DecodeHeader(buf: seq<byte>): Option<Header> {
    if |buf| < HEADER_SIZE then None
    else
      Some(Header(Rd16(buf, 0).value, Rd16(buf, 2).value, Rd32(buf, 4).value, Rd32(buf, 8).value,
                  buf[12..20], Rd32(buf, 20).value))
  }

  lemma {:induction false} HeaderField16(pre: seq<byte>, n: nat, post: seq<byte>, buf: seq<byte>, at: nat)
    requires buf == pre + (U16(n) + post) && |pre| == at && n < 0x1_0000
    ensures Rd16(buf, at) == Some(n)
  {
    Assoc(pre, U16(n), post);
    ReadU16(pre, n, post);
  }

  lemma {:induction false} HeaderField32(pre: seq<byte>, n: nat, post: seq<byte>, buf: seq<byte>, at: nat)
    requires buf == pre + (U32(n) + post) && |pre| == at && n < 0x1_0000_0000
    ensures Rd32(buf, at) == Some(n)
  {
    Assoc(pre, U32(n), post);
    ReadU32(pre, n, post);
  }

  lemma {:induction false} FirstHalfDecodes(command: nat, length: nat, session: nat, tail: seq<byte>, buf: seq<byte>)
    requires command < 0x1_0000 && length < 0x1_0000 && session < 0x1_0000_0000
    requires buf == U16(command) + (U16(length) + (U32(session) + tail))
    ensures Rd16(buf, 0) == Some(command) && Rd16(buf, 2) == Some(length) && Rd32(buf, 4) == Some(session)
    ensures buf == (U16(command) + U16(length) + U32(session)) + tail
  {
    var t2 := U32(session) + tail;
    assert [] + buf == buf;
    HeaderField16([], command, U16(length) + t2, buf, 0);
    HeaderField16(U16(command), length, t2, buf, 2);
    Assoc(U16(command), U16(length), t2);
    HeaderField32(U16(command) + U16(length), session, tail, buf, 4);
    Assoc(U16(command) + U16(length), U32(session), tail);
  }

  lemma {:induction false} SecondHalfDecodes(head: seq<byte>, id: seq<byte>, options: nat, rest: seq<byte>, buf: seq<byte>)
    requires |head| == 8 && |id| == 8 && options < 0x1_0000_0000
    requires buf == head + (U32(0) + (id + (U32(options) + rest)))
    ensures Rd32(buf, 8) == Some(0) && buf[12..20] == id && Rd32(buf, 20) == Some(options)
  {
    var t5 := U32(options) + rest;
    HeaderField32(head, 0, id + t5, buf, 8);
    Assoc(head, U32(0), id + t5);
    assert buf[12..20] == id;
    Assoc(head + U32(0), id, t5);
    HeaderField32(head + U32(0) + id, options, rest, buf, 20);
  }

  /** An encoded header decodes to its fields. */
  lemma {:induction false} HeaderDecodes(command: nat, length: nat, session: nat, id: seq<byte>, options: nat, rest: seq<byte>)
    requires |id| == 8 && command < 0x1_0000 && length < 0x1_0000
    requires session < 0x1_0000_0000 && options < 0x1_0000_0000
    ensures DecodeHeader(HeaderBytes(command, length, session, id, options) + rest)
         == Some(Header(command, length, session, 0, id, options))
  {
    var tail := U32(0) + (id + (U32(options) + rest));
    var buf := HeaderBytes(command, length, session, id, options) + rest;
    assert buf == U16(command) + (U16(length) + (U32(session) + tail));
    FirstHalfDecodes(command, length, session, tail, buf);
    SecondHalfDecodes(U16(command) + U16(length) + U32(session), id, options, rest, buf);
  }

  // ---------------------------------------------------------------------------
  // SendRRData
  // ---------------------------------------------------------------------------

  /** The item list before a message of `len` bytes: a null address and unconnected data. */
  function ItemsBytes(len: nat): (b: seq<byte>)
    ensures |b| == 16
  {
    (U32(0) + U16(0) + U16(2) + U16(0x0000) + U16(0) + U16(0x00B2)) + U16(len)
  }

  function SendRRDataBytes(session: nat, id: seq<byte>, payload: seq<byte>): seq<byte> {
    HeaderBytes(SEND_RR_DATA, (16 + |payload|) % 0x1_0000, session, id, 0) + (ItemsBytes(|payload|) + payload)
  }

  method EncodeSendRRData(session: nat, id: seq<byte>, payload: seq<byte>, out: Vec)
    modifies out
    ensures out.bytes == old(out.bytes) + SendRRDataBytes(session, id, payload)
  {
    EncodeHeader(SEND_RR_DATA, (16 + |payload|) % 0x1_0000, session, id, 0, out);
    ghost var before := out.bytes;
    out.Extend(U32(0));
    out.Extend(U16(0));
    out.Extend(U16(2));
    out.Extend(U16(0x0000));
    out.Extend(U16(0));
    out.Extend(U16(0x00B2));
    out.Extend(U16(|payload|));
    assert out.bytes == before + ItemsBytes(|payload|);
    out.Extend(payload);
    Assoc(before, ItemsBytes(|payload|), payload);
    Assoc(old(out.bytes), HeaderBytes(SEND_RR_DATA, (16 + |payload|) % 0x1_0000, session, id, 0),
          ItemsBytes(|payload|) + payload);
  }

  /** The message inside a SendRRData reply; None when the frame is cut short. */
  function DecodeRRData(buf: seq<byte>): Option<seq<byte>> {
    if |buf| < HEADER_SIZE then None
    else
      match Rd16(buf, HEADER_SIZE + 14)
      case None => None
      case Some(len) => if RRDATA_SIZE + len > |buf| then None else Some(buf[RRDATA_SIZE..RRDATA_SIZE + len])
  }

  lemma {:induction false} RRDataDecodes(session: nat, id: seq<byte>, payload: seq<byte>)
    requires |id| == 8 && |payload| < 0x1_0000
    ensures DecodeRRData(SendRRDataBytes(session, id, payload)) == Some(payload)
    ensures SendRRDataBytes(session, id, payload)[24..38] == [0, 0, 0, 0, 0, 0, 2, 0, 0, 0, 0, 0, 0xB2, 0]
  {
    var head := HeaderBytes(SEND_RR_DATA, (16 + |payload|) % 0x1_0000, session, id, 0);
    var items := U32(0) + U16(0) + U16(2) + U16(0x0000) + U16(0) + U16(0x00B2);
    var buf := SendRRDataBytes(session, id, payload);
    assert buf == (head + items) + (U16(|payload|) + payload);
    HeaderField16(head + items, |payload|, payload, buf, 38);
    assert buf[40..40 + |payload|] == payload;
    assert buf[24..38] == items;
  }
}
