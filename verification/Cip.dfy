/** CIP requests and replies as byte layouts, with the sizes the packer trusts (drivers/ether-ip/src/cip.rs). */
module Cip {
  import opened Wrappers
  import opened Bytes
  import opened TagPath

  const TYPECODE_SIZE := 2

  datatype CipType =
    | Bool | Sint | Int | Uint | Dint | Lint | Ulint | Real | Lreal
    | String // plain CIP STRING, not the Logix STRING struct
    | Bits   // how Logix packs BOOL[]
    | Struct
    | Unknown(number: nat)

  function FromCode(code: nat): CipType {
    match code
    case 0x00C1 => Bool
    case 0x00C2 => Sint
    case 0x00C3 => Int
    case 0x00C7 => Uint
    case 0x00C4 => Dint
    case 0x00C5 => Lint
    case 0x00C9 => Ulint
    case 0x00CA => Real
    case 0x00CB => Lreal
    case 0x00D0 => String
    case 0x00D3 => Bits
    case 0x02A0 => Struct
    case other => Unknown(other)
  }

  function Code(t: CipType): nat {
    match t
    case Bool => 0x00C1
    case Sint => 0x00C2
    case Int => 0x00C3
    case Uint => 0x00C7
    case Dint => 0x00C4
    case Lint => 0x00C5
    case Ulint => 0x00C9
    case Real => 0x00CA
    case Lreal => 0x00CB
    case String => 0x00D0
    case Bits => 0x00D3
    case Struct => 0x02A0
    case Unknown(number) => number
  }

  /** Bytes of one element; strings and structs have no fixed size. */
  function Size(t: CipType): nat {
    match t
    case Bool | Sint => 1
    case Int | Uint => 2
    case Dint | Real | Bits => 4
    case Lint | Ulint | Lreal => 8
    case String | Struct | Unknown(_) => 0
  }

  /** The type code at the head of a `[type][data]` buffer. */
  function TypeOf(raw: seq<byte>): Option<CipType> {
    match Rd16(raw, 0) case None => None case Some(code) => Some(FromCode(code))
  }

  // ---------------------------------------------------------------------------
  // Services and class paths
  // ---------------------------------------------------------------------------

  const MULTI_REQUEST: byte := 0x0A
  const READ_DATA: byte := 0x4C
  const WRITE_DATA: byte := 0x4D
  const UNCONNECTED_SEND: byte := 0x52
  const REPLY_FLAG: byte := 0x80

  const MESSAGE_ROUTER: byte := 0x02
  const CONNECTION_MANAGER: byte := 0x06

  function CiaPathWords(instance: nat, attr: byte): nat {
    1 + (if instance > 0xFF then 2 else 1) + if attr != 0 then 1 else 0
  }

  function CiaPathBytes(class_: byte, instance: nat, attr: byte): seq<byte> {
    [0x20, class_]
    + (if instance > 0xFF then [0x25, 0x00] + U16(instance) else [0x24, instance])
    + (if attr != 0 then [0x30, attr] else [])
  }

  /** The fixed head of a request to instance 1 of a class. */
  function HeadTo(service: byte, class_: byte): (r: seq<byte>)
    ensures |r| == 6
  {
    [service, CiaPathWords(1, 0)] + CiaPathBytes(class_, 1, 0)
  }

  method EncodeHeadTo(service: byte, class_: byte, out: Vec)
    modifies out
    ensures out.bytes == old(out.bytes) + HeadTo(service, class_)
  {
    out.Push(service);
    out.Push(CiaPathWords(1, 0));
    out.Push(0x20);
    out.Push(class_);
    out.Push(0x24);
    out.Push(1);
    assert HeadTo(service, class_) == [service, 2, 0x20, class_, 0x24, 1];
  }

  // ---------------------------------------------------------------------------
  // Read and write requests
  // ---------------------------------------------------------------------------

  /** Service, path size and path: the head of every tag request. */
  function TagHead(service: byte, tag: Path): seq<byte> {
    [service, PathWords(tag) % 0x100] + PathBytes(tag)
  }

  method EncodeTagHead(service: byte, tag: Path, out: Vec)
    modifies out
    ensures out.bytes == old(out.bytes) + TagHead(service, tag)
  {
    ghost var before := out.bytes;
    out.Push(service);
    out.Push(PathWords(tag) % 0x100);
    assert out.bytes == before + [service, PathWords(tag) % 0x100];
    EncodePath(tag, out);
    Assoc(before, [service, PathWords(tag) % 0x100], PathBytes(tag));
  }

  function ReadDataSize(tag: Path): nat {
    2 + 2 * PathWords(tag) + 2
  }

  function ReadDataBytes(tag: Path, elements: nat): seq<byte> {
    TagHead(READ_DATA, tag) + U16(elements)
  }

  method EncodeReadData(tag: Path, elements: nat, out: Vec)
    modifies out
    ensures out.bytes == old(out.bytes) + ReadDataBytes(tag, elements)
  {
    EncodeTagHead(READ_DATA, tag, out);
    out.Extend(U16(elements));
  }

  function WriteDataSize(tag: Path, dataSize: nat): nat {
    2 + 2 * PathWords(tag) + 4 + dataSize
  }

  function Zeros(n: nat): (z: seq<byte>)
    ensures |z| == n
  {
    seq(n, i => 0)
  }

  /** The first `want` bytes of the data, filled up with zeros when there are fewer. */
  function Payload(raw: seq<byte>, want: nat): (p: seq<byte>)
    ensures |p| == want
  {
    if want <= |raw| then raw[..want] else raw + Zeros(want - |raw|)
  }

  /** Type, element count and data: what a write carries behind its path. */
  function WriteBody(t: CipType, elements: nat, raw: seq<byte>): seq<byte> {
    U16(Code(t)) + U16(elements) + Payload(raw, Size(t) * elements)
  }

  function WriteDataBytes(tag: Path, t: CipType, elements: nat, raw: seq<byte>): seq<byte> {
    TagHead(WRITE_DATA, tag) + WriteBody(t, elements, raw)
  }

  method EncodePayload(raw: seq<byte>, want: nat, out: Vec)
    modifies out
    ensures out.bytes == old(out.bytes) + Payload(raw, want)
  {
    var n := if want < |raw| then want else |raw|;
    ghost var before := out.bytes;
    out.Extend(raw[..n]);
    for i := n to want
      invariant out.bytes == before + (raw[..n] + Zeros(i - n))
    {
      assert Zeros(i + 1 - n) == Zeros(i - n) + [0];
      out.Push(0);
    }
  }

  method EncodeWriteData(tag: Path, t: CipType, elements: nat, raw: seq<byte>, out: Vec)
    modifies out
    ensures out.bytes == old(out.bytes) + WriteDataBytes(tag, t, elements, raw)
  {
    EncodeTagHead(WRITE_DATA, tag, out);
    ghost var before := out.bytes;
    out.Extend(U16(Code(t)));
    out.Extend(U16(elements));
    EncodePayload(raw, Size(t) * elements, out);
    assert out.bytes == before + WriteBody(t, elements, raw);
    Assoc(old(out.bytes), TagHead(WRITE_DATA, tag), WriteBody(t, elements, raw));
  }

  const STRING_HANDLE := 0x0FCE

  /** Bytes before the text inside the data of a STRING: handle, length, pad. */
  const TEXT_OFF := 6

  /** The position of the first NUL, or the length of a text without one. */
  function TextLength(text: seq<byte>): (n: nat)
    ensures n <= |text|
  {
    if text == [] || text[0] == 0 then 0 else 1 + TextLength(text[1..])
  }

  function StringText(raw: seq<byte>): seq<byte> {
    if TEXT_OFF <= |raw| then raw[TEXT_OFF..] else []
  }

  /** Bytes of a STRING write before its text. */
  function StringHeadSize(tag: Path): nat {
    2 + 2 * PathWords(tag) + 2 + 2 + 2 + 2 + 2
  }

  /** How much of the text is sent: all of it, or what fits the buffer limit with its NUL. */
  function SentLength(tag: Path, raw: seq<byte>, limit: nat): (n: nat)
    ensures n <= |StringText(raw)|
  {
    var len := TextLength(StringText(raw));
    var head := StringHeadSize(tag);
    if head + len + 1 <= limit then len else if limit >= head + 1 then limit - (head + 1) else 0
  }

  /** Struct type and handle, element count, text length and pad: what goes before the text. */
  function StringHead(elements: nat, len: nat): (h: seq<byte>)
    ensures |h| == 10
  {
    U16(Code(Struct)) + U16(STRING_HANDLE) + U16(elements) + U16(len) + U16(0)
  }

  function StringBody(elements: nat, text: seq<byte>): seq<byte> {
    StringHead(elements, |text|) + (text + [0])
  }

  function WriteStringBytes(tag: Path, elements: nat, raw: seq<byte>, limit: nat): seq<byte> {
    TagHead(WRITE_DATA, tag) + StringBody(elements, StringText(raw)[..SentLength(tag, raw, limit)])
  }

  method EncodeStringHead(elements: nat, len: nat, out: Vec)
    modifies out
    ensures out.bytes == old(out.bytes) + StringHead(elements, len)
  {
    out.Extend(U16(Code(Struct)));
    out.Extend(U16(STRING_HANDLE));
    out.Extend(U16(elements));
    out.Extend(U16(len));
    out.Extend(U16(0));
  }

  method EncodeWriteString(tag: Path, elements: nat, raw: seq<byte>, limit: nat, out: Vec)
    modifies out
    ensures out.bytes == old(out.bytes) + WriteStringBytes(tag, elements, raw, limit)
  {
    var text := StringText(raw);
    var len := TextLength(text);
    var head := StringHeadSize(tag);
    if head + len + 1 > limit {
      len := if limit >= head + 1 then limit - (head + 1) else 0;
    }
    assert len == SentLength(tag, raw, limit);
    var sent := text[..len];
    EncodeTagHead(WRITE_DATA, tag, out);
    ghost var before := out.bytes;
    EncodeStringHead(elements, len, out);
    ghost var mid := out.bytes;
    out.Extend(sent);
    out.Push(0);
    Assoc(mid, sent, [0]);
    Assoc(before, StringHead(elements, len), sent + [0]);
    Assoc(old(out.bytes), TagHead(WRITE_DATA, tag), StringBody(elements, sent));
  }

  lemma {:induction false} TagHeadSize(service: byte, tag: Path)
    ensures |TagHead(service, tag)| == 2 + 2 * PathWords(tag)
  {
    PathWordsAreExact(tag);
  }

  /** The size function of each request is the length of its encoding, for every tag and value. */
  lemma {:induction false} RequestSizesAreExact(tag: Path, t: CipType, elements: nat, raw: seq<byte>, limit: nat)
    ensures |ReadDataBytes(tag, elements)| == ReadDataSize(tag)
    ensures |WriteDataBytes(tag, t, elements, raw)| == WriteDataSize(tag, Size(t) * elements)
    ensures |WriteStringBytes(tag, elements, raw, limit)| == StringHeadSize(tag) + SentLength(tag, raw, limit) + 1
  {
    TagHeadSize(READ_DATA, tag);
    TagHeadSize(WRITE_DATA, tag);
  }

  /** How a target takes a tag request apart: the path, and the bytes behind it. */
  function OpenRequest(b: seq<byte>, service: byte): Option<(Path, seq<byte>)> {
    if |b| < 2 || b[0] != service || |b| < 2 + 2 * b[1] as int then None
    else
      match ReadPath(b[2..2 + 2 * b[1] as int])
      case None => None
      case Some(tag) => Some((tag, b[2 + 2 * b[1] as int..]))
  }

  lemma {:induction false} RequestParts(service: byte, words: byte, path: seq<byte>, body: seq<byte>, tag: Path)
    requires |path| == 2 * words as int && ReadPath(path) == Some(tag)
    ensures OpenRequest([service, words] + path + body, service) == Some((tag, body))
  {
    var b := [service, words] + path + body;
    assert b[2..2 + |path|] == path;
    assert b[2 + |path|..] == body;
  }

  /** A tag request for an encodable path of at most 255 words reaches the tag it names. */
  lemma {:induction false} RequestOpens(service: byte, tag: Path, body: seq<byte>)
    requires PathWords(tag) < 0x100
    requires forall k :: 0 <= k < |tag| ==> Encodable(tag[k])
    ensures OpenRequest(TagHead(service, tag) + body, service) == Some((tag, body))
  {
    PathWordsAreExact(tag);
    EncodablePathReads(tag);
    RequestParts(service, PathWords(tag) % 0x100, PathBytes(tag), body, tag);
  }

  /** What a target finds in a request to read: the path and how many elements. */
  function ReadFound(b: seq<byte>): Option<(Path, nat)> {
    match OpenRequest(b, 0x4C)
    case None => None
    case Some((tag, body)) =>
      if |body| != 2 then None else Some((tag, Rd16(body, 0).value))
  }

  /** What a request to write asks for: elements of a type by its code, or a text for a struct by its handle. */
  datatype Asked =
    | Elements(code: nat, count: nat, data: seq<byte>)
    | Text(handle: nat, count: nat, text: seq<byte>)

  /** What a target finds in a request to write. A text stands behind its length and a pad, and is ended by a NUL. */
  function WriteFound(b: seq<byte>): Option<(Path, Asked)> {
    match OpenRequest(b, 0x4D)
    case None => None
    case Some((tag, body)) =>
      match AskedIn(body)
      case None => None
      case Some(asked) => Some((tag, asked))
  }

  function AskedIn(body: seq<byte>): Option<Asked> {
    if |body| < 4 then None
    else if Rd16(body, 0) != Some(0x02A0) then Some(Elements(Rd16(body, 0).value, Rd16(body, 2).value, body[4..]))
    else if |body| < 11 then None
    else
      var len := Rd16(body, 6).value;
      if Rd16(body, 8) != Some(0) || |body| != 10 + len + 1 || body[10 + len] != 0 then None
      else Some(Text(Rd16(body, 2).value, Rd16(body, 4).value, body[10..10 + len]))
  }

  /** Types are told apart by their codes, and no two share one. */
  lemma {:induction false} CodesTell(t: CipType)
    requires t.Unknown? ==> FromCode(t.number) == t
    ensures FromCode(Code(t)) == t
  {
  }

  /** The codes are those of the CIP specification and of the Logix data access manual. */
  lemma {:induction false} TypesOnTheWire()
    ensures TypeOf([0xC1, 0]) == Some(Bool) && TypeOf([0xC2, 0]) == Some(Sint) && TypeOf([0xC3, 0]) == Some(Int)
    ensures TypeOf([0xC4, 0]) == Some(Dint) && TypeOf([0xC5, 0]) == Some(Lint) && TypeOf([0xC7, 0]) == Some(Uint)
    ensures TypeOf([0xC9, 0]) == Some(Ulint) && TypeOf([0xCA, 0]) == Some(Real) && TypeOf([0xCB, 0]) == Some(Lreal)
    ensures TypeOf([0xD0, 0]) == Some(String) && TypeOf([0xD3, 0]) == Some(Bits) && TypeOf([0xA0, 0x02]) == Some(Struct)
  {
  }

  /** A read is for the tag and the elements it was built for. */
  lemma {:induction false} ReadReachesTarget(tag: Path, elements: nat)
    requires PathWords(tag) < 0x100 && elements < 0x1_0000
    requires forall k :: 0 <= k < |tag| ==> Encodable(tag[k])
    ensures ReadFound(ReadDataBytes(tag, elements)) == Some((tag, elements))
  {
    RequestOpens(READ_DATA, tag, U16(elements));
    Field16([], elements, []);
    assert [] + U16(elements) + [] == U16(elements);
  }

  lemma {:induction false} Field16(pre: seq<byte>, n: nat, post: seq<byte>)
    requires n < 0x1_0000
    ensures Rd16(pre + U16(n) + post, |pre|) == Some(n)
  {
    ReadU16(pre, n, post);
  }

  lemma {:induction false} ElementsAsked(code: nat, count: nat, data: seq<byte>)
    requires code < 0x1_0000 && count < 0x1_0000 && code != 0x02A0
    ensures AskedIn(U16(code) + U16(count) + data) == Some(Elements(code, count, data))
  {
    var body := U16(code) + U16(count) + data;
    Field16([], code, U16(count) + data);
    assert [] + U16(code) + (U16(count) + data) == body;
    Field16(U16(code), count, data);
  }

  /** A write is for the tag, the type and the elements it was built for, and carries just their data. */
  lemma {:induction false} WriteReachesTarget(tag: Path, t: CipType, elements: nat, raw: seq<byte>)
    requires PathWords(tag) < 0x100 && elements < 0x1_0000
    requires forall k :: 0 <= k < |tag| ==> Encodable(tag[k])
    requires t != Struct && (t.Unknown? ==> t.number < 0x1_0000 && FromCode(t.number) == t)
    ensures var found := WriteFound(WriteDataBytes(tag, t, elements, raw));
            && found.Some? && found.value.0 == tag && found.value.1.Elements?
            && FromCode(found.value.1.code) == t && found.value.1.count == elements
            && |found.value.1.data| == Size(t) * elements
            && forall k :: 0 <= k < |found.value.1.data| ==> found.value.1.data[k] == if k < |raw| then raw[k] else 0
  {
    CodesTell(t);
    RequestOpens(WRITE_DATA, tag, WriteBody(t, elements, raw));
    ElementsAsked(Code(t), elements, Payload(raw, Size(t) * elements));
  }

  lemma {:induction false} TextAsked(count: nat, text: seq<byte>)
    requires count < 0x1_0000 && |text| < 0x1_0000
    ensures AskedIn(StringBody(count, text)) == Some(Text(0x0FCE, count, text))
  {
    var body := StringBody(count, text);
    var a, b, c, d, e := U16(Code(Struct)), U16(STRING_HANDLE), U16(count), U16(|text|), U16(0);
    var tail := text + [0];
    assert body == [] + a + (b + c + d + e + tail);
    Field16([], Code(Struct), b + c + d + e + tail);
    assert body == a + b + (c + d + e + tail);
    Field16(a, STRING_HANDLE, c + d + e + tail);
    assert body == a + b + c + (d + e + tail);
    Field16(a + b, count, d + e + tail);
    assert body == a + b + c + d + (e + tail);
    Field16(a + b + c, |text|, e + tail);
    assert body == a + b + c + d + e + tail;
    Field16(a + b + c + d, 0, tail);
    assert body[10..10 + |text|] == text;
  }

  /** A text that is cut short only by its first NUL, or by the limit of the request it goes out in. */
  ghost predicate SentUpTo(raw: seq<byte>, text: seq<byte>, size: nat, limit: nat) {
    && 0 !in text && TEXT_OFF + |text| <= |raw| && raw[TEXT_OFF..TEXT_OFF + |text|] == text
    && (|raw| == TEXT_OFF + |text| || raw[TEXT_OFF + |text|] == 0 || size == limit || (text == [] && size > limit))
    && (text != [] ==> size <= limit)
  }

  lemma {:induction false} NoNulBefore(text: seq<byte>, n: nat)
    requires n <= TextLength(text)
    ensures 0 !in text[..n] && (TextLength(text) == |text| || text[TextLength(text)] == 0)
  {
    if n > 0 {
      NoNulBefore(text[1..], n - 1);
      assert text[..n] == [text[0]] + text[1..][..n - 1];
    } else if text != [] && text[0] != 0 {
      NoNulBefore(text[1..], 0);
    }
  }

  lemma {:induction false} SentIsUpTo(tag: Path, elements: nat, raw: seq<byte>, limit: nat)
    requires TEXT_OFF <= |raw|
    ensures SentUpTo(raw, StringText(raw)[..SentLength(tag, raw, limit)], |WriteStringBytes(tag, elements, raw, limit)|, limit)
  {
    RequestSizesAreExact(tag, Struct, elements, raw, limit);
    var n := SentLength(tag, raw, limit);
    NoNulBefore(StringText(raw), n);
    assert raw[TEXT_OFF..][..n] == raw[TEXT_OFF..TEXT_OFF + n];
  }

  /** A write of a STRING is for the tag and the elements it was built for, and carries its text. */
  lemma {:induction false} TextReachesTarget(tag: Path, elements: nat, raw: seq<byte>, limit: nat)
    requires PathWords(tag) < 0x100 && elements < 0x1_0000 && SentLength(tag, raw, limit) < 0x1_0000
    requires forall k :: 0 <= k < |tag| ==> Encodable(tag[k])
    ensures var found := WriteFound(WriteStringBytes(tag, elements, raw, limit));
            && found.Some? && found.value.0 == tag && found.value.1.Text?
            && found.value.1.handle == 0x0FCE && found.value.1.count == elements
            && (if |raw| < 6 then found.value.1.text == []
                else SentUpTo(raw, found.value.1.text, |WriteStringBytes(tag, elements, raw, limit)|, limit))
  {
    if TEXT_OFF <= |raw| {
      SentIsUpTo(tag, elements, raw, limit);
    }
    var text := StringText(raw)[..SentLength(tag, raw, limit)];
    RequestOpens(WRITE_DATA, tag, StringBody(elements, text));
    TextAsked(elements, text);
  }

  // ---------------------------------------------------------------------------
  // Message Router replies
  // ---------------------------------------------------------------------------

  /** Where a reply's data starts: behind its four-byte head and its extended status words. */
  function DataOffset(reply: seq<byte>): nat
    requires |reply| >= 4
  {
    4 + 2 * reply[3] as int
  }

  function ReplyData(reply: seq<byte>): seq<byte>
    requires |reply| >= 4
  {
    var off := DataOffset(reply);
    if off >= |reply| then [] else reply[off..]
  }

  /** The data of a good CIP_ReadData reply. */
  function ReadReplyData(reply: seq<byte>): Option<seq<byte>> {
    if |reply| < 4 || reply[0] % 0x80 != READ_DATA || reply[2] != 0 then None else Some(ReplyData(reply))
  }

  predicate GoodWriteReply(reply: seq<byte>) {
    |reply| >= 4 && reply[0] % 0x80 == WRITE_DATA && reply[2] == 0
  }

  predicate GoodMultiReply(reply: seq<byte>) {
    |reply| >= 4 && reply[0] as int == MULTI_REQUEST as int + REPLY_FLAG as int && reply[2] == 0
  }

  /** A reply that is too short, answers another service, or reports an error in its third byte. */
  predicate Refused(reply: seq<byte>, service: byte) {
    |reply| < 4 || (reply[0] as int != service as int && reply[0] as int != service as int + 0x80) || reply[2] != 0
  }

  /** What stands behind the four bytes of a reply's head and its extended status, counted in words by the fourth. */
  function ReplyBody(reply: seq<byte>): seq<byte>
    requires |reply| >= 4
  {
    var at := 4 + 2 * reply[3] as int;
    if at < |reply| then reply[at..] else []
  }

  /** Which replies are taken for good ones, told from their bytes. */
  lemma {:induction false} GoodReplies(reply: seq<byte>)
    ensures ReadReplyData(reply) == if Refused(reply, 0x4C) then None else Some(ReplyBody(reply))
    ensures GoodWriteReply(reply) <==> !Refused(reply, 0x4D)
    ensures GoodMultiReply(reply) <==> |reply| >= 4 && reply[0] == 0x8A && reply[2] == 0
  {
  }

  // ---------------------------------------------------------------------------
  // The MultiRequest
  // ---------------------------------------------------------------------------

  function MultiRequestSize(count: nat, requestsSize: nat): nat {
    2 + 2 * CiaPathWords(1, 0) + 2 + 2 * count + requestsSize
  }

  function MultiResponseSize(count: nat, responsesSize: nat): nat {
    4 + 2 + 2 * count + responsesSize
  }

  function Concat(parts: seq<seq<byte>>): seq<byte> {
    if parts == [] then [] else parts[0] + Concat(parts[1..])
  }

  /** The offset table of consecutive parts, the first of them at `offset`. */
  function Table(offset: nat, parts: seq<seq<byte>>): (t: seq<byte>)
    ensures |t| == 2 * |parts|
    decreases |parts|
  {
    if parts == [] then [] else U16(offset) + Table(offset + |parts[0]|, parts[1..])
  }

  /** The count, the offset table and the parts; offsets count from the count field. */
  function Bundle(parts: seq<seq<byte>>): seq<byte> {
    U16(|parts|) + (Table(2 + 2 * |parts|, parts) + Concat(parts))
  }

  function MultiRequestBytes(requests: seq<seq<byte>>): seq<byte> {
    HeadTo(MULTI_REQUEST, MESSAGE_ROUTER) + Bundle(requests)
  }

  method EncodeTable(requests: seq<seq<byte>>, out: Vec)
    modifies out
    ensures out.bytes == old(out.bytes) + Table(2 + 2 * |requests|, requests)
  {
    var offset: nat := (|requests| + 1) * 2;
    for i := 0 to |requests|
      invariant out.bytes + Table(offset, requests[i..]) == old(out.bytes) + Table(2 + 2 * |requests|, requests)
    {
      assert requests[i..][1..] == requests[i + 1..];
      Assoc(out.bytes, U16(offset), Table(offset + |requests[i]|, requests[i + 1..]));
      out.Extend(U16(offset));
      offset := offset + |requests[i]|;
    }
  }

  method EncodeParts(requests: seq<seq<byte>>, out: Vec)
    modifies out
    ensures out.bytes == old(out.bytes) + Concat(requests)
  {
    for i := 0 to |requests|
      invariant out.bytes + Concat(requests[i..]) == old(out.bytes) + Concat(requests)
    {
      assert requests[i..][1..] == requests[i + 1..];
      Assoc(out.bytes, requests[i], Concat(requests[i + 1..]));
      out.Extend(requests[i]);
    }
  }

  method EncodeMultiRequest(requests: seq<seq<byte>>, out: Vec)
    modifies out
    ensures out.bytes == old(out.bytes) + MultiRequestBytes(requests)
  {
    EncodeHeadTo(MULTI_REQUEST, MESSAGE_ROUTER, out);
    ghost var before := out.bytes;
    out.Extend(U16(|requests|));
    ghost var mid := out.bytes;
    EncodeTable(requests, out);
    EncodeParts(requests, out);
    ghost var table := Table(2 + 2 * |requests|, requests);
    Assoc(mid, table, Concat(requests));
    Assoc(before, U16(|requests|), table + Concat(requests));
    Assoc(old(out.bytes), HeadTo(MULTI_REQUEST, MESSAGE_ROUTER), Bundle(requests));
  }

  /** The size the packer computes is the length of the encoding, for every list of requests. */
  lemma {:induction false} MultiRequestSizeIsExact(requests: seq<seq<byte>>)
    ensures |MultiRequestBytes(requests)| == MultiRequestSize(|requests|, |Concat(requests)|)
  {
  }

  /** Sub-reply `i` of a MultiRequest reply. */
  function SubReply(response: seq<byte>, i: nat): Option<seq<byte>> {
    if |response| < 4 then None
    else
      var base := DataOffset(response);
      match Rd16(response, base)
      case None => None
      case Some(count) =>
        if i >= count then None
        else
          match (Rd16(response, base + 2 + 2 * i), EndOf(response, base, count, i))
          case (Some(offset), Some(end)) =>
            if base + offset > end || end > |response| then None else Some(response[base + offset..end])
          case _ => None
  }

  /** Where sub-reply `i` ends: where the next one starts, or at the end of the whole reply. */
  function EndOf(response: seq<byte>, base: nat, count: nat, i: nat): Option<nat> {
    if i + 1 < count then
      match Rd16(response, base + 2 + 2 * (i + 1))
      case None => None
      case Some(next) => Some(base + next)
    else Some(|response|)
  }

  // ---------------------------------------------------------------------------
  // Taking a bundle apart again
  // ---------------------------------------------------------------------------

  /** The bytes of the parts before part `i`. */
  function Before(parts: seq<seq<byte>>, i: nat): (n: nat)
    requires i <= |parts|
  {
    if i == 0 then 0 else |parts[0]| + Before(parts[1..], i - 1)
  }

  lemma {:induction false} BeforeStep(parts: seq<seq<byte>>, i: nat)
    requires i < |parts|
    ensures Before(parts, i + 1) == Before(parts, i) + |parts[i]|
  {
    if i > 0 {
      BeforeStep(parts[1..], i - 1);
    }
  }

  lemma {:induction false} BeforeAll(parts: seq<seq<byte>>)
    ensures Before(parts, |parts|) == |Concat(parts)|
  {
    if parts != [] {
      BeforeAll(parts[1..]);
    }
  }

  lemma {:induction false} BeforeGrows(parts: seq<seq<byte>>, i: nat, j: nat)
    requires i <= j <= |parts|
    ensures Before(parts, i) <= Before(parts, j)
  {
    if i > 0 {
      BeforeGrows(parts[1..], i - 1, j - 1);
    }
  }

  lemma {:induction false} PartAt(parts: seq<seq<byte>>, i: nat)
    requires i < |parts|
    ensures Before(parts, i) + |parts[i]| <= |Concat(parts)|
    ensures Concat(parts)[Before(parts, i)..Before(parts, i) + |parts[i]|] == parts[i]
  {
    if i > 0 {
      PartAt(parts[1..], i - 1);
    }
  }

  lemma {:induction false} TableAt(offset: nat, parts: seq<seq<byte>>, i: nat, pre: seq<byte>, post: seq<byte>)
    requires i < |parts|
    ensures Rd16(pre + Table(offset, parts) + post, |pre| + 2 * i) == Some((offset + Before(parts, i)) % 0x1_0000)
    decreases i
  {
    var rest := Table(offset + |parts[0]|, parts[1..]);
    if i == 0 {
      Assoc(pre + U16(offset), rest, post);
      Assoc(pre, U16(offset), rest);
      ReadU16(pre, offset, rest + post);
    } else {
      TableAt(offset + |parts[0]|, parts[1..], i - 1, pre + U16(offset), post);
      Assoc(pre, U16(offset), rest);
    }
  }

  /** Where part `i` starts, counted from the count field. */
  function Offset(parts: seq<seq<byte>>, i: nat): nat
    requires i <= |parts|
  {
    2 + 2 * |parts| + Before(parts, i)
  }

  /** A reply: its head, its extended status words and its bundle of sub-replies. */
  function MultiReplyBytes(head: seq<byte>, ext: seq<byte>, parts: seq<seq<byte>>): seq<byte> {
    head + ext + Bundle(parts)
  }

  ghost predicate ReplyHead(head: seq<byte>, ext: seq<byte>) {
    |head| == 4 && |ext| == 2 * head[3] as int
  }

  lemma {:induction false} CountReads(pre: seq<byte>, parts: seq<seq<byte>>)
    ensures Rd16(pre + Bundle(parts), |pre|) == Some(|parts| % 0x1_0000)
  {
    var rest := Table(2 + 2 * |parts|, parts) + Concat(parts);
    Assoc(pre, U16(|parts|), rest);
    ReadU16(pre, |parts|, rest);
  }

  lemma {:induction false} OffsetReads(pre: seq<byte>, parts: seq<seq<byte>>, i: nat)
    requires i < |parts|
    ensures Rd16(pre + Bundle(parts), |pre| + 2 + 2 * i) == Some(Offset(parts, i) % 0x1_0000)
  {
    var n, table := |parts|, Table(2 + 2 * |parts|, parts);
    Assoc(pre, U16(n), table + Concat(parts));
    Assoc(pre + U16(n), table, Concat(parts));
    TableAt(2 + 2 * n, parts, i, pre + U16(n), Concat(parts));
  }

  lemma {:induction false} SliceBehind(lead: seq<byte>, all: seq<byte>, a: nat, b: nat)
    requires a <= b <= |all|
    ensures (lead + all)[|lead| + a..|lead| + b] == all[a..b]
  {
  }

  lemma {:induction false} PartSlice(pre: seq<byte>, parts: seq<seq<byte>>, i: nat, r: seq<byte>)
    requires i < |parts| && r == pre + Bundle(parts)
    ensures Offset(parts, i + 1) == Offset(parts, i) + |parts[i]|
    ensures |pre| + Offset(parts, i + 1) <= |r|
    ensures r[|pre| + Offset(parts, i)..|pre| + Offset(parts, i + 1)] == parts[i]
  {
    var table, all := Table(2 + 2 * |parts|, parts), Concat(parts);
    Assoc(pre, U16(|parts|), table + all);
    Assoc(pre + U16(|parts|), table, all);
    PartAt(parts, i);
    BeforeStep(parts, i);
    SliceBehind(pre + U16(|parts|) + table, all, Before(parts, i), Before(parts, i + 1));
  }

  lemma {:induction false} BundleSize(parts: seq<seq<byte>>)
    ensures |Bundle(parts)| == Offset(parts, |parts|)
  {
    BeforeAll(parts);
  }

  /** The size budgeted for a reply without extended status is its length, for every list of sub-replies. */
  lemma {:induction false} MultiResponseSizeIsExact(head: seq<byte>, replies: seq<seq<byte>>)
    requires |head| == 4
    ensures |MultiReplyBytes(head, [], replies)| == MultiResponseSize(|replies|, |Concat(replies)|)
  {
  }

  lemma {:induction false} OffsetsBelow(parts: seq<seq<byte>>, i: nat)
    requires i < |parts|
    ensures Offset(parts, i) <= Offset(parts, |parts| - 1)
  {
    BeforeGrows(parts, i, |parts| - 1);
  }

  lemma {:induction false} SubReplyBetween(r: seq<byte>, base: nat, count: nat, i: nat, start: nat, end: nat)
    requires |r| >= 4 && DataOffset(r) == base && Rd16(r, base) == Some(count) && i < count
    requires Rd16(r, base + 2 + 2 * i) == Some(start) && EndOf(r, base, count, i) == Some(base + end)
    ensures SubReply(r, i)
         == if start <= end && base + end <= |r| then Some(r[base + start..base + end]) else None
  {
  }

  /** What the reader finds in the offset table of a reply. */
  lemma {:induction false} TableReads(pre: seq<byte>, parts: seq<seq<byte>>, i: nat, r: seq<byte>)
    requires i < |parts| && r == pre + Bundle(parts)
    ensures Rd16(r, |pre|) == Some(|parts| % 0x1_0000)
    ensures Rd16(r, |pre| + 2 + 2 * i) == Some(Offset(parts, i) % 0x1_0000)
    ensures i + 1 < |parts| ==> Rd16(r, |pre| + 2 + 2 * (i + 1)) == Some(Offset(parts, i + 1) % 0x1_0000)
    ensures i + 1 == |parts| ==> |r| == |pre| + Offset(parts, i + 1)
  {
    CountReads(pre, parts);
    OffsetReads(pre, parts, i);
    if i + 1 < |parts| {
      OffsetReads(pre, parts, i + 1);
    } else {
      BundleSize(parts);
    }
  }

  lemma {:induction false} EndReads(pre: seq<byte>, parts: seq<seq<byte>>, i: nat, r: seq<byte>)
    requires i < |parts| && r == pre + Bundle(parts)
    requires Offset(parts, |parts| - 1) < 0x1_0000
    ensures EndOf(r, |pre|, |parts|, i) == Some(|pre| + Offset(parts, i + 1))
  {
    TableReads(pre, parts, i, r);
    if i + 1 < |parts| {
      OffsetsBelow(parts, i + 1);
    }
  }

  lemma {:induction false} StartReads(pre: seq<byte>, parts: seq<seq<byte>>, i: nat, r: seq<byte>)
    requires i < |parts| && r == pre + Bundle(parts)
    requires Offset(parts, |parts| - 1) < 0x1_0000
    ensures Rd16(r, |pre|) == Some(|parts|)
    ensures Rd16(r, |pre| + 2 + 2 * i) == Some(Offset(parts, i))
  {
    TableReads(pre, parts, i, r);
    OffsetsBelow(parts, i);
    Whole16(|parts|);
    Whole16(Offset(parts, i));
  }

  lemma {:induction false} PartRead(pre: seq<byte>, parts: seq<seq<byte>>, i: nat, r: seq<byte>)
    requires i < |parts| && r == pre + Bundle(parts) && |pre| >= 4 && DataOffset(r) == |pre|
    requires Offset(parts, |parts| - 1) < 0x1_0000
    ensures SubReply(r, i) == Some(parts[i])
  {
    StartReads(pre, parts, i, r);
    EndReads(pre, parts, i, r);
    PartSlice(pre, parts, i, r);
    SubReplyBetween(r, |pre|, |parts|, i, Offset(parts, i), Offset(parts, i + 1));
  }

  /** With every offset in range, sub-reply `i` is part `i`. */
  lemma {:induction false} SubReplyIsPart(head: seq<byte>, ext: seq<byte>, parts: seq<seq<byte>>, i: nat)
    requires ReplyHead(head, ext) && i < |parts|
    requires Offset(parts, |parts| - 1) < 0x1_0000
    ensures SubReply(MultiReplyBytes(head, ext, parts), i) == Some(parts[i])
  {
    var r := MultiReplyBytes(head, ext, parts);
    assert r[3] == head[3];
    PartRead(head + ext, parts, i, r);
  }

  lemma {:induction false} LastPartMisread(pre: seq<byte>, parts: seq<seq<byte>>, i: nat, r: seq<byte>)
    requires i + 1 == |parts| && r == pre + Bundle(parts) && |pre| >= 4 && DataOffset(r) == |pre|
    requires Offset(parts, i) >= 0x1_0000
    ensures SubReply(r, i) != Some(parts[i])
  {
    var base, count := |pre|, |parts| % 0x1_0000;
    var start, end := Offset(parts, i) % 0x1_0000, Offset(parts, i + 1);
    TableReads(pre, parts, i, r);
    BeforeStep(parts, i);
    if i < count {
      SubReplyBetween(r, base, count, i, start, end);
      assert end - start > |parts[i]|;
    }
  }

  /** When the last offset wraps round, the last sub-reply is not what was put there. */
  lemma {:induction false} WrappedOffsetMisreads(head: seq<byte>, ext: seq<byte>, parts: seq<seq<byte>>)
    requires ReplyHead(head, ext) && parts != []
    requires Offset(parts, |parts| - 1) >= 0x1_0000
    ensures SubReply(MultiReplyBytes(head, ext, parts), |parts| - 1) != Some(parts[|parts| - 1])
  {
    var r := MultiReplyBytes(head, ext, parts);
    assert r[3] == head[3];
    LastPartMisread(head + ext, parts, |parts| - 1, r);
  }

  /**
   * Every sub-reply of a reply laid out as a bundle is the part put there, whatever the
   * extended status, exactly when the last part starts below 65536.
   */
  lemma {:induction false} SubRepliesInvertBundle(head: seq<byte>, ext: seq<byte>, parts: seq<seq<byte>>)
    requires ReplyHead(head, ext)
    ensures (forall i :: 0 <= i < |parts| ==> SubReply(MultiReplyBytes(head, ext, parts), i) == Some(parts[i]))
       <==> (parts != [] ==> Offset(parts, |parts| - 1) < 0x1_0000)
  {
    if parts != [] {
      if Offset(parts, |parts| - 1) < 0x1_0000 {
        forall i | 0 <= i < |parts|
          ensures SubReply(MultiReplyBytes(head, ext, parts), i) == Some(parts[i])
        {
          SubReplyIsPart(head, ext, parts, i);
        }
      } else {
        WrappedOffsetMisreads(head, ext, parts);
      }
    }
  }

  lemma {:induction false} MultiRequestHead(requests: seq<seq<byte>>)
    ensures MultiRequestBytes(requests)[..6] == [0x0A, 2, 0x20, 0x02, 0x24, 1]
    ensures MultiRequestBytes(requests)[6..] == Bundle(requests)
  {
  }

  /** A target reads the sub-requests of an encoded MultiRequest the same way. */
  lemma {:induction false} SubRequestsInvertMultiRequest(requests: seq<seq<byte>>, i: nat)
    requires i < |requests| && |MultiRequestBytes(requests)| < 0x1_0000
    ensures var bundle := MultiRequestBytes(requests)[6..];
            bundle == Bundle(requests) && SubReply([0, 0, 0, 0] + bundle, i) == Some(requests[i])
    ensures MultiRequestBytes(requests)[..6] == [0x0A, 2, 0x20, 0x02, 0x24, 1]
  {
    var bundle := MultiRequestBytes(requests)[6..];
    MultiRequestHead(requests);
    BundleSize(requests);
    OffsetsBelow(requests, i);
    BeforeGrows(requests, |requests| - 1, |requests|);
    SubReplyIsPart([0, 0, 0, 0], [], requests, i);
    assert [0, 0, 0, 0] + [] + bundle == [0, 0, 0, 0] + bundle;
  }

  // ---------------------------------------------------------------------------
  // CM_Unconnected_Send
  // ---------------------------------------------------------------------------

  function UnconnectedSendSize(messageSize: nat): nat {
    2 + 2 * CiaPathWords(1, 0) + 1 + 1 + 2 + messageSize + messageSize % 2 + 4
  }

  /** The fixed 245760 ms of the source: 240 ticks of 2^10 ms. */
  const TICK_TIME: byte := 10
  const TICKS: byte := 240

  function Padding(message: seq<byte>): seq<byte> {
    if |message| % 2 != 0 then [0] else []
  }

  /** The ticks, the padded message and the route over the backplane to a slot. */
  function RoutedBody(message: seq<byte>, slot: byte): seq<byte> {
    ([TICK_TIME, TICKS] + U16(|message|)) + (message + (Padding(message) + [1, 0, 1, slot]))
  }

  function UnconnectedSendBytes(message: seq<byte>, slot: byte): seq<byte> {
    HeadTo(UNCONNECTED_SEND, CONNECTION_MANAGER) + RoutedBody(message, slot)
  }

  method EncodeUnconnectedSend(message: seq<byte>, slot: byte, out: Vec)
    modifies out
    ensures out.bytes == old(out.bytes) + UnconnectedSendBytes(message, slot)
  {
    EncodeHeadTo(UNCONNECTED_SEND, CONNECTION_MANAGER, out);
    ghost var before := out.bytes;
    out.Push(TICK_TIME);
    out.Push(TICKS);
    out.Extend(U16(|message|));
    assert out.bytes == before + ([TICK_TIME, TICKS] + U16(|message|));
    ghost var mid := out.bytes;
    out.Extend(message);
    ghost var behind := out.bytes;
    if |message| % 2 != 0 {
      out.Push(0);
    }
    out.Push(1);
    out.Push(0);
    out.Push(1);
    out.Push(slot);
    ghost var route := Padding(message) + [1, 0, 1, slot];
    assert out.bytes == behind + route;
    Assoc(mid, message, route);
    Assoc(before, [TICK_TIME, TICKS] + U16(|message|), message + route);
    Assoc(old(out.bytes), HeadTo(UNCONNECTED_SEND, CONNECTION_MANAGER), RoutedBody(message, slot));
  }

  /** The declared size is exact for every message: 14 bytes more, rounded up to even. */
  lemma {:induction false} UnconnectedSendSizeIsExact(message: seq<byte>, slot: byte)
    ensures |UnconnectedSendBytes(message, slot)| == UnconnectedSendSize(|message|)
    ensures UnconnectedSendSize(|message|) == 14 + |message| + |message| % 2
  {
  }

  function Power2(n: nat): nat {
    if n == 0 then 1 else 2 * Power2(n - 1)
  }

  /** A bridge takes service, timeout, message and slot back out of the envelope, up to 65535 bytes. */
  lemma {:induction false} EnvelopeHoldsMessage(message: seq<byte>, slot: byte)
    requires |message| < 0x1_0000
    ensures var b := UnconnectedSendBytes(message, slot);
            && Rd16(b, 8) == Some(|message|)
            && b[..6] == [0x52, 2, 0x20, 0x06, 0x24, 1] && b[7] as int * Power2(b[6]) == 245_760
            && b[10..10 + |message|] == message
            && |b| % 2 == 0 && b[|b| - 4..] == [1, 0, 1, slot]
  {
    var head := [0x52, 2, 0x20, 0x06, 0x24, 1, 10, 240];
    var route := Padding(message) + [1, 0, 1, slot];
    var b := UnconnectedSendBytes(message, slot);
    EnvelopeOpens(message, slot);
    ReadU16(head, |message|, message + route);
    assert b[6] == 10 && b[7] == 240 && b[..6] == [0x52, 2, 0x20, 0x06, 0x24, 1];
    TenTicks();
    var front := head + U16(|message|);
    assert b == front + message + route && |front| == 10;
    assert b == (front + (message + Padding(message))) + [1, 0, 1, slot];
  }

  /** Eight fixed bytes, the length, the message and its route. */
  lemma {:induction false} EnvelopeOpens(message: seq<byte>, slot: byte)
    ensures UnconnectedSendBytes(message, slot)
         == [0x52, 2, 0x20, 0x06, 0x24, 1, 10, 240] + U16(|message|) + (message + (Padding(message) + [1, 0, 1, slot]))
  {
    assert HeadTo(UNCONNECTED_SEND, CONNECTION_MANAGER) + [TICK_TIME, TICKS] == [0x52, 2, 0x20, 0x06, 0x24, 1, 10, 240];
  }

  lemma {:induction false} TenTicks()
    ensures Power2(10) == 1024
  {
    assert Power2(5) == 32;
  }
}
