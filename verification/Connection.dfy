/**
 * One session's framing (drivers/ether-ip/src/connection.rs): requests out, reply frames
 * reassembled from however the stream splits them.
 */
module Connection {
  import opened Wrappers
  import opened Bytes
  import opened Cip
  import opened Encap

  // ---------------------------------------------------------------------------
  // The stream
  // ---------------------------------------------------------------------------

  /** What a read of the socket meets next. */
  datatype Event =
    | Chunk(bytes: seq<byte>) // bytes that have arrived; none of them means end of data
    | Interrupted             // a signal: the read is retried
    | Failure                 // a timeout or an error

  datatype Ending = EndOfData | ReadError

  /** The bytes that arrive before the stream ends. */
  function Arriving(script: seq<Event>): seq<byte> {
    if script == [] then []
    else
      match script[0]
      case Chunk(b) => if b == [] then [] else b + Arriving(script[1..])
      case Interrupted => Arriving(script[1..])
      case Failure => []
  }

  /** How the stream ends behind them. */
  function EndingOf(script: seq<Event>): Ending {
    if script == [] then EndOfData
    else
      match script[0]
      case Chunk(b) => if b == [] then EndOfData else EndingOf(script[1..])
      case Interrupted => EndingOf(script[1..])
      case Failure => ReadError
  }

  function Weight(script: seq<Event>): nat {
    if script == [] then 0
    else (match script[0] case Chunk(b) => |b| case _ => 1) + Weight(script[1..])
  }

  datatype ReadResult = Got(bytes: seq<byte>) | Retry | Fault

  /** A socket whose future is a script; a read takes no more than it asks for. */
  class Stream {
    var script: seq<Event>
    var writable: bool
    ghost var written: seq<seq<byte>>

    method Read(cap: nat) returns (r: ReadResult)
      requires cap > 0
      modifies this`script
      ensures r.Got? ==> |r.bytes| <= cap
      ensures r.Got? && r.bytes != [] ==>
                Arriving(old(script)) == r.bytes + Arriving(script) && EndingOf(script) == EndingOf(old(script))
                && Weight(script) < Weight(old(script))
      ensures r == Got([]) ==> Arriving(old(script)) == [] && EndingOf(old(script)) == EndOfData && script == old(script)
      ensures r == Retry ==>
                Arriving(script) == Arriving(old(script)) && EndingOf(script) == EndingOf(old(script))
                && Weight(script) < Weight(old(script))
      ensures r == Fault ==> Arriving(old(script)) == [] && EndingOf(old(script)) == ReadError && script == old(script)
    {
      if script == [] {
        return Got([]);
      }
      match script[0] {
        case Interrupted =>
          script := script[1..];
          return Retry;
        case Failure =>
          return Fault;
        case Chunk(b) =>
          if |b| <= cap {
            if b != [] {
              script := script[1..];
            }
            return Got(b);
          }
          TakeSome(script, cap);
          script := [Chunk(b[cap..])] + script[1..];
          return Got(b[..cap]);
      }
    }

    /** Sends a whole request, or fails before any of it counts. */
    method WriteAll(request: seq<byte>) returns (ok: bool)
      modifies this`written
      ensures ok == writable
      ensures written == if ok then old(written) + [request] else old(written)
    {
      ok := writable;
      if ok {
        written := written + [request];
      }
    }
  }

  lemma {:induction false} TakeSome(script: seq<Event>, cap: nat)
    requires script != [] && script[0].Chunk? && 0 < cap < |script[0].bytes|
    ensures var b := script[0].bytes;
            var after := [Chunk(b[cap..])] + script[1..];
            && Arriving(script) == b[..cap] + Arriving(after)
            && EndingOf(after) == EndingOf(script)
            && Weight(after) < Weight(script)
  {
    var b := script[0].bytes;
    var after := [Chunk(b[cap..])] + script[1..];
    assert after[1..] == script[1..];
    assert b == b[..cap] + b[cap..];
    Assoc(b[..cap], b[cap..], Arriving(script[1..]));
  }

  // ---------------------------------------------------------------------------
  // Frames
  // ---------------------------------------------------------------------------

  datatype EipError =
    | Io(ending: Ending)
    | Oversized                        // a reply frame past the 580-byte buffer
    | SendFailed                       // the request never left
    | TooLarge(size: nat, limit: nat)
    | Malformed
    | EncapStatus(status: nat)
    | TransactionMismatch(got: seq<byte>, want: seq<byte>)

  /** The length of the frame a 24-byte header announces. */
  function Announced(header: seq<byte>): nat
    requires |header| >= HEADER_SIZE
  {
    HEADER_SIZE + Rd16(header, 2).value
  }

  /** What reading one frame comes to, told from all the bytes that will arrive. */
  function FrameIn(arriving: seq<byte>, ending: Ending): Result<seq<byte>, EipError> {
    if |arriving| < HEADER_SIZE then Err(Io(ending))
    else if Announced(arriving) > BUFFER_SIZE then Err(Oversized)
    else if |arriving| < Announced(arriving) then Err(Io(ending))
    else Ok(arriving[..Announced(arriving)])
  }

  /** How much reading one frame takes off the stream. */
  function Consumed(arriving: seq<byte>): nat {
    if |arriving| < HEADER_SIZE then |arriving|
    else if Announced(arriving) > BUFFER_SIZE then HEADER_SIZE
    else if |arriving| < Announced(arriving) then |arriving|
    else Announced(arriving)
  }

  /** How far the reply buffer reaches once `got` bytes are in it. */
  ghost predicate Buffered(all: seq<byte>, got: nat, size: nat) {
    && got <= |all| && got <= size
    && (got < HEADER_SIZE ==> size == HEADER_SIZE)
    && (got >= HEADER_SIZE ==> size == Announced(all) && size <= BUFFER_SIZE)
  }

  lemma {:induction false} HeaderIsPrefix(all: seq<byte>, buf: seq<byte>)
    requires |buf| == HEADER_SIZE && buf <= all
    ensures Announced(all) == Announced(buf)
  {
  }

  lemma {:induction false} Dry(all: seq<byte>, got: nat, size: nat, ending: Ending)
    requires Buffered(all, got, size) && got < size && got == |all|
    ensures FrameIn(all, ending) == Err(Io(ending)) && Consumed(all) == |all|
  {
  }

  lemma {:induction false} Complete(all: seq<byte>, buf: seq<byte>, ending: Ending)
    requires Buffered(all, |buf|, |buf|) && buf[..|buf|] == all[..|buf|] && |buf| >= HEADER_SIZE
    ensures FrameIn(all, ending) == Ok(buf) && Consumed(all) == |buf|
  {
    assert buf[..|buf|] == buf;
  }

  /** One chunk taken into the buffer. */
  lemma {:induction false} TakenIn(all: seq<byte>, buf: seq<byte>, got: nat, b: seq<byte>, left: seq<byte>)
    requires got + |b| <= |buf| && got <= |all| && buf[..got] == all[..got] && all[got..] == b + left
    ensures got + |b| <= |all| && all[got + |b|..] == left
    ensures (buf[..got] + b + buf[got + |b|..])[..got + |b|] == all[..got + |b|]
  {
    assert all[got..][..|b|] == b;
    assert all[..got + |b|] == all[..got] + b;
  }

  class Connection {
    const stream: Stream
    const ids: TransactionIds
    const slot: byte
    const bufferLimit: nat
    var session: nat

    constructor (stream: Stream, ids: TransactionIds, slot: byte, bufferLimit: nat)
      ensures this.stream == stream && this.ids == ids && this.slot == slot && this.bufferLimit == bufferLimit
    {
      this.stream, this.ids, this.slot, this.bufferLimit, this.session := stream, ids, slot, bufferLimit, 0;
    }

    /** Sends one frame and reads the reply frame, unchecked. */
    method Transact(request: seq<byte>) returns (r: Result<seq<byte>, EipError>)
      modifies stream
      ensures stream.writable == old(stream.writable)
      ensures |request| > BUFFER_SIZE ==>
                r == Err(TooLarge(|request|, BUFFER_SIZE)) && stream.script == old(stream.script)
      ensures |request| <= BUFFER_SIZE && !old(stream.writable) ==>
                r == Err(SendFailed) && stream.script == old(stream.script)
      ensures |request| <= BUFFER_SIZE && old(stream.writable) ==>
                var all := Arriving(old(stream.script));
                && r == FrameIn(all, EndingOf(old(stream.script)))
                && Consumed(all) <= |all| && Arriving(stream.script) == all[Consumed(all)..]
                && EndingOf(stream.script) == EndingOf(old(stream.script))
      ensures stream.written
           == if |request| <= BUFFER_SIZE && old(stream.writable) then old(stream.written) + [request] else old(stream.written)
    {
      if |request| > BUFFER_SIZE {
        return Err(TooLarge(|request|, BUFFER_SIZE));
      }
      var sent := stream.WriteAll(request);
      if !sent {
        return Err(SendFailed);
      }
      ghost var all, ending := Arriving(stream.script), EndingOf(stream.script);
      var buf := Zeros(HEADER_SIZE);
      var got: nat := 0;
      while got < |buf|
        invariant Buffered(all, got, |buf|)
        invariant buf[..got] == all[..got] && Arriving(stream.script) == all[got..]
        invariant EndingOf(stream.script) == ending
        invariant stream.writable == old(stream.writable) && stream.written == old(stream.written) + [request]
        decreases Weight(stream.script)
      {
        var chunk := stream.Read(|buf| - got);
        match chunk {
          case Retry =>
          case Fault =>
            Dry(all, got, |buf|, ending);
            return Err(Io(ReadError));
          case Got(b) =>
            if b == [] {
              Dry(all, got, |buf|, ending);
              return Err(Io(EndOfData));
            }
            TakenIn(all, buf, got, b, Arriving(stream.script));
            buf := buf[..got] + b + buf[got + |b|..];
            got := got + |b|;
            if got == HEADER_SIZE && |buf| == HEADER_SIZE {
              HeaderIsPrefix(all, buf);
              var needed := Announced(buf);
              if needed > BUFFER_SIZE {
                return Err(Oversized);
              }
              buf := buf + Zeros(needed - HEADER_SIZE);
            }
        }
      }
      Complete(all, buf, ending);
      r := Ok(buf);
    }

    /** Sends one frame and reads the reply frame, checked against the request. */
    method Exchange(request: seq<byte>, command: nat, id: seq<byte>) returns (r: Result<seq<byte>, EipError>)
      modifies stream
      ensures stream.writable == old(stream.writable)
      ensures r == Checked(Transacted(|request|, old(stream.writable), old(stream.script)), command, id)
      ensures Left(stream.script, |request|, old(stream.writable), old(stream.script))
      ensures stream.written
           == if |request| <= BUFFER_SIZE && old(stream.writable) then old(stream.written) + [request] else old(stream.written)
    {
      var reply := Transact(request);
      if reply.Err? {
        return reply;
      }
      var header := DecodeHeader(reply.value);
      if header.None? || header.value.command != command {
        return Err(Malformed);
      }
      if header.value.status != 0 {
        return Err(EncapStatus(header.value.status));
      }
      if header.value.id != id {
        return Err(TransactionMismatch(header.value.id, id));
      }
      r := reply;
    }

    /** Sends a message and returns the message in the reply. */
    method SendRR(message: seq<byte>) returns (r: Result<seq<byte>, EipError>)
      requires ids.Valid()
      modifies stream, ids
      ensures ids.Valid() && ids.next == NextId(old(ids.next))
      ensures stream.writable == old(stream.writable)
      ensures var id := IdOf(old(ids.next));
              && r == Answered(Transacted(RRDATA_SIZE + |message|, old(stream.writable), old(stream.script)), id)
              && Left(stream.script, RRDATA_SIZE + |message|, old(stream.writable), old(stream.script))
              && stream.written
              == (if RRDATA_SIZE + |message| <= BUFFER_SIZE && old(stream.writable)
                  then old(stream.written) + [SendRRDataBytes(session, id, message)] else old(stream.written))
    {
      var id := ids.Generate();
      var frame := new Vec();
      EncodeSendRRData(session, id, message, frame);
      assert frame.bytes == SendRRDataBytes(session, id, message);
      var reply := Exchange(frame.bytes, SEND_RR_DATA, id);
      if reply.Err? {
        return reply;
      }
      var answer := DecodeRRData(reply.value);
      r := if answer.None? then Err(Malformed) else Ok(answer.value);
    }

    /** Sends a message over the backplane to the slot of this connection. */
    method SendRouted(message: seq<byte>) returns (r: Result<seq<byte>, EipError>)
      requires ids.Valid()
      modifies stream, ids
      ensures ids.Valid() && stream.writable == old(stream.writable)
      ensures var size, id := UnconnectedSendSize(|message|), IdOf(old(ids.next));
              if size > bufferLimit then
                && ids.next == old(ids.next) && r == Err(TooLarge(size, bufferLimit))
                && stream.script == old(stream.script) && stream.written == old(stream.written)
              else
                && ids.next == NextId(old(ids.next))
                && r == Answered(Transacted(RRDATA_SIZE + size, old(stream.writable), old(stream.script)), id)
                && Left(stream.script, RRDATA_SIZE + size, old(stream.writable), old(stream.script))
                && stream.written
                == (if RRDATA_SIZE + size <= BUFFER_SIZE && old(stream.writable)
                    then old(stream.written) + [RoutedFrame(session, id, message, slot)] else old(stream.written))
    {
      var size := UnconnectedSendSize(|message|);
      if size > bufferLimit {
        return Err(TooLarge(size, bufferLimit));
      }
      var request := new Vec();
      EncodeUnconnectedSend(message, slot, request);
      UnconnectedSendSizeIsExact(message, slot);
      assert request.bytes == UnconnectedSendBytes(message, slot);
      r := SendRR(request.bytes);
    }
  }

  /** The whole frame a routed message goes out in. */
  function RoutedFrame(session: nat, id: seq<byte>, message: seq<byte>, slot: byte): seq<byte> {
    SendRRDataBytes(session, id, UnconnectedSendBytes(message, slot))
  }

  /** What sending a frame of `size` bytes and reading one comes to. */
  function Transacted(size: nat, writable: bool, script: seq<Event>): Result<seq<byte>, EipError> {
    if size > BUFFER_SIZE then Err(TooLarge(size, BUFFER_SIZE))
    else if !writable then Err(SendFailed)
    else FrameIn(Arriving(script), EndingOf(script))
  }

  /** What is left on the stream behind it. */
  ghost predicate Left(after: seq<Event>, size: nat, writable: bool, before: seq<Event>) {
    if size > BUFFER_SIZE || !writable then after == before
    else
      var all := Arriving(before);
      Consumed(all) <= |all| && Arriving(after) == all[Consumed(all)..] && EndingOf(after) == EndingOf(before)
  }

  /** A reply frame checked against the command and the transaction id of its request. */
  function Checked(reply: Result<seq<byte>, EipError>, command: nat, id: seq<byte>): Result<seq<byte>, EipError> {
    match reply
    case Err(_) => reply
    case Ok(buf) =>
      match DecodeHeader(buf)
      case None => Err(Malformed)
      case Some(h) =>
        if h.command != command then Err(Malformed)
        else if h.status != 0 then Err(EncapStatus(h.status))
        else if h.id != id then Err(TransactionMismatch(h.id, id))
        else reply
  }

  /** The message in a checked SendRRData reply. */
  function Answered(reply: Result<seq<byte>, EipError>, id: seq<byte>): Result<seq<byte>, EipError> {
    match Checked(reply, SEND_RR_DATA, id)
    case Err(e) => Err(e)
    case Ok(buf) =>
      match DecodeRRData(buf)
      case None => Err(Malformed)
      case Some(message) => Ok(message)
  }

  // ---------------------------------------------------------------------------
  // Independence from the split, and recovery of the message
  // ---------------------------------------------------------------------------

  lemma {:induction false} Unfold(e: Event, rest: seq<Event>)
    ensures Arriving([e] + rest)
         == match e
            case Chunk(b) => if b == [] then [] else b + Arriving(rest)
            case Interrupted => Arriving(rest)
            case Failure => []
    ensures EndingOf([e] + rest)
         == match e
            case Chunk(b) => if b == [] then EndOfData else EndingOf(rest)
            case Interrupted => EndingOf(rest)
            case Failure => ReadError
  {
    assert ([e] + rest)[1..] == rest;
  }

  /** However a chunk is cut in two, and wherever a signal interrupts, the same bytes arrive. */
  lemma {:induction false} SplitAnywhere(pre: seq<Event>, a: seq<byte>, b: seq<byte>, post: seq<Event>)
    requires a != [] && b != []
    ensures Arriving(pre + [Chunk(a), Interrupted, Chunk(b)] + post) == Arriving(pre + [Chunk(a + b)] + post)
    ensures EndingOf(pre + [Chunk(a), Interrupted, Chunk(b)] + post) == EndingOf(pre + [Chunk(a + b)] + post)
  {
    var cut, whole := [Chunk(a), Interrupted, Chunk(b)], [Chunk(a + b)];
    if pre == [] {
      Unfold(Chunk(a), [Interrupted] + ([Chunk(b)] + post));
      Unfold(Interrupted, [Chunk(b)] + post);
      Unfold(Chunk(b), post);
      Unfold(Chunk(a + b), post);
      assert pre + cut + post == [Chunk(a)] + ([Interrupted] + ([Chunk(b)] + post));
      assert pre + whole + post == whole + post;
      Assoc(a, b, Arriving(post));
    } else {
      SplitAnywhere(pre[1..], a, b, post);
      assert (pre + cut + post)[1..] == pre[1..] + cut + post;
      assert (pre + whole + post)[1..] == pre[1..] + whole + post;
    }
  }

  /** A frame that fits the buffer is read whole, and nothing of the bytes behind it. */
  lemma {:induction false} FrameIsDelimited(frame: seq<byte>, next: seq<byte>, ending: Ending)
    requires HEADER_SIZE <= |frame| == Announced(frame) <= BUFFER_SIZE
    ensures FrameIn(frame + next, ending) == Ok(frame)
    ensures (frame + next)[Consumed(frame + next)..] == next
  {
    assert (frame + next)[..|frame|] == frame;
    assert Announced(frame + next) == Announced(frame);
  }

  /** A stream that ends within a frame gives no frame but its ending, and is read to the end. */
  lemma {:induction false} CutFrame(frame: seq<byte>, n: nat, ending: Ending)
    requires HEADER_SIZE <= |frame| == Announced(frame) <= BUFFER_SIZE && n < |frame|
    ensures FrameIn(frame[..n], ending) == Err(Io(ending)) && Consumed(frame[..n]) == n
  {
    assert n >= HEADER_SIZE ==> Announced(frame[..n]) == Announced(frame);
  }

  /** No frame is longer than the buffer: one announced to be is refused behind its header. */
  lemma {:induction false} NoFrameBeyondBuffer(all: seq<byte>, ending: Ending)
    ensures FrameIn(all, ending).Ok? ==> |FrameIn(all, ending).value| <= 580
    ensures FrameIn(all, ending) == Err(Oversized) <==> 24 <= |all| && 24 + Rd16(all, 2).value > 580
    ensures FrameIn(all, ending) == Err(Oversized) ==> Consumed(all) == 24
  {
  }

  lemma {:induction false} AnnouncedByHeader(frame: seq<byte>, h: Header)
    requires |frame| >= HEADER_SIZE && DecodeHeader(frame) == Some(h)
    ensures Announced(frame) == HEADER_SIZE + h.length
  {
  }

  lemma {:induction false} ReplyDecodes(session: nat, id: seq<byte>, payload: seq<byte>)
    requires |id| == 8 && session < 0x1_0000_0000 && |payload| <= BUFFER_SIZE - RRDATA_SIZE
    ensures DecodeHeader(SendRRDataBytes(session, id, payload)) == Some(Header(SEND_RR_DATA, 16 + |payload|, session, 0, id, 0))
  {
    var n := 16 + |payload|;
    Whole16(n);
    HeaderDecodes(SEND_RR_DATA, n, session, id, 0, ItemsBytes(|payload|) + payload);
  }

  lemma {:induction false} ReplyHeader(session: nat, id: seq<byte>, payload: seq<byte>)
    requires |id| == 8 && session < 0x1_0000_0000 && |payload| <= BUFFER_SIZE - RRDATA_SIZE
    ensures var f := SendRRDataBytes(session, id, payload);
            && |f| == RRDATA_SIZE + |payload| == Announced(f)
            && DecodeHeader(f) == Some(Header(SEND_RR_DATA, 16 + |payload|, session, 0, id, 0))
  {
    ReplyDecodes(session, id, payload);
    AnnouncedByHeader(SendRRDataBytes(session, id, payload), Header(SEND_RR_DATA, 16 + |payload|, session, 0, id, 0));
  }

  /**
   * A reply carrying `payload` is recovered, whatever follows it on the stream, exactly when it carries the id of its
   * request and the payload leaves room for the 40 bytes around it in the 580-byte buffer.
   */
  lemma {:induction false} PayloadRecovered(session: nat, theirs: seq<byte>, ours: seq<byte>, payload: seq<byte>,
                                            next: seq<byte>, ending: Ending)
    requires |theirs| == 8 && session < 0x1_0000_0000
    ensures Answered(FrameIn(SendRRDataBytes(session, theirs, payload) + next, ending), ours) == Ok(payload)
       <==> theirs == ours && |payload| <= BUFFER_SIZE - RRDATA_SIZE
  {
    var frame := SendRRDataBytes(session, theirs, payload);
    if |payload| <= BUFFER_SIZE - RRDATA_SIZE {
      ReplyHeader(session, theirs, payload);
      FrameIsDelimited(frame, next, ending);
      RRDataDecodes(session, theirs, payload);
    } else {
      NoFrameBeyondBuffer(frame + next, ending);
    }
  }

  /** What keeps a whole reply frame from being taken, told from its bytes, in the order it is looked for. */
  function Mismatch(frame: seq<byte>, command: nat, id: seq<byte>): Option<EipError>
    requires |frame| >= 24
  {
    if Rd16(frame, 0) != Some(command) then Some(Malformed)
    else if Rd32(frame, 8) != Some(0) then Some(EncapStatus(Rd32(frame, 8).value))
    else if frame[12..20] != id then Some(TransactionMismatch(frame[12..20], id))
    else None
  }

  /**
   * For every stream: an exchange gives the frame that arrives only if its command is the one of the request, its status
   * is 0 and its id is the one awaited; the first of these that fails is the error, unless reading the frame failed.
   */
  lemma {:induction false} ReplyBelongs(size: nat, writable: bool, script: seq<Event>, command: nat, id: seq<byte>)
    ensures var all, r := Arriving(script), Checked(Transacted(size, writable, script), command, id);
            && (r.Ok? ==> 24 <= |r.value| && r.value <= all && Mismatch(r.value, command, id) == None)
            && (r.Err? ==>
                  || r == Transacted(size, writable, script)
                  || (24 <= |all| && Mismatch(all, command, id) == Some(r.error)))
  {
    var all, reply := Arriving(script), Transacted(size, writable, script);
    if reply.Ok? {
      var frame := reply.value;
      assert frame == all[..|frame|] && |frame| >= 24;
      SameFields(frame, all);
    }
  }

  lemma {:induction false} SameFields(frame: seq<byte>, all: seq<byte>)
    requires 24 <= |frame| && frame <= all
    ensures Rd16(frame, 0) == Rd16(all, 0) && Rd32(frame, 8) == Rd32(all, 8) && frame[12..20] == all[12..20]
  {
    assert forall k :: 0 <= k < |frame| ==> frame[k] == all[k];
  }

  /** A frame does not leave exactly if it is longer than 580 bytes or the socket takes nothing; the first is found first. */
  lemma {:induction false} LeavesWhen(size: nat, writable: bool, script: seq<Event>)
    ensures Transacted(size, writable, script) == Err(TooLarge(size, 580)) <==> size > 580
    ensures Transacted(size, writable, script) == Err(SendFailed) <==> size <= 580 && !writable
  {
  }

  /** And a message is taken only from such a frame: it stands behind the 40 bytes around it, and is as long as they say. */
  lemma {:induction false} AnswerBelongs(size: nat, writable: bool, script: seq<Event>, id: seq<byte>)
    ensures var all, r := Arriving(script), Answered(Transacted(size, writable, script), id);
            r.Ok? ==>
              && size <= 580 && writable && 40 <= |all|
              && Rd16(all, 0) == Some(0x6F) && Rd32(all, 8) == Some(0) && all[12..20] == id
              && Rd16(all, 38) == Some(|r.value|) && r.value <= all[40..]
  {
    var all, reply := Arriving(script), Transacted(size, writable, script);
    ReplyBelongs(size, writable, script, SEND_RR_DATA, id);
    if Answered(reply, id).Ok? {
      var frame, n := reply.value, |Answered(reply, id).value|;
      SameFields(frame, all);
      assert forall k :: 0 <= k < |frame| ==> frame[k] == all[k];
      assert frame[40..40 + n] == all[40..][..n];
    }
  }

  /** A message passes the size check of a routed send exactly when its even length leaves 14 bytes. */
  lemma {:induction false} RoutedSizeCheck(message: seq<byte>, slot: byte, limit: nat)
    ensures |UnconnectedSendBytes(message, slot)| <= limit <==> |message| + |message| % 2 + 14 <= limit
    ensures UnconnectedSendSize(|message|) <= limit <==> |message| + |message| % 2 + 14 <= limit
  {
    UnconnectedSendSizeIsExact(message, slot);
  }
}
