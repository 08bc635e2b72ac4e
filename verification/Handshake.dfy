/**
 * The write handshake of one tag over every interleaving of record threads with scan passes and
 * sweeps (drivers/ether-ip/src/driver.rs, drivers/ether-ip/src/device.rs). Each step is what one
 * thread does while it holds the tag's lock.
 */
module Handshake {
  import opened Wrappers
  import opened Bytes
  import opened TagPath
  import opened Cip
  import opened Encap
  import opened Values
  import opened TagBuffer

  // ---------------------------------------------------------------------------
  // History
  // ---------------------------------------------------------------------------

  /** What a request is built for: the tag's path, the elements it asks for by then, and the byte limit. */
  datatype Order = Order(path: Path, elements: nat, limit: nat)

  /** A write of the stagings before `upTo`, built from the buffer as it was then. */
  datatype Write = Write(upTo: nat, image: seq<byte>, order: Order)

  /** What happened to a tag, oldest first. Stagings are counted from 0. */
  datatype Event =
    | Staged(edit: Edit, buf: seq<byte>) // a record put its value into the buffer and flagged it
    | Took(write: Write)                 // a pass built a write
    | Sent(from: nat, write: Write)      // and put it on the wire, carrying the stagings from `from` on
    | Closed(upTo: nat)                  // answered, failed or given back: not to be sent any more
    | Stored(data: seq<byte>)            // a read reply replaced the buffer
    | Swept                              // invalidated

  function StagedIn(log: seq<Event>): nat {
    if log == [] then 0 else StagedIn(log[..|log| - 1]) + if log[|log| - 1].Staged? then 1 else 0
  }

  /** The buffer after these events: the last value read, with all edits since in order. */
  function BufferAt(log: seq<Event>): seq<byte> {
    if log == [] then []
    else
      match log[|log| - 1]
      case Staged(_, buf) => buf
      case Stored(data) => data
      case _ => BufferAt(log[..|log| - 1])
  }

  /** The stagings below this are sent, lost or swept. */
  function ClosedIn(log: seq<Event>): nat {
    if log == [] then 0
    else
      match log[|log| - 1]
      case Closed(upTo) => upTo
      case Swept => StagedIn(log)
      case _ => ClosedIn(log[..|log| - 1])
  }

  /** The last write built, until it is closed. */
  function OpenWrite(log: seq<Event>): Option<Write> {
    if log == [] then None
    else
      match log[|log| - 1]
      case Took(w) => Some(w)
      case Closed(_) => None
      case Swept => None
      case _ => OpenWrite(log[..|log| - 1])
  }

  /** Whether it is on the wire. */
  predicate OnWire(log: seq<Event>) {
    if log == [] then false
    else
      match log[|log| - 1]
      case Sent(_, _) => true
      case Closed(_) => false
      case Swept => false
      case _ => OnWire(log[..|log| - 1])
  }

  /** Whether the tag has been read since it was last invalidated. */
  predicate ReadSince(log: seq<Event>) {
    if log == [] then false
    else
      match log[|log| - 1]
      case Stored(_) => true
      case Swept => false
      case _ => ReadSince(log[..|log| - 1])
  }

  /** What holds of an event when it happens, told from the history before it, which is sound itself. */
  ghost predicate Sound(before: seq<Event>, e: Event)
    decreases |before|, 1
  {
    && SoundLog(before)
    && match e
       case Staged(edit, buf) =>
         WellFormed(edit) && ReadSince(before) && Differs(BufferAt(before), edit) && Put(BufferAt(before), edit, buf, true)
       case Took(w) =>
         && w.upTo == StagedIn(before) > ClosedIn(before) && OpenWrite(before) == None
         && w.image == BufferAt(before) && TypeOf(w.image).Some? && ReadSince(before)
       case Sent(from, w) => from == ClosedIn(before) < w.upTo && OpenWrite(before) == Some(w) && !OnWire(before)
       case Closed(upTo) => ClosedIn(before) < upTo && OpenWrite(before).Some? && OpenWrite(before).value.upTo == upTo
       case Stored(_) => ClosedIn(before) == StagedIn(before)
       case Swept => OpenWrite(before) == None
  }

  ghost predicate SoundLog(log: seq<Event>)
    decreases |log|, 0
  {
    log == [] || Sound(log[..|log| - 1], log[|log| - 1])
  }

  // ---------------------------------------------------------------------------
  // The steps
  // ---------------------------------------------------------------------------

  /** What the scan thread has in hand for this tag. */
  datatype Phase =
    | Idle
    | Built(writing: bool)    // packed into a batch that has not left yet
    | TooLarge(writing: bool) // taken, but too large by itself
    | InFlight(writing: bool) // its batch is on the wire

  /** One tag, with its history. `taken` counts the stagings a pass has taken. */
  datatype Tag = Tag(d: TagData, phase: Phase, taken: nat, log: seq<Event>)

  const UNSEEN := Tag(FRESH, Idle, 0, [])

  datatype Step =
    | Stage(edit: Edit, elements: nat, after: TagData, staged: bool) // a record, at any time
    | Pack(order: Order)           // a pass takes the tag into its batch
    | Defer                        // takes it, but there is no room behind the others
    | Overflow(order: Order)       // takes it as the first of a batch, and it alone is too large
    | GiveBack                     // and gives its write back
    | Send                         // the batch goes out
    | Answer(reply: seq<byte>)     // the tag's reply is applied
    | Fail                         // the transfer failed: the write is given back
    | Reprobe(path: Path, probe: Option<seq<byte>>)
    | Sweep                        // the tag is invalidated

  ghost predicate Enabled(t: Tag, step: Step) {
    match step
    case Stage(edit, elements, after, staged) => WellFormed(edit) && Stages(t.d, elements, edit, after, staged)
    case Pack(_) => t.phase.Idle? && Usable(t.d)
    case Defer => t.phase.Idle? && Usable(t.d)
    case Overflow(_) => t.phase.Idle? && Usable(t.d)
    case GiveBack => t.phase.TooLarge?
    case Send => t.phase.Built?
    case Answer(_) => t.phase.InFlight?
    case Fail => t.phase.Built? || t.phase.InFlight?
    case Reprobe(_, _) => t.phase.Idle?
    case Sweep => t.phase.Idle?
  }

  /** A write of all that is staged, taken from the buffer. */
  function TookAll(t: Tag, order: Order): seq<Event> {
    if Take(t.d).isWriting then [Took(Write(StagedIn(t.log), t.d.buf, order))] else []
  }

  function ClosedAll(t: Tag, writing: bool): seq<Event> {
    if writing then [Closed(t.taken)] else []
  }

  /** The buffer replaced by a read, if it was. */
  function StoredNow(t: Tag, writing: bool, reply: seq<byte>): seq<Event> {
    var data := ReadReplyData(reply);
    if !writing && data.Some? && data.value != [] && !t.d.doWrite && |data.value| < BUFFER_SIZE
    then [Stored(data.value)] else []
  }

  function After(t: Tag, step: Step): Tag {
    var n := StagedIn(t.log);
    match step
    case Stage(edit, _, after, staged) => Tag(after, t.phase, t.taken, t.log + if staged then [Staged(edit, after.buf)] else [])
    case Pack(order) => Tag(Take(t.d), Built(Take(t.d).isWriting), n, t.log + TookAll(t, order))
    case Defer => Tag(Take(t.d), Idle, n, t.log)
    case Overflow(order) => Tag(Take(t.d), TooLarge(Take(t.d).isWriting), n, t.log + TookAll(t, order))
    case GiveBack =>
      var writing := t.phase.TooLarge? && t.phase.writing;
      Tag(Release(t.d, writing), Idle, t.taken, t.log + ClosedAll(t, writing))
    case Send =>
      var writing := t.phase.Built? && t.phase.writing;
      Tag(t.d, InFlight(writing), t.taken, t.log + SentNow(t, writing))
    case Answer(reply) =>
      var writing := t.phase.InFlight? && t.phase.writing;
      Tag(Apply(t.d, writing, reply), Idle, t.taken, t.log + ClosedAll(t, writing) + StoredNow(t, writing, reply))
    case Fail =>
      var writing := !t.phase.Idle? && t.phase.writing;
      Tag(Release(t.d, writing), Idle, t.taken, t.log + ClosedAll(t, writing))
    case Reprobe(path, probe) => t.(d := Probe(t.d, path, probe))
    case Sweep => Tag(Invalidate(t.d), t.phase, n, t.log + [Swept])
  }

  function SentNow(t: Tag, writing: bool): seq<Event> {
    match OpenWrite(t.log)
    case Some(w) => if writing then [Sent(ClosedIn(t.log), w)] else []
    case None => []
  }

  // ---------------------------------------------------------------------------
  // What every step keeps
  // ---------------------------------------------------------------------------

  predicate Writing(phase: Phase) {
    !phase.Idle? && phase.writing
  }

  /**
   * The flags tell exactly which stagings wait: `doWrite` that there are some no pass has taken,
   * `isWriting` that there are some taken and not closed. As long as there are any, the buffer
   * has a type, so a pass can always build the write; and a valid value, like any that waits, is of a
   * read since the tag was last invalidated.
   */
  ghost predicate Inv(t: Tag) {
    var closed, staged := ClosedIn(t.log), StagedIn(t.log);
    && SoundLog(t.log) && BufferAt(t.log) == t.d.buf
    && closed <= t.taken <= staged
    && (t.d.doWrite <==> t.taken < staged)
    && (t.d.isWriting <==> closed < t.taken)
    && (closed < staged ==> TypeOf(t.d.buf).Some?)
    && (t.d.valid > 0 || closed < staged ==> ReadSince(t.log))
    && (!t.phase.Idle? ==> (t.phase.writing <==> t.d.isWriting))
    && (Writing(t.phase) <==> OpenWrite(t.log).Some?)
    && (Writing(t.phase) ==> OpenWrite(t.log).value.upTo == t.taken)
    && (OnWire(t.log) <==> t.phase.InFlight? && t.phase.writing)
  }

  lemma {:induction false} Appended(log: seq<Event>, e: Event)
    requires SoundLog(log) && Sound(log, e)
    ensures SoundLog(log + [e])
  {
    assert (log + [e])[..|log|] == log;
  }

  lemma {:induction false} Counted(log: seq<Event>, e: Event)
    ensures StagedIn(log + [e]) == StagedIn(log) + if e.Staged? then 1 else 0
    ensures BufferAt(log + [e]) == match e case Staged(_, buf) => buf case Stored(data) => data case _ => BufferAt(log)
    ensures ClosedIn(log + [e]) == match e case Closed(upTo) => upTo case Swept => StagedIn(log) case _ => ClosedIn(log)
    ensures OpenWrite(log + [e])
         == match e case Took(w) => Some(w) case Closed(_) => None case Swept => None case _ => OpenWrite(log)
    ensures ReadSince(log + [e]) == match e case Stored(_) => true case Swept => false case _ => ReadSince(log)
    ensures OnWire(log + [e]) == match e case Sent(_, _) => true case Closed(_) => false case Swept => false case _ => OnWire(log)
  {
    assert (log + [e])[..|log|] == log;
  }

  lemma {:induction false} DiffersHasType(buf: seq<byte>, e: Edit)
    requires Differs(buf, e)
    ensures TypeOf(buf).Some?
  {
  }

  lemma {:induction false} StageRefused(t: Tag, step: Step)
    requires step.Stage? && !step.staged && Enabled(t, step)
    ensures step.after == t.d
  {
    if Stageable(t.d, step.elements, step.edit) && Differs(t.d.buf, step.edit) {
      PutSucceeds(t.d.buf, step.edit, step.after.buf, false);
    }
  }

  lemma {:induction false} KeptByStage(t: Tag, step: Step)
    requires Inv(t) && step.Stage? && Enabled(t, step)
    ensures Inv(After(t, step))
  {
    if step.staged {
      var e := Staged(step.edit, step.after.buf);
      DiffersHasType(t.d.buf, step.edit);
      PutKeepsShape(t.d.buf, step.edit, step.after.buf, true);
      Appended(t.log, e);
      Counted(t.log, e);
    } else {
      StageRefused(t, step);
      assert t.log + [] == t.log;
    }
  }

  /** With a write to do the buffer has a type, so that taking it never falls back to a read. */
  lemma {:induction false} NoFallback(t: Tag)
    requires Inv(t)
    ensures Take(t.d).isWriting <==> ClosedIn(t.log) < StagedIn(t.log)
  {
  }

  lemma {:induction false} KeptByTake(t: Tag, step: Step)
    requires Inv(t) && (step.Pack? || step.Overflow?) && Enabled(t, step)
    ensures Inv(After(t, step))
  {
    NoFallback(t);
    var e := Took(Write(StagedIn(t.log), t.d.buf, step.order));
    Counted(t.log, e);
    if Take(t.d).isWriting {
      Appended(t.log, e);
    } else {
      assert t.log + [] == t.log;
    }
  }

  lemma {:induction false} KeptByClose(t: Tag, step: Step)
    requires Inv(t) && (step.GiveBack? || step.Fail?) && Enabled(t, step)
    ensures Inv(After(t, step))
  {
    var e := Closed(t.taken);
    Counted(t.log, e);
    if Writing(t.phase) {
      Appended(t.log, e);
    } else {
      assert t.log + [] == t.log;
    }
  }

  lemma {:induction false} KeptBySend(t: Tag)
    requires Inv(t) && t.phase.Built?
    ensures Inv(After(t, Send))
  {
    if t.phase.writing {
      var e := Sent(ClosedIn(t.log), OpenWrite(t.log).value);
      Counted(t.log, e);
      Appended(t.log, e);
    } else {
      assert t.log + [] == t.log;
    }
  }

  lemma {:induction false} KeptByWriteAnswer(t: Tag, reply: seq<byte>)
    requires Inv(t) && t.phase.InFlight? && t.phase.writing
    ensures Inv(After(t, Answer(reply)))
  {
    var e := Closed(t.taken);
    Counted(t.log, e);
    Appended(t.log, e);
    assert t.log + [e] + [] == t.log + [e];
  }

  lemma {:induction false} KeptByReadAnswer(t: Tag, reply: seq<byte>)
    requires Inv(t) && t.phase.InFlight? && !t.phase.writing
    ensures Inv(After(t, Answer(reply)))
  {
    assert t.log + [] == t.log;
    if StoredNow(t, false, reply) != [] {
      var e := Stored(ReadReplyData(reply).value);
      Counted(t.log, e);
      Appended(t.log, e);
    }
  }

  lemma {:induction false} KeptBySweep(t: Tag)
    requires Inv(t) && t.phase.Idle?
    ensures Inv(After(t, Sweep))
  {
    Counted(t.log, Swept);
    Appended(t.log, Swept);
  }

  lemma {:induction false} StepKeepsInv(t: Tag, step: Step)
    requires Inv(t) && Enabled(t, step)
    ensures Inv(After(t, step))
  {
    match step
    case Stage(_, _, _, _) => KeptByStage(t, step);
    case Pack(_) => KeptByTake(t, step);
    case Overflow(_) => KeptByTake(t, step);
    case Defer => NoFallback(t);
    case GiveBack => KeptByClose(t, step);
    case Fail => KeptByClose(t, step);
    case Send => KeptBySend(t);
    case Answer(reply) =>
      if t.phase.writing {
        KeptByWriteAnswer(t, reply);
      } else {
        KeptByReadAnswer(t, reply);
      }
    case Reprobe(_, _) =>
    case Sweep => KeptBySweep(t);
  }

  // ---------------------------------------------------------------------------
  // Whole runs
  // ---------------------------------------------------------------------------

  ghost predicate Run(t: Tag, steps: seq<Step>)
    decreases |steps|
  {
    steps == [] || (Enabled(t, steps[0]) && Run(After(t, steps[0]), steps[1..]))
  }

  function Final(t: Tag, steps: seq<Step>): Tag
    decreases |steps|
  {
    if steps == [] then t else Final(After(t, steps[0]), steps[1..])
  }

  /** Every reachable state of a tag meets the invariant, whatever the interleaving. */
  lemma {:induction false} RunKeepsInv(t: Tag, steps: seq<Step>)
    requires Inv(t) && Run(t, steps)
    ensures Inv(Final(t, steps))
    decreases |steps|
  {
    if steps != [] {
      StepKeepsInv(t, steps[0]);
      RunKeepsInv(After(t, steps[0]), steps[1..]);
    }
  }

  lemma {:induction false} PrefixSound(log: seq<Event>, i: nat)
    requires SoundLog(log) && i <= |log|
    ensures SoundLog(log[..i])
    ensures i < |log| ==> Sound(log[..i], log[i])
    decreases |log|
  {
    if i == |log| {
      assert log[..i] == log;
    } else if i < |log| - 1 {
      PrefixSound(log[..|log| - 1], i);
      assert log[..|log| - 1][..i] == log[..i];
    }
  }

  lemma {:induction false} ReachedSound(steps: seq<Step>, i: nat)
    requires Run(UNSEEN, steps) && i < |Final(UNSEEN, steps).log|
    ensures var log := Final(UNSEEN, steps).log; SoundLog(log[..i]) && Sound(log[..i], log[i])
  {
    RunKeepsInv(UNSEEN, steps);
    PrefixSound(Final(UNSEEN, steps).log, i);
  }

  /** No read reply ever overwrites a staged value that has not been sent, lost or swept. */
  lemma {:induction false} ReadsNeverOverwrite(steps: seq<Step>, i: nat)
    requires Run(UNSEEN, steps)
    ensures var log := Final(UNSEEN, steps).log;
            i < |log| && log[i].Stored? ==> ClosedIn(log[..i]) == StagedIn(log[..i])
  {
    if i < |Final(UNSEEN, steps).log| {
      ReachedSound(steps, i);
    }
  }

  /** Where the open write was built; the tag has not been invalidated since. */
  lemma {:induction false} OpenWriteTaken(log: seq<Event>) returns (m: nat)
    requires OpenWrite(log).Some?
    ensures m < |log| && log[m] == Took(OpenWrite(log).value)
    ensures forall x :: m < x < |log| ==> !log[x].Swept?
    decreases |log|
  {
    var n := |log| - 1;
    if log[n].Took? {
      m := n;
    } else {
      m := OpenWriteTaken(log[..n]);
    }
  }

  /** The last read; the tag has not been invalidated since. */
  lemma {:induction false} LastRead(log: seq<Event>) returns (k: nat)
    requires ReadSince(log)
    ensures k < |log| && log[k].Stored? && forall x :: k < x < |log| ==> !log[x].Stored? && !log[x].Swept?
    decreases |log|
  {
    var n := |log| - 1;
    if log[n].Stored? {
      k := n;
    } else {
      k := LastRead(log[..n]);
    }
  }

  /** What these events make of a buffer that held `data`. */
  function BufferFrom(data: seq<byte>, log: seq<Event>): seq<byte> {
    if log == [] then data
    else
      match log[|log| - 1]
      case Staged(_, buf) => buf
      case _ => BufferFrom(data, log[..|log| - 1])
  }

  /** Event `x` of these is no read and no sweep, and an edit is put into what the ones before it left. */
  ghost predicate EditAt(data: seq<byte>, log: seq<Event>, x: nat)
    requires x < |log|
  {
    && !log[x].Stored? && !log[x].Swept?
    && (log[x].Staged? ==> Put(BufferFrom(data, log[..x]), log[x].edit, log[x].buf, true))
  }

  /** These events change a buffer that held `data` by edits alone. */
  ghost predicate EditsOf(data: seq<byte>, log: seq<Event>) {
    forall x {:trigger EditAt(data, log, x)} :: 0 <= x < |log| ==> EditAt(data, log, x)
  }

  /** A write built at `m` from the value read at `k`, with every edit staged since put into it, and nothing else. */
  ghost predicate BuiltFrom(log: seq<Event>, k: nat, m: nat, w: Write) {
    && k < m < |log| && log[k].Stored? && log[m] == Took(w)
    && EditsOf(log[k].data, log[k + 1..m]) && w.image == BufferFrom(log[k].data, log[k + 1..m])
    && w.upTo == StagedIn(log[..m]) && TypeOf(w.image).Some?
  }

  lemma {:induction false} BufferSince(log: seq<Event>, k: nat)
    requires k < |log| && log[k].Stored? && forall x :: k < x < |log| ==> !log[x].Stored?
    ensures BufferAt(log) == BufferFrom(log[k].data, log[k + 1..])
    decreases |log|
  {
    var n := |log| - 1;
    if k < n {
      BufferSince(log[..n], k);
      assert log[k + 1..][..n - (k + 1)] == log[..n][k + 1..];
    }
  }

  lemma {:induction false} StagingPuts(log: seq<Event>, i: nat)
    requires SoundLog(log) && i < |log| && log[i].Staged?
    ensures Put(BufferAt(log[..i]), log[i].edit, log[i].buf, true)
  {
    PrefixSound(log, i);
  }

  lemma {:induction false} EditSince(log: seq<Event>, k: nat, m: nat, x: nat)
    requires SoundLog(log) && k + 1 + x < m <= |log| && log[k].Stored?
    requires forall y :: k < y < m ==> !log[y].Stored? && !log[y].Swept?
    ensures EditAt(log[k].data, log[k + 1..m], x)
  {
    var at := k + 1 + x;
    assert log[..at][k + 1..] == log[k + 1..m][..x];
    BufferSince(log[..at], k);
    if log[at].Staged? {
      StagingPuts(log, at);
    }
  }

  lemma {:induction false} EditsSince(log: seq<Event>, k: nat, m: nat)
    requires SoundLog(log) && k < m <= |log| && log[k].Stored?
    requires forall x :: k < x < m ==> !log[x].Stored? && !log[x].Swept?
    ensures EditsOf(log[k].data, log[k + 1..m])
  {
    var edits := log[k + 1..m];
    forall x | 0 <= x < |edits|
      ensures EditAt(log[k].data, edits, x)
    {
      EditSince(log, k, m, x);
    }
  }

  lemma {:induction false} SentWasOpen(log: seq<Event>, j: nat)
    requires SoundLog(log) && j < |log| && log[j].Sent?
    ensures OpenWrite(log[..j]) == Some(log[j].write) && ClosedIn(log[..j]) == log[j].from < log[j].write.upTo
  {
    PrefixSound(log, j);
  }

  lemma {:induction false} TookBuffer(log: seq<Event>, m: nat)
    requires SoundLog(log) && m < |log| && log[m].Took?
    ensures var w := log[m].write;
            && ReadSince(log[..m]) && w.image == BufferAt(log[..m]) && TypeOf(w.image).Some?
            && w.upTo == StagedIn(log[..m])
  {
    PrefixSound(log, m);
  }

  lemma {:induction false} TookIsBuilt(log: seq<Event>, m: nat, w: Write) returns (k: nat)
    requires SoundLog(log) && m < |log| && log[m] == Took(w)
    ensures BuiltFrom(log, k, m, w)
    ensures forall x :: k <= x < m ==> !log[x].Swept?
  {
    TookBuffer(log, m);
    k := LastRead(log[..m]);
    BufferSince(log[..m], k);
    assert log[..m][k + 1..] == log[k + 1..m];
    EditsSince(log, k, m);
  }

  /** Every write on the wire was built from a read that came after all sweeps before it. */
  lemma {:induction false} SentIsBuilt(log: seq<Event>, j: nat) returns (k: nat, m: nat)
    requires SoundLog(log) && j < |log| && log[j].Sent?
    ensures m < j && BuiltFrom(log, k, m, log[j].write)
    ensures forall x :: k <= x < j ==> !log[x].Swept?
  {
    SentWasOpen(log, j);
    m := OpenWriteTaken(log[..j]);
    assert forall x :: m < x < j ==> !log[x].Swept?;
    k := TookIsBuilt(log, m, log[j].write);
  }

  /**
   * A write on the wire is the last value read with every edit staged since, up to when a pass took it, put into it
   * in turn; and it carries at least one staging that no write carried before.
   */
  lemma {:induction false} WritesCarryAllEdits(steps: seq<Step>, i: nat) returns (k: nat, m: nat)
    requires Run(UNSEEN, steps)
    requires i < |Final(UNSEEN, steps).log| && Final(UNSEEN, steps).log[i].Sent?
    ensures var log := Final(UNSEEN, steps).log;
            m < i && BuiltFrom(log, k, m, log[i].write) && log[i].from < log[i].write.upTo
  {
    RunKeepsInv(UNSEEN, steps);
    SentWasOpen(Final(UNSEEN, steps).log, i);
    k, m := SentIsBuilt(Final(UNSEEN, steps).log, i);
  }

  /** The value as it goes out in a write's request; the element count goes out as 16 bits. */
  function Carried(w: Write): seq<byte>
    requires TypeOf(w.image).Some?
  {
    ValueOnWire(w.image, w.order.path, w.order.elements % 0x1_0000, w.order.limit)
  }

  /**
   * What goes out is the whole buffer exactly when the buffer has just the elements asked for by then or, of a STRING,
   * when its text fits the limit; else it is cut, or filled up with zeros.
   */
  lemma {:induction false} SentWholeWhen(steps: seq<Step>, i: nat)
    requires Run(UNSEEN, steps)
    requires i < |Final(UNSEEN, steps).log| && Final(UNSEEN, steps).log[i].Sent?
    ensures var w := Final(UNSEEN, steps).log[i].write;
            && TypeOf(w.image).Some?
            && (Carried(w) == WholeValue(w.image)
                <==> SentWhole(w.image, w.order.path, w.order.elements % 0x1_0000, w.order.limit))
  {
    var k, m := WritesCarryAllEdits(steps, i);
    var w := Final(UNSEEN, steps).log[i].write;
    CarriedWholeWhen(w.image, w.order.path, w.order.elements % 0x1_0000, w.order.limit);
  }

  lemma {:induction false} ClosedWithin(log: seq<Event>)
    requires SoundLog(log)
    ensures ClosedIn(log) <= StagedIn(log)
    ensures OpenWrite(log).Some? ==> OpenWrite(log).value.upTo <= StagedIn(log)
    decreases |log|
  {
    if log != [] {
      ClosedWithin(log[..|log| - 1]);
    }
  }

  /** What is closed stays closed. */
  lemma {:induction false} ClosedGrows(log: seq<Event>, i: nat)
    requires SoundLog(log) && i <= |log|
    ensures ClosedIn(log[..i]) <= ClosedIn(log)
    decreases |log|
  {
    var n := |log|;
    if i == n {
      assert log[..i] == log;
    } else {
      ClosedGrows(log[..n - 1], i);
      ClosedWithin(log[..n - 1]);
      assert log[..n - 1][..i] == log[..i];
    }
  }

  /** A write once sent is on the wire, or its stagings are closed. */
  lemma {:induction false} SentOnce(log: seq<Event>, i: nat)
    requires SoundLog(log) && i < |log| && log[i].Sent?
    ensures ClosedIn(log) >= log[i].write.upTo
         || (OnWire(log) && OpenWrite(log).Some? && OpenWrite(log).value.upTo == log[i].write.upTo)
    decreases |log|
  {
    var n := |log| - 1;
    PrefixSound(log, n);
    if i < n {
      SentOnce(log[..n], i);
      ClosedGrows(log, n);
    }
  }

  /** No staging is sent twice: writes on the wire carry ranges of stagings that do not overlap. */
  lemma {:induction false} NoStagingSentTwice(steps: seq<Step>, i: nat, j: nat)
    requires Run(UNSEEN, steps) && i < j < |Final(UNSEEN, steps).log|
    ensures var log := Final(UNSEEN, steps).log; log[i].Sent? && log[j].Sent? ==> log[i].write.upTo <= log[j].from
  {
    var log := Final(UNSEEN, steps).log;
    ReachedSound(steps, j);
    if log[i].Sent? && log[j].Sent? {
      SentOnce(log[..j], i);
    }
  }

  lemma {:induction false} SweptCloses(log: seq<Event>, i: nat)
    requires SoundLog(log) && i < |log| && log[i].Swept?
    ensures ClosedIn(log) >= StagedIn(log[..i])
    decreases |log|
  {
    var n := |log| - 1;
    if i < n {
      SweptCloses(log[..n], i);
      assert log[..n][..i] == log[..i];
      ClosedGrows(log, n);
    }
  }

  /**
   * Nothing staged before a tag is swept is sent after it: the write is built from a value read after the sweep, with
   * edits put into it that were all staged after that read.
   */
  lemma {:induction false} NothingStaleSent(steps: seq<Step>, i: nat, j: nat) returns (k: nat, m: nat)
    requires Run(UNSEEN, steps) && i < j < |Final(UNSEEN, steps).log|
    requires var log := Final(UNSEEN, steps).log; log[i].Swept? && log[j].Sent?
    ensures var log := Final(UNSEEN, steps).log;
            i < k < m < j && BuiltFrom(log, k, m, log[j].write) && StagedIn(log[..i]) <= log[j].from
  {
    RunKeepsInv(UNSEEN, steps);
    k, m := NothingStale(Final(UNSEEN, steps).log, i, j);
  }

  lemma {:induction false} NothingStale(log: seq<Event>, i: nat, j: nat) returns (k: nat, m: nat)
    requires SoundLog(log) && i < j < |log| && log[i].Swept? && log[j].Sent?
    ensures i < k < m < j && BuiltFrom(log, k, m, log[j].write) && StagedIn(log[..i]) <= log[j].from
  {
    k, m := SentIsBuilt(log, j);
    PrefixSound(log, j);
    SweptCloses(log[..j], i);
    assert log[..j][..i] == log[..i];
  }

  lemma {:induction false} BufferKept(log: seq<Event>, m: nat)
    requires m < |log| && log[m].Staged?
    requires forall k :: m < k < |log| ==> !log[k].Staged? && !log[k].Stored?
    ensures BufferAt(log) == log[m].buf
    decreases |log|
  {
    if m < |log| - 1 {
      BufferKept(log[..|log| - 1], m);
    }
  }

  lemma {:induction false} StagedOnlyThen(log: seq<Event>, m: nat, k: nat)
    requires m < k <= |log| && forall x :: m < x < |log| ==> !log[x].Staged?
    ensures StagedIn(log[..k]) == StagedIn(log)
    decreases |log|
  {
    if k == |log| {
      assert log[..k] == log;
    } else {
      StagedOnlyThen(log[..|log| - 1], m, k);
      assert log[..|log| - 1][..k] == log[..k];
    }
  }

  /** Nothing is read while the last staging waits. */
  lemma {:induction false} NotReadMeanwhile(log: seq<Event>, m: nat, k: nat)
    requires SoundLog(log) && m < k < |log| && ClosedIn(log) < StagedIn(log)
    requires forall x :: m < x < |log| ==> !log[x].Staged?
    ensures !log[k].Stored?
  {
    PrefixSound(log, k);
    StagedOnlyThen(log, m, k);
    ClosedGrows(log, k);
  }

  /** The value a record staged last is what the next write is built from, wherever its buffer has room for it. */
  lemma {:induction false} LastEditCarried(steps: seq<Step>, m: nat, j: nat)
    requires Run(UNSEEN, steps) && m < j < |Final(UNSEEN, steps).log|
    requires var log := Final(UNSEEN, steps).log;
             log[m].Staged? && log[j].Took? && forall k :: m < k < j ==> !log[k].Staged?
    ensures var log := Final(UNSEEN, steps).log;
            && log[j].write.image == log[m].buf
            && (Carries(log[j].write.image, log[m].edit) <==> HasRoom(BufferAt(log[..m]), log[m].edit))
  {
    var log := Final(UNSEEN, steps).log;
    ReachedSound(steps, j);
    ReachedSound(steps, m);
    forall k | m < k < j
      ensures !log[k].Stored?
    {
      NotReadMeanwhile(log[..j], m, k);
    }
    BufferKept(log[..j], m);
    StagedValueHeld(BufferAt(log[..m]), log[m].edit, log[m].buf);
  }

  /** A staged write is not lost: until it is taken or swept it waits in `doWrite`, with the buffer that holds it. */
  lemma {:induction false} StagedWaits(t: Tag, step: Step)
    requires Inv(t) && Enabled(t, step) && t.d.doWrite
    ensures var u := After(t, step);
            (u.d.doWrite && u.taken == t.taken && (step.Stage? || u.d.buf == t.d.buf))
            || ((step.Pack? || step.Defer? || step.Overflow?) && u.d.isWriting && u.d.buf == t.d.buf)
            || step.Sweep?
  {
    NoFallback(t);
    if step.Stage? && !step.staged {
      StageRefused(t, step);
    }
  }

  lemma {:induction false} StagedGrows(log: seq<Event>, i: nat)
    requires i <= |log|
    ensures StagedIn(log[..i]) <= StagedIn(log)
    decreases |log|
  {
    if i == |log| {
      assert log[..i] == log;
    } else {
      StagedGrows(log[..|log| - 1], i);
      assert log[..|log| - 1][..i] == log[..i];
    }
  }

  lemma {:induction false} LogGrows(t: Tag, step: Step)
    ensures t.log <= After(t, step).log
  {
  }

  /** No step takes back what is staged or closed. */
  lemma {:induction false} StepGrows(t: Tag, step: Step)
    requires Inv(t) && Enabled(t, step)
    ensures StagedIn(t.log) <= StagedIn(After(t, step).log) && ClosedIn(t.log) <= ClosedIn(After(t, step).log)
  {
    var log := After(t, step).log;
    StepKeepsInv(t, step);
    LogGrows(t, step);
    StagedGrows(log, |t.log|);
    ClosedGrows(log, |t.log|);
    assert log[..|t.log|] == t.log;
  }

  // ---------------------------------------------------------------------------
  // A staged write is reachable
  // ---------------------------------------------------------------------------

  /** The value of a DINT tag, and a reply with it. */
  const ZERO_DINT: seq<byte> := [0xC4, 0, 0, 0, 0, 0]
  const ZERO_REPLY: seq<byte> := [0xCC, 0, 0, 0, 0xC4, 0, 0, 0, 0, 0]

  lemma {:induction false} ZeroReplyRead()
    ensures ReadReplyData(ZERO_REPLY) == Some(ZERO_DINT)
    ensures Differs(ZERO_DINT, SetDint(0, 1)) && PutDint(ZERO_DINT, 0, 1).Some?
  {
    assert ZERO_REPLY[4..] == ZERO_DINT;
    assert TypeOf(ZERO_DINT) == Some(Dint);
    DintWritable(ZERO_DINT, 0, 1);
  }

  lemma {:induction false} RunSnoc(t: Tag, steps: seq<Step>, step: Step)
    requires Run(t, steps) && Enabled(Final(t, steps), step)
    ensures Run(t, steps + [step]) && Final(t, steps + [step]) == After(Final(t, steps), step)
    decreases |steps|
  {
    if steps == [] {
      assert [] + [step] == [step] && [step][1..] == [];
      assert Run(After(t, step), []);
      assert Final(After(t, step), []) == After(t, step);
    } else {
      assert (steps + [step])[1..] == steps[1..] + [step];
      RunSnoc(After(t, steps[0]), steps[1..], step);
    }
  }

  /** What a tag comes to after a probe and a read of a DINT. */
  lemma {:induction false} ReadTag(order: Order) returns (steps: seq<Step>)
    ensures Run(UNSEEN, steps)
    ensures Final(UNSEEN, steps)
         == Tag(Probe(FRESH, order.path, Some(ZERO_DINT)).(buf := ZERO_DINT, valid := 6), Idle, 0, [Stored(ZERO_DINT)])
  {
    ZeroReplyRead();
    steps := [];
    RunSnoc(UNSEEN, steps, Reprobe(order.path, Some(ZERO_DINT)));
    steps := steps + [Reprobe(order.path, Some(ZERO_DINT))];
    var t := Final(UNSEEN, steps);
    RunSnoc(UNSEEN, steps, Pack(order));
    steps := steps + [Pack(order)];
    assert Final(UNSEEN, steps) == Tag(t.d, Built(false), 0, []);
    RunSnoc(UNSEEN, steps, Send);
    steps := steps + [Send];
    assert Final(UNSEEN, steps) == Tag(t.d, InFlight(false), 0, []);
    RunSnoc(UNSEEN, steps, Answer(ZERO_REPLY));
    steps := steps + [Answer(ZERO_REPLY)];
    assert [] + [] + [Stored(ZERO_DINT)] == [Stored(ZERO_DINT)];
  }

  /** And with a second read of it on the wire. */
  lemma {:induction false} ReadAgain(order: Order) returns (steps: seq<Step>)
    ensures Run(UNSEEN, steps)
    ensures Final(UNSEEN, steps)
         == Tag(Probe(FRESH, order.path, Some(ZERO_DINT)).(buf := ZERO_DINT, valid := 6), InFlight(false), 0, [Stored(ZERO_DINT)])
  {
    steps := ReadTag(order);
    var t := Final(UNSEEN, steps);
    Counted([], Stored(ZERO_DINT));
    assert [] + [Stored(ZERO_DINT)] == [Stored(ZERO_DINT)] == [Stored(ZERO_DINT)] + [];
    RunSnoc(UNSEEN, steps, Pack(order));
    steps := steps + [Pack(order)];
    assert Final(UNSEEN, steps) == Tag(t.d, Built(false), 0, [Stored(ZERO_DINT)]);
    RunSnoc(UNSEEN, steps, Send);
    steps := steps + [Send];
  }

  /** A value staged while a read is on the wire; the reply to it sends nothing. */
  lemma {:induction false} StagedWhileRead(order: Order) returns (steps: seq<Step>, stage: Step)
    ensures Run(UNSEEN, steps) && Final(UNSEEN, steps).phase.InFlight?
    ensures stage.Stage? && stage.staged && Enabled(Final(UNSEEN, steps), stage)
    ensures var log := After(After(Final(UNSEEN, steps), stage), Answer(ZERO_REPLY)).log;
            forall x :: 0 <= x < |log| ==> !log[x].Sent?
  {
    steps := ReadAgain(order);
    var t := Final(UNSEEN, steps);
    stage := Stage(SetOne(), 1, t.d.(buf := ONE_DINT, doWrite := true), true);
    ZeroReplyRead();
    OnePut();
  }

  /** Any DINT tag can come to have a staged write waiting, with the scan thread idle. */
  lemma {:induction false} StagedReachable(order: Order) returns (steps: seq<Step>)
    ensures Run(UNSEEN, steps)
    ensures var x := Final(UNSEEN, steps);
            Inv(x) && x.d.doWrite && x.phase.Idle? && Usable(x.d) && StagedIn(x.log) == 1 && x.d.buf == ONE_DINT
  {
    steps := ReadTag(order);
    ZeroReplyRead();
    OnePut();
    var t := Final(UNSEEN, steps);
    var stage := Stage(SetOne(), 1, t.d.(buf := ONE_DINT, doWrite := true), true);
    Counted([], Stored(ZERO_DINT));
    Counted(t.log, Staged(stage.edit, ONE_DINT));
    RunSnoc(UNSEEN, steps, stage);
    steps := steps + [stage];
    RunKeepsInv(UNSEEN, steps);
  }

  /** The same tag with 1 for its value. */
  const ONE_DINT: seq<byte> := [0xC4, 0, 1, 0, 0, 0]

  function SetOne(): Edit {
    SetDint(0, 1)
  }

  lemma {:induction false} OnePut()
    ensures PutDint(ZERO_DINT, 0, 1) == Some(ONE_DINT)
  {
    assert U32(1) == [1, 0, 0, 0];
    assert ZERO_DINT[..2] + [1, 0, 0, 0] + ZERO_DINT[6..] == ONE_DINT;
  }

  /**
   * When more elements have come to be asked for since the last read, a write of the one element that was staged
   * sends zeros for the others, which nobody staged.
   */
  lemma {:induction false} GrownTagSendsZeros(path: Path, limit: nat) returns (steps: seq<Step>)
    ensures Run(UNSEEN, steps) && Final(UNSEEN, steps).log != []
    ensures var last := Final(UNSEEN, steps).log[|Final(UNSEEN, steps).log| - 1];
            && last.Sent? && last.write.image == ONE_DINT && last.write.order == Order(path, 2, limit)
            && Carried(last.write) == [1, 0, 0, 0, 0, 0, 0, 0]
  {
    steps := StagedReachable(Order(path, 1, limit));
    steps := RunToSend(steps, Order(path, 2, limit));
    OneWithZeros(Final(UNSEEN, steps).log[|Final(UNSEEN, steps).log| - 1].write);
  }

  lemma {:induction false} RunToSend(steps: seq<Step>, order: Order) returns (all: seq<Step>)
    requires Run(UNSEEN, steps)
    requires var x := Final(UNSEEN, steps); Inv(x) && x.d.doWrite && x.phase.Idle? && Usable(x.d)
    ensures Run(UNSEEN, all) && Final(UNSEEN, all) == After(After(Final(UNSEEN, steps), Pack(order)), Send)
    ensures var x, log := Final(UNSEEN, steps), Final(UNSEEN, all).log;
            log != [] && log[|log| - 1] == Sent(ClosedIn(x.log), Write(StagedIn(x.log), x.d.buf, order))
  {
    var x := Final(UNSEEN, steps);
    PackedAndSent(x, order);
    RunSnoc(UNSEEN, steps, Pack(order));
    RunSnoc(UNSEEN, steps + [Pack(order)], Send);
    all := steps + [Pack(order)] + [Send];
  }

  /** A staged write is sent, with the buffer as it is, once a pass has room for it. */
  lemma {:induction false} PackedAndSent(x: Tag, order: Order)
    requires Inv(x) && x.d.doWrite && x.phase.Idle? && Usable(x.d)
    ensures Enabled(x, Pack(order)) && Enabled(After(x, Pack(order)), Send)
    ensures var log := After(After(x, Pack(order)), Send).log;
            log != [] && log[|log| - 1] == Sent(ClosedIn(x.log), Write(StagedIn(x.log), x.d.buf, order))
    ensures ClosedIn(x.log) < StagedIn(x.log)
  {
    NoFallback(x);
    Counted(x.log, Took(Write(StagedIn(x.log), x.d.buf, order)));
  }

  lemma {:induction false} OneWithZeros(w: Write)
    requires w.image == ONE_DINT && w.order.elements == 2
    ensures TypeOf(w.image).Some? && Carried(w) == [1, 0, 0, 0, 0, 0, 0, 0]
  {
    OneDintData();
    OneOnWire(w.image, w.order.path, w.order.elements % 0x1_0000, w.order.limit);
  }

  lemma {:induction false} OneOnWire(image: seq<byte>, path: Path, elements: nat, limit: nat)
    requires image == ONE_DINT && TypeOf(image) == Some(Dint) && elements == 2
    ensures ValueOnWire(image, path, elements, limit) == [1, 0, 0, 0, 0, 0, 0, 0]
  {
    DataOnWire(image, path, elements, limit);
    OneDintData();
    PadFour([1, 0, 0, 0]);
  }

  lemma {:induction false} PadFour(raw: seq<byte>)
    requires raw == [1, 0, 0, 0]
    ensures Payload(raw, 8) == [1, 0, 0, 0, 0, 0, 0, 0]
  {
    assert Zeros(4) == [0, 0, 0, 0];
  }

  lemma {:induction false} OneDintData()
    ensures TypeOf(ONE_DINT) == Some(Dint) && ONE_DINT[TYPECODE_SIZE..] == [1, 0, 0, 0]
  {
  }
}
