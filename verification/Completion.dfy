/**
 * A record's pending write among scan passes, sweeps and other records: when it is told to be complete, and whether it
 * has been sent by then (drivers/ether-ip/src/driver.rs, drivers/ether-ip/src/device.rs).
 */
module Completion {
  import opened Wrappers
  import Bytes
  import opened TagBuffer
  import H = Handshake
  import L = Listeners

  /**
   * A tag and a listener bound to it. A notify is owed once a reply is applied or the tag is invalidated; the scan
   * thread does nothing else before it is over.
   */
  datatype State = State(tag: H.Tag, owed: bool, l: L.State)

  datatype Step =
    | Record(step: H.Step, ticket: Option<nat>) // a record stages a value; this listener's own has a ticket
    | Scan(step: H.Step)                        // a pass or a sweep works on the tag
    | Unbind
    | Begin                                     // the notify copies the list of listeners
    | Visit                                     // visits this one
    | End

  /** A record with a pending write is not processed again before it is complete. */
  ghost predicate Enabled(s: State, step: Step) {
    match step
    case Record(h, ticket) => h.Stage? && H.Enabled(s.tag, h) && (ticket.Some? ==> s.l.bound && s.l.pending == None)
    case Scan(h) => !h.Stage? && !s.owed && !s.l.notifying && H.Enabled(s.tag, h)
    case Unbind => L.Enabled(s.l, L.Unbind)
    case Begin => s.owed && L.Enabled(s.l, L.Begin)
    case Visit => L.Enabled(s.l, L.Visit)
    case End => L.Enabled(s.l, L.End)
  }

  function After(s: State, step: Step, on: L.OnTransfer): State {
    match step
    case Record(h, ticket) =>
      var l := if h.Stage? && h.staged && ticket.Some? then L.After(s.l, L.Stage(ticket.value), on) else s.l;
      State(H.After(s.tag, h), s.owed, l)
    case Scan(h) => State(H.After(s.tag, h), h.Answer? || h.Sweep?, s.l)
    case Unbind => s.(l := L.After(s.l, L.Unbind, on))
    case Begin => State(s.tag, false, L.After(s.l, L.Begin, on))
    case Visit => s.(l := L.After(s.l, L.Visit, on))
    case End => s.(l := L.After(s.l, L.End, on))
  }

  ghost predicate Run(s: State, steps: seq<Step>, on: L.OnTransfer)
    decreases |steps|
  {
    steps == [] || (Enabled(s, steps[0]) && Run(After(s, steps[0], on), steps[1..], on))
  }

  function Final(s: State, steps: seq<Step>, on: L.OnTransfer): State
    decreases |steps|
  {
    if steps == [] then s else Final(After(s, steps[0], on), steps[1..], on)
  }

  /** What every step keeps: with a notify owed or under way the scan thread has nothing else in hand. */
  ghost predicate Coherent(s: State) {
    && H.Inv(s.tag)
    && !(s.owed && s.l.notifying)
    && (s.owed || s.l.notifying ==> s.tag.phase.Idle?)
  }

  lemma {:induction false} StepKeepsCoherent(s: State, step: Step, on: L.OnTransfer)
    requires Coherent(s) && Enabled(s, step)
    ensures Coherent(After(s, step, on))
  {
    if step.Record? || step.Scan? {
      H.StepKeepsInv(s.tag, step.step);
    }
  }

  // ---------------------------------------------------------------------------
  // Whether a staging has been sent
  // ---------------------------------------------------------------------------

  /** A write that carries staging `n` has been on the wire. */
  predicate SentIn(log: seq<H.Event>, n: nat) {
    log != [] &&
    (var last := log[|log| - 1];
     (last.Sent? && last.from <= n < last.write.upTo) || SentIn(log[..|log| - 1], n))
  }

  lemma {:induction false} SentSnoc(log: seq<H.Event>, e: H.Event, n: nat)
    ensures SentIn(log + [e], n) <==> (e.Sent? && e.from <= n < e.write.upTo) || SentIn(log, n)
  {
    assert (log + [e])[..|log|] == log;
  }

  lemma {:induction false} NotStagedNotSent(log: seq<H.Event>, n: nat)
    requires H.SoundLog(log) && H.StagedIn(log) <= n
    ensures !SentIn(log, n)
    decreases |log|
  {
    if log != [] {
      var k := |log| - 1;
      H.StagedGrows(log, k);
      NotStagedNotSent(log[..k], n);
      if log[k].Sent? {
        H.SentWasOpen(log, k);
        H.ClosedWithin(log[..k]);
      }
    }
  }

  /** One step of a tag: whether a staging has been sent, and what is closed. */
  lemma {:induction false} StepSends(t: H.Tag, step: H.Step, n: nat)
    requires H.Inv(t) && H.Enabled(t, step)
    ensures var u := H.After(t, step);
            && (SentIn(u.log, n)
                <==> SentIn(t.log, n) || (step.Send? && t.phase.writing && H.ClosedIn(t.log) <= n < t.taken))
            && H.ClosedIn(u.log)
            == (if step.Sweep? then H.StagedIn(t.log)
                else if (step.GiveBack? || step.Fail? || step.Answer?) && t.phase.writing then t.taken
                else H.ClosedIn(t.log))
  {
    assert t.log + [] == t.log;
    match step {
      case Stage(edit, _, after, staged) =>
        SentSnoc(t.log, H.Staged(edit, after.buf), n);
        H.Counted(t.log, H.Staged(edit, after.buf));
      case Pack(order) => TakeSends(t, order, n);
      case Overflow(order) => TakeSends(t, order, n);
      case Send => SendSends(t, n);
      case Answer(reply) => AnswerSends(t, reply, n);
      case Sweep =>
        SentSnoc(t.log, H.Swept, n);
        H.Counted(t.log, H.Swept);
      case Defer =>
      case Reprobe(_, _) =>
      case _ =>
        SentSnoc(t.log, H.Closed(t.taken), n);
        H.Counted(t.log, H.Closed(t.taken));
    }
  }

  lemma {:induction false} TakeSends(t: H.Tag, order: H.Order, n: nat)
    ensures SentIn(t.log + H.TookAll(t, order), n) <==> SentIn(t.log, n)
    ensures H.ClosedIn(t.log + H.TookAll(t, order)) == H.ClosedIn(t.log)
  {
    var e := H.Took(H.Write(H.StagedIn(t.log), t.d.buf, order));
    SentSnoc(t.log, e, n);
    H.Counted(t.log, e);
    assert t.log + [] == t.log;
  }

  lemma {:induction false} SendSends(t: H.Tag, n: nat)
    requires H.Inv(t) && t.phase.Built?
    ensures var log := t.log + H.SentNow(t, t.phase.writing);
            && (SentIn(log, n) <==> SentIn(t.log, n) || (t.phase.writing && H.ClosedIn(t.log) <= n < t.taken))
            && H.ClosedIn(log) == H.ClosedIn(t.log)
  {
    assert t.log + [] == t.log;
    if t.phase.writing {
      var e := H.Sent(H.ClosedIn(t.log), H.OpenWrite(t.log).value);
      SentSnoc(t.log, e, n);
      H.Counted(t.log, e);
    }
  }

  lemma {:induction false} AnswerSends(t: H.Tag, reply: seq<Bytes.byte>, n: nat)
    requires t.phase.InFlight?
    ensures var log := t.log + H.ClosedAll(t, t.phase.writing) + H.StoredNow(t, t.phase.writing, reply);
            && (SentIn(log, n) <==> SentIn(t.log, n))
            && H.ClosedIn(log) == if t.phase.writing then t.taken else H.ClosedIn(t.log)
  {
    assert t.log + [] == t.log;
    if t.phase.writing {
      SentSnoc(t.log, H.Closed(t.taken), n);
      H.Counted(t.log, H.Closed(t.taken));
      assert t.log + [H.Closed(t.taken)] + [] == t.log + [H.Closed(t.taken)];
    } else if H.StoredNow(t, false, reply) != [] {
      var e := H.StoredNow(t, false, reply)[0];
      SentSnoc(t.log, e, n);
      H.Counted(t.log, e);
    }
  }

  // ---------------------------------------------------------------------------
  // When it has been sent by its completion
  // ---------------------------------------------------------------------------

  /** The batch taken goes out: the next thing the scan thread does with the tag is to send it. */
  predicate NextIsSend(steps: seq<Step>) {
    steps != [] && if steps[0].Scan? then steps[0].step.Send? else NextIsSend(steps[1..])
  }

  /** The tag is packed into a batch that goes out, before it is found too large for one or is invalidated. */
  predicate GoesOut(steps: seq<Step>) {
    steps != [] &&
    (if !steps[0].Scan? then GoesOut(steps[1..])
     else if steps[0].step.Pack? then NextIsSend(steps[1..])
     else !steps[0].step.Overflow? && !steps[0].step.Sweep? && GoesOut(steps[1..]))
  }

  /** No step of these tells the listener anything, or unbinds it. */
  predicate Untold(steps: seq<Step>) {
    forall k :: 0 <= k < |steps| ==> !steps[k].Visit? && !steps[k].Unbind?
  }

  /** A notify is owed to the listener, or has it still to visit. */
  predicate Outstanding(s: State) {
    s.owed || (s.l.notifying && s.l.toVisit)
  }

  /** A staging that is neither closed nor in the batch in hand. */
  ghost predicate Open(t: H.Tag, n: nat) {
    H.ClosedIn(t.log) <= n < H.StagedIn(t.log) && (t.phase.Idle? || t.taken <= n)
  }

  /** These steps, behind which the listener is visited for the first time. */
  ghost predicate ToVisit(s: State, steps: seq<Step>, on: L.OnTransfer) {
    Coherent(s) && s.l.bound && Untold(steps) && Run(s, steps + [Visit], on)
  }

  lemma {:induction false} ToVisitNext(s: State, steps: seq<Step>, on: L.OnTransfer)
    requires ToVisit(s, steps, on) && steps != []
    ensures Enabled(s, steps[0]) && ToVisit(After(s, steps[0], on), steps[1..], on)
    ensures Final(s, steps + [Visit], on) == Final(After(s, steps[0], on), steps[1..] + [Visit], on)
  {
    assert (steps + [Visit])[1..] == steps[1..] + [Visit];
    StepKeepsCoherent(s, steps[0], on);
  }

  lemma {:induction false} VisitLast(s: State, on: L.OnTransfer)
    requires Run(s, [Visit], on)
    ensures L.Enabled(s.l, L.Visit)
    ensures Final(s, [Visit], on) == After(s, Visit, on)
  {
    assert [Visit][1..] == [];
    assert Final(After(s, Visit, on), [], on) == After(s, Visit, on);
  }

  /** With a visit outstanding nothing is sent before it. */
  lemma {:induction false} VisitedFirst(s: State, steps: seq<Step>, on: L.OnTransfer, n: nat)
    requires ToVisit(s, steps, on) && Outstanding(s)
    ensures !GoesOut(steps)
    ensures SentIn(Final(s, steps + [Visit], on).tag.log, n) <==> SentIn(s.tag.log, n)
    decreases |steps|
  {
    if steps == [] {
      assert steps + [Visit] == [Visit];
      VisitLast(s, on);
    } else {
      ToVisitNext(s, steps, on);
      if steps[0].Record? {
        StepSends(s.tag, steps[0].step, n);
      }
      VisitedFirst(After(s, steps[0], on), steps[1..], on, n);
    }
  }

  /** Once closed unsent, or once sent, a staging stays so. */
  lemma {:induction false} FateStays(s: State, steps: seq<Step>, on: L.OnTransfer, n: nat)
    requires ToVisit(s, steps, on) && (SentIn(s.tag.log, n) || n < H.ClosedIn(s.tag.log))
    ensures SentIn(Final(s, steps + [Visit], on).tag.log, n) <==> SentIn(s.tag.log, n)
    decreases |steps|
  {
    if steps == [] {
      assert steps + [Visit] == [Visit];
      VisitLast(s, on);
    } else {
      ToVisitNext(s, steps, on);
      if steps[0].Record? || steps[0].Scan? {
        StepSends(s.tag, steps[0].step, n);
        H.StepGrows(s.tag, steps[0].step);
      }
      FateStays(After(s, steps[0], on), steps[1..], on, n);
    }
  }

  /** A staging in the batch in hand is sent exactly when that batch goes out. */
  lemma {:induction false} InHandGoes(s: State, steps: seq<Step>, on: L.OnTransfer, n: nat)
    requires ToVisit(s, steps, on) && s.tag.phase.Built? && s.tag.phase.writing
    requires H.ClosedIn(s.tag.log) <= n < s.tag.taken && !SentIn(s.tag.log, n)
    ensures SentIn(Final(s, steps + [Visit], on).tag.log, n) <==> NextIsSend(steps)
    decreases |steps|
  {
    if steps == [] {
      assert steps + [Visit] == [Visit];
      VisitLast(s, on);
    } else {
      ToVisitNext(s, steps, on);
      var next := After(s, steps[0], on);
      if steps[0].Record? {
        StepSends(s.tag, steps[0].step, n);
        InHandGoes(next, steps[1..], on, n);
      } else if steps[0].Scan? {
        StepSends(s.tag, steps[0].step, n);
        FateStays(next, steps[1..], on, n);
      }
    }
  }

  /** A staging taken into a write too large to be sent is given back unsent. */
  lemma {:induction false} TooLargeStays(s: State, steps: seq<Step>, on: L.OnTransfer, n: nat)
    requires ToVisit(s, steps, on) && s.tag.phase.TooLarge? && s.tag.phase.writing
    requires H.ClosedIn(s.tag.log) <= n < s.tag.taken && !SentIn(s.tag.log, n)
    ensures !SentIn(Final(s, steps + [Visit], on).tag.log, n)
    decreases |steps|
  {
    if steps == [] {
      assert steps + [Visit] == [Visit];
      VisitLast(s, on);
    } else {
      ToVisitNext(s, steps, on);
      var next := After(s, steps[0], on);
      if steps[0].Record? {
        StepSends(s.tag, steps[0].step, n);
        TooLargeStays(next, steps[1..], on, n);
      } else if steps[0].Scan? {
        StepSends(s.tag, steps[0].step, n);
        FateStays(next, steps[1..], on, n);
      }
    }
  }

  /** What becomes of an open staging when the scan thread takes the tag, or invalidates it. */
  lemma {:induction false} TakenGoes(s: State, steps: seq<Step>, on: L.OnTransfer, n: nat)
    requires ToVisit(s, steps, on) && steps != [] && steps[0].Scan? && !Outstanding(s)
    requires Open(s.tag, n) && !SentIn(s.tag.log, n)
    requires steps[0].step.Pack? || steps[0].step.Overflow? || steps[0].step.Sweep?
    ensures SentIn(Final(s, steps + [Visit], on).tag.log, n) <==> GoesOut(steps)
  {
    ToVisitNext(s, steps, on);
    var next := After(s, steps[0], on);
    StepSends(s.tag, steps[0].step, n);
    H.NoFallback(s.tag);
    match steps[0].step {
      case Pack(_) => InHandGoes(next, steps[1..], on, n);
      case Overflow(_) => TooLargeStays(next, steps[1..], on, n);
      case Sweep => FateStays(next, steps[1..], on, n);
    }
  }

  /** An open staging is sent, by the time the listener is visited, exactly when the tag goes out. */
  lemma {:induction false} OpenGoes(s: State, steps: seq<Step>, on: L.OnTransfer, n: nat)
    requires ToVisit(s, steps, on) && Open(s.tag, n) && !SentIn(s.tag.log, n)
    ensures SentIn(Final(s, steps + [Visit], on).tag.log, n) <==> GoesOut(steps)
    decreases |steps|
  {
    if steps == [] {
      assert steps + [Visit] == [Visit];
      VisitLast(s, on);
    } else if Outstanding(s) {
      VisitedFirst(s, steps, on, n);
    } else if steps[0].Scan? && (steps[0].step.Pack? || steps[0].step.Overflow? || steps[0].step.Sweep?) {
      TakenGoes(s, steps, on, n);
    } else {
      ToVisitNext(s, steps, on);
      if steps[0].Record? || steps[0].Scan? {
        StepSends(s.tag, steps[0].step, n);
        H.StepGrows(s.tag, steps[0].step);
      }
      OpenGoes(After(s, steps[0], on), steps[1..], on, n);
    }
  }

  lemma {:induction false} ToldThen(s: State, steps: seq<Step>, on: L.OnTransfer, ticket: nat)
    requires ToVisit(s, steps, on) && s.l.pending == Some(ticket)
    ensures Final(s, steps + [Visit], on).l.told == s.l.told + [L.Completed(ticket)]
    decreases |steps|
  {
    if steps == [] {
      assert steps + [Visit] == [Visit];
      VisitLast(s, on);
    } else {
      ToVisitNext(s, steps, on);
      ToldThen(After(s, steps[0], on), steps[1..], on, ticket);
    }
  }

  lemma {:induction false} StagedOpen(s: State, stage: H.Step, ticket: nat, on: L.OnTransfer)
    requires Coherent(s) && Enabled(s, Record(stage, Some(ticket))) && stage.staged
    ensures var t, n := After(s, Record(stage, Some(ticket)), on), H.StagedIn(s.tag.log);
            && Coherent(t) && t.l == s.l.(pending := Some(ticket)) && t.owed == s.owed && t.tag.phase == s.tag.phase
            && Open(t.tag, n) && !SentIn(t.tag.log, n)
  {
    var n := H.StagedIn(s.tag.log);
    StepKeepsCoherent(s, Record(stage, Some(ticket)), on);
    NotStagedNotSent(s.tag.log, n);
    StepSends(s.tag, stage, n);
    H.Counted(s.tag.log, H.Staged(stage.edit, stage.after.buf));
  }

  /**
   * Over every run: a pending write is completed by the first visit after it was staged, and has been sent by then
   * exactly when the tag is packed into a batch that goes out before any notify, and before it is found too large or
   * is invalidated.
   */
  lemma {:induction false} SentByCompletionWhen(s: State, stage: H.Step, ticket: nat, steps: seq<Step>, on: L.OnTransfer)
    requires Coherent(s) && Enabled(s, Record(stage, Some(ticket))) && stage.staged
    requires ToVisit(After(s, Record(stage, Some(ticket)), on), steps, on)
    ensures var f := Final(After(s, Record(stage, Some(ticket)), on), steps + [Visit], on);
            && f.l.told == s.l.told + [L.Completed(ticket)]
            && (SentIn(f.tag.log, H.StagedIn(s.tag.log)) <==> GoesOut(steps))
  {
    var t := After(s, Record(stage, Some(ticket)), on);
    StagedOpen(s, stage, ticket, on);
    ToldThen(t, steps, on, ticket);
    OpenGoes(t, steps, on, H.StagedIn(s.tag.log));
  }

  // ---------------------------------------------------------------------------
  // Told from the moment of staging
  // ---------------------------------------------------------------------------

  /** Every transfer goes well: none fails, no write is too large, and the tag is not invalidated. */
  predicate GoesWell(steps: seq<Step>) {
    forall k :: 0 <= k < |steps| && steps[k].Scan? ==>
      !steps[k].step.Fail? && !steps[k].step.Overflow? && !steps[k].step.Sweep?
  }

  /** The scan thread has no request of the tag in hand, and no visit is outstanding. */
  predicate Quiet(s: State) {
    (s.tag.phase.Idle? || s.tag.phase.TooLarge?) && !Outstanding(s)
  }

  lemma {:induction false} PackedIsSent(s: State, steps: seq<Step>, on: L.OnTransfer)
    requires ToVisit(s, steps, on) && GoesWell(steps) && s.tag.phase.Built?
    ensures NextIsSend(steps)
    decreases |steps|
  {
    if steps == [] {
      assert steps + [Visit] == [Visit];
      VisitLast(s, on);
    } else {
      ToVisitNext(s, steps, on);
      if !steps[0].Scan? {
        PackedIsSent(After(s, steps[0], on), steps[1..], on);
      }
    }
  }

  lemma {:induction false} QuietGoesOut(s: State, steps: seq<Step>, on: L.OnTransfer)
    requires ToVisit(s, steps, on) && GoesWell(steps) && Quiet(s)
    ensures GoesOut(steps)
    decreases |steps|
  {
    if steps == [] {
      assert steps + [Visit] == [Visit];
      VisitLast(s, on);
    } else {
      ToVisitNext(s, steps, on);
      var next := After(s, steps[0], on);
      if steps[0].Scan? && steps[0].step.Pack? {
        PackedIsSent(next, steps[1..], on);
      } else {
        QuietGoesOut(next, steps[1..], on);
      }
    }
  }

  lemma {:induction false} BusyDoesNot(s: State, steps: seq<Step>, on: L.OnTransfer)
    requires ToVisit(s, steps, on) && GoesWell(steps) && !Quiet(s)
    ensures !GoesOut(steps)
    decreases |steps|
  {
    if Outstanding(s) {
      VisitedFirst(s, steps, on, 0);
    } else if steps != [] {
      ToVisitNext(s, steps, on);
      BusyDoesNot(After(s, steps[0], on), steps[1..], on);
    }
  }

  /**
   * When every transfer goes well, whether a write is completed only after it has been sent is settled as it is staged:
   * it is exactly when the scan thread has no request of the tag in hand and no visit is outstanding. Staged while
   * a read or an earlier write is under way, or during a notify, it is completed before it is sent.
   */
  lemma {:induction false} SettledWhenStaged(s: State, stage: H.Step, ticket: nat, steps: seq<Step>, on: L.OnTransfer)
    requires Coherent(s) && Enabled(s, Record(stage, Some(ticket))) && stage.staged
    requires ToVisit(After(s, Record(stage, Some(ticket)), on), steps, on) && GoesWell(steps)
    ensures var f := Final(After(s, Record(stage, Some(ticket)), on), steps + [Visit], on);
            && f.l.told == s.l.told + [L.Completed(ticket)]
            && (SentIn(f.tag.log, H.StagedIn(s.tag.log)) <==> Quiet(s))
  {
    var t := After(s, Record(stage, Some(ticket)), on);
    SentByCompletionWhen(s, stage, ticket, steps, on);
    StagedOpen(s, stage, ticket, on);
    if Quiet(s) {
      QuietGoesOut(t, steps, on);
    } else {
      BusyDoesNot(t, steps, on);
    }
  }

  /** A listener as it is bound to a tag. */
  function Listening(tag: H.Tag): State {
    State(tag, false, L.State(true, None, false, false, []))
  }

  /**
   * A run in which a write is completed by the reply to a read that was under way when it was staged, with nothing sent
   * at all.
   */
  lemma {:induction false} CompletedBeforeItIsSent(order: H.Order, ticket: nat, on: L.OnTransfer)
    returns (before: seq<H.Step>, steps: seq<Step>)
    ensures H.Run(H.UNSEEN, before) && Run(Listening(H.Final(H.UNSEEN, before)), steps, on)
    ensures var f := Final(Listening(H.Final(H.UNSEEN, before)), steps, on);
            f.l.told == [L.Completed(ticket)] && forall x :: 0 <= x < |f.tag.log| ==> !f.tag.log[x].Sent?
  {
    var stage;
    before, stage := H.StagedWhileRead(order);
    steps := [Record(stage, Some(ticket)), Scan(H.Answer(H.ZERO_REPLY)), Begin, Visit];
    AnsweredAndTold(H.Final(H.UNSEEN, before), stage, H.ZERO_REPLY, ticket, on);
  }

  lemma {:induction false} AnsweredAndTold(tag: H.Tag, stage: H.Step, reply: seq<Bytes.byte>, ticket: nat, on: L.OnTransfer)
    requires stage.Stage? && stage.staged && H.Enabled(tag, stage) && tag.phase.InFlight?
    ensures var steps := [Record(stage, Some(ticket)), Scan(H.Answer(reply)), Begin, Visit];
            && Run(Listening(tag), steps, on)
            && Final(Listening(tag), steps, on).l.told == [L.Completed(ticket)]
            && Final(Listening(tag), steps, on).tag == H.After(H.After(tag, stage), H.Answer(reply))
  {
    Steps4(Listening(tag), Record(stage, Some(ticket)), Scan(H.Answer(reply)), Begin, Visit, on);
  }

  lemma {:induction false} StepFirst(s: State, a: Step, rest: seq<Step>, on: L.OnTransfer)
    requires Enabled(s, a) && Run(After(s, a, on), rest, on)
    ensures Run(s, [a] + rest, on) && Final(s, [a] + rest, on) == Final(After(s, a, on), rest, on)
  {
    assert ([a] + rest)[1..] == rest;
  }

  lemma {:induction false} Steps4(s: State, a: Step, b: Step, c: Step, d: Step, on: L.OnTransfer)
    requires Enabled(s, a) && Enabled(After(s, a, on), b) && Enabled(After(After(s, a, on), b, on), c)
    requires Enabled(After(After(After(s, a, on), b, on), c, on), d)
    ensures Run(s, [a, b, c, d], on)
    ensures Final(s, [a, b, c, d], on) == After(After(After(After(s, a, on), b, on), c, on), d, on)
  {
    var s1 := After(s, a, on);
    var s2 := After(s1, b, on);
    var s3 := After(s2, c, on);
    StepFirst(s3, d, [], on);
    StepFirst(s2, c, [d], on);
    StepFirst(s1, b, [c, d], on);
    StepFirst(s, a, [b, c, d], on);
    assert [d] + [] == [d] && [c] + [d] == [c, d] && [b] + [c, d] == [b, c, d] && [a] + [b, c, d] == [a, b, c, d];
  }
}
