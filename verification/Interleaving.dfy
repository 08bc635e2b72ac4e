/**
 * One pass over a list while record threads go on staging values (drivers/ether-ip/src/driver.rs). Each tag goes
 * through the steps of its handshake; sizes are those at the moment the pass takes the tag.
 */
module Interleaving {
  import opened Wrappers
  import opened Bytes
  import opened Packing
  import opened TagBuffer
  import H = Handshake

  /** Why a batch is complete: the list has ended, or a tag of this cost has no room behind it. */
  datatype Closer = ListEnds | NoRoom(tag: nat, cost: Cost)

  datatype Mode =
    | Building
    | Sending(closer: Closer)             // a batch is complete
    | Answering(next: nat)                // it is on the wire, and so many of its replies have been applied
    | Returning(cost: Cost)               // the first tag of a batch was too large; its write is to be given back
    | Done(stop: nat, last: Option<Cost>) // where the pass has ended, and the cost of the tag that ended it
    | Failed(unsent: seq<nat>)            // a transfer has failed, before or after it left

  /** A batch that went out: its tags, their costs as they were taken, and why there are no more. */
  datatype Message = Message(tags: seq<nat>, costs: seq<Cost>, closer: Closer)

  /** A pass: the tags, the cursor, the batch being built with its costs, and all that has been sent. */
  datatype Pass = Pass(tags: seq<H.Tag>, limit: nat, at: nat, batch: seq<nat>, costs: seq<Cost>, mode: Mode,
                       sent: seq<nat>, messages: seq<Message>)

  datatype Step =
    | Stage(tag: nat, step: H.Step) // a record, at any time
    | Skip                          // an unusable tag
    | Take(order: H.Order)          // a usable one: packed, deferred or found too large
    | GiveBack
    | EndOfList
    | Send
    | Answer(reply: seq<byte>)
    | Fail                          // the transfer fails: every write of the batch that has no reply is given back

  ghost predicate Enabled(p: Pass, step: Step) {
    match step
    case Stage(k, h) => k < |p.tags| && h.Stage? && H.Enabled(p.tags[k], h)
    case Skip => p.mode.Building? && p.at < |p.tags| && !Usable(p.tags[p.at].d)
    case Take(_) => p.mode.Building? && p.at < |p.tags| && Usable(p.tags[p.at].d)
    case GiveBack => p.mode.Returning? && p.at < |p.tags|
    case EndOfList => p.mode.Building? && p.at == |p.tags|
    case Send => p.mode.Sending?
    case Answer(_) => p.mode.Answering? && p.mode.next < |p.batch| && p.batch[p.mode.next] < |p.tags|
    case Fail => p.mode.Sending? || (p.mode.Answering? && p.mode.next <= |p.batch|)
  }

  /** One step of the handshake for all tags of a batch. */
  function EachAfter(tags: seq<H.Tag>, batch: seq<nat>, h: H.Step): (r: seq<H.Tag>)
    ensures |r| == |tags|
  {
    seq(|tags|, k requires 0 <= k < |tags| => if k in batch then H.After(tags[k], h) else tags[k])
  }

  /** The tags of the batch that a failing transfer leaves without a reply. */
  function Unanswered(p: Pass): seq<nat> {
    match p.mode
    case Answering(n) => if n <= |p.batch| then p.batch[n..] else []
    case _ => p.batch
  }

  function After(p: Pass, step: Step): Pass {
    match step
    case Stage(k, h) => if k < |p.tags| then p.(tags := p.tags[k := H.After(p.tags[k], h)]) else p
    case Skip => p.(at := p.at + 1)
    case Take(order) => if p.at < |p.tags| then Taken(p, order) else p
    case GiveBack =>
      if p.at < |p.tags| && p.mode.Returning?
      then p.(tags := p.tags[p.at := H.After(p.tags[p.at], H.GiveBack)], mode := Done(p.at, Some(p.mode.cost)))
      else p
    case EndOfList => p.(mode := if p.batch == [] then Done(p.at, None) else Sending(ListEnds))
    case Send =>
      if !p.mode.Sending? then p
      else
        p.(tags := EachAfter(p.tags, p.batch, H.Send), mode := Answering(0), sent := p.sent + p.batch,
           messages := p.messages + [Message(p.batch, p.costs, p.mode.closer)])
    case Answer(reply) =>
      if !p.mode.Answering? || p.mode.next >= |p.batch| || p.batch[p.mode.next] >= |p.tags| then p
      else
        var k, n := p.batch[p.mode.next], p.mode.next + 1;
        var tags := p.tags[k := H.After(p.tags[k], H.Answer(reply))];
        if n < |p.batch| then p.(tags := tags, mode := Answering(n))
        else p.(tags := tags, mode := Building, batch := [], costs := [])
    case Fail =>
      p.(tags := EachAfter(p.tags, Unanswered(p), H.Fail), mode := Failed(Packed(p)), batch := [], costs := [])
  }

  /** What is packed and has not been sent. */
  function Packed(p: Pass): seq<nat> {
    match p.mode
    case Building => p.batch
    case Sending(_) => p.batch
    case Failed(unsent) => unsent
    case _ => []
  }

  function Taken(p: Pass, order: H.Order): Pass
    requires p.at < |p.tags|
  {
    var t, c := p.tags[p.at], CostOf(p.tags[p.at].d);
    if Fits(p.limit, p.costs + [c]) then
      p.(tags := p.tags[p.at := H.After(t, H.Pack(order))], at := p.at + 1, batch := p.batch + [p.at], costs := p.costs + [c])
    else if p.batch != [] then
      p.(tags := p.tags[p.at := H.After(t, H.Defer)], mode := Sending(NoRoom(p.at, c)))
    else
      p.(tags := p.tags[p.at := H.After(t, H.Overflow(order))], mode := Returning(c))
  }

  ghost predicate Run(p: Pass, steps: seq<Step>)
    decreases |steps|
  {
    steps == [] || (Enabled(p, steps[0]) && Run(After(p, steps[0]), steps[1..]))
  }

  function Final(p: Pass, steps: seq<Step>): Pass
    decreases |steps|
  {
    if steps == [] then p else Final(After(p, steps[0]), steps[1..])
  }

  // ---------------------------------------------------------------------------
  // What every step keeps
  // ---------------------------------------------------------------------------

  /** The usable tags before `b`, in list order. */
  function Usables(tags: seq<H.Tag>, b: nat): (ks: seq<nat>)
    requires b <= |tags|
  {
    if b == 0 then [] else Usables(tags, b - 1) + if Usable(tags[b - 1].d) then [b - 1] else []
  }

  lemma {:induction false} UsablesAre(tags: seq<H.Tag>, b: nat, k: nat)
    requires b <= |tags|
    ensures k in Usables(tags, b) <==> k < b && Usable(tags[k].d)
  {
    if b > 0 {
      UsablesAre(tags, b - 1, k);
    }
  }

  lemma {:induction false} UsablesRise(tags: seq<H.Tag>, b: nat, i: nat, j: nat)
    requires b <= |tags| && i < j < |Usables(tags, b)|
    ensures Usables(tags, b)[i] < Usables(tags, b)[j]
  {
    var front := Usables(tags, b - 1);
    if j < |front| {
      UsablesRise(tags, b - 1, i, j);
    } else {
      UsablesAre(tags, b - 1, front[i]);
    }
  }

  ghost predicate SameUse(before: seq<H.Tag>, after: seq<H.Tag>) {
    |after| == |before| && forall k :: 0 <= k < |after| ==> (Usable(after[k].d) <==> Usable(before[k].d))
  }

  lemma {:induction false} UsablesStay(before: seq<H.Tag>, after: seq<H.Tag>, b: nat)
    requires SameUse(before, after) && b <= |before|
    ensures Usables(after, b) == Usables(before, b)
  {
    if b > 0 {
      UsablesStay(before, after, b - 1);
    }
  }

  /** What the scan thread has in hand for a tag. */
  ghost predicate InPhase(p: Pass, k: nat)
    requires k < |p.tags|
  {
    var phase := p.tags[k].phase;
    match p.mode
    case Building => if k in p.batch then phase.Built? else phase.Idle?
    case Sending(_) => if k in p.batch then phase.Built? else phase.Idle?
    case Answering(n) => n <= |p.batch| && if k in p.batch[n..] then phase.InFlight? else phase.Idle?
    case Returning(_) => if k == p.at then phase.TooLarge? else phase.Idle?
    case Done(_, _) => phase.Idle?
    case Failed(_) => phase.Idle?
  }

  ghost predicate TagsGood(p: Pass) {
    forall k :: 0 <= k < |p.tags| ==> H.Inv(p.tags[k]) && InPhase(p, k)
  }

  /** What has been sent, and what is packed, are the usable tags so far; the batch fits. */
  ghost predicate Ledger(p: Pass) {
    && p.at <= |p.tags| && |p.costs| == |p.batch| && (p.costs != [] ==> Fits(p.limit, p.costs))
    && Usables(p.tags, p.at) == p.sent + Packed(p)
    && match p.mode
       case Building => true
       case Sending(closer) => p.batch != [] && Closing(p, closer)
       case Answering(n) => n < |p.batch| <= |p.sent| && p.batch == p.sent[|p.sent| - |p.batch|..]
       case Returning(c) => p.batch == [] && p.at < |p.tags| && Usable(p.tags[p.at].d) && !Fits(p.limit, [c])
       case Done(stop, last) =>
         && p.batch == [] && p.at == stop
         && (stop < |p.tags| ==> Usable(p.tags[stop].d) && last.Some? && !Fits(p.limit, [last.value]))
       case Failed(_) => p.batch == []
  }

  /** The tag found to have no room is the one at the cursor. */
  ghost predicate Closing(p: Pass, closer: Closer) {
    match closer
    case ListEnds => p.at == |p.tags|
    case NoRoom(k, c) => k == p.at < |p.tags| && Usable(p.tags[k].d) && !Fits(p.limit, p.costs + [c])
  }

  ghost predicate Good(p: Pass) {
    TagsGood(p) && Ledger(p)
  }

  lemma {:induction false} BatchIsTail(p: Pass)
    requires Ledger(p)
    ensures var all := Usables(p.tags, p.at);
            |p.batch| <= |all| && p.batch == all[|all| - |p.batch|..]
  {
    assert p.sent + [] == p.sent;
  }

  /** The batch is in list order, and all of it before the cursor. */
  lemma {:induction false} BatchRises(p: Pass, i: nat)
    requires Ledger(p) && i < |p.batch|
    ensures p.batch[i] < p.at && Usable(p.tags[p.batch[i]].d)
    ensures forall j :: i < j < |p.batch| ==> p.batch[i] < p.batch[j]
  {
    BatchIsTail(p);
    TailRises(p.tags, p.at, |p.batch|, i);
  }

  lemma {:induction false} TailRises(tags: seq<H.Tag>, b: nat, n: nat, i: nat)
    requires b <= |tags| && i < n <= |Usables(tags, b)|
    ensures var all := Usables(tags, b);
            var tail := all[|all| - n..];
            && tail[i] < b && Usable(tags[tail[i]].d)
            && forall j :: i < j < n ==> tail[i] < tail[j]
  {
    var all := Usables(tags, b);
    var tail, shift := all[|all| - n..], |all| - n;
    assert tail[i] == all[shift + i];
    UsablesAre(tags, b, tail[i]);
    forall j | i < j < n
      ensures tail[i] < tail[j]
    {
      assert tail[j] == all[shift + j];
      UsablesRise(tags, b, shift + i, shift + j);
    }
  }

  lemma {:induction false} StepUses(t: H.Tag, h: H.Step)
    requires !h.Reprobe? && H.Enabled(t, h)
    ensures Usable(H.After(t, h).d) <==> Usable(t.d)
  {
  }

  /** What a step does to one tag: nothing, or a step of its handshake. */
  ghost predicate Moves(before: H.Tag, after: H.Tag) {
    after == before || exists h: H.Step :: !h.Reprobe? && H.Enabled(before, h) && after == H.After(before, h)
  }

  lemma {:induction false} MovesKeep(before: H.Tag, after: H.Tag)
    requires H.Inv(before) && Moves(before, after)
    ensures H.Inv(after) && (Usable(after.d) <==> Usable(before.d))
  {
    if after != before {
      var h: H.Step :| !h.Reprobe? && H.Enabled(before, h) && after == H.After(before, h);
      H.StepKeepsInv(before, h);
      StepUses(before, h);
    }
  }

  lemma {:induction false} MoveBy(t: H.Tag, h: H.Step)
    requires !h.Reprobe? && H.Enabled(t, h)
    ensures Moves(t, H.After(t, h))
  {
  }

  /** Every step of a pass is, for each tag, a step of its handshake or none. */
  lemma {:induction false} StepMoves(p: Pass, step: Step, k: nat)
    requires Good(p) && Enabled(p, step) && k < |p.tags|
    ensures |After(p, step).tags| == |p.tags| && Moves(p.tags[k], After(p, step).tags[k])
  {
    assert InPhase(p, k);
    match step {
      case Stage(j, h) => MoveBy(p.tags[j], h);
      case Skip =>
      case EndOfList =>
      case Take(order) => TakeMoves(p, order);
      case GiveBack => MoveAt(p, p.at, H.GiveBack);
      case Send =>
        if k in p.batch {
          MoveBy(p.tags[k], H.Send);
        }
      case Answer(reply) => MoveAt(p, p.batch[p.mode.next], H.Answer(reply));
      case Fail =>
        if k in Unanswered(p) {
          MoveBy(p.tags[k], H.Fail);
        }
    }
  }

  lemma {:induction false} MoveAt(p: Pass, k: nat, h: H.Step)
    requires TagsGood(p) && k < |p.tags|
    requires (h.GiveBack? && p.mode.Returning? && k == p.at)
          || (h.Answer? && p.mode.Answering? && p.mode.next < |p.batch| && p.batch[p.mode.next] == k)
    ensures Moves(p.tags[k], H.After(p.tags[k], h))
  {
    assert InPhase(p, k);
    if h.Answer? {
      assert k == p.batch[p.mode.next..][0];
    }
    MoveBy(p.tags[k], h);
  }

  lemma {:induction false} TakeMoves(p: Pass, order: H.Order)
    requires Good(p) && Enabled(p, Take(order))
    ensures p.at !in p.batch && p.tags[p.at].phase.Idle?
    ensures forall h :: h == H.Pack(order) || h == H.Defer || h == H.Overflow(order) ==>
              Moves(p.tags[p.at], H.After(p.tags[p.at], h))
  {
    forall i | 0 <= i < |p.batch|
      ensures p.batch[i] != p.at
    {
      BatchRises(p, i);
    }
    assert InPhase(p, p.at);
    MoveBy(p.tags[p.at], H.Pack(order));
    MoveBy(p.tags[p.at], H.Defer);
    MoveBy(p.tags[p.at], H.Overflow(order));
  }

  lemma {:induction false} StepKeepsTags(p: Pass, step: Step)
    requires Good(p) && Enabled(p, step)
    ensures var q := After(p, step);
            SameUse(p.tags, q.tags) && forall k :: 0 <= k < |q.tags| ==> H.Inv(q.tags[k])
  {
    var q := After(p, step);
    forall k | 0 <= k < |p.tags|
      ensures |q.tags| == |p.tags| && H.Inv(q.tags[k]) && (Usable(q.tags[k].d) <==> Usable(p.tags[k].d))
    {
      StepMoves(p, step, k);
      MovesKeep(p.tags[k], q.tags[k]);
    }
  }

  /** The books do not depend on what the tags hold. */
  lemma {:induction false} LedgerStays(p: Pass, tags: seq<H.Tag>)
    requires Ledger(p) && SameUse(p.tags, tags)
    ensures Ledger(p.(tags := tags))
  {
    UsablesStay(p.tags, tags, p.at);
  }

  lemma {:induction false} SkipKeepsLedger(p: Pass)
    requires Ledger(p) && Enabled(p, Skip)
    ensures Ledger(After(p, Skip))
  {
    assert Usables(p.tags, p.at + 1) == Usables(p.tags, p.at) + [];
  }

  lemma {:induction false} EndKeepsLedger(p: Pass)
    requires Ledger(p) && Enabled(p, EndOfList)
    ensures Ledger(After(p, EndOfList))
  {
    assert p.sent + [] == p.sent;
  }

  lemma {:induction false} SendKeepsLedger(p: Pass)
    requires Ledger(p) && p.mode.Sending?
    ensures forall ms :: Ledger(p.(mode := Answering(0), sent := p.sent + p.batch, messages := ms))
  {
    var sent := p.sent + p.batch;
    assert sent[|sent| - |p.batch|..] == p.batch && sent + [] == sent;
  }

  lemma {:induction false} AnswerKeepsLedger(p: Pass)
    requires Ledger(p) && p.mode.Answering?
    ensures Ledger(p.(mode := Building, batch := [], costs := []))
    ensures p.mode.next + 1 < |p.batch| ==> Ledger(p.(mode := Answering(p.mode.next + 1)))
  {
  }

  lemma {:induction false} PackKeepsLedger(p: Pass, c: Cost)
    requires Ledger(p) && p.mode.Building? && p.at < |p.tags| && Usable(p.tags[p.at].d)
    requires Fits(p.limit, p.costs + [c])
    ensures Ledger(p.(at := p.at + 1, batch := p.batch + [p.at], costs := p.costs + [c]))
  {
    assert Usables(p.tags, p.at + 1) == Usables(p.tags, p.at) + [p.at];
    assert p.sent + p.batch + [p.at] == p.sent + (p.batch + [p.at]);
  }

  lemma {:induction false} FullKeepsLedger(p: Pass, c: Cost)
    requires Ledger(p) && p.mode.Building? && p.at < |p.tags| && Usable(p.tags[p.at].d)
    requires !Fits(p.limit, p.costs + [c])
    ensures Ledger(p.(mode := if p.batch != [] then Sending(NoRoom(p.at, c)) else Returning(c)))
  {
    if p.batch == [] {
      assert p.sent + [] == p.sent && p.costs + [c] == [c];
    }
  }

  lemma {:induction false} TakeKeepsLedger(p: Pass, order: H.Order)
    requires Ledger(p) && Enabled(p, Take(order)) && SameUse(p.tags, Taken(p, order).tags)
    ensures Ledger(Taken(p, order))
  {
    var q, c := Taken(p, order), CostOf(p.tags[p.at].d);
    var r := p.(tags := q.tags);
    LedgerStays(p, q.tags);
    if Fits(p.limit, p.costs + [c]) {
      assert q == r.(at := p.at + 1, batch := p.batch + [p.at], costs := p.costs + [c]);
      PackKeepsLedger(r, c);
    } else {
      assert q == r.(mode := if p.batch != [] then Sending(NoRoom(p.at, c)) else Returning(c));
      FullKeepsLedger(r, c);
    }
  }

  lemma {:induction false} EndedKeepsLedger(p: Pass)
    requires Ledger(p)
    ensures p.mode.Returning? ==> Ledger(p.(mode := Done(p.at, Some(p.mode.cost))))
    ensures p.mode.Sending? || p.mode.Answering? ==> Ledger(p.(mode := Failed(Packed(p)), batch := [], costs := []))
  {
  }

  lemma {:induction false} TransferKeepsLedger(p: Pass, step: Step, tags: seq<H.Tag>)
    requires Ledger(p) && Enabled(p, step) && (step.Send? || step.Answer?) && tags == After(p, step).tags
    requires Ledger(p.(tags := tags))
    ensures Ledger(After(p, step))
  {
    if step.Send? {
      SendKeepsLedger(p.(tags := tags));
    } else {
      AnswerKeepsLedger(p.(tags := tags));
    }
  }

  lemma {:induction false} CloseKeepsLedger(p: Pass, step: Step, tags: seq<H.Tag>)
    requires Ledger(p) && Enabled(p, step) && (step.GiveBack? || step.Fail?) && tags == After(p, step).tags
    requires Ledger(p.(tags := tags))
    ensures Ledger(After(p, step))
  {
    EndedKeepsLedger(p.(tags := tags));
  }

  lemma {:induction false} StepKeepsLedger(p: Pass, step: Step)
    requires Good(p) && Enabled(p, step)
    ensures Ledger(After(p, step))
  {
    var tags := After(p, step).tags;
    StepKeepsTags(p, step);
    LedgerStays(p, tags);
    match step {
      case Stage(_, _) => assert After(p, step) == p.(tags := tags);
      case Skip => SkipKeepsLedger(p);
      case Take(order) => TakeKeepsLedger(p, order);
      case EndOfList => EndKeepsLedger(p);
      case Send => TransferKeepsLedger(p, step, tags);
      case Answer(_) => TransferKeepsLedger(p, step, tags);
      case GiveBack => CloseKeepsLedger(p, step, tags);
      case Fail => CloseKeepsLedger(p, step, tags);
    }
  }

  lemma {:induction false} TakeKeepsPhase(p: Pass, order: H.Order, k: nat)
    requires Good(p) && Enabled(p, Take(order)) && k < |p.tags|
    ensures |Taken(p, order).tags| == |p.tags| && InPhase(Taken(p, order), k)
  {
    assert InPhase(p, k);
    TakeMoves(p, order);
  }

  lemma {:induction false} SendKeepsPhase(p: Pass, k: nat)
    requires k < |p.tags| && InPhase(p, k) && p.mode.Sending?
    ensures InPhase(After(p, Send), k)
  {
    assert p.batch[0..] == p.batch;
  }

  /** The tag answered is not met again in its batch. */
  lemma {:induction false} AnsweredOnce(p: Pass, n: nat)
    requires Ledger(p) && n < |p.batch|
    ensures p.batch[n..] == [p.batch[n]] + p.batch[n + 1..] && p.batch[n] !in p.batch[n + 1..]
  {
    BatchRises(p, n);
    var rest := p.batch[n + 1..];
    forall j | 0 <= j < |rest|
      ensures rest[j] != p.batch[n]
    {
      assert rest[j] == p.batch[n + 1 + j];
    }
  }

  lemma {:induction false} AnswerKeepsPhase(p: Pass, reply: seq<byte>, k: nat)
    requires Ledger(p) && Enabled(p, Answer(reply)) && k < |p.tags| && InPhase(p, k)
    ensures InPhase(After(p, Answer(reply)), k)
  {
    var n := p.mode.next;
    AnsweredOnce(p, n);
    if n + 1 == |p.batch| {
      assert p.batch[n + 1..] == [];
    }
  }

  lemma {:induction false} OtherStepsKeepPhase(p: Pass, step: Step, k: nat)
    requires k < |p.tags| && InPhase(p, k) && Enabled(p, step)
    requires step.Stage? || step.Skip? || step.EndOfList?
    ensures |After(p, step).tags| == |p.tags| && InPhase(After(p, step), k)
  {
  }

  lemma {:induction false} GiveBackKeepsPhase(p: Pass, k: nat)
    requires k < |p.tags| && InPhase(p, k) && Enabled(p, GiveBack)
    ensures InPhase(After(p, GiveBack), k)
  {
  }

  lemma {:induction false} FailKeepsPhase(p: Pass, k: nat)
    requires k < |p.tags| && InPhase(p, k) && Enabled(p, Fail)
    ensures InPhase(After(p, Fail), k)
  {
    assert k in Unanswered(p) || p.tags[k].phase.Idle?;
  }

  lemma {:induction false} StepKeepsPhase(p: Pass, step: Step, k: nat)
    requires Good(p) && Enabled(p, step) && k < |p.tags|
    ensures |After(p, step).tags| == |p.tags| && InPhase(After(p, step), k)
  {
    assert InPhase(p, k);
    match step {
      case Take(order) => TakeKeepsPhase(p, order, k);
      case Send => SendKeepsPhase(p, k);
      case Answer(reply) => AnswerKeepsPhase(p, reply, k);
      case Stage(_, _) => OtherStepsKeepPhase(p, step, k);
      case Skip => OtherStepsKeepPhase(p, step, k);
      case EndOfList => OtherStepsKeepPhase(p, step, k);
      case GiveBack => GiveBackKeepsPhase(p, k);
      case Fail => FailKeepsPhase(p, k);
    }
  }

  /** Every step keeps the books, whatever the records stage meanwhile. */
  lemma {:induction false} StepKeepsGood(p: Pass, step: Step)
    requires Good(p) && Enabled(p, step)
    ensures Good(After(p, step)) && SameUse(p.tags, After(p, step).tags)
  {
    StepKeepsTags(p, step);
    StepKeepsLedger(p, step);
    forall k | 0 <= k < |p.tags|
      ensures InPhase(After(p, step), k)
    {
      StepKeepsPhase(p, step, k);
    }
  }

  // ---------------------------------------------------------------------------
  // Whole passes
  // ---------------------------------------------------------------------------

  function Start(tags: seq<H.Tag>, limit: nat): Pass {
    Pass(tags, limit, 0, [], [], Building, [], [])
  }

  ghost predicate AtRest(tags: seq<H.Tag>) {
    forall k :: 0 <= k < |tags| ==> H.Inv(tags[k]) && tags[k].phase.Idle?
  }

  lemma {:induction false} RunKeepsGood(p: Pass, steps: seq<Step>)
    requires Good(p) && Run(p, steps)
    ensures Good(Final(p, steps)) && SameUse(p.tags, Final(p, steps).tags)
    decreases |steps|
  {
    if steps != [] {
      StepKeepsGood(p, steps[0]);
      RunKeepsGood(After(p, steps[0]), steps[1..]);
    }
  }

  /**
   * Whatever is staged while a pass is under way, and wherever it fails: at every moment it has sent, once each and in list
   * order, the usable tags before the cursor, but for those packed. When it ends well these are all the usable tags before
   * the one it stops at, which is the end of the list or a usable tag that was alone too large when it was taken. Either
   * way it leaves no tag packed or in flight.
   */
  lemma {:induction false} SendsEachOnce(tags: seq<H.Tag>, limit: nat, steps: seq<Step>)
    requires AtRest(tags) && Run(Start(tags, limit), steps)
    ensures var f := Final(Start(tags, limit), steps);
            && f.at <= |tags| == |f.tags| && f.sent + Packed(f) == Usables(tags, f.at)
            && (f.mode.Done? ==>
                  && f.mode.stop == f.at && f.sent == Usables(tags, f.mode.stop)
                  && (f.at < |tags| ==> Usable(tags[f.at].d) && f.mode.last.Some? && !Fits(limit, [f.mode.last.value])))
            && (f.mode.Done? || f.mode.Failed? ==> AtRest(f.tags))
  {
    var p, f := Start(tags, limit), Final(Start(tags, limit), steps);
    RunKeepsGood(p, steps);
    LimitStays(p, steps);
    UsablesStay(tags, f.tags, f.at);
    assert f.sent + [] == f.sent;
    if f.mode.Done? || f.mode.Failed? {
      EndsAtRest(f);
    }
  }

  lemma {:induction false} EndsAtRest(f: Pass)
    requires Good(f) && (f.mode.Done? || f.mode.Failed?)
    ensures AtRest(f.tags)
  {
    forall k | 0 <= k < |f.tags|
      ensures f.tags[k].phase.Idle?
    {
      assert InPhase(f, k);
    }
  }

  lemma {:induction false} LimitStays(p: Pass, steps: seq<Step>)
    ensures Final(p, steps).limit == p.limit
    decreases |steps|
  {
    if steps != [] {
      LimitStays(After(p, steps[0]), steps[1..]);
    }
  }

  // ---------------------------------------------------------------------------
  // What each batch holds
  // ---------------------------------------------------------------------------

  function Members(ms: seq<Message>): seq<nat> {
    if ms == [] then [] else Members(ms[..|ms| - 1]) + ms[|ms| - 1].tags
  }

  /** A batch that fits, and in which the tag that closed it has no room. */
  ghost predicate Full(limit: nat, m: Message) {
    && m.tags != [] && |m.costs| == |m.tags| && Fits(limit, m.costs)
    && (m.closer.NoRoom? ==> !Fits(limit, m.costs + [m.closer.cost]))
  }

  /** Batches one behind the other: the tag that closed one is the first of the next, or in the end `head`. */
  ghost predicate Chain(limit: nat, ms: seq<Message>, head: nat, ended: bool) {
    ms == [] ||
    var m := ms[|ms| - 1];
    && Full(limit, m)
    && (match m.closer case ListEnds => ended case NoRoom(k, _) => k == head)
    && Chain(limit, ms[..|ms| - 1], m.tags[0], false)
  }

  /** The first tag that has not been sent, or the cursor. */
  function Head(p: Pass): nat {
    if Packed(p) != [] then Packed(p)[0] else p.at
  }

  ghost predicate Batches(p: Pass) {
    && p.sent == Members(p.messages)
    && Chain(p.limit, p.messages, Head(p), Packed(p) == [] && p.at == |p.tags|)
    && (p.messages != [] && Packed(p) == [] && p.messages[|p.messages| - 1].closer.NoRoom? ==>
          p.at < |p.tags| && Usable(p.tags[p.at].d))
  }

  lemma {:induction false} SentKeepsBatches(limit: nat, ms: seq<Message>, m: Message, next: nat, ended: bool)
    requires m.tags != [] && Chain(limit, ms, m.tags[0], false) && Full(limit, m)
    requires match m.closer case ListEnds => ended case NoRoom(k, _) => k == next
    ensures Chain(limit, ms + [m], next, ended) && Members(ms + [m]) == Members(ms) + m.tags
  {
    assert (ms + [m])[..|ms|] == ms;
  }

  lemma {:induction false} SendKeepsBatches(p: Pass)
    requires Ledger(p) && Batches(p) && p.mode.Sending?
    ensures Batches(After(p, Send))
  {
    var m := Message(p.batch, p.costs, p.mode.closer);
    SentKeepsBatches(p.limit, p.messages, m, p.at, p.at == |p.tags|);
    assert (p.messages + [m])[|p.messages|] == m;
    if m.closer.NoRoom? {
      SentUses(p);
    }
  }

  lemma {:induction false} SentUses(p: Pass)
    requires Ledger(p) && p.mode.Sending? && p.mode.closer.NoRoom?
    ensures p.at < |p.tags| && Usable(After(p, Send).tags[p.at].d)
  {
  }

  lemma {:induction false} TakeKeepsBatches(p: Pass, order: H.Order)
    requires Batches(p) && Enabled(p, Take(order)) && SameUse(p.tags, Taken(p, order).tags)
    ensures Batches(Taken(p, order))
  {
  }

  lemma {:induction false} SkipKeepsBatches(p: Pass)
    requires Batches(p) && Enabled(p, Skip)
    ensures Batches(After(p, Skip))
  {
  }

  /** What is sent, packed and next: no more than that matters. */
  ghost predicate SameBatches(p: Pass, q: Pass) {
    && q.messages == p.messages && q.sent == p.sent && q.limit == p.limit && q.at == p.at && Packed(q) == Packed(p)
    && SameUse(p.tags, q.tags)
  }

  lemma {:induction false} BatchesStay(p: Pass, q: Pass)
    requires Batches(p) && SameBatches(p, q)
    ensures Batches(q)
  {
  }

  lemma {:induction false} StageKeepsBatches(p: Pass, k: nat, h: H.Step)
    requires Batches(p) && SameUse(p.tags, After(p, Stage(k, h)).tags)
    ensures Batches(After(p, Stage(k, h)))
  {
    BatchesStay(p, After(p, Stage(k, h)));
  }

  lemma {:induction false} AnswerKeepsBatches(p: Pass, reply: seq<byte>)
    requires Ledger(p) && Batches(p) && Enabled(p, Answer(reply)) && SameUse(p.tags, After(p, Answer(reply)).tags)
    ensures Batches(After(p, Answer(reply)))
  {
    BatchesStay(p, After(p, Answer(reply)));
  }

  lemma {:induction false} EndsKeepBatches(p: Pass, step: Step)
    requires Ledger(p) && Batches(p) && Enabled(p, step) && SameUse(p.tags, After(p, step).tags)
    requires step.EndOfList? || step.GiveBack?
    ensures Batches(After(p, step))
  {
    BatchesStay(p, After(p, step));
  }

  lemma {:induction false} FailKeepsBooks(p: Pass)
    requires Enabled(p, Fail)
    ensures var q := After(p, Fail);
            q.messages == p.messages && q.sent == p.sent && q.limit == p.limit && q.at == p.at && Packed(q) == Packed(p)
  {
  }

  lemma {:induction false} FailKeepsBatches(p: Pass)
    requires Batches(p) && Enabled(p, Fail) && SameUse(p.tags, After(p, Fail).tags)
    ensures Batches(After(p, Fail))
  {
    var q := After(p, Fail);
    FailKeepsBooks(p);
    assert SameBatches(p, q);
    BatchesStay(p, q);
  }

  lemma {:induction false} RunKeepsBatches(p: Pass, steps: seq<Step>)
    requires Good(p) && Batches(p) && Run(p, steps)
    ensures Batches(Final(p, steps))
    decreases |steps|
  {
    if steps != [] {
      StepKeepsGood(p, steps[0]);
      match steps[0] {
        case Send => SendKeepsBatches(p);
        case Take(order) => TakeKeepsBatches(p, order);
        case Skip => SkipKeepsBatches(p);
        case Stage(k, h) => StageKeepsBatches(p, k, h);
        case Answer(reply) => AnswerKeepsBatches(p, reply);
        case EndOfList => EndsKeepBatches(p, steps[0]);
        case GiveBack => EndsKeepBatches(p, steps[0]);
        case Fail => FailKeepsBatches(p);
      }
      RunKeepsBatches(After(p, steps[0]), steps[1..]);
    }
  }

  lemma {:induction false} ChainAt(limit: nat, ms: seq<Message>, head: nat, ended: bool, i: nat)
    requires Chain(limit, ms, head, ended) && i < |ms|
    ensures Full(limit, ms[i])
    ensures i + 1 < |ms| ==> ms[i + 1].tags != [] && ms[i].closer.NoRoom? && ms[i].closer.tag == ms[i + 1].tags[0]
    decreases |ms|
  {
    var n := |ms| - 1;
    if i < n {
      ChainAt(limit, ms[..n], ms[n].tags[0], false, i);
    }
  }

  /**
   * Whatever is staged meanwhile: every batch sent fits, as its tags were when they were taken, and it was closed only by
   * the end of the list or by the first tag of the next batch, which as it was taken had no room in it.
   */
  lemma {:induction false} NoRoomForNext(tags: seq<H.Tag>, limit: nat, steps: seq<Step>, i: nat)
    requires AtRest(tags) && Run(Start(tags, limit), steps) && i < |Final(Start(tags, limit), steps).messages|
    ensures var f := Final(Start(tags, limit), steps);
            && f.sent == Members(f.messages) && Full(limit, f.messages[i])
            && (i + 1 < |f.messages| ==>
                  && f.messages[i + 1].tags != []
                  && f.messages[i].closer.NoRoom? && f.messages[i].closer.tag == f.messages[i + 1].tags[0])
  {
    var p, f := Start(tags, limit), Final(Start(tags, limit), steps);
    RunKeepsBatches(p, steps);
    LimitStays(p, steps);
    ChainAt(limit, f.messages, Head(f), Packed(f) == [] && f.at == |f.tags|, i);
  }

  function CostGroups(ms: seq<Message>): (gs: seq<seq<Cost>>)
    ensures |gs| == |ms| && forall i :: 0 <= i < |ms| ==> gs[i] == ms[i].costs
  {
    seq(|ms|, i requires 0 <= i < |ms| => ms[i].costs)
  }

  /** Every tag that closed a batch was sent at the cost it had no room for; a write staged in between can change that. */
  ghost predicate Steady(ms: seq<Message>) {
    forall i :: 0 < i < |ms| && ms[i - 1].closer.NoRoom? && ms[i].costs != [] ==> ms[i - 1].closer.cost == ms[i].costs[0]
  }

  /** Then no split of the tags sent, in order and at these costs, has fewer messages. */
  lemma {:induction false} SendsFewest(tags: seq<H.Tag>, limit: nat, steps: seq<Step>, other: seq<seq<Cost>>)
    requires AtRest(tags) && Run(Start(tags, limit), steps) && Steady(Final(Start(tags, limit), steps).messages)
    requires Split(limit, other, Flatten(CostGroups(Final(Start(tags, limit), steps).messages)))
    ensures |Final(Start(tags, limit), steps).messages| <= |other|
  {
    var ms := Final(Start(tags, limit), steps).messages;
    forall i | 0 <= i < |ms|
      ensures Full(limit, ms[i]) && (i > 0 ==> !Fits(limit, ms[i - 1].costs + [ms[i].costs[0]]))
    {
      NoRoomForNext(tags, limit, steps, i);
      if i > 0 {
        NoRoomForNext(tags, limit, steps, i - 1);
      }
    }
    GreedySendsFewest(limit, CostGroups(ms), other, Flatten(CostGroups(ms)));
  }

  /** Each tag's own history over the pass is a run of its handshake. */
  lemma {:induction false} TagRuns(p: Pass, steps: seq<Step>, k: nat) returns (hs: seq<H.Step>)
    requires Good(p) && Run(p, steps) && k < |p.tags|
    ensures k < |Final(p, steps).tags| && H.Run(p.tags[k], hs) && H.Final(p.tags[k], hs) == Final(p, steps).tags[k]
    decreases |steps|
  {
    if steps == [] {
      hs := [];
    } else {
      var q := After(p, steps[0]);
      StepMoves(p, steps[0], k);
      StepKeepsGood(p, steps[0]);
      hs := TagRuns(q, steps[1..], k);
      if q.tags[k] != p.tags[k] {
        var h: H.Step :| !h.Reprobe? && H.Enabled(p.tags[k], h) && q.tags[k] == H.After(p.tags[k], h);
        var rest := hs;
        hs := [h] + hs;
        assert hs[1..] == rest;
      }
    }
  }

  /** How many steps the scan thread has left at most. */
  function Left(p: Pass): nat {
    5 * (if p.at < |p.tags| then |p.tags| - p.at else 0) +
    match p.mode
    case Building => |p.batch| + if p.batch == [] then 2 else 4
    case Sending(_) => |p.batch| + 3
    case Answering(n) => if n < |p.batch| then |p.batch| - n + 2 else 2
    case Returning(_) => 1
    case Done(_, _) => 0
    case Failed(_) => 0
  }

  /** The scan thread's own steps; the others are stagings. */
  function Scans(steps: seq<Step>): nat {
    if steps == [] then 0 else (if steps[0].Stage? then 0 else 1) + Scans(steps[1..])
  }

  lemma {:induction false} TakeUsesUp(p: Pass, order: H.Order)
    requires p.mode.Building? && p.at < |p.tags|
    ensures Left(Taken(p, order)) < Left(p)
  {
  }

  lemma {:induction false} StepUsesUp(p: Pass, step: Step)
    requires p.at <= |p.tags| && Enabled(p, step)
    ensures Left(After(p, step)) + (if step.Stage? then 0 else 1) <= Left(p)
  {
    if step.Take? {
      TakeUsesUp(p, step.order);
    }
  }

  /** A pass over n tags ends within 5 n + 2 steps of the scan thread, however many values are staged in between. */
  lemma {:induction false} PassIsBounded(tags: seq<H.Tag>, limit: nat, steps: seq<Step>)
    requires AtRest(tags) && Run(Start(tags, limit), steps)
    ensures Scans(steps) <= 5 * |tags| + 2
  {
    RunIsBounded(Start(tags, limit), steps);
  }

  lemma {:induction false} RunIsBounded(p: Pass, steps: seq<Step>)
    requires Good(p) && Run(p, steps)
    ensures Scans(steps) + Left(Final(p, steps)) <= Left(p)
    decreases |steps|
  {
    if steps != [] {
      StepKeepsGood(p, steps[0]);
      StepUsesUp(p, steps[0]);
      RunIsBounded(After(p, steps[0]), steps[1..]);
    }
  }

  /** And until then it is never stuck: there is always a step for it to take. */
  lemma {:induction false} NeverStuck(tags: seq<H.Tag>, limit: nat, steps: seq<Step>, order: H.Order, reply: seq<byte>)
    returns (next: Step)
    requires AtRest(tags) && Run(Start(tags, limit), steps)
    ensures var f := Final(Start(tags, limit), steps);
            !f.mode.Done? && !f.mode.Failed? ==> Enabled(f, next) && !next.Stage? && !next.Fail?
  {
    var f := Final(Start(tags, limit), steps);
    RunKeepsGood(Start(tags, limit), steps);
    next := NextStep(f, order, reply);
  }

  lemma {:induction false} NextStep(f: Pass, order: H.Order, reply: seq<byte>) returns (next: Step)
    requires Ledger(f)
    ensures !f.mode.Done? && !f.mode.Failed? ==> Enabled(f, next) && !next.Stage? && !next.Fail?
  {
    match f.mode {
      case Building =>
        next := if f.at == |f.tags| then EndOfList else if Usable(f.tags[f.at].d) then Take(order) else Skip;
      case Sending(_) => next := Send;
      case Answering(n) =>
        BatchRises(f, n);
        next := Answer(reply);
      case Returning(_) => next := GiveBack;
      case Done(_, _) => next := Send;
      case Failed(_) => next := Send;
    }
  }
}
