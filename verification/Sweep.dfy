/**
 * The sweep that invalidates every tag of a PLC, among records that stage writes and callers that
 * move tags between scan lists (drivers/ether-ip/src/driver.rs). The lists are copied under one
 * lock and each list's tags under another, so a tag can slip past while it is being moved.
 */
module Sweep {
  import opened Wrappers
  import opened TagBuffer
  import H = Handshake

  /** A sweep under way: lists not looked at yet, tags copied from the current one, tags done. */
  datatype Progress = Progress(toVisit: seq<nat>, pending: set<nat>, swept: set<nat>)

  /**
   * A PLC: its lists in order, the list each tag is in, the tag being moved with the list it
   * goes to, the sweep, and the tags themselves.
   */
  datatype Plc = Plc(
    lists: seq<nat>,
    place: map<nat, nat>,
    moving: Option<(nat, nat)>,
    sweep: Option<Progress>,
    tags: map<nat, H.Tag>)

  datatype Step =
    | Record(tag: nat, step: H.Step)      // a record stages a value
    | Scan(tag: nat, step: H.Step)        // a pass works on a tag
    | Register(newTag: nat, list: nat)    // a tag is added
    | MoveOut(moved: nat, to: nat)        // a tag leaves its list for a faster one
    | MoveIn                              // and arrives there
    | Begin                               // a sweep copies the lists
    | Open                                // and the tags of the next list
    | Invalidate(caught: nat)             // and invalidates one of them
    | End

  function WithList(lists: seq<nat>, list: nat): seq<nat> {
    if list in lists then lists else lists + [list]
  }

  ghost predicate Enabled(p: Plc, step: Step) {
    match step
    case Record(t, s) => t in p.tags && s.Stage? && H.Enabled(p.tags[t], s)
    case Scan(t, s) => t in p.tags && !s.Stage? && !s.Sweep? && p.sweep.None? && H.Enabled(p.tags[t], s)
    case Register(t, _) => t !in p.tags && p.moving.None?
    case MoveOut(t, _) => t in p.place && p.moving.None?
    case MoveIn => p.moving.Some?
    case Begin => p.sweep.None? && p.moving.None? && (forall t :: t in p.tags ==> p.tags[t].phase.Idle?)
    case Open => p.sweep.Some? && p.sweep.value.pending == {} && p.sweep.value.toVisit != []
    case Invalidate(t) => p.sweep.Some? && t in p.sweep.value.pending && t in p.tags && H.Enabled(p.tags[t], H.Sweep)
    case End => p.sweep.Some? && p.sweep.value.pending == {} && p.sweep.value.toVisit == []
  }

  function TagsIn(place: map<nat, nat>, list: nat): set<nat> {
    set t | t in place && place[t] == list
  }

  function After(p: Plc, step: Step): Plc {
    match step
    case Record(t, s) => if t in p.tags then p.(tags := p.tags[t := H.After(p.tags[t], s)]) else p
    case Scan(t, s) => if t in p.tags then p.(tags := p.tags[t := H.After(p.tags[t], s)]) else p
    case Register(t, list) =>
      p.(lists := WithList(p.lists, list), place := p.place[t := list], tags := p.tags[t := H.UNSEEN])
    case MoveOut(t, to) => p.(place := p.place - {t}, moving := Some((t, to)))
    case MoveIn =>
      if p.moving.None? then p
      else
        var (t, to) := p.moving.value;
        p.(lists := WithList(p.lists, to), place := p.place[t := to], moving := None)
    case Begin => p.(sweep := Some(Progress(p.lists, {}, {})))
    case Open =>
      if p.sweep.None? || p.sweep.value.toVisit == [] then p
      else
        var g := p.sweep.value;
        p.(sweep := Some(Progress(g.toVisit[1..], TagsIn(p.place, g.toVisit[0]), g.swept)))
    case Invalidate(t) =>
      if p.sweep.None? || t !in p.tags then p
      else
        var g := p.sweep.value;
        p.(sweep := Some(Progress(g.toVisit, g.pending - {t}, g.swept + {t})),
           tags := p.tags[t := H.After(p.tags[t], H.Sweep)])
    case End => p.(sweep := None)
  }

  ghost predicate Run(p: Plc, steps: seq<Step>)
    decreases |steps|
  {
    steps == [] || (Enabled(p, steps[0]) && Run(After(p, steps[0]), steps[1..]))
  }

  function Final(p: Plc, steps: seq<Step>): Plc
    decreases |steps|
  {
    if steps == [] then p else Final(After(p, steps[0]), steps[1..])
  }

  // ---------------------------------------------------------------------------
  // Which tags a sweep catches
  // ---------------------------------------------------------------------------

  /** A sweep has the tag in hand, or done. */
  predicate Caught(g: Progress, t: nat) {
    t in g.pending || t in g.swept
  }

  /** Caught already, or in, or on its way to, a list the sweep has still to look at. */
  predicate Reachable(p: Plc, g: Progress, t: nat) {
    || Caught(g, t)
    || (t in p.place && p.place[t] in g.toVisit)
    || (p.moving.Some? && p.moving.value.0 == t && p.moving.value.1 in g.toVisit)
  }

  /** Tags are in the PLC, and in a list unless they are on their way to one. */
  ghost predicate Placed(p: Plc) {
    && (forall t :: t in p.place ==> t in p.tags && p.place[t] in p.lists)
    && (p.moving.Some? ==> p.moving.value.0 in p.tags && p.moving.value.0 !in p.place)
    && (p.sweep.Some? ==> forall t :: t in p.sweep.value.pending ==> t in p.tags)
  }

  lemma {:induction false} StepKeepsPlaced(p: Plc, step: Step)
    requires Placed(p) && Enabled(p, step)
    ensures Placed(After(p, step))
  {
  }

  /** A list is opened while the tag, uncaught, is on its way to one. */
  predicate OpenedUnderWay(p: Plc, g: Progress, step: Step, t: nat) {
    step.Open? && p.moving.Some? && p.moving.value.0 == t && !Caught(g, t) && g.toVisit != []
  }

  predicate LeavesUncaught(g: Progress, step: Step, t: nat) {
    step.MoveOut? && step.moved == t && !Caught(g, t)
  }

  /**
   * Whether a tag is reachable after a step, told from whether it was: leaving its list uncaught, it is when the list
   * it goes to is still to be looked at; and on its way there, while that list stays so.
   */
  predicate Verdict(p: Plc, step: Step, t: nat, reachable: bool)
    requires p.sweep.Some?
  {
    var g := p.sweep.value;
    if LeavesUncaught(g, step, t) then step.to in g.toVisit
    else if OpenedUnderWay(p, g, step, t) then p.moving.value.1 in g.toVisit[1..]
    else reachable
  }

  /** Within a sweep only those two steps change a tag's fate, and exactly so. */
  lemma {:induction false} OnlyMovesMatter(p: Plc, step: Step, t: nat)
    requires Placed(p) && Enabled(p, step) && p.sweep.Some? && !step.End? && t in p.tags
    ensures var q, g := After(p, step), p.sweep.value;
            && q.sweep.Some? && t in q.tags
            && (Reachable(q, q.sweep.value, t) <==> Verdict(p, step, t, Reachable(p, g, t)))
  {
    var g := p.sweep.value;
    if step.Open? {
      assert g.toVisit == [g.toVisit[0]] + g.toVisit[1..];
    }
  }

  /** At its end a sweep has swept exactly the tags that are reachable. */
  lemma {:induction false} EndSweepsReachable(p: Plc, t: nat)
    requires Enabled(p, End)
    ensures Reachable(p, p.sweep.value, t) <==> t in p.sweep.value.swept
  {
  }

  /** At its start every tag is, but for none: all are in a list then. */
  lemma {:induction false} BeginReachesAll(p: Plc, t: nat)
    requires Placed(p) && Enabled(p, Begin) && t in p.place
    ensures Reachable(After(p, Begin), After(p, Begin).sweep.value, t)
  {
  }

  /** No step of these lets the tag slip. */
  ghost predicate NeverSlips(p: Plc, steps: seq<Step>, t: nat)
    requires p.sweep.Some?
    decreases |steps|
  {
    steps == [] ||
    (var g, q := p.sweep.value, After(p, steps[0]);
     && (LeavesUncaught(g, steps[0], t) ==> steps[0].to in g.toVisit)
     && (OpenedUnderWay(p, g, steps[0], t) ==> p.moving.value.1 in g.toVisit[1..])
     && (q.sweep.Some? ==> NeverSlips(q, steps[1..], t)))
  }

  ghost predicate WithinSweep(steps: seq<Step>) {
    forall k :: 0 <= k < |steps| ==> !steps[k].End?
  }

  lemma {:induction false} ReachableToTheEnd(p: Plc, steps: seq<Step>, t: nat)
    requires Placed(p) && p.sweep.Some? && t in p.tags && Run(p, steps) && WithinSweep(steps)
    requires Reachable(p, p.sweep.value, t) && NeverSlips(p, steps, t)
    ensures var f := Final(p, steps); f.sweep.Some? && Reachable(f, f.sweep.value, t)
    decreases |steps|
  {
    if steps != [] {
      OnlyMovesMatter(p, steps[0], t);
      StepKeepsPlaced(p, steps[0]);
      ReachableToTheEnd(After(p, steps[0]), steps[1..], t);
    }
  }

  /** A whole sweep catches every tag that was in a list when it began and never slips past it. */
  lemma {:induction false} SweepCatches(p: Plc, steps: seq<Step>, t: nat)
    requires Placed(p) && t in p.place && Enabled(p, Begin) && WithinSweep(steps)
    requires var q := After(p, Begin); Run(q, steps + [End]) && NeverSlips(q, steps, t)
    ensures var f := Final(After(p, Begin), steps); f.sweep.Some? && t in f.sweep.value.swept
  {
    var q := After(p, Begin);
    BeginReachesAll(p, t);
    RunSplit(q, steps, [End]);
    ReachableToTheEnd(q, steps, t);
    EndSweepsReachable(Final(q, steps), t);
  }

  /**
   * The verdict after these steps: what the last of the deciding ones, a move out of a list uncaught or a list opened
   * while the tag is on its way, has made of it.
   */
  ghost predicate LastVerdict(p: Plc, steps: seq<Step>, t: nat, reachable: bool)
    decreases |steps|
  {
    if steps == [] || p.sweep.None? then reachable
    else LastVerdict(After(p, steps[0]), steps[1..], t, Verdict(p, steps[0], t, reachable))
  }

  lemma {:induction false} ReachableByVerdict(p: Plc, steps: seq<Step>, t: nat)
    requires Placed(p) && p.sweep.Some? && t in p.tags && Run(p, steps) && WithinSweep(steps)
    ensures var f := Final(p, steps);
            f.sweep.Some? && (Reachable(f, f.sweep.value, t) <==> LastVerdict(p, steps, t, Reachable(p, p.sweep.value, t)))
    decreases |steps|
  {
    if steps != [] {
      OnlyMovesMatter(p, steps[0], t);
      StepKeepsPlaced(p, steps[0]);
      ReachableByVerdict(After(p, steps[0]), steps[1..], t);
    }
  }

  /** Over a whole sweep: a tag that was in a list when it began is swept exactly when the last verdict on it says so. */
  lemma {:induction false} SweptWhen(p: Plc, steps: seq<Step>, t: nat)
    requires Placed(p) && t in p.place && Enabled(p, Begin) && WithinSweep(steps)
    requires Run(After(p, Begin), steps + [End])
    ensures var f := Final(After(p, Begin), steps);
            f.sweep.Some? && (t in f.sweep.value.swept <==> LastVerdict(After(p, Begin), steps, t, true))
  {
    var q := After(p, Begin);
    BeginReachesAll(p, t);
    RunSplit(q, steps, [End]);
    ReachableByVerdict(q, steps, t);
    EndSweepsReachable(Final(q, steps), t);
  }

  lemma {:induction false} RunSplit(p: Plc, a: seq<Step>, b: seq<Step>)
    requires Run(p, a + b)
    ensures Run(p, a) && Run(Final(p, a), b)
    ensures Final(p, a + b) == Final(Final(p, a), b)
    decreases |a|
  {
    if a == [] {
      assert a + b == b;
    } else {
      assert (a + b)[1..] == a[1..] + b;
      RunSplit(After(p, a[0]), a[1..], b);
    }
  }

  /** In particular every tag, when none is moved meanwhile. */
  lemma {:induction false} UnmovedNeverSlips(p: Plc, steps: seq<Step>, t: nat)
    requires p.sweep.Some? && p.moving.None?
    requires forall k :: 0 <= k < |steps| ==> !steps[k].MoveOut?
    ensures NeverSlips(p, steps, t)
    decreases |steps|
  {
    if steps != [] && After(p, steps[0]).sweep.Some? {
      UnmovedNeverSlips(After(p, steps[0]), steps[1..], t);
    }
  }

  // ---------------------------------------------------------------------------
  // What is sent after a sweep
  // ---------------------------------------------------------------------------

  ghost predicate Tracked(p: Plc) {
    forall t :: t in p.tags ==> H.Inv(p.tags[t])
  }

  lemma {:induction false} StepKeepsTracked(p: Plc, step: Step)
    requires Tracked(p) && Enabled(p, step)
    ensures Tracked(After(p, step))
  {
    match step
    case Record(t, s) => H.StepKeepsInv(p.tags[t], s);
    case Scan(t, s) => H.StepKeepsInv(p.tags[t], s);
    case Invalidate(t) => H.StepKeepsInv(p.tags[t], H.Sweep);
    case _ =>
  }

  /** A tag the sweep is done with has been invalidated since its history was `n` long. */
  ghost predicate SweptFrom(p: Plc, t: nat, n: nat) {
    && t in p.tags && n <= |p.tags[t].log|
    && (p.sweep.Some? && t in p.sweep.value.swept ==>
          exists i :: n <= i < |p.tags[t].log| && p.tags[t].log[i].Swept?)
  }

  lemma {:induction false} StepKeepsSwept(p: Plc, step: Step, t: nat, n: nat)
    requires Enabled(p, step) && SweptFrom(p, t, n) && !step.Begin? && !step.End?
    ensures SweptFrom(After(p, step), t, n)
  {
    var log, now := p.tags[t].log, After(p, step).tags[t].log;
    StepGrowsLog(p, step, t);
    if step == Invalidate(t) {
      assert now[|log|].Swept?;
    } else if p.sweep.Some? && t in p.sweep.value.swept {
      var i :| n <= i < |log| && log[i].Swept?;
      assert now[i] == log[i];
    }
  }

  lemma {:induction false} RunKeepsSwept(p: Plc, steps: seq<Step>, t: nat, n: nat)
    requires Tracked(p) && Run(p, steps) && SweptFrom(p, t, n)
    requires forall k :: 0 <= k < |steps| ==> !steps[k].Begin? && !steps[k].End?
    ensures Tracked(Final(p, steps)) && SweptFrom(Final(p, steps), t, n)
    decreases |steps|
  {
    if steps != [] {
      StepKeepsTracked(p, steps[0]);
      StepKeepsSwept(p, steps[0], t, n);
      RunKeepsSwept(After(p, steps[0]), steps[1..], t, n);
    }
  }

  lemma {:induction false} StepGrowsLog(p: Plc, step: Step, t: nat)
    requires Enabled(p, step) && t in p.tags
    ensures t in After(p, step).tags && p.tags[t].log <= After(p, step).tags[t].log
  {
    match step {
      case Record(u, s) => H.LogGrows(p.tags[u], s);
      case Scan(u, s) => H.LogGrows(p.tags[u], s);
      case Invalidate(u) => H.LogGrows(p.tags[u], H.Sweep);
      case _ =>
    }
  }

  lemma {:induction false} RunGrowsLog(p: Plc, steps: seq<Step>, t: nat)
    requires Tracked(p) && Run(p, steps) && t in p.tags
    ensures var f := Final(p, steps); Tracked(f) && t in f.tags && p.tags[t].log <= f.tags[t].log
    decreases |steps|
  {
    if steps != [] {
      StepKeepsTracked(p, steps[0]);
      StepGrowsLog(p, steps[0], t);
      RunGrowsLog(After(p, steps[0]), steps[1..], t);
    }
  }

  /**
   * After a sweep that caught a tag, over every further run, a write of it that goes out is built from a value read
   * after the tag was invalidated, with edits put into it that were all staged after that read.
   */
  lemma {:induction false} NothingStaleAfterSweep(p: Plc, sweeping: seq<Step>, later: seq<Step>, t: nat, j: nat)
    returns (i: nat, k: nat, m: nat)
    requires Tracked(p) && t in p.tags && Enabled(p, Begin)
    requires forall x :: 0 <= x < |sweeping| ==> !sweeping[x].Begin? && !sweeping[x].End?
    requires var q := After(p, Begin); Run(q, sweeping) && Enabled(Final(q, sweeping), End)
    requires var f := Final(After(p, Begin), sweeping); t in f.sweep.value.swept && Run(After(f, End), later)
    requires var f := After(Final(After(p, Begin), sweeping), End);
             var g := Final(f, later);
             t in f.tags && t in g.tags && |f.tags[t].log| <= j < |g.tags[t].log| && g.tags[t].log[j].Sent?
    ensures var log := Final(After(Final(After(p, Begin), sweeping), End), later).tags[t].log;
            && |p.tags[t].log| <= i < k < m < j && log[i].Swept?
            && H.BuiltFrom(log, k, m, log[j].write) && H.StagedIn(log[..i]) <= log[j].from
  {
    var q, n := After(p, Begin), |p.tags[t].log|;
    RunKeepsSwept(q, sweeping, t, n);
    var f := After(Final(q, sweeping), End);
    RunGrowsLog(f, later, t);
    var before, log := f.tags[t].log, Final(f, later).tags[t].log;
    i :| n <= i < |before| && before[i].Swept?;
    assert log[i] == before[i];
    k, m := H.NothingStale(log, i, j);
  }

  /** The sweep looks at list 0, and only then the tag moves there from list 1. */
  function Slipping(): seq<Step> {
    [Begin, Open] + ([MoveOut(7, 0), MoveIn] + [Open, End])
  }

  function OnList(list: nat, x: H.Tag, sweep: Option<Progress>): Plc {
    Plc([0, 1], map[7 := list], None, sweep, map[7 := x])
  }

  lemma {:induction false} FirstListOpened(x: H.Tag)
    requires x.phase.Idle?
    ensures Run(OnList(1, x, None), [Begin, Open])
    ensures Final(OnList(1, x, None), [Begin, Open]) == OnList(1, x, Some(Progress([1], {}, {})))
  {
    var p := After(OnList(1, x, None), Begin);
    assert TagsIn(p.place, 0) == {};
    Steps2(OnList(1, x, None), Begin, Open);
  }

  lemma {:induction false} MovedMeanwhile(x: H.Tag)
    ensures var g := Some(Progress([1], {}, {}));
            && Run(OnList(1, x, g), [MoveOut(7, 0), MoveIn])
            && Final(OnList(1, x, g), [MoveOut(7, 0), MoveIn]) == OnList(0, x, g)
  {
    var p := OnList(1, x, Some(Progress([1], {}, {})));
    Steps2(p, MoveOut(7, 0), MoveIn);
    assert After(After(p, MoveOut(7, 0)), MoveIn).place == map[7 := 0];
  }

  lemma {:induction false} LastListOpened(x: H.Tag)
    ensures var g := Some(Progress([1], {}, {}));
            && Run(OnList(0, x, g), [Open, End])
            && Final(OnList(0, x, g), [Open, End]) == OnList(0, x, None)
  {
    var p := OnList(0, x, Some(Progress([1], {}, {})));
    assert TagsIn(p.place, 1) == {};
    Steps2(p, Open, End);
  }

  lemma {:induction false} SlipsPast(x: H.Tag)
    requires x.phase.Idle?
    ensures Run(OnList(1, x, None), Slipping()) && Final(OnList(1, x, None), Slipping()) == OnList(0, x, None)
  {
    FirstListOpened(x);
    MovedMeanwhile(x);
    LastListOpened(x);
    var g := Some(Progress([1], {}, {}));
    RunJoin(OnList(1, x, g), [MoveOut(7, 0), MoveIn], [Open, End]);
    RunJoin(OnList(1, x, None), [Begin, Open], [MoveOut(7, 0), MoveIn] + [Open, End]);
  }

  /**
   * A tag that is moved to a list the sweep has already looked at slips past it: a write staged before
   * the sweep goes out after it, with the buffer as it was before the sweep.
   */
  lemma {:induction false} MovedTagSlips(x: H.Tag, order: H.Order) returns (p: Plc, f: Plc)
    requires H.Inv(x) && x.d.doWrite && x.phase.Idle? && Usable(x.d)
    ensures Placed(p) && Tracked(p) && p.tags == map[7 := x] && Run(p, Slipping())
    ensures Run(Final(p, Slipping()), [Scan(7, H.Pack(order)), Scan(7, H.Send)])
    ensures f == Final(Final(p, Slipping()), [Scan(7, H.Pack(order)), Scan(7, H.Send)])
    ensures 7 in f.tags && f.tags[7].log != []
    ensures var last := f.tags[7].log[|f.tags[7].log| - 1];
            last.Sent? && last.from < H.StagedIn(x.log) && last.write.image == x.d.buf
  {
    p := OnList(1, x, None);
    SlipsPast(x);
    H.PackedAndSent(x, order);
    Steps2(OnList(0, x, None), Scan(7, H.Pack(order)), Scan(7, H.Send));
    f := Final(OnList(0, x, None), [Scan(7, H.Pack(order)), Scan(7, H.Send)]);
  }

  lemma {:induction false} Steps2(p: Plc, a: Step, b: Step)
    requires Enabled(p, a) && Enabled(After(p, a), b)
    ensures Run(p, [a, b]) && Final(p, [a, b]) == After(After(p, a), b)
  {
    assert [a, b][1..] == [b];
    assert [b][1..] == [];
    assert Run(After(p, a), [b]);
    assert Final(After(p, a), [b]) == After(After(p, a), b);
  }

  lemma {:induction false} RunJoin(p: Plc, a: seq<Step>, b: seq<Step>)
    requires Run(p, a) && Run(Final(p, a), b)
    ensures Run(p, a + b) && Final(p, a + b) == Final(Final(p, a), b)
    decreases |a|
  {
    if a == [] {
      assert a + b == b;
    } else {
      assert (a + b)[1..] == a[1..] + b;
      RunJoin(After(p, a[0]), a[1..], b);
    }
  }
}
