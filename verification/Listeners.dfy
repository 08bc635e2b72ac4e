/** A bound record's end of a tag's callbacks (drivers/ether-ip/src/driver.rs). */
module Listeners {
  import opened Wrappers

  /** What a transfer does for one bound record. */
  datatype OnTransfer =
    | Pulse                 // an input is told to read
    | Check(database: bool) // an output's check runs, if there is a database

  /** What a record has been told. A write is known by its ticket. */
  datatype Told = Completed(ticket: nat) | Checked | Pulsed

  /** What one visit tells a record: a pending write ends, and only without one anything else happens. */
  function Reaction(pending: Option<nat>, on: OnTransfer): seq<Told> {
    match pending
    case Some(ticket) => [Completed(ticket)]
    case None => if on.Pulse? then [Pulsed] else if on.database then [Checked] else []
  }

  class Listener {
    const onTransfer: OnTransfer
    var fired: bool
    var writeDone: Option<nat>
    var pulsed: bool // a pulse waits in the channel; further ones are dropped
    ghost var told: seq<Told>

    constructor (onTransfer: OnTransfer)
      ensures this.onTransfer == onTransfer && !fired && writeDone == None && !pulsed && told == []
    {
      this.onTransfer, fired, writeDone, pulsed, told := onTransfer, false, None, false, [];
    }

    method Visit()
      modifies this
      ensures told == old(told) + Reaction(old(writeDone), onTransfer)
      ensures writeDone == None
      ensures fired == (old(fired) || Reaction(old(writeDone), onTransfer) == [Checked])
      ensures pulsed == (old(pulsed) || Reaction(old(writeDone), onTransfer) == [Pulsed])
    {
      var done := writeDone;
      writeDone := None;
      if done.Some? {
        told := told + [Completed(done.value)];
        return;
      }
      match onTransfer {
        case Check(true) =>
          fired := true;
          told := told + [Checked];
        case Check(false) =>
        case Pulse =>
          pulsed := true;
          told := told + [Pulsed];
      }
    }
  }

  /** No element occurs twice. */
  predicate Distinct<T(==)>(xs: seq<T>) {
    xs == [] || (xs[0] !in xs[1..] && Distinct(xs[1..]))
  }

  lemma {:induction false} DistinctMeans<T>(xs: seq<T>)
    requires Distinct(xs)
    ensures forall i, j :: 0 <= i < j < |xs| ==> xs[i] != xs[j]
  {
    if xs != [] {
      DistinctMeans(xs[1..]);
      forall i, j | 0 <= i < j < |xs|
        ensures xs[i] != xs[j]
      {
        assert xs[j] == xs[1..][j - 1];
        if i > 0 {
          assert xs[i] == xs[1..][i - 1];
        }
      }
    }
  }

  /** Every listener of a tag, told once. */
  method NotifyAll(listeners: seq<Listener>)
    requires Distinct(listeners)
    modifies set l | l in listeners
    ensures forall l :: l in listeners ==>
              && l.told == old(l.told) + Reaction(old(l.writeDone), l.onTransfer)
              && l.writeDone == None
  {
    DistinctMeans(listeners);
    for i := 0 to |listeners|
      invariant forall k :: 0 <= k < i ==>
                  && listeners[k].told == old(listeners[k].told) + Reaction(old(listeners[k].writeDone), listeners[k].onTransfer)
                  && listeners[k].writeDone == None
      invariant forall k :: i <= k < |listeners| ==>
                  && listeners[k].told == old(listeners[k].told)
                  && listeners[k].writeDone == old(listeners[k].writeDone)
    {
      listeners[i].Visit();
    }
  }

  // ---------------------------------------------------------------------------
  // One listener over any run
  // ---------------------------------------------------------------------------

  /**
   * A listener among staging and unbinding record threads and notifies, one at a time, that
   * copy the tag's list before they visit anyone.
   */
  datatype State = State(bound: bool, pending: Option<nat>, notifying: bool, toVisit: bool, told: seq<Told>)

  datatype Step = Stage(ticket: nat) | Unbind | Begin | Visit | End

  ghost predicate Enabled(s: State, step: Step) {
    match step
    case Stage(_) => s.bound
    case Unbind => s.bound
    case Begin => !s.notifying
    case Visit => s.notifying && s.toVisit
    case End => s.notifying && !s.toVisit
  }

  function After(s: State, step: Step, on: OnTransfer): State {
    match step
    case Stage(ticket) => s.(pending := Some(ticket))
    case Unbind => s.(bound := false)
    case Begin => s.(notifying := true, toVisit := s.bound)
    case Visit => s.(toVisit := false, pending := None, told := s.told + Reaction(s.pending, on))
    case End => s.(notifying := false)
  }

  ghost predicate Run(s: State, steps: seq<Step>, on: OnTransfer)
    decreases |steps|
  {
    steps == [] || (Enabled(s, steps[0]) && Run(After(s, steps[0], on), steps[1..], on))
  }

  function Final(s: State, steps: seq<Step>, on: OnTransfer): State
    decreases |steps|
  {
    if steps == [] then s else Final(After(s, steps[0], on), steps[1..], on)
  }

  function Completions(told: seq<Told>, ticket: nat): nat {
    if told == [] then 0 else (if told[0] == Completed(ticket) then 1 else 0) + Completions(told[1..], ticket)
  }

  /** The visits of a run. */
  function Visits(steps: seq<Step>): nat {
    if steps == [] then 0 else (if steps[0].Visit? then 1 else 0) + Visits(steps[1..])
  }

  lemma {:induction false} CompletionsOf(a: seq<Told>, b: seq<Told>, ticket: nat)
    ensures Completions(a + b, ticket) == Completions(a, ticket) + Completions(b, ticket)
  {
    if a == [] {
      assert a + b == b;
    } else {
      assert (a + b)[1..] == a[1..] + b;
      CompletionsOf(a[1..], b, ticket);
    }
  }

  /** Without a staging nothing more is completed once nothing is pending. */
  lemma {:induction false} NothingMoreCompleted(s: State, steps: seq<Step>, on: OnTransfer, ticket: nat)
    requires Run(s, steps, on) && s.pending == None
    requires forall k :: 0 <= k < |steps| ==> !steps[k].Stage?
    ensures Completions(Final(s, steps, on).told, ticket) == Completions(s.told, ticket)
    ensures Final(s, steps, on).pending == None
    decreases |steps|
  {
    if steps != [] {
      NothingMoreCompleted(After(s, steps[0], on), steps[1..], on, ticket);
      if steps[0].Visit? {
        CompletionsOf(s.told, Reaction(None, on), ticket);
      }
    }
  }

  /**
   * A pending write with no other staged over it is completed exactly once, by the first visit,
   * and by that visit alone: until then it stays pending and the record is told nothing.
   */
  lemma {:induction false} CompletedByFirstVisit(s: State, steps: seq<Step>, on: OnTransfer, ticket: nat)
    requires Run(s, steps, on) && s.pending == Some(ticket)
    requires forall k :: 0 <= k < |steps| ==> !steps[k].Stage?
    ensures var f := Final(s, steps, on);
            && Completions(f.told, ticket) == Completions(s.told, ticket) + (if Visits(steps) > 0 then 1 else 0)
            && (f.pending == None <==> Visits(steps) > 0)
            && (Visits(steps) == 0 ==> f.told == s.told)
            && (Visits(steps) == 1 ==> f.told == s.told + [Completed(ticket)])
    decreases |steps|
  {
    if steps != [] {
      var next := After(s, steps[0], on);
      if steps[0].Visit? {
        NothingMoreCompleted(next, steps[1..], on, ticket);
        CompletionsOf(s.told, [Completed(ticket)], ticket);
        if Visits(steps) == 1 {
          TellsNothing(next, steps[1..], on);
        }
      } else {
        CompletedByFirstVisit(next, steps[1..], on, ticket);
      }
    }
  }

  lemma {:induction false} TellsNothing(s: State, steps: seq<Step>, on: OnTransfer)
    requires Visits(steps) == 0
    ensures Final(s, steps, on).told == s.told
    decreases |steps|
  {
    if steps != [] {
      TellsNothing(After(s, steps[0], on), steps[1..], on);
    }
  }

  function Times(t: Told, n: nat): seq<Told> {
    if n == 0 then [] else [t] + Times(t, n - 1)
  }

  /** With nothing pending each visit of an input pulses it, and each of an output runs its check, if it has a database. */
  lemma {:induction false} ToldByVisits(s: State, steps: seq<Step>, on: OnTransfer)
    requires Run(s, steps, on) && s.pending == None
    requires forall k :: 0 <= k < |steps| ==> !steps[k].Stage?
    ensures Final(s, steps, on).told
         == s.told + match on
                     case Pulse => Times(Pulsed, Visits(steps))
                     case Check(true) => Times(Checked, Visits(steps))
                     case Check(false) => []
    decreases |steps|
  {
    if steps == [] {
      assert s.told + [] == s.told;
    } else {
      ToldByVisits(After(s, steps[0], on), steps[1..], on);
    }
  }

  /** The visits owed to a listener that stays bound: one for each whole notify, and the one under way. */
  lemma {:induction false} BoundIsVisited(s: State, steps: seq<Step>, on: OnTransfer, i: nat, j: nat)
    requires Run(s, steps, on) && s.bound
    requires forall k :: 0 <= k < |steps| ==> !steps[k].Unbind?
    requires i < j < |steps| && steps[i].Begin? && steps[j].End?
    ensures Visits(steps) > 0
    decreases |steps|
  {
    var next := After(s, steps[0], on);
    if i > 0 {
      BoundIsVisited(next, steps[1..], on, i - 1, j - 1);
    } else {
      VisitedBeforeEnd(next, steps[1..], on, j - 1);
    }
  }

  lemma {:induction false} VisitedBeforeEnd(s: State, steps: seq<Step>, on: OnTransfer, j: nat)
    requires Run(s, steps, on) && s.notifying && s.toVisit
    requires j < |steps| && steps[j].End?
    ensures Visits(steps) > 0
    decreases |steps|
  {
    if j > 0 && !steps[0].Visit? {
      VisitedBeforeEnd(After(s, steps[0], on), steps[1..], on, j - 1);
    }
  }

  /** Staged once while bound and kept bound, a write is completed once a whole notify has run. */
  lemma {:induction false} CompletedByFirstNotify(s: State, steps: seq<Step>, on: OnTransfer, ticket: nat, i: nat, j: nat)
    requires Run(s, [Stage(ticket)] + steps, on) && Completions(s.told, ticket) == 0
    requires forall k :: 0 <= k < |steps| ==> !steps[k].Stage? && !steps[k].Unbind?
    requires i < j < |steps| && steps[i].Begin? && steps[j].End?
    ensures Completions(Final(s, [Stage(ticket)] + steps, on).told, ticket) == 1
  {
    var all := [Stage(ticket)] + steps;
    assert all[1..] == steps;
    var staged := After(s, Stage(ticket), on);
    BoundIsVisited(staged, steps, on, i, j);
    CompletedByFirstVisit(staged, steps, on, ticket);
  }
}
