/**
 * Packing requests into MultiRequests under one byte limit for requests and replies
 * (drivers/ether-ip/src/driver.rs, drivers/ether-ip/src/cip.rs).
 */
module Packing {
  import opened Cip

  /** What one tag adds to a MultiRequest and to its reply. */
  datatype Cost = Cost(req: nat, resp: nat)

  function Requests(cs: seq<Cost>): nat {
    if cs == [] then 0 else cs[0].req + Requests(cs[1..])
  }

  function Responses(cs: seq<Cost>): nat {
    if cs == [] then 0 else cs[0].resp + Responses(cs[1..])
  }

  /** Whether these tags can share a MultiRequest. */
  predicate Fits(limit: nat, cs: seq<Cost>) {
    MultiRequestSize(|cs|, Requests(cs)) <= limit && MultiResponseSize(|cs|, Responses(cs)) <= limit
  }

  function Flatten<T>(groups: seq<seq<T>>): seq<T> {
    if groups == [] then [] else groups[0] + Flatten(groups[1..])
  }

  /** A split of a list, in order, into MultiRequests that respect both budgets. */
  ghost predicate Split(limit: nat, groups: seq<seq<Cost>>, all: seq<Cost>) {
    && Flatten(groups) == all
    && forall g :: 0 <= g < |groups| ==> groups[g] != [] && Fits(limit, groups[g])
  }

  /** A split in which no group could have taken the next tag as well. */
  ghost predicate GreedySplit(limit: nat, groups: seq<seq<Cost>>, all: seq<Cost>) {
    && Split(limit, groups, all)
    && forall g :: 0 < g < |groups| ==> !Fits(limit, groups[g - 1] + [groups[g][0]])
  }

  // ---------------------------------------------------------------------------
  // A part of what fits also fits
  // ---------------------------------------------------------------------------

  lemma {:induction false} SumsOf(a: seq<Cost>, b: seq<Cost>)
    ensures Requests(a + b) == Requests(a) + Requests(b)
    ensures Responses(a + b) == Responses(a) + Responses(b)
  {
    if a == [] {
      assert a + b == b;
    } else {
      assert (a + b)[1..] == a[1..] + b;
      SumsOf(a[1..], b);
    }
  }

  lemma {:induction false} PartFits(limit: nat, lead: seq<Cost>, part: seq<Cost>, tail: seq<Cost>)
    requires Fits(limit, lead + (part + tail))
    ensures Fits(limit, part)
  {
    SumsOf(lead, part + tail);
    SumsOf(part, tail);
  }

  lemma {:induction false} MemberFits(limit: nat, group: seq<Cost>, k: nat)
    requires k < |group| && Fits(limit, group)
    ensures Fits(limit, [group[k]])
  {
    assert group == group[..k] + ([group[k]] + group[k + 1..]);
    PartFits(limit, group[..k], [group[k]], group[k + 1..]);
  }

  // ---------------------------------------------------------------------------
  // Greedy packing sends the fewest MultiRequests
  // ---------------------------------------------------------------------------

  lemma {:induction false} CutBoth<T>(a: seq<T>, b: seq<T>, c: seq<T>, d: seq<T>)
    requires a + b == c + d && |a| <= |c|
    ensures c == a + c[|a|..] && b == c[|a|..] + d
  {
    assert (a + b)[..|a|] == (c + d)[..|a|] == c[..|a|];
    assert b == (a + b)[|a|..] == (c + d)[|a|..];
  }

  lemma {:induction false} GreedyTail(limit: nat, groups: seq<seq<Cost>>, all: seq<Cost>)
    requires groups != [] && GreedySplit(limit, groups, all)
    ensures GreedySplit(limit, groups[1..], Flatten(groups[1..]))
    ensures all == groups[0] + Flatten(groups[1..])
  {
  }

  lemma {:induction false} SplitTail(limit: nat, groups: seq<seq<Cost>>, all: seq<Cost>)
    requires groups != [] && Split(limit, groups, all)
    ensures Split(limit, groups[1..], Flatten(groups[1..]))
    ensures all == groups[0] + Flatten(groups[1..])
  {
  }

  /** A greedy group reaches at least as far as any part of a feasible group that starts with it. */
  lemma {:induction false} ReachesAsFar(limit: nat, groups: seq<seq<Cost>>, all: seq<Cost>, lead: seq<Cost>, part: seq<Cost>, rest: seq<Cost>)
    requires groups != [] && GreedySplit(limit, groups, all)
    requires all == part + rest && Fits(limit, lead + part)
    ensures |part| <= |groups[0]|
  {
    GreedyTail(limit, groups, all);
    var first, later := groups[0], Flatten(groups[1..]);
    if |part| > |first| {
      CutBoth(first, later, part, rest);
      var next := part[|first|..];
      assert later != [];
      var second := groups[1];
      GreedyTail(limit, groups[1..], later);
      assert next[0] == later[0] == second[0];
      assert next == [second[0]] + next[1..];
      assert part == (first + [second[0]]) + next[1..];
      PartFits(limit, lead, first + [second[0]], next[1..]);
    }
  }

  /** Splitting only the end of a list greedily takes no more groups than splitting all of it. */
  lemma {:induction false} SuffixTakesNoMore(limit: nat, greedy: seq<seq<Cost>>, mine: seq<Cost>,
                                             other: seq<seq<Cost>>, all: seq<Cost>, lead: seq<Cost>)
    requires GreedySplit(limit, greedy, mine) && Split(limit, other, all) && all == lead + mine
    ensures |greedy| <= |other|
    decreases |other|
  {
    if greedy != [] {
      GreedyTail(limit, greedy, mine);
      assert mine != [];
      SplitTail(limit, other, all);
      var group, later := other[0], Flatten(other[1..]);
      if |group| <= |lead| {
        CutBoth(group, later, lead, mine);
        SuffixTakesNoMore(limit, greedy, mine, other[1..], later, lead[|group|..]);
      } else {
        CutBoth(lead, mine, group, later);
        var part := group[|lead|..];
        ReachesAsFar(limit, greedy, mine, lead, part, later);
        CutBoth(part, later, greedy[0], Flatten(greedy[1..]));
        SuffixTakesNoMore(limit, greedy[1..], Flatten(greedy[1..]), other[1..], later, greedy[0][|part|..]);
      }
    }
  }

  /** No in-order split within both budgets has fewer groups than the greedy one. */
  lemma {:induction false} GreedySendsFewest(limit: nat, greedy: seq<seq<Cost>>, other: seq<seq<Cost>>, all: seq<Cost>)
    requires GreedySplit(limit, greedy, all) && Split(limit, other, all)
    ensures |greedy| <= |other|
  {
    assert all == [] + all;
    SuffixTakesNoMore(limit, greedy, all, other, all, []);
  }
}
