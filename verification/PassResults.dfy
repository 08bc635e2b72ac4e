/** What a scan of a list amounts to, read off its rounds (drivers/ether-ip/src/driver.rs). */
module PassResults {
  import opened Wrappers
  import opened Bytes
  import opened TagPath
  import opened Cip
  import opened Encap
  import opened Connection
  import opened Packing
  import opened TagBuffer
  import opened Listeners
  import opened Tags
  import opened ScanPass

  // ---------------------------------------------------------------------------
  // Once each, in list order, up to the first tag that is too large by itself
  // ---------------------------------------------------------------------------

  /** The tags sent in these rounds, in the order sent. */
  function SentTags(vs: seq<View>, rounds: seq<Round>): seq<nat> {
    if rounds == [] then []
    else
      var n := |rounds|;
      var r := rounds[n - 1];
      SentTags(vs, rounds[..n - 1]) + if r.from <= r.to <= |vs| then Members(vs, r.from, r.to) else []
  }

  lemma {:induction false} MembersSplit(vs: seq<View>, a: nat, b: nat, c: nat)
    requires a <= b <= c <= |vs|
    ensures Members(vs, a, c) == Members(vs, a, b) + Members(vs, b, c)
    decreases c
  {
    if b < c {
      MembersSplit(vs, a, b, c - 1);
    }
  }

  lemma {:induction false} RoundsSend(limit: nat, writable: bool, vs: seq<View>, rounds: seq<Round>, start: nat, id: nat)
    requires Rounds(limit, writable, vs, rounds, start, id) && start <= |vs|
    ensures SentTags(vs, rounds) == Members(vs, 0, start)
    decreases |rounds|
  {
    if rounds != [] {
      var n := |rounds|;
      var r := rounds[n - 1];
      RoundsBack(limit, writable, vs, rounds, start, id);
      RoundsSend(limit, writable, vs, rounds[..n - 1], r.from, id);
      MembersSplit(vs, 0, r.from, r.to);
    }
  }

  lemma {:induction false} NoMembers(vs: seq<View>, a: nat, b: nat)
    requires a <= b <= |vs| && CostsIn(vs, a, b) == []
    ensures Members(vs, a, b) == []
  {
  }

  lemma {:induction false} CostsSplit(vs: seq<View>, a: nat, b: nat, c: nat)
    requires a <= b <= c <= |vs|
    ensures CostsIn(vs, a, c) == CostsIn(vs, a, b) + CostsIn(vs, b, c)
    decreases c
  {
    if b < c {
      CostsSplit(vs, a, b, c - 1);
    }
  }

  lemma {:induction false} MemberCost(vs: seq<View>, a: nat, b: nat, k: nat)
    requires a <= k < b <= |vs| && Usable(vs[k].data)
    ensures CostOf(vs[k].data) in CostsIn(vs, a, b)
    decreases b
  {
    if k < b - 1 {
      MemberCost(vs, a, b - 1, k);
    }
  }

  lemma {:induction false} InBatchFits(limit: nat, vs: seq<View>, a: nat, b: nat, k: nat)
    requires FullRange(limit, vs, a, b) && a <= k < b && Usable(vs[k].data)
    ensures Fits(limit, [CostOf(vs[k].data)])
  {
    var cs := CostsIn(vs, a, b);
    MemberCost(vs, a, b, k);
    var i :| 0 <= i < |cs| && cs[i] == CostOf(vs[k].data);
    MemberFits(limit, cs, i);
  }

  /** A full batch, whatever the range. */
  ghost predicate FullRange(limit: nat, vs: seq<View>, a: nat, b: nat) {
    a <= b <= |vs| && FullBatch(limit, vs, a, b)
  }

  lemma {:induction false} SentFitAlone(limit: nat, writable: bool, vs: seq<View>, rounds: seq<Round>, start: nat, id: nat, k: nat)
    requires Rounds(limit, writable, vs, rounds, start, id) && k < start <= |vs| && Usable(vs[k].data)
    ensures Fits(limit, [CostOf(vs[k].data)])
    decreases |rounds|
  {
    if rounds != [] {
      var n := |rounds|;
      var r := rounds[n - 1];
      RoundsBack(limit, writable, vs, rounds, start, id);
      LastRound(limit, writable, vs, rounds, start, id);
      if k < r.from {
        SentFitAlone(limit, writable, vs, rounds[..n - 1], r.from, id, k);
      } else {
        InBatchFits(limit, vs, r.from, r.to, k);
      }
    }
  }

  /** The first usable tag that exceeds the limit by itself, or the end of the list. */
  ghost predicate FirstTooLarge(limit: nat, vs: seq<View>, stop: nat) {
    && stop <= |vs|
    && (forall k :: 0 <= k < stop && Usable(vs[k].data) ==> Fits(limit, [CostOf(vs[k].data)]))
    && (stop < |vs| ==> Usable(vs[stop].data) && !Fits(limit, [CostOf(vs[stop].data)]))
  }

  /**
   * A pass that goes well has sent, once each and in list order, exactly the usable tags before
   * the first usable tag that alone exceeds the limit.
   */
  lemma {:induction false} PassSendsEachOnce(limit: nat, writable: bool, vs: seq<View>, rounds: seq<Round>, start: nat, stop: nat, id: nat)
    requires Rounds(limit, writable, vs, rounds, start, id) && Ends(limit, vs, start, stop)
    ensures FirstTooLarge(limit, vs, stop)
    ensures SentTags(vs, rounds) == Members(vs, 0, stop)
  {
    RoundsSend(limit, writable, vs, rounds, start, id);
    MembersSplit(vs, 0, start, stop);
    NoMembers(vs, start, stop);
    forall k | 0 <= k < stop && Usable(vs[k].data)
      ensures Fits(limit, [CostOf(vs[k].data)])
    {
      if k >= start {
        MemberCost(vs, start, stop, k);
      } else {
        SentFitAlone(limit, writable, vs, rounds, start, id, k);
      }
    }
    if stop < |vs| {
      assert CostsIn(vs, start, stop) + [CostOf(vs[stop].data)] == [CostOf(vs[stop].data)];
    }
  }

  // ---------------------------------------------------------------------------
  // In the fewest MultiRequests
  // ---------------------------------------------------------------------------

  function Groups(vs: seq<View>, rounds: seq<Round>): (gs: seq<seq<Cost>>)
    ensures |gs| == |rounds|
  {
    if rounds == [] then []
    else
      var n := |rounds|;
      var r := rounds[n - 1];
      Groups(vs, rounds[..n - 1]) + [if r.from <= r.to <= |vs| then CostsIn(vs, r.from, r.to) else []]
  }

  lemma {:induction false} FlattenSnoc<T>(groups: seq<seq<T>>, last: seq<T>)
    ensures Flatten(groups + [last]) == Flatten(groups) + last
  {
    if groups == [] {
      assert [last][1..] == [];
    } else {
      assert (groups + [last])[1..] == groups[1..] + [last];
      FlattenSnoc(groups[1..], last);
    }
  }

  /** A greedy split goes on with a group that starts with the tag the last one had no room for. */
  lemma {:induction false} GreedySnoc(limit: nat, groups: seq<seq<Cost>>, all: seq<Cost>, last: seq<Cost>)
    requires GreedySplit(limit, groups, all) && last != [] && Fits(limit, last)
    requires groups != [] ==> !Fits(limit, groups[|groups| - 1] + [last[0]])
    ensures GreedySplit(limit, groups + [last], all + last)
  {
    FlattenSnoc(groups, last);
  }

  lemma {:induction false} FirstCost(vs: seq<View>, a: nat, b: nat)
    requires a < b <= |vs| && Usable(vs[a].data)
    ensures CostsIn(vs, a, b) != [] && CostsIn(vs, a, b)[0] == CostOf(vs[a].data)
    decreases b
  {
    if a < b - 1 {
      FirstCost(vs, a, b - 1);
    }
  }

  lemma {:induction false} OneCost(vs: seq<View>, a: nat)
    requires a < |vs| && Usable(vs[a].data)
    ensures CostsIn(vs, a, a + 1) == [CostOf(vs[a].data)]
  {
  }

  lemma {:induction false} LastRound(limit: nat, writable: bool, vs: seq<View>, rounds: seq<Round>, start: nat, id: nat)
    requires Rounds(limit, writable, vs, rounds, start, id) && rounds != []
    ensures var r := rounds[|rounds| - 1];
            Batched(limit, vs, r.from, r.to) && r.to == start && Groups(vs, rounds)[|rounds| - 1] == CostsIn(vs, r.from, r.to)
  {
    assert Follows(limit, writable, vs, rounds[..|rounds| - 1], rounds[|rounds| - 1], id);
  }

  /** The batch behind another one starts with the tag that had no room in it. */
  lemma {:induction false} NoRoomForNext(limit: nat, writable: bool, vs: seq<View>, rounds: seq<Round>, start: nat, id: nat, to: nat)
    requires Rounds(limit, writable, vs, rounds, start, id) && rounds != [] && start < to <= |vs|
    ensures CostsIn(vs, start, to) != []
    ensures !Fits(limit, Groups(vs, rounds)[|rounds| - 1] + [CostsIn(vs, start, to)[0]])
  {
    LastRound(limit, writable, vs, rounds, start, id);
    FirstCost(vs, start, to);
  }

  lemma {:induction false} RoundsAreGreedy(limit: nat, writable: bool, vs: seq<View>, rounds: seq<Round>, start: nat, id: nat)
    requires Rounds(limit, writable, vs, rounds, start, id) && start <= |vs|
    ensures GreedySplit(limit, Groups(vs, rounds), CostsIn(vs, 0, start))
    decreases |rounds|
  {
    if rounds != [] {
      var n := |rounds|;
      var r := rounds[n - 1];
      var front := rounds[..n - 1];
      RoundsBack(limit, writable, vs, rounds, start, id);
      LastRound(limit, writable, vs, rounds, start, id);
      RoundsAreGreedy(limit, writable, vs, front, r.from, id);
      CostsSplit(vs, 0, r.from, r.to);
      if front != [] {
        NoRoomForNext(limit, writable, vs, front, r.from, id, r.to);
      }
      GreedySnoc(limit, Groups(vs, front), CostsIn(vs, 0, r.from), CostsIn(vs, r.from, r.to));
    }
  }

  /**
   * A pass that goes well sends its tags in the fewest MultiRequests of any in-order split that
   * respects both budgets.
   */
  lemma {:induction false} PassSendsFewest(limit: nat, writable: bool, vs: seq<View>, rounds: seq<Round>, start: nat, stop: nat, id: nat,
                                           other: seq<seq<Cost>>)
    requires Rounds(limit, writable, vs, rounds, start, id) && Ends(limit, vs, start, stop)
    requires Split(limit, other, CostsIn(vs, 0, stop))
    ensures |rounds| <= |other|
  {
    RoundsAreGreedy(limit, writable, vs, rounds, start, id);
    CostsSplit(vs, 0, start, stop);
    GreedySendsFewest(limit, Groups(vs, rounds), other, CostsIn(vs, 0, stop));
  }

  // ---------------------------------------------------------------------------
  // What becomes of each tag
  // ---------------------------------------------------------------------------

  lemma {:induction false} RequestKept(vs: seq<View>, a: nat, b: nat, limit: nat, i: nat)
    requires a < b <= |vs| && i < |RequestsIn(vs, a, b - 1, limit)|
    ensures i < |RequestsIn(vs, a, b, limit)| && RequestsIn(vs, a, b, limit)[i] == RequestsIn(vs, a, b - 1, limit)[i]
  {
  }

  lemma {:induction false} RequestAt(vs: seq<View>, a: nat, b: nat, limit: nat, k: nat)
    requires a <= k < b <= |vs| && Usable(vs[k].data)
    ensures Rank(vs, a, k) < |RequestsIn(vs, a, b, limit)|
    ensures RequestsIn(vs, a, b, limit)[Rank(vs, a, k)] == RequestBytes(vs[k], limit)
    decreases b
  {
    RequestCount(vs, a, b, limit);
    RankGrows(vs, a, k, b);
    if k < b - 1 {
      RequestAt(vs, a, b - 1, limit, k);
      RequestKept(vs, a, b, limit, Rank(vs, a, k));
    } else {
      RequestCount(vs, a, k, limit);
    }
  }

  lemma {:induction false} RequestCount(vs: seq<View>, a: nat, b: nat, limit: nat)
    requires a <= b <= |vs|
    ensures |RequestsIn(vs, a, b, limit)| == Rank(vs, a, b)
  {
    RankIsCount(vs, a, b);
  }

  /** What one round does to a tag: nothing before its batch, and in it the reply at its place is applied. */
  lemma {:induction false} LastRoundOn(vs: seq<View>, rounds: seq<Round>, k: nat)
    requires rounds != [] && k < |vs|
    ensures var r := rounds[|rounds| - 1];
            && (k < r.from <= r.to ==> AfterRounds(vs, rounds, k) == AfterRounds(vs, rounds[..|rounds| - 1], k))
            && (r.from <= k < r.to <= |vs| && Usable(vs[k].data) && |r.replies| == Rank(vs, r.from, r.to) ==>
                  && Rank(vs, r.from, k) < |r.replies|
                  && AfterRounds(vs, rounds, k)
                  == Apply(Take(vs[k].data), Take(vs[k].data).isWriting, r.replies[Rank(vs, r.from, k)]))
  {
    var r := rounds[|rounds| - 1];
    if r.from <= k < r.to <= |vs| {
      RankGrows(vs, r.from, k, r.to);
    }
  }

  /** The round a tag was sent in. */
  lemma {:induction false} RoundOf(limit: nat, writable: bool, vs: seq<View>, rounds: seq<Round>, start: nat, id: nat, k: nat) returns (r: Round)
    requires Rounds(limit, writable, vs, rounds, start, id) && k < start <= |vs| && Usable(vs[k].data)
    ensures r in rounds && r.from <= k < r.to <= |vs| && r.id < 0x1_0000_0000
    ensures Answers(limit, writable, vs, r) && Rank(vs, r.from, k) < |r.replies|
    ensures AfterRounds(vs, rounds, k) == Apply(Take(vs[k].data), Take(vs[k].data).isWriting, r.replies[Rank(vs, r.from, k)])
    decreases |rounds|
  {
    var n := |rounds|;
    var last, front := rounds[n - 1], rounds[..n - 1];
    RoundsBack(limit, writable, vs, rounds, start, id);
    LastRoundOn(vs, rounds, k);
    if k < last.from {
      r := RoundOf(limit, writable, vs, front, last.from, id, k);
      assert r in front;
    } else {
      r := last;
      LastAnswers(limit, writable, vs, rounds, start, id);
    }
  }

  lemma {:induction false} LastAnswers(limit: nat, writable: bool, vs: seq<View>, rounds: seq<Round>, start: nat, id: nat)
    requires Rounds(limit, writable, vs, rounds, start, id) && rounds != []
    ensures var r := rounds[|rounds| - 1]; r.from <= r.to <= |vs| && r.id < 0x1_0000_0000 && Answers(limit, writable, vs, r)
  {
    assert Follows(limit, writable, vs, rounds[..|rounds| - 1], rounds[|rounds| - 1], id);
  }

  /**
   * A usable tag before the stop has had its request sent, at its place in one of the messages, and
   * the sub-reply at that place applied to it.
   */
  lemma {:induction false} SentTagSettled(limit: nat, writable: bool, vs: seq<View>, rounds: seq<Round>, start: nat, stop: nat, id: nat, k: nat)
    returns (r: Round, place: nat)
    requires Rounds(limit, writable, vs, rounds, start, id) && Ends(limit, vs, start, stop)
    requires k < stop && Usable(vs[k].data)
    ensures r in rounds && r.from <= k < r.to <= |vs| && place < |RequestsIn(vs, r.from, r.to, limit)|
    ensures RequestsIn(vs, r.from, r.to, limit)[place] == RequestBytes(vs[k], limit)
    ensures SubReply(r.response, place).Some?
    ensures AfterRounds(vs, rounds, k) == Apply(Take(vs[k].data), Take(vs[k].data).isWriting, SubReply(r.response, place).value)
  {
    if k >= start {
      MemberCost(vs, start, stop, k);
    }
    r := RoundOf(limit, writable, vs, rounds, start, id, k);
    place := Rank(vs, r.from, k);
    RequestAt(vs, r.from, r.to, limit, k);
  }

  /** What a tag's data is after a reply with this effect. */
  ghost predicate Settled(before: TagData, after: TagData, effect: Effect, elements: nat, e: Edit) {
    match effect
    case Lost => after.valid == 0 && after.buf == before.buf && !Stageable(after, elements, e)
    case Kept => after.valid == before.valid && after.buf == before.buf
    case Filled(data) => after.valid == |data| > 0 && after.buf == data
  }

  /**
   * And that reply settles the tag, told from its bytes: refused, or without data, it leaves no value for any record to
   * stage against; a good one to a write keeps the value, and one to a read replaces it.
   */
  lemma {:induction false} SentTagEffect(limit: nat, writable: bool, vs: seq<View>, rounds: seq<Round>, start: nat, stop: nat,
                                          id: nat, k: nat, elements: nat, e: Edit)
    returns (r: Round, place: nat)
    requires Rounds(limit, writable, vs, rounds, start, id) && Ends(limit, vs, start, stop)
    requires k < stop && Usable(vs[k].data)
    ensures r in rounds && SubReply(r.response, place).Some?
    ensures var writing, after := Take(vs[k].data).isWriting, AfterRounds(vs, rounds, k);
            && Settled(vs[k].data, after, EffectOf(false, writing, SubReply(r.response, place).value), elements, e)
            && !after.doWrite && !after.isWriting
  {
    r, place := SentTagSettled(limit, writable, vs, rounds, start, stop, id, k);
    ReplySettles(Take(vs[k].data), Take(vs[k].data).isWriting, SubReply(r.response, place).value, elements, e);
  }

  /** Tags behind the last batch, and unusable tags anywhere, are left as they were found. */
  lemma {:induction false} OthersUntouched(limit: nat, writable: bool, vs: seq<View>, rounds: seq<Round>, start: nat, id: nat, k: nat)
    requires Rounds(limit, writable, vs, rounds, start, id) && k < |vs|
    requires k > start || !Usable(vs[k].data)
    ensures AfterRounds(vs, rounds, k) == vs[k].data
    decreases |rounds|
  {
    if rounds != [] {
      var n := |rounds|;
      var r, front := rounds[n - 1], rounds[..n - 1];
      RoundsBack(limit, writable, vs, rounds, start, id);
      if k != r.from {
        OthersUntouched(limit, writable, vs, front, r.from, id, k);
      } else if front != [] {
        RoundsBack(limit, writable, vs, front, r.from, id);
      }
      UnchangedBy(vs, rounds, k);
    }
  }

  lemma {:induction false} UnchangedBy(vs: seq<View>, rounds: seq<Round>, k: nat)
    requires rounds != [] && k < |vs| && var r := rounds[|rounds| - 1]; r.from <= r.to <= |vs| && k != r.to
    requires AfterRounds(vs, rounds[..|rounds| - 1], k) == vs[k].data
    requires var r := rounds[|rounds| - 1]; k > r.to || !Usable(vs[k].data)
    ensures AfterRounds(vs, rounds, k) == vs[k].data
  {
  }

  lemma {:induction false} ToldInFull(vs: seq<View>, r: Round, k: nat)
    requires r.from < r.to <= |vs| && |r.replies| == Rank(vs, r.from, r.to) && k < |vs|
    ensures ToldIn(vs, r, k) == if r.from <= k < r.to && Usable(vs[k].data) then 1 else 0
  {
    if r.from <= k < r.to {
      RankGrows(vs, r.from, k, r.to);
    }
  }

  lemma {:induction false} ToldOnce(limit: nat, writable: bool, vs: seq<View>, rounds: seq<Round>, start: nat, id: nat, k: nat)
    requires Rounds(limit, writable, vs, rounds, start, id) && k < |vs|
    ensures ToldBy(vs, rounds, k) == if k < start && Usable(vs[k].data) then 1 else 0
    decreases |rounds|
  {
    if rounds != [] {
      var n := |rounds|;
      var front, r := rounds[..n - 1], rounds[n - 1];
      RoundsBack(limit, writable, vs, rounds, start, id);
      ToldOnce(limit, writable, vs, front, r.from, id, k);
      ToldInFull(vs, r, k);
      ToldNext(vs, front, r, k);
      assert rounds == front + [r];
    }
  }

  /** A pass that goes well notifies the records of every tag it has sent once, and of no other. */
  lemma {:induction false} PassTellsEachOnce(tags: seq<TagInfo>, limit: nat, writable: bool, vs: seq<View>, rounds: seq<Round>,
                                             start: nat, stop: nat, id: nat, k: nat)
    requires |tags| == |vs| && StandBuilt(tags, vs, rounds, start, stop, true)
    requires Rounds(limit, writable, vs, rounds, start, id) && Ends(limit, vs, start, stop) && k < |vs|
    ensures tags[k].transfers == vs[k].transfers + if k in SentTags(vs, rounds) then 1 else 0
  {
    StandBuiltMeans(tags, vs, rounds, start, stop, true);
    ToldOnce(limit, writable, vs, rounds, start, id, k);
    RoundsSend(limit, writable, vs, rounds, start, id);
    MembersAre(vs, 0, start, k);
  }

  /**
   * A write staged on the tag a pass stops at, because that tag alone exceeds the limit, is dropped: the tag is in no
   * batch, both flags end up clear, its value stays in the buffer, and its records are not notified.
   */
  lemma {:induction false} LoneWriteDropped(tags: seq<TagInfo>, limit: nat, writable: bool, vs: seq<View>, rounds: seq<Round>,
                                            start: nat, stop: nat, id: nat)
    requires |tags| == |vs| && StandBuilt(tags, vs, rounds, start, stop, true)
    requires Rounds(limit, writable, vs, rounds, start, id) && Ends(limit, vs, start, stop)
    requires stop < |vs| && vs[stop].data.doWrite
    ensures Usable(vs[stop].data) && !Fits(limit, [CostOf(vs[stop].data)])
    ensures stop !in SentTags(vs, rounds)
    ensures tags[stop].data == vs[stop].data.(doWrite := false, isWriting := false)
    ensures tags[stop].transfers == vs[stop].transfers
  {
    StandBuiltMeans(tags, vs, rounds, start, stop, true);
    PassSendsEachOnce(limit, writable, vs, rounds, start, stop, id);
    PassTellsEachOnce(tags, limit, writable, vs, rounds, start, stop, id, stop);
    MembersAre(vs, 0, stop, stop);
  }

  /**
   * A pass that fails keeps the write of the tag its last batch stopped at; in the batch itself every
   * write without a good reply is given back and none is staged again.
   */
  lemma {:induction false} FailedPassHolds(limit: nat, vs: seq<View>, rounds: seq<Round>, last: Round, k: nat)
    requires Batched(limit, vs, last.from, last.to) && last.from <= k <= last.to && k < |vs| && Usable(vs[k].data)
    requires |last.replies| < Rank(vs, last.from, last.to)
    ensures var d := AfterRounds(vs, rounds + [last], k);
            && !d.doWrite
            && (d.isWriting <==> k == last.to && (vs[k].data.doWrite || vs[k].data.isWriting) && TypeOf(vs[k].data.buf).Some?)
  {
    assert (rounds + [last])[..|rounds|] == rounds;
  }

  // ---------------------------------------------------------------------------
  // Sizes
  // ---------------------------------------------------------------------------

  /** A tag whose next request keeps to its budget. */
  ghost predicate KeepsToBudget(v: View, limit: nat) {
    && SizedFor(v.data, v.path, v.elements) && v.elements < 0x1_0000
    && !(Take(v.data).isWriting && SentWithoutNul(v.data.buf, v.path, limit))
  }

  ghost predicate Within(requests: seq<seq<byte>>, costs: seq<Cost>) {
    |requests| == |costs| && forall i :: 0 <= i < |costs| ==> |requests[i]| <= costs[i].req
  }

  lemma {:induction false} WithinSnoc(requests: seq<seq<byte>>, costs: seq<Cost>, request: seq<byte>, cost: Cost)
    requires Within(requests, costs) && |request| <= cost.req
    ensures Within(requests + [request], costs + [cost])
  {
  }

  lemma {:induction false} RequestsWithin(vs: seq<View>, a: nat, b: nat, limit: nat)
    requires a <= b <= |vs|
    requires forall k :: a <= k < b && Usable(vs[k].data) ==> KeepsToBudget(vs[k], limit)
    ensures Within(RequestsIn(vs, a, b, limit), CostsIn(vs, a, b))
    decreases b
  {
    if a < b {
      RequestsWithin(vs, a, b - 1, limit);
      if Usable(vs[b - 1].data) {
        var v := vs[b - 1];
        assert KeepsToBudget(v, limit);
        RequestsKeepToBudget(v.data, v.path, v.elements, limit);
        WithinSnoc(RequestsIn(vs, a, b - 1, limit), CostsIn(vs, a, b - 1), RequestBytes(v, limit), CostOf(v.data));
      }
    }
  }

  /** Batches of tags that keep to their budgets are at most `limit` bytes. */
  lemma {:induction false} BatchWithinLimit(limit: nat, vs: seq<View>, r: Round)
    requires Batched(limit, vs, r.from, r.to)
    requires forall k :: r.from <= k < r.to && Usable(vs[k].data) ==> KeepsToBudget(vs[k], limit)
    ensures |Message(vs, r, limit)| <= limit
  {
    RequestsWithin(vs, r.from, r.to, limit);
    AssembledWithinLimit(RequestsIn(vs, r.from, r.to, limit), CostsIn(vs, r.from, r.to), limit);
  }

  /**
   * A batch that fits a limit of at most 540 is answered in one frame that fits the 580-byte buffer: for replies within
   * the budgets of its tags, the whole reply arrives and each sub-reply is read back at its tag's place.
   */
  lemma {:induction false} BatchIsAnswered(limit: nat, vs: seq<View>, r: Round, head: seq<byte>, replies: seq<seq<byte>>,
                                           session: nat, id: seq<byte>, next: seq<byte>, ending: Ending)
    requires Batched(limit, vs, r.from, r.to) && limit <= 540
    requires |replies| == |CostsIn(vs, r.from, r.to)|
    requires forall i :: 0 <= i < |replies| ==> |replies[i]| <= CostsIn(vs, r.from, r.to)[i].resp
    requires |head| == 4 && head[3] == 0 && |id| == 8 && session < 0x1_0000_0000
    ensures var reply := MultiReplyBytes(head, [], replies);
            && Answered(FrameIn(SendRRDataBytes(session, id, reply) + next, ending), id) == Ok(reply)
            && forall i :: 0 <= i < |replies| ==> SubReply(reply, i) == Some(replies[i])
  {
    AnsweredWithinLimit(head, replies, CostsIn(vs, r.from, r.to), limit);
    PayloadRecovered(session, id, id, MultiReplyBytes(head, [], replies), next, ending);
    ShortReplyReads(head, replies);
  }

  lemma {:induction false} ShortReplyReads(head: seq<byte>, replies: seq<seq<byte>>)
    requires |head| == 4 && head[3] == 0 && |MultiReplyBytes(head, [], replies)| <= 540
    ensures forall i :: 0 <= i < |replies| ==> SubReply(MultiReplyBytes(head, [], replies), i) == Some(replies[i])
  {
    BundleSize(replies);
    if replies != [] {
      BeforeGrows(replies, |replies| - 1, |replies|);
    }
    SubRepliesInvertBundle(head, [], replies);
  }

  /** The good replies to a batch of probed tags, to a write or to a read with as much data as there is. */
  function RepliesTo(vs: seq<View>, a: nat, b: nat): (rs: seq<seq<byte>>)
    requires a <= b <= |vs|
    ensures |rs| == |CostsIn(vs, a, b)|
  {
    if a == b then []
    else
      var v := vs[b - 1];
      RepliesTo(vs, a, b - 1) + if Usable(v.data) then [GoodReply(Take(v.data).isWriting, v.data.buf)] else []
  }

  /** They are exactly as long as budgeted. */
  lemma {:induction false} GoodRepliesKeepToBudgets(vs: seq<View>, a: nat, b: nat, i: nat)
    requires a <= b <= |vs| && i < |CostsIn(vs, a, b)|
    requires forall k :: a <= k < b && Usable(vs[k].data) ==> SizedFor(vs[k].data, vs[k].path, vs[k].elements)
    ensures |RepliesTo(vs, a, b)[i]| == CostsIn(vs, a, b)[i].resp
    decreases b
  {
    if i < |CostsIn(vs, a, b - 1)| {
      GoodRepliesKeepToBudgets(vs, a, b - 1, i);
    } else {
      var v := vs[b - 1];
      RepliesKeepToBudget(v.data, v.path, v.elements, v.data.buf);
    }
  }

  /**
   * A message passes the checks of a routed send exactly when its length, rounded up to even, leaves 14
   * bytes for the envelope under the limit, and 54 for the whole frame under the 580-byte buffer.
   */
  lemma {:induction false} SendableWhen(message: seq<byte>, slot: byte, limit: nat)
    ensures Sendable(message, limit)
       <==> |message| + |message| % 2 + 14 <= limit && |message| + |message| % 2 + 54 <= BUFFER_SIZE
  {
    RoutedSizeCheck(message, slot, limit);
    RoutedSizeCheck(message, slot, BUFFER_SIZE - RRDATA_SIZE);
  }

  /** Packed to 15 bytes below the limit, every batch would be accepted. */
  lemma {:induction false} PackingBelowLimitAccepted(limit: nat, vs: seq<View>, r: Round)
    requires 15 <= limit <= BUFFER_SIZE - RRDATA_SIZE && Batched(limit - 15, vs, r.from, r.to)
    requires forall k :: r.from <= k < r.to && Usable(vs[k].data) ==> KeepsToBudget(vs[k], limit - 15)
    ensures Sendable(Message(vs, r, limit - 15), limit)
  {
    BatchWithinLimit(limit - 15, vs, r);
    SendableWhen(Message(vs, r, limit - 15), 0, limit);
  }

  /** A tag alone in a batch that fits the limit, but that no routed send accepts. */
  ghost predicate RefusedAt(v: View, limit: nat) {
    Batched(limit, [v], 0, 1) && !Sendable(Message([v], Alone(), limit), limit)
  }

  function Alone(): Round {
    Round(0, 1, 0, [], [], [])
  }

  /** The least limit at which a tag alone fits, for its request and for its reply. */
  function LeastLimit(v: View): nat {
    var c := CostOf(v.data);
    var req, resp := MultiRequestSize(1, c.req), MultiResponseSize(1, c.resp);
    if req >= resp then req else resp
  }

  lemma {:induction false} FitsAlone(v: View, limit: nat)
    requires Usable(v.data)
    ensures Batched(limit, [v], 0, 1) <==> limit >= LeastLimit(v)
  {
    var c := CostOf(v.data);
    OneCost([v], 0);
    OneMoreCost([], c);
    assert [] + [c] == [c];
  }

  /** From there on the limit does not cut a text short. */
  lemma {:induction false} RequestSettled(v: View, limit: nat)
    requires SizedFor(v.data, v.path, v.elements) && limit >= LeastLimit(v)
    ensures RequestBytes(v, limit) == RequestBytes(v, LeastLimit(v))
  {
    var raw := v.data.buf[TYPECODE_SIZE..];
    if Take(v.data).isWriting && TypeOf(v.data.buf) == Some(Struct) {
      assert StringHeadSize(v.path) + TextLength(StringText(raw)) + 1 <= LeastLimit(v);
    }
  }

  /**
   * Packed to the limit itself they need not be: there is a limit at which a tag, read or written, makes a batch that
   * fits and that no routed send accepts, exactly when its message leaves too little room for the envelope under the
   * least limit at which it fits, or under the 580-byte buffer.
   */
  lemma {:induction false} FullBatchRefused(v: View)
    requires SizedFor(v.data, v.path, v.elements)
    ensures var n := |Message([v], Alone(), LeastLimit(v))|;
            (exists limit :: RefusedAt(v, limit)) <==> n + n % 2 + 14 > LeastLimit(v) || n + n % 2 + 54 > BUFFER_SIZE
  {
    var least := LeastLimit(v);
    var message := Message([v], Alone(), least);
    FitsAlone(v, least);
    SendableWhen(message, 0, least);
    forall limit | RefusedAt(v, limit)
      ensures |message| + |message| % 2 + 14 > least || |message| + |message| % 2 + 54 > BUFFER_SIZE
    {
      FitsAlone(v, limit);
      RequestSettled(v, limit);
      OneRequest(v, limit);
      OneRequest(v, least);
      SendableWhen(message, 0, limit);
    }
    if |message| + |message| % 2 + 14 > least || |message| + |message| % 2 + 54 > BUFFER_SIZE {
      assert RefusedAt(v, least);
    }
  }

  lemma {:induction false} OneRequest(v: View, limit: nat)
    requires Usable(v.data)
    ensures Message([v], Alone(), limit) == MultiRequestBytes([RequestBytes(v, limit)])
  {
    assert RequestsIn([v], 0, 1, limit) == [RequestBytes(v, limit)];
  }

  /**
   * In particular for every read whose reply takes at most 13 bytes more than its request: the least limit is too low
   * for its envelope.
   */
  lemma {:induction false} ReadRefused(v: View)
    requires SizedFor(v.data, v.path, v.elements) && v.elements < 0x1_0000 && !Take(v.data).isWriting
    requires v.data.rResp <= v.data.rReq + 13
    ensures RefusedAt(v, LeastLimit(v))
  {
    var least := LeastLimit(v);
    OneRequest(v, least);
    RequestsKeepToBudget(v.data, v.path, v.elements, least);
    MultiRequestSizeIsExact([RequestBytes(v, least)]);
    assert Concat([RequestBytes(v, least)]) == RequestBytes(v, least);
    FitsAlone(v, least);
    SendableWhen(Message([v], Alone(), least), 0, least);
  }
}
