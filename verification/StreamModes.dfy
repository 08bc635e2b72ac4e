/**
 * Trimming a camera's stream modes to what an enum record can hold, one rate from each resolution
 * in turn (drivers/d435i/src/types.rs).
 */
module StreamModes {

  const MAX_STREAM_MODES := 16

  datatype StreamMode = StreamMode(width: int, height: int, fps: int)

  predicate SameResolution(a: StreamMode, b: StreamMode) {
    a.width == b.width && a.height == b.height
  }

  function Pixels(m: StreamMode): int {
    m.width * m.height
  }

  /** The order of the enum: by pixel count, then by rate. */
  predicate Before(a: StreamMode, b: StreamMode) {
    Pixels(a) < Pixels(b) || (Pixels(a) == Pixels(b) && a.fps < b.fps)
  }

  predicate Sorted(ms: seq<StreamMode>) {
    forall i, j :: 0 <= i < j < |ms| ==> !Before(ms[j], ms[i])
  }

  predicate Distinct(ms: seq<StreamMode>) {
    forall i, j :: 0 <= i < j < |ms| ==> ms[i] != ms[j]
  }

  // ---------------------------------------------------------------------------
  // Counting
  // ---------------------------------------------------------------------------

  /** What is counted: every mode, those of one resolution, or one mode. */
  datatype Pick = All | Resolution(like: StreamMode) | One(mode: StreamMode)

  predicate Picks(p: Pick, m: StreamMode) {
    match p
    case All => true
    case Resolution(like) => SameResolution(m, like)
    case One(mode) => m == mode
  }

  function Count(ms: seq<StreamMode>, p: Pick): nat {
    if ms == [] then 0 else Count(ms[..|ms| - 1], p) + if Picks(p, ms[|ms| - 1]) then 1 else 0
  }

  lemma {:induction false} CountSnoc(ms: seq<StreamMode>, m: StreamMode, p: Pick)
    ensures Count(ms + [m], p) == Count(ms, p) + if Picks(p, m) then 1 else 0
  {
    assert (ms + [m])[..|ms|] == ms;
  }

  lemma {:induction false} CountAll(ms: seq<StreamMode>)
    ensures Count(ms, All) == |ms|
  {
    if ms != [] {
      CountAll(ms[..|ms| - 1]);
    }
  }

  lemma {:induction false} CountOne(ms: seq<StreamMode>, m: StreamMode)
    ensures Count(ms, One(m)) > 0 <==> m in ms
  {
    if ms != [] {
      CountOne(ms[..|ms| - 1], m);
      assert ms == ms[..|ms| - 1] + [ms[|ms| - 1]];
    }
  }

  lemma {:induction false} CountNone(ms: seq<StreamMode>, p: Pick)
    requires forall i :: 0 <= i < |ms| ==> !Picks(p, ms[i])
    ensures Count(ms, p) == 0
  {
    if ms != [] {
      CountNone(ms[..|ms| - 1], p);
    }
  }

  lemma {:induction false} CountWhole(ms: seq<StreamMode>, p: Pick)
    requires forall i :: 0 <= i < |ms| ==> Picks(p, ms[i])
    ensures Count(ms, p) == |ms|
  {
    if ms != [] {
      CountWhole(ms[..|ms| - 1], p);
    }
  }

  lemma {:induction false} CountDistinct(ms: seq<StreamMode>)
    ensures (forall m :: Count(ms, One(m)) <= 1) <==> Distinct(ms)
  {
    if ms != [] {
      var front, last := ms[..|ms| - 1], ms[|ms| - 1];
      CountDistinct(front);
      CountOne(front, last);
      if forall m :: Count(ms, One(m)) <= 1 {
        forall m
          ensures Count(front, One(m)) <= 1
        {
          assert Count(ms, One(m)) <= 1;
        }
        assert Count(ms, One(last)) <= 1;
      }
      if Distinct(ms) {
        forall m
          ensures Count(ms, One(m)) <= 1
        {
          assert Distinct(front) ==> Count(front, One(m)) <= 1;
        }
      }
    }
  }

  // ---------------------------------------------------------------------------
  // Sorting
  // ---------------------------------------------------------------------------

  /** A mode put behind all that do not come after it. */
  function Insert(m: StreamMode, ms: seq<StreamMode>): (r: seq<StreamMode>)
    ensures |r| == |ms| + 1
  {
    if ms == [] || !Before(m, ms[|ms| - 1]) then ms + [m]
    else Insert(m, ms[..|ms| - 1]) + [ms[|ms| - 1]]
  }

  /** The stable sort by pixel count and rate. */
  function SortModes(ms: seq<StreamMode>): (r: seq<StreamMode>)
    ensures |r| == |ms|
  {
    if ms == [] then [] else Insert(ms[|ms| - 1], SortModes(ms[..|ms| - 1]))
  }

  lemma {:induction false} InsertCounts(m: StreamMode, ms: seq<StreamMode>, p: Pick)
    ensures Count(Insert(m, ms), p) == Count(ms, p) + if Picks(p, m) then 1 else 0
  {
    if ms == [] || !Before(m, ms[|ms| - 1]) {
      CountSnoc(ms, m, p);
    } else {
      InsertCounts(m, ms[..|ms| - 1], p);
      CountSnoc(Insert(m, ms[..|ms| - 1]), ms[|ms| - 1], p);
    }
  }

  /** Sorting changes no count. */
  lemma {:induction false} SortCounts(ms: seq<StreamMode>, p: Pick)
    ensures Count(SortModes(ms), p) == Count(ms, p)
  {
    if ms != [] {
      SortCounts(ms[..|ms| - 1], p);
      InsertCounts(ms[|ms| - 1], SortModes(ms[..|ms| - 1]), p);
    }
  }

  lemma {:induction false} InsertSorted(m: StreamMode, ms: seq<StreamMode>)
    requires Sorted(ms)
    ensures Sorted(Insert(m, ms))
    ensures forall i :: 0 <= i <= |ms| ==> Insert(m, ms)[i] == m || Insert(m, ms)[i] in ms
  {
    if ms != [] && Before(m, ms[|ms| - 1]) {
      InsertSorted(m, ms[..|ms| - 1]);
    }
  }

  lemma {:induction false} SortSorts(ms: seq<StreamMode>)
    ensures Sorted(SortModes(ms))
  {
    if ms != [] {
      SortSorts(ms[..|ms| - 1]);
      InsertSorted(ms[|ms| - 1], SortModes(ms[..|ms| - 1]));
    }
  }

  // ---------------------------------------------------------------------------
  // Grouping
  // ---------------------------------------------------------------------------

  type Groups = seq<seq<StreamMode>>

  /** The first group of a mode's resolution, or one past the last. */
  function GroupOf(groups: Groups, m: StreamMode): (k: nat)
    ensures k <= |groups|
  {
    if groups == [] || (groups[0] != [] && SameResolution(groups[0][0], m)) then 0 else 1 + GroupOf(groups[1..], m)
  }

  function Place(groups: Groups, m: StreamMode): Groups {
    var k := GroupOf(groups, m);
    if k == |groups| then groups + [[m]] else groups[k := groups[k] + [m]]
  }

  function GroupsOf(ms: seq<StreamMode>): Groups {
    if ms == [] then [] else Place(GroupsOf(ms[..|ms| - 1]), ms[|ms| - 1])
  }

  lemma {:induction false} GroupOfIs(groups: Groups, m: StreamMode)
    requires forall g :: 0 <= g < |groups| ==> groups[g] != []
    ensures var k := GroupOf(groups, m);
            && (k < |groups| ==> SameResolution(groups[k][0], m))
            && (forall g :: 0 <= g < k ==> !SameResolution(groups[g][0], m))
  {
    if groups != [] && !SameResolution(groups[0][0], m) {
      GroupOfIs(groups[1..], m);
      var k := GroupOf(groups, m);
      assert forall g :: 0 < g < k ==> groups[g] == groups[1..][g - 1];
    }
  }

  /** Groups hold one resolution each, no two the same one, by rising rate. */
  ghost predicate Grouped(groups: Groups) {
    && (forall g :: 0 <= g < |groups| ==> groups[g] != [])
    && (forall g, i :: 0 <= g < |groups| && 0 <= i < |groups[g]| ==> SameResolution(groups[g][i], groups[g][0]))
    && (forall g, h :: 0 <= g < h < |groups| ==> !SameResolution(groups[g][0], groups[h][0]))
    && (forall g, i, j :: 0 <= g < |groups| && 0 <= i < j < |groups[g]| ==> groups[g][i].fps < groups[g][j].fps)
  }

  function CountIn(groups: Groups, p: Pick): nat {
    if groups == [] then 0 else CountIn(groups[..|groups| - 1], p) + Count(groups[|groups| - 1], p)
  }

  lemma {:induction false} CountUpdated(groups: Groups, k: nat, m: StreamMode, p: Pick)
    requires k < |groups|
    ensures CountIn(groups[k := groups[k] + [m]], p) == CountIn(groups, p) + if Picks(p, m) then 1 else 0
  {
    var n := |groups| - 1;
    CountSnoc(groups[k], m, p);
    var after := groups[k := groups[k] + [m]];
    if k < n {
      CountUpdated(groups[..n], k, m, p);
      assert after[..n] == groups[..n][k := groups[k] + [m]];
    } else {
      assert after[..n] == groups[..n];
    }
  }

  lemma {:induction false} PlaceCounts(groups: Groups, m: StreamMode, p: Pick)
    ensures CountIn(Place(groups, m), p) == CountIn(groups, p) + if Picks(p, m) then 1 else 0
  {
    var k := GroupOf(groups, m);
    if k == |groups| {
      assert (groups + [[m]])[..|groups|] == groups;
      assert [m] == [] + [m];
      CountSnoc([], m, p);
    } else {
      CountUpdated(groups, k, m, p);
    }
  }

  /** Grouping loses and adds no mode. */
  lemma {:induction false} GroupsCount(ms: seq<StreamMode>, p: Pick)
    ensures CountIn(GroupsOf(ms), p) == Count(ms, p)
  {
    if ms != [] {
      GroupsCount(ms[..|ms| - 1], p);
      PlaceCounts(GroupsOf(ms[..|ms| - 1]), ms[|ms| - 1], p);
    }
  }

  ghost predicate AllIn(groups: Groups, ms: seq<StreamMode>) {
    forall g, i :: 0 <= g < |groups| && 0 <= i < |groups[g]| ==> groups[g][i] in ms
  }

  lemma {:induction false} PlaceKeepsGrouped(groups: Groups, ms: seq<StreamMode>, m: StreamMode)
    requires Grouped(groups) && AllIn(groups, ms)
    requires forall e :: e in ms && SameResolution(e, m) ==> e.fps < m.fps
    ensures Grouped(Place(groups, m)) && AllIn(Place(groups, m), ms + [m])
  {
    GroupOfIs(groups, m);
  }

  /** For a sorted list of distinct modes the groups are one resolution each, by rising rate. */
  lemma {:induction false} GroupsAreGrouped(ms: seq<StreamMode>)
    requires Sorted(ms) && Distinct(ms)
    ensures Grouped(GroupsOf(ms)) && AllIn(GroupsOf(ms), ms)
  {
    if ms != [] {
      var front, m := ms[..|ms| - 1], ms[|ms| - 1];
      GroupsAreGrouped(front);
      forall e | e in front && SameResolution(e, m)
        ensures e.fps < m.fps
      {
        var i :| 0 <= i < |front| && front[i] == e;
        assert !Before(ms[|ms| - 1], ms[i]);
        assert ms[i] != ms[|ms| - 1];
      }
      PlaceKeepsGrouped(GroupsOf(front), front, m);
      assert front + [m] == ms;
    }
  }

  // ---------------------------------------------------------------------------
  // Dealing one rate from each resolution in turn
  // ---------------------------------------------------------------------------

  /** What has been dealt before group `g` in the round of `rate`. */
  function Dealt(groups: Groups, rate: nat, g: nat): seq<StreamMode>
    requires g <= |groups|
    decreases rate, g
  {
    if g > 0 then
      Dealt(groups, rate, g - 1) + if rate < |groups[g - 1]| then [groups[g - 1][rate]] else []
    else if rate > 0 then Dealt(groups, rate - 1, |groups|)
    else []
  }

  /** How much of group `j` that is. */
  function TakenOf(groups: Groups, rate: nat, g: nat, j: nat): (n: nat)
    requires j < |groups|
    ensures n <= |groups[j]|
  {
    var n := if j < g then rate + 1 else rate;
    if n < |groups[j]| then n else |groups[j]|
  }

  /** A count over the dealt parts of the first `n` groups. */
  function CountDealt(groups: Groups, rate: nat, g: nat, p: Pick, n: nat): nat
    requires n <= |groups|
  {
    if n == 0 then 0
    else CountDealt(groups, rate, g, p, n - 1) + Count(groups[n - 1][..TakenOf(groups, rate, g, n - 1)], p)
  }

  lemma {:induction false} NextRound(groups: Groups, rate: nat, p: Pick, n: nat)
    requires rate > 0 && n <= |groups|
    ensures CountDealt(groups, rate, 0, p, n) == CountDealt(groups, rate - 1, |groups|, p, n)
  {
    if n > 0 {
      NextRound(groups, rate, p, n - 1);
    }
  }

  lemma {:induction false} NextGroup(groups: Groups, rate: nat, g: nat, p: Pick, n: nat)
    requires 0 < g <= |groups| && n <= |groups|
    ensures CountDealt(groups, rate, g, p, n)
         == CountDealt(groups, rate, g - 1, p, n)
            + if n >= g && rate < |groups[g - 1]| && Picks(p, groups[g - 1][rate]) then 1 else 0
  {
    if n > 0 {
      NextGroup(groups, rate, g, p, n - 1);
      if n == g && rate < |groups[g - 1]| {
        assert groups[g - 1][..rate + 1] == groups[g - 1][..rate] + [groups[g - 1][rate]];
        CountSnoc(groups[g - 1][..rate], groups[g - 1][rate], p);
      }
    }
  }

  lemma {:induction false} NothingDealt(groups: Groups, p: Pick, n: nat)
    requires n <= |groups|
    ensures CountDealt(groups, 0, 0, p, n) == 0
  {
    if n > 0 {
      NothingDealt(groups, p, n - 1);
    }
  }

  /** What has been dealt counts as the dealt parts of the groups do. */
  lemma {:induction false} DealtCounts(groups: Groups, rate: nat, g: nat, p: Pick)
    requires g <= |groups|
    ensures Count(Dealt(groups, rate, g), p) == CountDealt(groups, rate, g, p, |groups|)
    decreases rate, g
  {
    if g > 0 {
      DealtCounts(groups, rate, g - 1, p);
      NextGroup(groups, rate, g, p, |groups|);
      if rate < |groups[g - 1]| {
        CountSnoc(Dealt(groups, rate, g - 1), groups[g - 1][rate], p);
      } else {
        assert Dealt(groups, rate, g) == Dealt(groups, rate, g - 1);
      }
    } else if rate > 0 {
      DealtCounts(groups, rate - 1, |groups|, p);
      NextRound(groups, rate, p, |groups|);
    } else {
      NothingDealt(groups, p, |groups|);
    }
  }

  lemma {:induction false} NoOtherGroup(groups: Groups, rate: nat, g: nat, p: Pick, n: nat, j: nat)
    requires Grouped(groups) && n <= |groups| && j < |groups|
    requires p.Resolution? && SameResolution(p.like, groups[j][0])
    ensures CountDealt(groups, rate, g, p, n) == if j < n then TakenOf(groups, rate, g, j) else 0
  {
    if n > 0 {
      NoOtherGroup(groups, rate, g, p, n - 1, j);
      var dealt := groups[n - 1][..TakenOf(groups, rate, g, n - 1)];
      if n - 1 == j {
        CountWhole(dealt, p);
      } else {
        forall i | 0 <= i < |dealt|
          ensures !Picks(p, dealt[i])
        {
          assert SameResolution(groups[n - 1][i], groups[n - 1][0]);
        }
        CountNone(dealt, p);
      }
    }
  }

  /** Of a resolution as many modes are dealt as are taken of its group. */
  lemma {:induction false} ResolutionDealt(groups: Groups, rate: nat, g: nat, j: nat, like: StreamMode)
    requires Grouped(groups) && g <= |groups| && j < |groups| && SameResolution(like, groups[j][0])
    ensures Count(Dealt(groups, rate, g), Resolution(like)) == TakenOf(groups, rate, g, j)
  {
    DealtCounts(groups, rate, g, Resolution(like));
    NoOtherGroup(groups, rate, g, Resolution(like), |groups|, j);
  }

  lemma {:induction false} OneInPrefix(group: seq<StreamMode>, n: nat, k: nat)
    requires n <= |group| && k < |group|
    requires forall i, j :: 0 <= i < j < |group| ==> group[i].fps < group[j].fps
    ensures Count(group[..n], One(group[k])) == if k < n then 1 else 0
  {
    if n > 0 {
      OneInPrefix(group, n - 1, k);
      assert group[..n][..n - 1] == group[..n - 1];
      assert k != n - 1 ==> group[k].fps != group[n - 1].fps;
    }
  }

  lemma {:induction false} OneDealtUpTo(groups: Groups, rate: nat, g: nat, j: nat, k: nat, n: nat)
    requires Grouped(groups) && n <= |groups| && j < |groups| && k < |groups[j]|
    ensures CountDealt(groups, rate, g, One(groups[j][k]), n)
         == if j < n && k < TakenOf(groups, rate, g, j) then 1 else 0
  {
    if n > 0 {
      OneDealtUpTo(groups, rate, g, j, k, n - 1);
      var dealt := groups[n - 1][..TakenOf(groups, rate, g, n - 1)];
      if n - 1 == j {
        OneInPrefix(groups[j], |dealt|, k);
      } else {
        forall i | 0 <= i < |dealt|
          ensures !Picks(One(groups[j][k]), dealt[i])
        {
          assert SameResolution(groups[n - 1][i], groups[n - 1][0]) && SameResolution(groups[j][k], groups[j][0]);
        }
        CountNone(dealt, One(groups[j][k]));
      }
    }
  }

  /** A mode is dealt, once, exactly when it is among those taken of its group. */
  lemma {:induction false} ModeDealt(groups: Groups, rate: nat, g: nat, j: nat, k: nat)
    requires Grouped(groups) && g <= |groups| && j < |groups| && k < |groups[j]|
    ensures Count(Dealt(groups, rate, g), One(groups[j][k])) == if k < TakenOf(groups, rate, g, j) then 1 else 0
  {
    DealtCounts(groups, rate, g, One(groups[j][k]));
    OneDealtUpTo(groups, rate, g, j, k, |groups|);
  }

  // ---------------------------------------------------------------------------
  // Trimming
  // ---------------------------------------------------------------------------

  function Deepest(groups: Groups): nat {
    if groups == [] then 0
    else
      var d, n := Deepest(groups[..|groups| - 1]), |groups[|groups| - 1]|;
      if n > d then n else d
  }

  /** As much of a list as the record can hold. */
  function Cut(ms: seq<StreamMode>): (r: seq<StreamMode>)
    ensures |r| <= MAX_STREAM_MODES
  {
    if |ms| <= MAX_STREAM_MODES then ms else ms[..MAX_STREAM_MODES]
  }

  function Fit(ms: seq<StreamMode>): seq<StreamMode> {
    if |ms| <= MAX_STREAM_MODES then ms
    else
      var groups := GroupsOf(ms);
      SortModes(Cut(Dealt(groups, Deepest(groups), 0)))
  }

  /** A mode filed with the first group of its resolution. */
  method PlaceMode(groups: Groups, mode: StreamMode) returns (r: Groups)
    requires forall g :: 0 <= g < |groups| ==> groups[g] != []
    ensures r == Place(groups, mode) && forall g :: 0 <= g < |r| ==> r[g] != []
  {
    var k := 0;
    while k < |groups| && !SameResolution(groups[k][0], mode)
      invariant k <= |groups| && GroupOf(groups, mode) == k + GroupOf(groups[k..], mode)
    {
      assert groups[k..][1..] == groups[k + 1..];
      k := k + 1;
    }
    r := if k < |groups| then groups[k := groups[k] + [mode]] else groups + [[mode]];
  }

  method GroupModes(modes: seq<StreamMode>) returns (groups: Groups)
    ensures groups == GroupsOf(modes)
  {
    groups := [];
    for i := 0 to |modes|
      invariant groups == GroupsOf(modes[..i]) && forall g :: 0 <= g < |groups| ==> groups[g] != []
    {
      assert modes[..i + 1][..i] == modes[..i];
      groups := PlaceMode(groups, modes[i]);
    }
    assert modes[..|modes|] == modes;
  }

  lemma {:induction false} CutFull(groups: Groups, rate: nat, g: nat, h: nat)
    requires g <= h <= |groups| && |Dealt(groups, rate, g)| >= MAX_STREAM_MODES
    ensures Cut(Dealt(groups, rate, h)) == Cut(Dealt(groups, rate, g)) && |Dealt(groups, rate, h)| >= MAX_STREAM_MODES
  {
    if g < h {
      CutFull(groups, rate, g, h - 1);
    }
  }

  method DealRound(groups: Groups, rate: nat, before: seq<StreamMode>) returns (kept: seq<StreamMode>)
    requires before == Cut(Dealt(groups, rate, 0))
    ensures kept == Cut(Dealt(groups, rate, |groups|))
  {
    kept := before;
    for g := 0 to |groups|
      invariant kept == Cut(Dealt(groups, rate, g))
    {
      if |kept| == MAX_STREAM_MODES {
        CutFull(groups, rate, g, |groups|);
        break;
      }
      if rate < |groups[g]| {
        kept := kept + [groups[g][rate]];
      }
    }
  }

  method FitToEnum(modes: seq<StreamMode>) returns (r: seq<StreamMode>)
    ensures r == Fit(modes)
  {
    if |modes| <= MAX_STREAM_MODES {
      return modes;
    }
    var groups := GroupModes(modes);
    var kept: seq<StreamMode> := [];
    for rate := 0 to Deepest(groups)
      invariant kept == Cut(Dealt(groups, rate, 0))
    {
      kept := DealRound(groups, rate, kept);
    }
    r := SortModes(kept);
  }

  // ---------------------------------------------------------------------------
  // What is kept
  // ---------------------------------------------------------------------------

  lemma {:induction false} DeepestIs(groups: Groups, j: nat)
    requires j < |groups|
    ensures |groups[j]| <= Deepest(groups)
  {
    if j < |groups| - 1 {
      DeepestIs(groups[..|groups| - 1], j);
    }
  }

  lemma {:induction false} AllDealt(groups: Groups, rate: nat, p: Pick, n: nat)
    requires n <= |groups| && forall j :: 0 <= j < |groups| ==> |groups[j]| <= rate
    ensures CountDealt(groups, rate, 0, p, n) == CountIn(groups[..n], p)
  {
    if n > 0 {
      AllDealt(groups, rate, p, n - 1);
      assert groups[..n][..n - 1] == groups[..n - 1];
      assert groups[n - 1][..|groups[n - 1]|] == groups[n - 1];
    }
  }

  /** After the last round every mode has been dealt. */
  lemma {:induction false} LastRoundDealsAll(ms: seq<StreamMode>)
    ensures |Dealt(GroupsOf(ms), Deepest(GroupsOf(ms)), 0)| == |ms|
  {
    var groups := GroupsOf(ms);
    forall j | 0 <= j < |groups|
      ensures |groups[j]| <= Deepest(groups)
    {
      DeepestIs(groups, j);
    }
    DealtCounts(groups, Deepest(groups), 0, All);
    AllDealt(groups, Deepest(groups), All, |groups|);
    assert groups[..|groups|] == groups;
    GroupsCount(ms, All);
    CountAll(ms);
    CountAll(Dealt(groups, Deepest(groups), 0));
  }

  /** Any number of modes is reached at some point of the dealing. */
  lemma {:induction false} CutAt(groups: Groups, rate: nat, g: nat, n: nat) returns (r: nat, h: nat)
    requires g <= |groups| && n <= |Dealt(groups, rate, g)|
    ensures h <= |groups| && Dealt(groups, r, h) == Dealt(groups, rate, g)[..n]
    decreases rate, g
  {
    var dealt := Dealt(groups, rate, g);
    if n == |dealt| {
      r, h := rate, g;
      assert dealt[..n] == dealt;
    } else if g > 0 {
      r, h := CutAt(groups, rate, g - 1, n);
      assert dealt[..n] == Dealt(groups, rate, g - 1)[..n];
    } else {
      r, h := CutAt(groups, rate - 1, |groups|, n);
    }
  }

  lemma {:induction false} FirstRound(groups: Groups, g: nat)
    requires g <= |groups|
    ensures |Dealt(groups, 0, g)| <= g
  {
    if g > 0 {
      FirstRound(groups, g - 1);
    }
  }

  lemma {:induction false} GroupWith(groups: Groups, m: StreamMode) returns (j: nat, k: nat)
    requires CountIn(groups, One(m)) > 0
    ensures j < |groups| && k < |groups[j]| && groups[j][k] == m
  {
    var n := |groups| - 1;
    if Count(groups[n], One(m)) > 0 {
      CountOne(groups[n], m);
      j := n;
      k :| 0 <= k < |groups[n]| && groups[n][k] == m;
    } else {
      j, k := GroupWith(groups[..n], m);
    }
  }

  /** Where a mode is among the groups. */
  lemma {:induction false} PlaceOf(ms: seq<StreamMode>, m: StreamMode) returns (j: nat, k: nat)
    requires m in ms
    ensures var groups := GroupsOf(ms); j < |groups| && k < |groups[j]| && groups[j][k] == m
  {
    CountOne(ms, m);
    GroupsCount(ms, One(m));
    j, k := GroupWith(GroupsOf(ms), m);
  }

  lemma {:induction false} DealtIn(groups: Groups, ms: seq<StreamMode>, rate: nat, g: nat)
    requires AllIn(groups, ms) && g <= |groups|
    ensures forall m :: m in Dealt(groups, rate, g) ==> m in ms
    decreases rate, g
  {
    if g > 0 {
      DealtIn(groups, ms, rate, g - 1);
    } else if rate > 0 {
      DealtIn(groups, ms, rate - 1, |groups|);
    }
  }

  /** What is kept of more modes than fit: those taken of each group at the point where the enum is full. */
  ghost predicate KeptAt(ms: seq<StreamMode>, rate: nat, g: nat) {
    var groups := GroupsOf(ms);
    && g <= |groups| && |Dealt(groups, rate, g)| == MAX_STREAM_MODES
    && Fit(ms) == SortModes(Dealt(groups, rate, g))
  }

  lemma {:induction false} KeptSomewhere(ms: seq<StreamMode>) returns (rate: nat, g: nat)
    requires |ms| > MAX_STREAM_MODES
    ensures KeptAt(ms, rate, g)
  {
    var groups := GroupsOf(ms);
    LastRoundDealsAll(ms);
    rate, g := CutAt(groups, Deepest(groups), 0, MAX_STREAM_MODES);
  }

  /** A mode of group `j` is kept, once, exactly when it is among those taken of the group. */
  lemma {:induction false} KeptWhen(ms: seq<StreamMode>, rate: nat, g: nat, j: nat, k: nat)
    requires Sorted(ms) && Distinct(ms) && KeptAt(ms, rate, g) && |ms| > MAX_STREAM_MODES
    requires j < |GroupsOf(ms)| && k < |GroupsOf(ms)[j]|
    ensures var groups := GroupsOf(ms);
            && (groups[j][k] in Fit(ms) <==> k < TakenOf(groups, rate, g, j))
            && Count(Fit(ms), One(groups[j][k])) <= 1
            && Count(Fit(ms), Resolution(groups[j][k])) == TakenOf(groups, rate, g, j)
  {
    var groups := GroupsOf(ms);
    GroupsAreGrouped(ms);
    ModeDealt(groups, rate, g, j, k);
    SortCounts(Dealt(groups, rate, g), One(groups[j][k]));
    CountOne(Fit(ms), groups[j][k]);
    ResolutionDealt(groups, rate, g, j, groups[j][k]);
    SortCounts(Dealt(groups, rate, g), Resolution(groups[j][k]));
  }

  lemma {:induction false} KeptAreModes(ms: seq<StreamMode>, rate: nat, g: nat, m: StreamMode)
    requires Sorted(ms) && Distinct(ms) && KeptAt(ms, rate, g) && m in Fit(ms)
    ensures m in ms
  {
    GroupsAreGrouped(ms);
    var dealt := Dealt(GroupsOf(ms), rate, g);
    DealtIn(GroupsOf(ms), ms, rate, g);
    SortCounts(dealt, One(m));
    CountOne(Fit(ms), m);
    CountOne(dealt, m);
  }

  /** Exactly as many modes are kept as fit, all of them the camera's, in order and none twice. */
  lemma {:induction false} FitKeepsModes(ms: seq<StreamMode>)
    requires Sorted(ms) && Distinct(ms)
    ensures |Fit(ms)| == if |ms| < 16 then |ms| else 16
    ensures Sorted(Fit(ms)) && Distinct(Fit(ms)) && forall m :: m in Fit(ms) ==> m in ms
  {
    if |ms| > MAX_STREAM_MODES {
      var rate, g := KeptSomewhere(ms);
      SortSorts(Dealt(GroupsOf(ms), rate, g));
      forall m
        ensures m in Fit(ms) ==> m in ms
        ensures Count(Fit(ms), One(m)) <= 1
      {
        CountOne(Fit(ms), m);
        if m in Fit(ms) {
          KeptAreModes(ms, rate, g, m);
          var j, k := PlaceOf(ms, m);
          KeptWhen(ms, rate, g, j, k);
        }
      }
      CountDistinct(Fit(ms));
    }
  }

  /** Of each resolution the lowest rates are kept: with a mode, every slower one. */
  lemma {:induction false} FitKeepsLowestRates(ms: seq<StreamMode>, m: StreamMode, slower: StreamMode)
    requires Sorted(ms) && Distinct(ms) && m in Fit(ms)
    requires slower in ms && SameResolution(slower, m) && slower.fps < m.fps
    ensures slower in Fit(ms)
  {
    if |ms| > MAX_STREAM_MODES {
      var groups := GroupsOf(ms);
      var rate, g := KeptSomewhere(ms);
      KeptAreModes(ms, rate, g, m);
      var j, k := PlaceOf(ms, m);
      var i, h := PlaceOf(ms, slower);
      KeptWhen(ms, rate, g, j, k);
      KeptWhen(ms, rate, g, i, h);
      GroupsAreGrouped(ms);
      assert SameResolution(groups[j][k], groups[j][0]) && SameResolution(groups[i][h], groups[i][0]);
      assert i == j;
    }
  }

  /** When there are no more resolutions than the record has states, every one of them is kept. */
  lemma {:induction false} FitKeepsResolutions(ms: seq<StreamMode>, m: StreamMode)
    requires Sorted(ms) && Distinct(ms) && m in ms && |GroupsOf(ms)| <= MAX_STREAM_MODES
    ensures Count(Fit(ms), Resolution(m)) > 0
  {
    if |ms| > MAX_STREAM_MODES {
      var rate, g := KeptSomewhere(ms);
      var j, k := PlaceOf(ms, m);
      KeptWhen(ms, rate, g, j, k);
      if rate == 0 {
        FirstRound(GroupsOf(ms), g);
      }
    } else {
      var i :| 0 <= i < |ms| && ms[i] == m;
      SomeCounted(ms, Resolution(m), i);
    }
  }

  lemma {:induction false} SomeCounted(ms: seq<StreamMode>, p: Pick, i: nat)
    requires i < |ms| && Picks(p, ms[i])
    ensures Count(ms, p) > 0
  {
    if i < |ms| - 1 {
      SomeCounted(ms[..|ms| - 1], p, i);
    }
  }

  /** And fairly: a resolution that has lost a mode keeps at most one fewer than any other. */
  lemma {:induction false} FitIsFair(ms: seq<StreamMode>, dropped: StreamMode, other: StreamMode)
    requires Sorted(ms) && Distinct(ms) && dropped in ms && other in ms && dropped !in Fit(ms)
    ensures Count(Fit(ms), Resolution(dropped)) + 1 >= Count(Fit(ms), Resolution(other))
  {
    var rate, g := KeptSomewhere(ms);
    var j, k := PlaceOf(ms, dropped);
    var i, h := PlaceOf(ms, other);
    KeptWhen(ms, rate, g, j, k);
    KeptWhen(ms, rate, g, i, h);
  }

  /** Where a mode's resolution first occurs in a list. */
  function FirstAt(ms: seq<StreamMode>, m: StreamMode): (i: nat)
    ensures i <= |ms|
  {
    if ms == [] || SameResolution(ms[0], m) then 0 else 1 + FirstAt(ms[1..], m)
  }

  lemma {:induction false} FirstAtSnoc(ms: seq<StreamMode>, last: StreamMode, m: StreamMode)
    ensures FirstAt(ms + [last], m)
         == if FirstAt(ms, m) < |ms| then FirstAt(ms, m) else if SameResolution(last, m) then |ms| else |ms| + 1
  {
    if ms == [] {
      assert [last][1..] == [];
    } else {
      FirstAtSnoc(ms[1..], last, m);
      assert (ms + [last])[1..] == ms[1..] + [last];
    }
  }

  /** Every mode has a group, and they stand in the order in which their resolutions first occur. */
  ghost predicate InOrder(groups: Groups, ms: seq<StreamMode>) {
    && (forall g :: 0 <= g < |groups| ==> groups[g] != [] && FirstAt(ms, groups[g][0]) < |ms|)
    && (forall g, h :: 0 <= g < h < |groups| ==> FirstAt(ms, groups[g][0]) < FirstAt(ms, groups[h][0]))
    && (forall i :: 0 <= i < |ms| ==> GroupOf(groups, ms[i]) < |groups|)
  }

  lemma {:induction false} SameGroup(groups: Groups, a: StreamMode, b: StreamMode)
    requires SameResolution(a, b)
    ensures GroupOf(groups, a) == GroupOf(groups, b)
  {
    if groups != [] {
      SameGroup(groups[1..], a, b);
    }
  }

  lemma {:induction false} StillGrouped(groups: Groups, m: StreamMode, e: StreamMode)
    requires forall g :: 0 <= g < |groups| ==> groups[g] != []
    requires GroupOf(groups, e) < |groups| || e == m
    ensures GroupOf(Place(groups, m), e) < |Place(groups, m)|
  {
    var after := Place(groups, m);
    GroupOfIs(groups, m);
    GroupOfIs(groups, e);
    GroupOfIs(after, e);
    assert forall g :: 0 <= g < |groups| ==> after[g][0] == groups[g][0];
    var k := GroupOf(groups, e);
    assert k == |groups| ==> after[k] == [m];
    assert SameResolution(after[k][0], e);
  }

  lemma {:induction false} PlaceKeepsOrder(groups: Groups, ms: seq<StreamMode>, m: StreamMode)
    requires InOrder(groups, ms)
    ensures InOrder(Place(groups, m), ms + [m])
  {
    var after, all := Place(groups, m), ms + [m];
    GroupOfIs(groups, m);
    forall g | 0 <= g < |groups|
      ensures after[g][0] == groups[g][0] && FirstAt(all, groups[g][0]) == FirstAt(ms, groups[g][0])
    {
      FirstAtSnoc(ms, m, groups[g][0]);
    }
    if GroupOf(groups, m) == |groups| {
      NewResolution(groups, ms, m);
    }
    forall i | 0 <= i < |all|
      ensures GroupOf(after, all[i]) < |after|
    {
      StillGrouped(groups, m, all[i]);
    }
  }

  lemma {:induction false} NewResolution(groups: Groups, ms: seq<StreamMode>, m: StreamMode)
    requires InOrder(groups, ms) && GroupOf(groups, m) == |groups|
    ensures FirstAt(ms + [m], m) == |ms|
  {
    FirstAtSnoc(ms, m, m);
    FirstIs(ms, m);
    if FirstAt(ms, m) < |ms| {
      SameGroup(groups, ms[FirstAt(ms, m)], m);
    }
  }

  lemma {:induction false} GroupsInOrder(ms: seq<StreamMode>)
    ensures InOrder(GroupsOf(ms), ms)
  {
    if ms != [] {
      var front, m := ms[..|ms| - 1], ms[|ms| - 1];
      GroupsInOrder(front);
      PlaceKeepsOrder(GroupsOf(front), front, m);
      assert front + [m] == ms;
    }
  }

  lemma {:induction false} SameFirst(ms: seq<StreamMode>, a: StreamMode, b: StreamMode)
    requires SameResolution(a, b)
    ensures FirstAt(ms, a) == FirstAt(ms, b)
  {
    if ms != [] {
      SameFirst(ms[1..], a, b);
    }
  }

  /** And to a resolution it comes to first: one that loses a mode keeps no fewer than any that first occurs behind it. */
  lemma {:induction false} FitPrefersFirst(ms: seq<StreamMode>, dropped: StreamMode, other: StreamMode)
    requires Sorted(ms) && Distinct(ms) && dropped in ms && other in ms && dropped !in Fit(ms)
    requires FirstAt(ms, dropped) < FirstAt(ms, other)
    ensures Count(Fit(ms), Resolution(dropped)) >= Count(Fit(ms), Resolution(other))
  {
    var rate, g := KeptSomewhere(ms);
    var groups := GroupsOf(ms);
    var j, k := PlaceOf(ms, dropped);
    var i, h := PlaceOf(ms, other);
    KeptWhen(ms, rate, g, j, k);
    KeptWhen(ms, rate, g, i, h);
    GroupsInOrder(ms);
    GroupsAreGrouped(ms);
    SameFirst(ms, dropped, groups[j][0]);
    SameFirst(ms, other, groups[i][0]);
    assert j < i;
  }

  lemma {:induction false} FirstIs(ms: seq<StreamMode>, m: StreamMode)
    ensures FirstAt(ms, m) < |ms| ==> SameResolution(ms[FirstAt(ms, m)], m)
  {
    if ms != [] && !SameResolution(ms[0], m) {
      FirstIs(ms[1..], m);
    }
  }
}
