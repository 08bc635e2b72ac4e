/**
 * One scan of a list: its tags' requests packed into MultiRequests, sent, and the replies
 * handed out again (drivers/ether-ip/src/driver.rs).
 */
module ScanPass {
  import opened Wrappers
  import opened Bytes
  import opened TagPath
  import opened Cip
  import opened Encap
  import opened Connection
  import opened Packing
  import opened TagBuffer
  import opened Listeners
  import opened Tags

  // ---------------------------------------------------------------------------
  // What a pass does, told from what it finds
  // ---------------------------------------------------------------------------

  /** A tag as a pass finds it. */
  datatype View = View(path: Path, elements: nat, listeners: seq<Listener>, data: TagData, transfers: nat)

  /** The usable tags from `a` to before `b`, in list order. */
  function Members(vs: seq<View>, a: nat, b: nat): (ms: seq<nat>)
    requires a <= b <= |vs|
  {
    if a == b then [] else Members(vs, a, b - 1) + if Usable(vs[b - 1].data) then [b - 1] else []
  }

  /** Their budgets. */
  function CostsIn(vs: seq<View>, a: nat, b: nat): (cs: seq<Cost>)
    requires a <= b <= |vs|
    ensures |cs| == |Members(vs, a, b)|
  {
    if a == b then [] else CostsIn(vs, a, b - 1) + if Usable(vs[b - 1].data) then [CostOf(vs[b - 1].data)] else []
  }

  function RequestBytes(v: View, limit: nat): seq<byte> {
    RequestOf(v.data, v.path, v.elements, limit)
  }

  /** Their requests. */
  function RequestsIn(vs: seq<View>, a: nat, b: nat, limit: nat): (rs: seq<seq<byte>>)
    requires a <= b <= |vs|
    ensures |rs| == |Members(vs, a, b)|
  {
    if a == b then []
    else RequestsIn(vs, a, b - 1, limit) + if Usable(vs[b - 1].data) then [RequestBytes(vs[b - 1], limit)] else []
  }

  /** They are exactly the usable tags of the range. */
  lemma {:induction false} MembersAre(vs: seq<View>, a: nat, b: nat, k: nat)
    requires a <= b <= |vs|
    ensures k in Members(vs, a, b) <==> a <= k < b && Usable(vs[k].data)
    decreases b
  {
    if a < b {
      MembersAre(vs, a, b - 1, k);
    }
  }

  /** Each once, in list order. */
  lemma {:induction false} MembersInOrder(vs: seq<View>, a: nat, b: nat, i: nat, j: nat)
    requires a <= b <= |vs| && i < j < |Members(vs, a, b)|
    ensures Members(vs, a, b)[i] < Members(vs, a, b)[j]
    decreases b
  {
    var front := Members(vs, a, b - 1);
    if j < |front| {
      MembersInOrder(vs, a, b - 1, i, j);
    } else {
      MembersAre(vs, a, b - 1, front[i]);
    }
  }

  /** A tag's data at the start of a pass, or already taken by it. */
  ghost predicate Current(d: TagData, v: View) {
    d == v.data || (Usable(v.data) && d == Take(v.data))
  }

  /** A tag that alone exceeds the limit: its write is taken and given back unsent. */
  function GivenBack(d: TagData): TagData {
    Release(Take(d), Take(d).isWriting)
  }

  // ---------------------------------------------------------------------------
  // Building one MultiRequest
  // ---------------------------------------------------------------------------

  /** A tag's contribution to the current MultiRequest. */
  datatype Item = Item(info: TagInfo, writing: bool, request: seq<byte>, responseSize: nat)

  ghost predicate IsItem(item: Item, t: TagInfo, v: View, limit: nat) {
    && item.info == t
    && item.writing == Take(v.data).isWriting
    && item.request == RequestBytes(v, limit)
    && item.responseSize == CostOf(v.data).resp
  }

  /** The items of the usable tags from `a` to before `b`. */
  ghost predicate ItemsIn(items: seq<Item>, tags: seq<TagInfo>, vs: seq<View>, a: nat, b: nat, limit: nat)
    requires a <= b <= |vs| == |tags|
    decreases b
  {
    if a == b then items == []
    else if !Usable(vs[b - 1].data) then ItemsIn(items, tags, vs, a, b - 1, limit)
    else
      var n := |items|;
      n > 0 && IsItem(items[n - 1], tags[b - 1], vs[b - 1], limit) && ItemsIn(items[..n - 1], tags, vs, a, b - 1, limit)
  }

  /** A tag as the pass found it, except that the pass may have taken its write already. */
  ghost predicate Waits(t: TagInfo, v: View)
    reads t
  {
    t.path == v.path && t.elements == v.elements && Current(t.data, v)
  }

  ghost predicate Waiting(tags: seq<TagInfo>, vs: seq<View>, from: nat)
    reads set t | t in tags
  {
    |tags| == |vs| && forall k :: from <= k < |tags| ==> Waits(tags[k], vs[k])
  }

  /** One tag's request built, the write half of the handshake taken under the same lock. */
  method BuildOne(info: TagInfo, limit: nat, ghost v: View) returns (item: Item, req: nat)
    requires Waits(info, v)
    modifies info`data
    ensures info.data == Take(v.data)
    ensures IsItem(item, info, v, limit) && req == CostOf(v.data).req
  {
    var d := info.data;
    var elements := info.elements % 0x1_0000;
    if d.doWrite {
      d := d.(doWrite := false, isWriting := true);
    }
    var request := new Vec();
    var t := TypeOf(d.buf);
    if d.isWriting && t.Some? {
      var raw := d.buf[TYPECODE_SIZE..];
      if t.value == Struct {
        EncodeWriteString(info.path, elements, raw, limit, request);
      } else {
        EncodeWriteData(info.path, t.value, elements, raw, request);
      }
      item, req := Item(info, true, request.bytes, d.wResp), d.wReq;
    } else {
      d := d.(isWriting := false);
      EncodeReadData(info.path, elements, request);
      item, req := Item(info, false, request.bytes, d.rResp), d.rReq;
    }
    info.data := d;
    BuiltAsSpecified(v, limit);
  }

  lemma {:induction false} BuiltAsSpecified(v: View, limit: nat)
    ensures CostOf(Take(v.data)) == CostOf(v.data) && Take(Take(v.data)) == Take(v.data)
    ensures RequestBytes(v.(data := Take(v.data)), limit) == RequestBytes(v, limit)
  {
  }

  /** The tags from `start` to before `next` share a MultiRequest, and the one behind them no longer fits in. */
  ghost predicate FullBatch(limit: nat, vs: seq<View>, start: nat, next: nat)
    requires start <= next <= |vs|
  {
    var cs := CostsIn(vs, start, next);
    && (cs != [] ==> Fits(limit, cs))
    && (next < |vs| ==> Usable(vs[next].data) && !Fits(limit, cs + [CostOf(vs[next].data)]))
  }

  /** What building leaves of a tag it has passed. */
  function Built(v: View): TagData {
    if Usable(v.data) then Take(v.data) else v.data
  }

  lemma {:induction false} OneMoreCost(cs: seq<Cost>, c: Cost)
    ensures Requests(cs + [c]) == Requests(cs) + c.req && Responses(cs + [c]) == Responses(cs) + c.resp
  {
    SumsOf(cs, [c]);
  }

  predicate SizesFit(limit: nat, count: nat, requestsSize: nat, responsesSize: nat) {
    MultiRequestSize(count, requestsSize) <= limit && MultiResponseSize(count, responsesSize) <= limit
  }

  /** The running sizes of the items packed before tag `at`; they fitted at every step. */
  ghost predicate Packed(count: nat, requestsSize: nat, responsesSize: nat, vs: seq<View>, start: nat, at: nat, limit: nat)
    requires start <= at <= |vs|
    decreases at
  {
    if at == start then count == requestsSize == responsesSize == 0
    else if !Usable(vs[at - 1].data) then Packed(count, requestsSize, responsesSize, vs, start, at - 1, limit)
    else
      var c := CostOf(vs[at - 1].data);
      && SizesFit(limit, count, requestsSize, responsesSize)
      && count > 0 && requestsSize >= c.req && responsesSize >= c.resp
      && Packed(count - 1, requestsSize - c.req, responsesSize - c.resp, vs, start, at - 1, limit)
  }

  lemma {:induction false} PackedMeans(count: nat, requestsSize: nat, responsesSize: nat,
                                       vs: seq<View>, start: nat, at: nat, limit: nat)
    requires start <= at <= |vs|
    requires Packed(count, requestsSize, responsesSize, vs, start, at, limit)
    ensures var cs := CostsIn(vs, start, at);
            && count == |cs| && requestsSize == Requests(cs) && responsesSize == Responses(cs)
            && (cs != [] ==> Fits(limit, cs))
    decreases at
  {
    if at > start {
      var d := vs[at - 1].data;
      if Usable(d) {
        var c := CostOf(d);
        PackedMeans(count - 1, requestsSize - c.req, responsesSize - c.resp, vs, start, at - 1, limit);
        OneMoreCost(CostsIn(vs, start, at - 1), c);
      } else {
        PackedMeans(count, requestsSize, responsesSize, vs, start, at - 1, limit);
        assert CostsIn(vs, start, at) == CostsIn(vs, start, at - 1);
      }
    }
  }

  /** A tag for which there is no room makes the batch full. */
  lemma {:induction false} PackedFull(count: nat, requestsSize: nat, responsesSize: nat,
                                      vs: seq<View>, start: nat, at: nat, limit: nat)
    requires start <= at <= |vs|
    requires Packed(count, requestsSize, responsesSize, vs, start, at, limit)
    requires at < |vs| ==>
               && Usable(vs[at].data)
               && var c := CostOf(vs[at].data);
                  !SizesFit(limit, count + 1, requestsSize + c.req, responsesSize + c.resp)
    ensures FullBatch(limit, vs, start, at)
  {
    PackedMeans(count, requestsSize, responsesSize, vs, start, at, limit);
    if at < |vs| {
      OneMoreCost(CostsIn(vs, start, at), CostOf(vs[at].data));
    }
  }

  /** A tag for which there was no room: taken all the same, and given back if it was the first. */
  function Stopped(v: View, first: bool): TagData {
    if first then GivenBack(v.data) else Take(v.data)
  }

  /** How a batch from `start` on leaves a tag found as `before`; it stopped at tag `next`. */
  function Rest(v: View, before: TagData, passed: bool, stopped: bool, first: bool): TagData {
    if passed then Built(v) else if stopped then Stopped(v, first) else before
  }

  /** The data of all tags once the walk has passed those from `a` to before `b`. */
  ghost function Passed(vs: seq<View>, before: seq<TagData>, a: nat, b: nat): (now: seq<TagData>)
    requires a <= b <= |vs| == |before|
    ensures |now| == |vs|
  {
    if a == b then before else Passed(vs, before, a, b - 1)[b - 1 := Built(vs[b - 1])]
  }

  lemma {:induction false} PassedAt(vs: seq<View>, before: seq<TagData>, a: nat, b: nat, k: nat)
    requires a <= b <= |vs| == |before| && k < |vs|
    ensures Passed(vs, before, a, b)[k] == if a <= k < b then Built(vs[k]) else before[k]
    decreases b
  {
    if a < b {
      PassedAt(vs, before, a, b - 1, k);
    }
  }

  ghost predicate DataAre(tags: seq<TagInfo>, ds: seq<TagData>)
    reads set t | t in tags
  {
    |ds| == |tags| && forall k :: 0 <= k < |tags| ==> tags[k].data == ds[k]
  }

  lemma {:induction false} OnlyAt(tags: seq<TagInfo>, at: nat)
    requires Distinct(tags) && at < |tags|
    ensures forall k :: 0 <= k < |tags| && k != at ==> tags[k] != tags[at]
  {
    DistinctMeans(tags);
  }

  /** The state of the walk before tag `at`. */
  ghost predicate WalkedSo(items: seq<Item>, requestsSize: nat, responsesSize: nat,
                           tags: seq<TagInfo>, vs: seq<View>, start: nat, at: nat, limit: nat)
    requires start <= at <= |vs| == |tags|
  {
    && ItemsIn(items, tags, vs, start, at, limit)
    && Packed(|items|, requestsSize, responsesSize, vs, start, at, limit)
  }

  lemma {:induction false} WalkedPast(items: seq<Item>, requestsSize: nat, responsesSize: nat,
                                      tags: seq<TagInfo>, vs: seq<View>, start: nat, at: nat, limit: nat)
    requires start <= at < |vs| == |tags| && !Usable(vs[at].data)
    requires WalkedSo(items, requestsSize, responsesSize, tags, vs, start, at, limit)
    ensures WalkedSo(items, requestsSize, responsesSize, tags, vs, start, at + 1, limit)
  {
  }

  lemma {:induction false} ItemsOver(items: seq<Item>, item: Item, tags: seq<TagInfo>, vs: seq<View>, start: nat, at: nat, limit: nat)
    requires start <= at < |vs| == |tags| && Usable(vs[at].data)
    requires ItemsIn(items, tags, vs, start, at, limit) && IsItem(item, tags[at], vs[at], limit)
    ensures ItemsIn(items + [item], tags, vs, start, at + 1, limit)
  {
    assert (items + [item])[..|items|] == items;
  }

  lemma {:induction false} PackedOver(count: nat, requestsSize: nat, responsesSize: nat, c: Cost, vs: seq<View>, start: nat, at: nat, limit: nat)
    requires start <= at < |vs| && Usable(vs[at].data) && c == CostOf(vs[at].data)
    requires Packed(count, requestsSize, responsesSize, vs, start, at, limit)
    requires SizesFit(limit, count + 1, requestsSize + c.req, responsesSize + c.resp)
    ensures Packed(count + 1, requestsSize + c.req, responsesSize + c.resp, vs, start, at + 1, limit)
  {
  }

  lemma {:induction false} WalkedOver(items: seq<Item>, requestsSize: nat, responsesSize: nat, item: Item, req: nat,
                                      tags: seq<TagInfo>, vs: seq<View>, start: nat, at: nat, limit: nat)
    requires start <= at < |vs| == |tags| && Usable(vs[at].data)
    requires WalkedSo(items, requestsSize, responsesSize, tags, vs, start, at, limit)
    requires IsItem(item, tags[at], vs[at], limit) && req == CostOf(vs[at].data).req
    requires SizesFit(limit, |items| + 1, requestsSize + req, responsesSize + item.responseSize)
    ensures WalkedSo(items + [item], requestsSize + req, responsesSize + item.responseSize, tags, vs, start, at + 1, limit)
  {
    ItemsOver(items, item, tags, vs, start, at, limit);
    PackedOver(|items|, requestsSize, responsesSize, CostOf(vs[at].data), vs, start, at, limit);
  }

  /** A usable tag offered to the batch: packed, or too much for what is left. */
  lemma {:induction false} Offered(items: seq<Item>, requestsSize: nat, responsesSize: nat, item: Item, req: nat,
                                   tags: seq<TagInfo>, vs: seq<View>, start: nat, at: nat, limit: nat)
    requires start <= at < |vs| == |tags| && Usable(vs[at].data)
    requires WalkedSo(items, requestsSize, responsesSize, tags, vs, start, at, limit)
    requires IsItem(item, tags[at], vs[at], limit) && req == CostOf(vs[at].data).req
    ensures if SizesFit(limit, |items| + 1, requestsSize + req, responsesSize + item.responseSize)
            then WalkedSo(items + [item], requestsSize + req, responsesSize + item.responseSize, tags, vs, start, at + 1, limit)
            else FullBatch(limit, vs, start, at)
  {
    if SizesFit(limit, |items| + 1, requestsSize + req, responsesSize + item.responseSize) {
      WalkedOver(items, requestsSize, responsesSize, item, req, tags, vs, start, at, limit);
    } else {
      PackedFull(|items|, requestsSize, responsesSize, vs, start, at, limit);
    }
  }

  /** One tag offered to the batch: skipped, packed, or too much for what is left. */
  method OfferTag(limit: nat, info: TagInfo, soFar: seq<Item>, requestsSize: nat, responsesSize: nat,
                  ghost tags: seq<TagInfo>, ghost vs: seq<View>, ghost start: nat, ghost at: nat)
    returns (full: bool, items: seq<Item>, req: nat, resp: nat)
    requires start <= at < |vs| == |tags|
    requires WalkedSo(soFar, requestsSize, responsesSize, tags, vs, start, at, limit)
    requires tags[at] == info && Waits(info, vs[at])
    modifies info`data
    ensures if full then items == soFar && req == requestsSize && resp == responsesSize && FullBatch(limit, vs, start, at)
            else WalkedSo(items, req, resp, tags, vs, start, at + 1, limit)
    ensures info.data == if full then Stopped(vs[at], items == []) else Built(vs[at])
  {
    full, items, req, resp := false, soFar, requestsSize, responsesSize;
    if !Usable(info.data) {
      WalkedPast(soFar, requestsSize, responsesSize, tags, vs, start, at, limit);
      return;
    }
    var item, size := BuildOne(info, limit, vs[at]);
    Offered(soFar, requestsSize, responsesSize, item, size, tags, vs, start, at, limit);
    if SizesFit(limit, |items| + 1, requestsSize + size, responsesSize + item.responseSize) {
      req, resp := requestsSize + size, responsesSize + item.responseSize;
      items := items + [item];
    } else {
      full := true;
      if items == [] && item.writing {
        info.data := info.data.(isWriting := false);
      }
    }
  }

  /** The data of all tags once a walk has stopped before, or at, tag `at`. */
  ghost function WalkedTo(vs: seq<View>, before: seq<TagData>, start: nat, at: nat, full: bool, first: bool): (now: seq<TagData>)
    requires start <= at <= |vs| == |before| && (full ==> at < |vs|)
    ensures |now| == |vs|
  {
    var passed := Passed(vs, before, start, at);
    if full then passed[at := Stopped(vs[at], first)] else passed
  }

  lemma {:induction false} WalkedAt(vs: seq<View>, before: seq<TagData>, start: nat, at: nat, full: bool, first: bool, k: nat)
    requires start <= at <= |vs| == |before| && (full ==> at < |vs|) && (!full ==> at == |vs|) && k < |vs|
    ensures WalkedTo(vs, before, start, at, full, first)[k] == Rest(vs[k], before[k], start <= k < at, k == at, first)
  {
    PassedAt(vs, before, start, at, k);
  }

  /** Takes tags from `start` on until one is too much or the list ends. */
  method Walk(limit: nat, tags: seq<TagInfo>, start: nat, ghost vs: seq<View>, ghost before: seq<TagData>)
    returns (items: seq<Item>, next: nat, full: bool)
    requires start <= |tags| && Distinct(tags) && Waiting(tags, vs, start) && DataAre(tags, before)
    modifies (set t | t in tags)`data
    ensures start <= next <= |tags| && ItemsIn(items, tags, vs, start, next, limit)
    ensures FullBatch(limit, vs, start, next) && full == (next < |tags|)
    ensures DataAre(tags, WalkedTo(vs, before, start, next, full, items == []))
  {
    items, full, next := [], false, start;
    var requestsSize: nat, responsesSize: nat := 0, 0;
    while next < |tags|
      invariant start <= next <= |tags|
      invariant Packed(|items|, requestsSize, responsesSize, vs, start, next, limit)
      invariant ItemsIn(items, tags, vs, start, next, limit)
      invariant DataAre(tags, Passed(vs, before, start, next))
    {
      OnlyAt(tags, next);
      PassedAt(vs, before, start, next, next);
      full, items, requestsSize, responsesSize :=
        OfferTag(limit, tags[next], items, requestsSize, responsesSize, tags, vs, start, next);
      if full {
        return;
      }
      next := next + 1;
    }
    PackedFull(|items|, requestsSize, responsesSize, vs, start, next, limit);
  }

  /** The parts of a tag that no pass changes. */
  datatype Part = Part(path: Path, elements: nat, listeners: seq<Listener>)

  ghost function PartsOf(tags: seq<TagInfo>): (ps: seq<Part>)
    reads (set t | t in tags)`elements, (set t | t in tags)`listeners
    ensures |ps| == |tags|
  {
    if tags == [] then [] else [Part(tags[0].path, tags[0].elements, tags[0].listeners)] + PartsOf(tags[1..])
  }

  ghost function PartsIn(vs: seq<View>): (ps: seq<Part>)
    ensures |ps| == |vs|
  {
    if vs == [] then [] else [Part(vs[0].path, vs[0].elements, vs[0].listeners)] + PartsIn(vs[1..])
  }

  ghost predicate Fixed(tags: seq<TagInfo>, vs: seq<View>)
    reads (set t | t in tags)`elements, (set t | t in tags)`listeners
  {
    PartsOf(tags) == PartsIn(vs)
  }

  lemma {:induction false} FixedAt(tags: seq<TagInfo>, vs: seq<View>, k: nat)
    requires Fixed(tags, vs) && k < |tags|
    ensures |tags| == |vs|
    ensures tags[k].path == vs[k].path && tags[k].elements == vs[k].elements && tags[k].listeners == vs[k].listeners
  {
    assert |PartsOf(tags)| == |PartsIn(vs)|;
    assert Part(tags[0].path, tags[0].elements, tags[0].listeners) == PartsOf(tags)[0];
    assert Part(vs[0].path, vs[0].elements, vs[0].listeners) == PartsIn(vs)[0];
    if k > 0 {
      assert PartsOf(tags)[1..] == PartsOf(tags[1..]) && PartsIn(vs)[1..] == PartsIn(vs[1..]);
      FixedAt(tags[1..], vs[1..], k - 1);
    }
  }

  /** Each listener is bound once to its tag, and all are among `ls`. */
  ghost predicate Bound(vs: seq<View>, ls: set<Listener>) {
    vs == [] || (Distinct(vs[0].listeners) && (forall l :: l in vs[0].listeners ==> l in ls) && Bound(vs[1..], ls))
  }

  lemma {:induction false} BoundAt(vs: seq<View>, ls: set<Listener>, k: nat)
    requires Bound(vs, ls) && k < |vs|
    ensures Distinct(vs[k].listeners) && forall l :: l in vs[k].listeners ==> l in ls
    decreases |vs|
  {
    if k > 0 {
      BoundAt(vs[1..], ls, k - 1);
    }
  }

  lemma {:induction false} FixedAll(tags: seq<TagInfo>, vs: seq<View>, ls: set<Listener>)
    requires Fixed(tags, vs) && Bound(vs, ls)
    ensures forall t :: t in tags ==> Distinct(t.listeners) && forall l :: l in t.listeners ==> l in ls
  {
    forall t | t in tags
      ensures Distinct(t.listeners) && forall l :: l in t.listeners ==> l in ls
    {
      var k :| 0 <= k < |tags| && tags[k] == t;
      FixedAt(tags, vs, k);
      BoundAt(vs, ls, k);
    }
  }

  // ---------------------------------------------------------------------------
  // Handing the replies out
  // ---------------------------------------------------------------------------

  ghost predicate Separate(items: seq<Item>)
    reads set i | i in items :: i.info
  {
    && (forall i, j :: 0 <= i < j < |items| ==> items[i].info != items[j].info)
    && (forall i :: 0 <= i < |items| ==> Distinct(items[i].info.listeners))
  }

  /** Hands a failed transfer's writes back, without sending them again. */
  method ReleaseWrites(items: seq<Item>)
    requires Separate(items)
    modifies (set i | i in items :: i.info)`data
    ensures forall i :: 0 <= i < |items| ==> items[i].info.data == Release(old(items[i].info.data), items[i].writing)
  {
    for n := 0 to |items|
      invariant forall i :: 0 <= i < n ==> items[i].info.data == Release(old(items[i].info.data), items[i].writing)
      invariant forall i :: n <= i < |items| ==> items[i].info.data == old(items[i].info.data)
    {
      if items[n].writing {
        items[n].info.data := items[n].info.data.(isWriting := false);
      }
    }
  }

  /** A tag of a batch so many of whose replies have been handed out. */
  function SoFar(d: TagData, writing: bool, replies: seq<seq<byte>>, i: nat): TagData {
    if i < |replies| then Apply(d, writing, replies[i]) else d
  }

  /** A tag after its transfer: its reply applied, or its write given back when there was none. */
  function Settled(d: TagData, writing: bool, replies: seq<seq<byte>>, i: nat): TagData {
    if i < |replies| then Apply(d, writing, replies[i]) else Release(d, writing)
  }

  /** The leading sub-replies of a reply. */
  ghost predicate RepliesIn(response: seq<byte>, replies: seq<seq<byte>>) {
    forall i :: 0 <= i < |replies| ==> SubReply(response, i) == Some(replies[i])
  }

  lemma {:induction false} RepliesNext(response: seq<byte>, replies: seq<seq<byte>>, reply: seq<byte>)
    requires RepliesIn(response, replies) && SubReply(response, |replies|) == Some(reply)
    ensures RepliesIn(response, replies + [reply])
  {
  }

  method ApplyReply(info: TagInfo, writing: bool, reply: seq<byte>)
    requires Distinct(info.listeners)
    modifies info`data, info`transfers, set l | l in info.listeners
    ensures info.data == Apply(old(info.data), writing, reply) && info.transfers == old(info.transfers) + 1
    ensures forall l :: l in info.listeners ==>
              && l.told == old(l.told) + Reaction(old(l.writeDone), l.onTransfer)
              && l.writeDone == None
  {
    info.data := Apply(info.data, writing, reply);
    info.Notify();
  }

  /** Sub-replies handed out in order up to the first missing one. */
  method HandOut(items: seq<Item>, response: seq<byte>) returns (ok: bool, ghost replies: seq<seq<byte>>)
    requires Separate(items)
    modifies (set i | i in items :: i.info)`data, (set i | i in items :: i.info)`transfers
    modifies set i, l | i in items && l in i.info.listeners :: l
    ensures |replies| <= |items| && ok == (|replies| == |items|) && RepliesIn(response, replies)
    ensures !ok ==> SubReply(response, |replies|).None?
    ensures forall i :: 0 <= i < |items| ==>
              && items[i].info.data == SoFar(old(items[i].info.data), items[i].writing, replies, i)
              && items[i].info.transfers == old(items[i].info.transfers) + if i < |replies| then 1 else 0
  {
    replies := [];
    ok := true;
    var n := 0;
    while n < |items| && ok
      invariant n == |replies| <= |items| && RepliesIn(response, replies)
      invariant !ok ==> n < |items| && SubReply(response, n).None?
      invariant forall i :: 0 <= i < n ==>
                  && items[i].info.data == Apply(old(items[i].info.data), items[i].writing, replies[i])
                  && items[i].info.transfers == old(items[i].info.transfers) + 1
      invariant forall i :: n <= i < |items| ==>
                  && items[i].info.data == old(items[i].info.data)
                  && items[i].info.transfers == old(items[i].info.transfers)
      decreases |items| - n, ok
    {
      var sub := SubReply(response, n);
      if sub.None? {
        ok := false;
      } else {
        ApplyReply(items[n].info, items[n].writing, sub.value);
        RepliesNext(response, replies, sub.value);
        replies := replies + [sub.value];
        n := n + 1;
      }
    }
  }

  lemma {:induction false} ReleasedOnce(d: TagData, writing: bool, replies: seq<seq<byte>>, i: nat)
    ensures Release(SoFar(d, writing, replies, i), writing) == Settled(d, writing, replies, i)
  {
  }

  /** The replies handed out; the writes left without one are given back. */
  method ApplyAll(items: seq<Item>, response: seq<byte>) returns (ok: bool, ghost replies: seq<seq<byte>>)
    requires Separate(items)
    modifies (set i | i in items :: i.info)`data, (set i | i in items :: i.info)`transfers
    modifies set i, l | i in items && l in i.info.listeners :: l
    ensures |replies| <= |items| && ok == (|replies| == |items|) && RepliesIn(response, replies)
    ensures !ok ==> SubReply(response, |replies|).None?
    ensures forall i :: 0 <= i < |items| ==>
              && items[i].info.data == Settled(old(items[i].info.data), items[i].writing, replies, i)
              && items[i].info.transfers == old(items[i].info.transfers) + if i < |replies| then 1 else 0
  {
    ok, replies := HandOut(items, response);
    if !ok {
      ReleaseWrites(items);
      forall i | 0 <= i < |items| {
        ReleasedOnce(old(items[i].info.data), items[i].writing, replies, i);
      }
    }
  }

  // ---------------------------------------------------------------------------
  // One transfer
  // ---------------------------------------------------------------------------

  function Sent(items: seq<Item>): (rs: seq<seq<byte>>)
    ensures |rs| == |items|
  {
    if items == [] then [] else Sent(items[..|items| - 1]) + [items[|items| - 1].request]
  }

  method CollectRequests(items: seq<Item>) returns (requests: seq<seq<byte>>)
    ensures requests == Sent(items)
  {
    requests := [];
    for i := 0 to |items|
      invariant requests == Sent(items[..i])
    {
      assert items[..i + 1][..i] == items[..i];
      requests := requests + [items[i].request];
    }
    assert items[..|items|] == items;
  }

  /** Whether a message passes the size checks of a routed send. */
  predicate Sendable(message: seq<byte>, limit: nat) {
    UnconnectedSendSize(|message|) <= limit && RRDATA_SIZE + UnconnectedSendSize(|message|) <= BUFFER_SIZE
  }

  /** What comes back for a routed message, told from what is on the stream. */
  function RoutedReply(message: seq<byte>, limit: nat, writable: bool, script: seq<Event>, id: seq<byte>)
    : Result<seq<byte>, EipError>
  {
    var size := UnconnectedSendSize(|message|);
    if size > limit then Err(TooLarge(size, limit)) else Answered(Transacted(RRDATA_SIZE + size, writable, script), id)
  }

  /** The batch sent; None for a reply that is missing or refused. */
  method SendBatch(c: Connection, items: seq<Item>) returns (r: Option<seq<byte>>)
    requires c.ids.Valid()
    modifies c.stream, c.ids
    ensures c.ids.Valid() && c.stream.writable == old(c.stream.writable)
    ensures var message, id := MultiRequestBytes(Sent(items)), IdOf(old(c.ids.next));
            var reply := RoutedReply(message, c.bufferLimit, old(c.stream.writable), old(c.stream.script), id);
            && r == (if reply.Ok? && GoodMultiReply(reply.value) then Some(reply.value) else None)
            && c.stream.written
            == (if Sendable(message, c.bufferLimit) && old(c.stream.writable)
                then old(c.stream.written) + [RoutedFrame(c.session, id, message, c.slot)] else old(c.stream.written))
            && c.ids.next
            == (if UnconnectedSendSize(|message|) <= c.bufferLimit then NextId(old(c.ids.next)) else old(c.ids.next))
  {
    var requests := CollectRequests(items);
    var multi := new Vec();
    EncodeMultiRequest(requests, multi);
    assert multi.bytes == MultiRequestBytes(Sent(items));
    var reply := c.SendRouted(multi.bytes);
    r := if reply.Ok? && GoodMultiReply(reply.value) then Some(reply.value) else None;
  }

  /** What one batch does to the stream and the transaction ids. */
  twostate predicate Streamed(c: Connection, message: seq<byte>, response: seq<byte>, answered: bool, ok: bool)
    reads c, c.stream, c.ids
    requires old(c.ids.Valid())
  {
    var id := IdOf(old(c.ids.next));
    && c.ids.Valid() && c.stream.writable == old(c.stream.writable)
    && (answered ==>
          RoutedReply(message, c.bufferLimit, old(c.stream.writable), old(c.stream.script), id) == Ok(response)
          && GoodMultiReply(response))
    && c.stream.written
    == (if Sendable(message, c.bufferLimit) && old(c.stream.writable)
        then old(c.stream.written) + [RoutedFrame(c.session, id, message, c.slot)] else old(c.stream.written))
    && (ok ==> c.ids.next == NextId(old(c.ids.next)))
  }

  /** One batch sent and its replies handed out; after any failure its remaining writes are given back. */
  method Transfer(c: Connection, items: seq<Item>) returns (ok: bool, ghost response: seq<byte>, ghost replies: seq<seq<byte>>)
    requires c.ids.Valid() && Separate(items) && items != []
    modifies c.stream, c.ids
    modifies (set i | i in items :: i.info)`data, (set i | i in items :: i.info)`transfers
    modifies set i, l | i in items && l in i.info.listeners :: l
    ensures Streamed(c, MultiRequestBytes(Sent(items)), response, replies != [], ok)
    ensures |replies| <= |items| && ok == (|replies| == |items|) && RepliesIn(response, replies)
    ensures forall i :: 0 <= i < |items| ==>
              && items[i].info.data == Settled(old(items[i].info.data), items[i].writing, replies, i)
              && items[i].info.transfers == old(items[i].info.transfers) + if i < |replies| then 1 else 0
  {
    var reply := SendBatch(c, items);
    if reply.None? {
      ReleaseWrites(items);
      return false, [], [];
    }
    response := reply.value;
    ok, replies := ApplyAll(items, reply.value);
  }

  // ---------------------------------------------------------------------------
  // From the items of a batch back to the tags of the list
  // ---------------------------------------------------------------------------

  /** How many usable tags from `a` on come before tag `k`: its place in the batch that starts at `a`. */
  function Rank(vs: seq<View>, a: nat, k: nat): (n: nat)
    requires a <= k <= |vs|
  {
    if a == k then 0 else Rank(vs, a, k - 1) + if Usable(vs[k - 1].data) then 1 else 0
  }

  lemma {:induction false} RankIsCount(vs: seq<View>, a: nat, b: nat)
    requires a <= b <= |vs|
    ensures Rank(vs, a, b) == |Members(vs, a, b)|
    decreases b
  {
    if a < b {
      RankIsCount(vs, a, b - 1);
    }
  }

  lemma {:induction false} RankGrows(vs: seq<View>, a: nat, j: nat, k: nat)
    requires a <= j <= k <= |vs|
    ensures Rank(vs, a, j) <= Rank(vs, a, k)
    ensures j < k && Usable(vs[j].data) ==> Rank(vs, a, j) < Rank(vs, a, k)
    decreases k
  {
    if j < k {
      RankGrows(vs, a, j, k - 1);
    }
  }

  /** The item of a usable tag. */
  lemma {:induction false} ItemOf(items: seq<Item>, tags: seq<TagInfo>, vs: seq<View>, a: nat, b: nat, limit: nat, k: nat)
    requires a <= k < b <= |vs| == |tags| && Usable(vs[k].data)
    requires ItemsIn(items, tags, vs, a, b, limit)
    ensures Rank(vs, a, k) < |items| && IsItem(items[Rank(vs, a, k)], tags[k], vs[k], limit)
    decreases b
  {
    ItemCount(items, tags, vs, a, b, limit);
    RankGrows(vs, a, k, b);
    if k < b - 1 {
      if Usable(vs[b - 1].data) {
        ItemOf(items[..|items| - 1], tags, vs, a, b - 1, limit, k);
      } else {
        ItemOf(items, tags, vs, a, b - 1, limit, k);
      }
    }
  }

  lemma {:induction false} ItemCount(items: seq<Item>, tags: seq<TagInfo>, vs: seq<View>, a: nat, b: nat, limit: nat)
    requires a <= b <= |vs| == |tags| && ItemsIn(items, tags, vs, a, b, limit)
    ensures |items| == Rank(vs, a, b)
    decreases b
  {
    if a < b {
      ItemCount(if Usable(vs[b - 1].data) then items[..|items| - 1] else items, tags, vs, a, b - 1, limit);
    }
  }

  /** The tag of an item. */
  lemma {:induction false} OwnerOf(items: seq<Item>, tags: seq<TagInfo>, vs: seq<View>, a: nat, b: nat, limit: nat, i: nat)
    returns (k: nat)
    requires a <= b <= |vs| == |tags| && i < |items|
    requires ItemsIn(items, tags, vs, a, b, limit)
    ensures a <= k < b && Usable(vs[k].data) && Rank(vs, a, k) == i && IsItem(items[i], tags[k], vs[k], limit)
    decreases b
  {
    ItemCount(items, tags, vs, a, b, limit);
    if !Usable(vs[b - 1].data) {
      k := OwnerOf(items, tags, vs, a, b - 1, limit, i);
    } else if i == |items| - 1 {
      k := b - 1;
    } else {
      k := OwnerOf(items[..|items| - 1], tags, vs, a, b - 1, limit, i);
    }
  }

  lemma {:induction false} EmptyBatch(items: seq<Item>, tags: seq<TagInfo>, vs: seq<View>, a: nat, b: nat, limit: nat)
    requires a <= b <= |vs| == |tags| && ItemsIn(items, tags, vs, a, b, limit)
    ensures items == [] <==> CostsIn(vs, a, b) == []
    ensures |items| == Rank(vs, a, b)
  {
    ItemCount(items, tags, vs, a, b, limit);
    RankIsCount(vs, a, b);
  }

  lemma {:induction false} SentIs(items: seq<Item>, tags: seq<TagInfo>, vs: seq<View>, a: nat, b: nat, limit: nat)
    requires a <= b <= |vs| == |tags| && ItemsIn(items, tags, vs, a, b, limit)
    ensures Sent(items) == RequestsIn(vs, a, b, limit)
    decreases b
  {
    if a < b {
      if Usable(vs[b - 1].data) {
        SentIs(items[..|items| - 1], tags, vs, a, b - 1, limit);
      } else {
        SentIs(items, tags, vs, a, b - 1, limit);
        assert RequestsIn(vs, a, b, limit) == RequestsIn(vs, a, b - 1, limit);
      }
    }
  }

  /** Distinct tags have separate items, all of them in the list. */
  lemma {:induction false} ItemsSeparate(items: seq<Item>, tags: seq<TagInfo>, vs: seq<View>, a: nat, b: nat, limit: nat)
    requires a <= b <= |vs| == |tags| && ItemsIn(items, tags, vs, a, b, limit)
    requires Distinct(tags) && forall t :: t in tags ==> Distinct(t.listeners)
    ensures Separate(items)
    ensures forall i :: 0 <= i < |items| ==> items[i].info in tags
  {
    DistinctMeans(tags);
    forall i | 0 <= i < |items|
      ensures items[i].info in tags
    {
      var k := OwnerOf(items, tags, vs, a, b, limit, i);
    }
    forall i, j | 0 <= i < j < |items|
      ensures items[i].info != items[j].info
    {
      var k := OwnerOf(items, tags, vs, a, b, limit, i);
      var l := OwnerOf(items, tags, vs, a, b, limit, j);
    }
  }

  /** A tag outside a batch has no item in it. */
  lemma {:induction false} NotAnItem(items: seq<Item>, tags: seq<TagInfo>, vs: seq<View>, a: nat, b: nat, limit: nat, k: nat)
    requires a <= b <= |vs| == |tags| && ItemsIn(items, tags, vs, a, b, limit) && Distinct(tags)
    requires k < |tags| && !(a <= k < b && Usable(vs[k].data))
    ensures forall i :: 0 <= i < |items| ==> items[i].info != tags[k]
  {
    DistinctMeans(tags);
    forall i | 0 <= i < |items|
      ensures items[i].info != tags[k]
    {
      var l := OwnerOf(items, tags, vs, a, b, limit, i);
    }
  }

  /** A tag after the transfer of its batch: `place` is its place in the batch. */
  function AfterTransfer(v: View, before: TagData, inBatch: bool, place: nat, replies: seq<seq<byte>>): TagData {
    if inBatch && Usable(v.data) then Settled(Take(v.data), Take(v.data).isWriting, replies, place) else before
  }

  function RankIn(vs: seq<View>, a: nat, k: nat): nat {
    if a <= k <= |vs| then Rank(vs, a, k) else 0
  }

  // ---------------------------------------------------------------------------
  // The pass
  // ---------------------------------------------------------------------------

  /** One batch sent: its range of the list, what was on the stream, and the sub-replies handed out. */
  datatype Round = Round(from: nat, to: nat, id: nat, script: seq<Event>, response: seq<byte>, replies: seq<seq<byte>>)

  function Message(vs: seq<View>, r: Round, limit: nat): seq<byte>
    requires r.from <= r.to <= |vs|
  {
    MultiRequestBytes(RequestsIn(vs, r.from, r.to, limit))
  }

  /** A batch of at least one tag, as full as the limit allows. */
  ghost predicate Batched(limit: nat, vs: seq<View>, from: nat, to: nat) {
    from < to <= |vs| && CostsIn(vs, from, to) != [] && FullBatch(limit, vs, from, to)
  }

  /** Every tag of the batch has got its sub-reply of a good reply to this very message. */
  ghost predicate Answers(limit: nat, writable: bool, vs: seq<View>, r: Round)
    requires r.from <= r.to <= |vs| && r.id < 0x1_0000_0000
  {
    && RoutedReply(Message(vs, r, limit), limit, writable, r.script, IdOf(r.id)) == Ok(r.response)
    && GoodMultiReply(r.response) && RepliesIn(r.response, r.replies)
    && |r.replies| == Rank(vs, r.from, r.to)
  }

  /** A round that goes on where these ended, under the transaction id whose turn it is. */
  ghost predicate Follows(limit: nat, writable: bool, vs: seq<View>, rounds: seq<Round>, r: Round, id: nat)
    decreases |rounds|, 1
  {
    && EndOfRounds(limit, writable, vs, rounds, id) == Some(r.from)
    && r.id == IdAfter(id, |rounds|) < 0x1_0000_0000
    && Batched(limit, vs, r.from, r.to) && Answers(limit, writable, vs, r)
  }

  /** How far these rounds get, batch after batch, each one answered; None for any other rounds. */
  ghost function EndOfRounds(limit: nat, writable: bool, vs: seq<View>, rounds: seq<Round>, id: nat): Option<nat>
    decreases |rounds|, 0
  {
    if rounds == [] then Some(0)
    else
      var n := |rounds|;
      if Follows(limit, writable, vs, rounds[..n - 1], rounds[n - 1], id) then Some(rounds[n - 1].to) else None
  }

  /** The rounds of a pass up to tag `start`. */
  ghost predicate Rounds(limit: nat, writable: bool, vs: seq<View>, rounds: seq<Round>, start: nat, id: nat) {
    EndOfRounds(limit, writable, vs, rounds, id) == Some(start)
  }

  /** A tag after a round: settled when it was in the batch, taken when the batch stopped at it. */
  function AfterRound(v: View, before: TagData, k: nat, r: Round, place: nat): TagData {
    if k == r.to then Take(v.data) else AfterTransfer(v, before, r.from <= k < r.to, place, r.replies)
  }

  /** Tag `k` after these rounds. */
  function AfterRounds(vs: seq<View>, rounds: seq<Round>, k: nat): TagData
    requires k < |vs|
  {
    if rounds == [] then vs[k].data
    else
      var n := |rounds|;
      var r := rounds[n - 1];
      AfterRound(vs[k], AfterRounds(vs, rounds[..n - 1], k), k, r, RankIn(vs, r.from, k))
  }

  /** How often a round notifies the records of tag `k`: once when its reply is among those handed out. */
  function ToldIn(vs: seq<View>, r: Round, k: nat): nat {
    if r.from <= k < r.to <= |vs| && Usable(vs[k].data) && Rank(vs, r.from, k) < |r.replies| then 1 else 0
  }

  function ToldBy(vs: seq<View>, rounds: seq<Round>, k: nat): nat {
    if rounds == [] then 0 else ToldBy(vs, rounds[..|rounds| - 1], k) + ToldIn(vs, rounds[|rounds| - 1], k)
  }

  lemma {:induction false} ToldNext(vs: seq<View>, rounds: seq<Round>, r: Round, k: nat)
    ensures ToldBy(vs, rounds + [r], k) == ToldBy(vs, rounds, k) + ToldIn(vs, r, k)
  {
    assert (rounds + [r])[..|rounds|] == rounds;
  }

  /** The frames these rounds put on the stream. */
  function Frames(session: nat, slot: byte, limit: nat, vs: seq<View>, rounds: seq<Round>): seq<seq<byte>> {
    if rounds == [] then []
    else
      var n := |rounds|;
      Frames(session, slot, limit, vs, rounds[..n - 1]) + [FrameOf(session, slot, limit, vs, rounds[n - 1])]
  }

  function FrameOf(session: nat, slot: byte, limit: nat, vs: seq<View>, r: Round): seq<byte> {
    if r.from <= r.to <= |vs| && r.id < 0x1_0000_0000
    then RoutedFrame(session, IdOf(r.id), Message(vs, r, limit), slot) else []
  }

  lemma {:induction false} RoundsNext(limit: nat, writable: bool, vs: seq<View>, rounds: seq<Round>, id: nat, r: Round)
    requires Follows(limit, writable, vs, rounds, r, id)
    ensures Rounds(limit, writable, vs, rounds + [r], r.to, id)
  {
    var all := rounds + [r];
    assert all[..|all| - 1] == rounds && all[|all| - 1] == r;
  }

  lemma {:induction false} FramesNext(session: nat, slot: byte, limit: nat, vs: seq<View>, rounds: seq<Round>, r: Round)
    ensures Frames(session, slot, limit, vs, rounds + [r])
         == Frames(session, slot, limit, vs, rounds) + [FrameOf(session, slot, limit, vs, r)]
  {
    assert (rounds + [r])[..|rounds|] == rounds;
  }

  /** Building a batch and transferring it takes every tag one round further. */
  lemma {:induction false} AfterNext(vs: seq<View>, rounds: seq<Round>, r: Round, k: nat, before: TagData)
    requires k < |vs| && before == AfterRounds(vs, rounds, k)
    requires r.from <= k < r.to && !Usable(vs[k].data) ==> before == vs[k].data
    ensures AfterRounds(vs, rounds + [r], k)
         == AfterTransfer(vs[k], Rest(vs[k], before, r.from <= k < r.to, k == r.to, false),
                          r.from <= k < r.to, RankIn(vs, r.from, k), r.replies)
  {
    assert (rounds + [r])[..|rounds|] == rounds;
  }

  /** What a pass changes of a tag: its data, and how often its records have been notified. */
  datatype TagState = TagState(data: TagData, transfers: nat)

  ghost function States(tags: seq<TagInfo>): (ss: seq<TagState>)
    reads (set t | t in tags)`data, (set t | t in tags)`transfers
    ensures |ss| == |tags|
  {
    if tags == [] then [] else [TagState(tags[0].data, tags[0].transfers)] + States(tags[1..])
  }

  lemma {:induction false} StateAt(tags: seq<TagInfo>, k: nat)
    requires k < |tags|
    ensures States(tags)[k] == TagState(tags[k].data, tags[k].transfers)
  {
    if k > 0 {
      StateAt(tags[1..], k - 1);
    }
  }

  /** The states so many rounds leave, */
  ghost function AfterAll(vs: seq<View>, rounds: seq<Round>): (ss: seq<TagState>)
    ensures |ss| == |vs|
  {
    seq(|vs|, k requires 0 <= k < |vs| => TagState(AfterRounds(vs, rounds, k), vs[k].transfers + ToldBy(vs, rounds, k)))
  }

  /** and with the next batch built; `empty` when not even its first tag fits. */
  ghost function BuiltAll(vs: seq<View>, rounds: seq<Round>, start: nat, next: nat, empty: bool): (ss: seq<TagState>)
    ensures |ss| == |vs|
  {
    seq(|vs|, k requires 0 <= k < |vs| =>
      TagState(Rest(vs[k], AfterRounds(vs, rounds, k), start <= k < next, k == next, empty),
               vs[k].transfers + ToldBy(vs, rounds, k)))
  }

  /** The tags as so many rounds have left them, */
  ghost predicate Stand(tags: seq<TagInfo>, vs: seq<View>, rounds: seq<Round>)
    reads (set t | t in tags)`data, (set t | t in tags)`transfers
  {
    States(tags) == AfterAll(vs, rounds)
  }

  /** and with the next batch built. */
  ghost predicate StandBuilt(tags: seq<TagInfo>, vs: seq<View>, rounds: seq<Round>, start: nat, next: nat, empty: bool)
    reads (set t | t in tags)`data, (set t | t in tags)`transfers
  {
    States(tags) == BuiltAll(vs, rounds, start, next, empty)
  }

  lemma {:induction false} SameStates(tags: seq<TagInfo>, ss: seq<TagState>)
    requires |tags| == |ss|
    ensures States(tags) == ss <==> forall k :: 0 <= k < |tags| ==> tags[k].data == ss[k].data && tags[k].transfers == ss[k].transfers
  {
    var now := States(tags);
    forall k | 0 <= k < |tags|
      ensures now[k] == TagState(tags[k].data, tags[k].transfers)
    {
      StateAt(tags, k);
    }
    if forall k :: 0 <= k < |tags| ==> tags[k].data == ss[k].data && tags[k].transfers == ss[k].transfers {
      assert forall k :: 0 <= k < |tags| ==> now[k] == ss[k];
    }
  }

  lemma {:induction false} StandMeans(tags: seq<TagInfo>, vs: seq<View>, rounds: seq<Round>)
    requires |tags| == |vs|
    ensures Stand(tags, vs, rounds)
       <==> forall k :: 0 <= k < |tags| ==>
              && tags[k].data == AfterRounds(vs, rounds, k)
              && tags[k].transfers == vs[k].transfers + ToldBy(vs, rounds, k)
  {
    SameStates(tags, AfterAll(vs, rounds));
  }

  lemma {:induction false} StandBuiltMeans(tags: seq<TagInfo>, vs: seq<View>, rounds: seq<Round>, start: nat, next: nat, empty: bool)
    requires |tags| == |vs|
    ensures StandBuilt(tags, vs, rounds, start, next, empty)
       <==> forall k :: 0 <= k < |tags| ==>
              && tags[k].data == Rest(vs[k], AfterRounds(vs, rounds, k), start <= k < next, k == next, empty)
              && tags[k].transfers == vs[k].transfers + ToldBy(vs, rounds, k)
  {
    SameStates(tags, BuiltAll(vs, rounds, start, next, empty));
  }

  /** All rounds but the last, and where its batch stopped. */
  lemma {:induction false} RoundsBack(limit: nat, writable: bool, vs: seq<View>, rounds: seq<Round>, start: nat, id: nat)
    requires Rounds(limit, writable, vs, rounds, start, id) && rounds != []
    ensures var r := rounds[|rounds| - 1];
            && r.from < r.to == start <= |vs| && (start < |vs| ==> Usable(vs[start].data))
            && |r.replies| == Rank(vs, r.from, r.to)
            && Rounds(limit, writable, vs, rounds[..|rounds| - 1], r.from, id)
  {
    assert Follows(limit, writable, vs, rounds[..|rounds| - 1], rounds[|rounds| - 1], id);
  }

  /** Behind the last batch every tag is as it was, but for the one it stopped at, which is taken. */
  lemma {:induction false} BehindRounds(limit: nat, writable: bool, vs: seq<View>, rounds: seq<Round>, start: nat, id: nat, k: nat)
    requires Rounds(limit, writable, vs, rounds, start, id) && start <= k < |vs|
    ensures Current(AfterRounds(vs, rounds, k), vs[k])
    ensures k > start || rounds == [] ==> AfterRounds(vs, rounds, k) == vs[k].data
    decreases |rounds|
  {
    if rounds != [] {
      var n := |rounds|;
      RoundsBack(limit, writable, vs, rounds, start, id);
      BehindRounds(limit, writable, vs, rounds[..n - 1], rounds[n - 1].from, id, k);
    }
  }

  lemma {:induction false} ReplyIsSendable(limit: nat, writable: bool, message: seq<byte>, script: seq<Event>, id: seq<byte>)
    requires RoutedReply(message, limit, writable, script, id).Ok?
    ensures Sendable(message, limit) && writable
  {
  }

  lemma {:induction false} UnusableUntouched(limit: nat, writable: bool, vs: seq<View>, rounds: seq<Round>, start: nat, next: nat, id: nat)
    requires Rounds(limit, writable, vs, rounds, start, id) && next <= |vs|
    ensures forall k :: start <= k < next ==> Usable(vs[k].data) || AfterRounds(vs, rounds, k) == vs[k].data
  {
    forall k | start <= k < next
      ensures Usable(vs[k].data) || AfterRounds(vs, rounds, k) == vs[k].data
    {
      BehindRounds(limit, writable, vs, rounds, start, id, k);
    }
  }

  lemma {:induction false} RoundAnswered(limit: nat, writable: bool, vs: seq<View>, rounds: seq<Round>, id: nat, r: Round)
    requires Rounds(limit, writable, vs, rounds, r.from, id)
    requires r.id == IdAfter(id, |rounds|) < 0x1_0000_0000
    requires Batched(limit, vs, r.from, r.to)
    requires RoutedReply(Message(vs, r, limit), limit, writable, r.script, IdOf(r.id)) == Ok(r.response)
    requires GoodMultiReply(r.response) && RepliesIn(r.response, r.replies) && |r.replies| == Rank(vs, r.from, r.to)
    ensures Rounds(limit, writable, vs, rounds + [r], r.to, id)
    ensures Sendable(Message(vs, r, limit), limit) && writable
  {
    RoundsNext(limit, writable, vs, rounds, id, r);
    ReplyIsSendable(limit, writable, Message(vs, r, limit), r.script, IdOf(r.id));
  }

  /** The batch built from tag `start` to before `next` transferred: its tags settled, all others left alone. */
  method TransferTags(c: Connection, items: seq<Item>, ghost tags: seq<TagInfo>, ghost vs: seq<View>, ghost ls: set<Listener>,
                      ghost start: nat, ghost next: nat)
    returns (ok: bool, ghost response: seq<byte>, ghost replies: seq<seq<byte>>)
    requires start <= next <= |vs| == |tags| && items != [] && ItemsIn(items, tags, vs, start, next, c.bufferLimit)
    requires Distinct(tags) && Fixed(tags, vs) && Bound(vs, ls)
    requires c.ids.Valid()
    modifies c.stream, c.ids
    modifies (set t | t in tags)`data, (set t | t in tags)`transfers
    modifies ls
    ensures Streamed(c, MultiRequestBytes(RequestsIn(vs, start, next, c.bufferLimit)), response, replies != [], ok)
    ensures |replies| <= |items| && ok == (|replies| == |items|) && RepliesIn(response, replies)
    ensures forall k :: start <= k < next && Usable(vs[k].data) ==>
              && tags[k].data == Settled(old(tags[k].data), Take(vs[k].data).isWriting, replies, Rank(vs, start, k))
              && tags[k].transfers == old(tags[k].transfers) + if Rank(vs, start, k) < |replies| then 1 else 0
    ensures forall k :: 0 <= k < |tags| && !(start <= k < next && Usable(vs[k].data)) ==>
              tags[k].data == old(tags[k].data) && tags[k].transfers == old(tags[k].transfers)
    ensures Fixed(tags, vs)
  {
    ghost var limit := c.bufferLimit;
    FixedAll(tags, vs, ls);
    ItemsSeparate(items, tags, vs, start, next, limit);
    SentIs(items, tags, vs, start, next, limit);
    ok, response, replies := Transfer(c, items);
    forall k | start <= k < next && Usable(vs[k].data)
      ensures tags[k].data == Settled(old(tags[k].data), Take(vs[k].data).isWriting, replies, Rank(vs, start, k))
      ensures tags[k].transfers == old(tags[k].transfers) + if Rank(vs, start, k) < |replies| then 1 else 0
    {
      ItemOf(items, tags, vs, start, next, limit, k);
      assert items[Rank(vs, start, k)].info == tags[k];
    }
    forall k | 0 <= k < |tags| && !(start <= k < next && Usable(vs[k].data))
      ensures tags[k].data == old(tags[k].data) && tags[k].transfers == old(tags[k].transfers)
    {
      NotAnItem(items, tags, vs, start, next, limit, k);
      assert tags[k] !in set i | i in items :: i.info;
    }
  }

  /** A batch of this pass transferred. */
  method TransferBatch(c: Connection, items: seq<Item>, ghost tags: seq<TagInfo>, ghost vs: seq<View>, ghost ls: set<Listener>,
                       ghost rounds: seq<Round>, ghost start: nat, ghost next: nat)
    returns (ok: bool, ghost r: Round)
    requires start <= next <= |vs| == |tags| && items != [] && ItemsIn(items, tags, vs, start, next, c.bufferLimit)
    requires Distinct(tags) && Fixed(tags, vs) && Bound(vs, ls)
    requires StandBuilt(tags, vs, rounds, start, next, false)
    requires forall k :: start <= k < next ==> Usable(vs[k].data) || AfterRounds(vs, rounds, k) == vs[k].data
    requires c.ids.Valid()
    modifies c.stream, c.ids
    modifies (set t | t in tags)`data, (set t | t in tags)`transfers
    modifies ls
    ensures r.from == start && r.to == next && r.id == old(c.ids.next) && r.script == old(c.stream.script)
    ensures Streamed(c, MultiRequestBytes(RequestsIn(vs, start, next, c.bufferLimit)), r.response, r.replies != [], ok)
    ensures |r.replies| <= |items| && ok == (|r.replies| == |items|) && RepliesIn(r.response, r.replies)
    ensures Stand(tags, vs, rounds + [r]) && Fixed(tags, vs)
  {
    StandBuiltMeans(tags, vs, rounds, start, next, false);
    ghost var script, n := c.stream.script, c.ids.next;
    ghost var response, replies;
    ok, response, replies := TransferTags(c, items, tags, vs, ls, start, next);
    r := Round(start, next, n, script, response, replies);
    RoundStands(tags, vs, rounds, r);
  }

  /** The tags after a transfer stand one round further. */
  lemma {:induction false} RoundStands(tags: seq<TagInfo>, vs: seq<View>, rounds: seq<Round>, r: Round)
    requires |tags| == |vs| && r.from <= r.to <= |vs|
    requires forall k :: r.from <= k < r.to ==> Usable(vs[k].data) || AfterRounds(vs, rounds, k) == vs[k].data
    requires forall k :: 0 <= k < |tags| ==>
               tags[k].data == if r.from <= k < r.to && Usable(vs[k].data)
                               then Settled(Take(vs[k].data), Take(vs[k].data).isWriting, r.replies, Rank(vs, r.from, k))
                               else Rest(vs[k], AfterRounds(vs, rounds, k), r.from <= k < r.to, k == r.to, false)
    requires forall k :: 0 <= k < |tags| ==>
               tags[k].transfers == vs[k].transfers + ToldBy(vs, rounds, k) + ToldIn(vs, r, k)
    ensures Stand(tags, vs, rounds + [r])
  {
    forall k | 0 <= k < |tags|
      ensures tags[k].data == AfterRounds(vs, rounds + [r], k)
      ensures tags[k].transfers == vs[k].transfers + ToldBy(vs, rounds + [r], k)
    {
      ToldNext(vs, rounds, r, k);
      AfterNext(vs, rounds, r, k, AfterRounds(vs, rounds, k));
    }
    StandMeans(tags, vs, rounds + [r]);
  }

  /** A batch transferred; `ok` when every tag in it has been answered. */
  method SendRound(c: Connection, items: seq<Item>, ghost tags: seq<TagInfo>, ghost vs: seq<View>, ghost ls: set<Listener>,
                   ghost rounds: seq<Round>, ghost start: nat, ghost next: nat, ghost id: nat)
    returns (ok: bool, ghost r: Round)
    requires |vs| == |tags| && Batched(c.bufferLimit, vs, start, next)
    requires items != [] && ItemsIn(items, tags, vs, start, next, c.bufferLimit)
    requires Distinct(tags) && Fixed(tags, vs) && Bound(vs, ls)
    requires c.ids.Valid() && c.ids.next == IdAfter(id, |rounds|)
    requires Rounds(c.bufferLimit, c.stream.writable, vs, rounds, start, id)
    requires StandBuilt(tags, vs, rounds, start, next, false)
    modifies c.stream, c.ids
    modifies (set t | t in tags)`data, (set t | t in tags)`transfers
    modifies ls
    ensures r.from == start && r.to == next && |r.replies| <= Rank(vs, start, next)
    ensures ok == (|r.replies| == Rank(vs, start, next))
    ensures ok ==> Rounds(c.bufferLimit, c.stream.writable, vs, rounds + [r], next, id)
    ensures c.ids.Valid() && (ok ==> c.ids.next == IdAfter(id, |rounds| + 1)) && c.stream.writable == old(c.stream.writable)
    ensures c.stream.written == old(c.stream.written) + [FrameOf(c.session, c.slot, c.bufferLimit, vs, r)]
         || (!ok && c.stream.written == old(c.stream.written))
    ensures Stand(tags, vs, rounds + [r]) && Fixed(tags, vs)
  {
    UnusableUntouched(c.bufferLimit, c.stream.writable, vs, rounds, start, next, id);
    EmptyBatch(items, tags, vs, start, next, c.bufferLimit);
    ok, r := TransferBatch(c, items, tags, vs, ls, rounds, start, next);
    if ok {
      RoundAnswered(c.bufferLimit, c.stream.writable, vs, rounds, id, r);
    }
  }

  lemma {:induction false} WaitsBehind(tags: seq<TagInfo>, vs: seq<View>, rounds: seq<Round>, start: nat,
                                       limit: nat, writable: bool, id: nat)
    requires Fixed(tags, vs) && Stand(tags, vs, rounds) && Rounds(limit, writable, vs, rounds, start, id)
    ensures Waiting(tags, vs, start)
  {
    StandMeans(tags, vs, rounds);
    forall k | start <= k < |tags|
      ensures Waits(tags[k], vs[k])
    {
      FixedAt(tags, vs, k);
      BehindRounds(limit, writable, vs, rounds, start, id, k);
    }
  }

  /** The next batch built, from tag `start` on. */
  method BuildMultiRequest(limit: nat, tags: seq<TagInfo>, start: nat, ghost vs: seq<View>, ghost rounds: seq<Round>)
    returns (items: seq<Item>, next: nat)
    requires start <= |tags| && Distinct(tags) && Waiting(tags, vs, start) && Stand(tags, vs, rounds) && Fixed(tags, vs)
    modifies (set t | t in tags)`data
    ensures start <= next <= |tags|
    ensures ItemsIn(items, tags, vs, start, next, limit) && FullBatch(limit, vs, start, next)
    ensures StandBuilt(tags, vs, rounds, start, next, items == []) && Fixed(tags, vs)
  {
    ghost var before := StandData(tags, vs, rounds);
    var full;
    items, next, full := Walk(limit, tags, start, vs, before);
    BatchStands(tags, vs, rounds, before, start, next, full, items == []);
  }

  lemma {:induction false} StandData(tags: seq<TagInfo>, vs: seq<View>, rounds: seq<Round>) returns (before: seq<TagData>)
    requires Stand(tags, vs, rounds) && |tags| == |vs|
    ensures |before| == |vs| && forall k :: 0 <= k < |vs| ==> before[k] == AfterRounds(vs, rounds, k)
    ensures DataAre(tags, before)
    ensures forall k :: 0 <= k < |tags| ==> tags[k].transfers == vs[k].transfers + ToldBy(vs, rounds, k)
  {
    before := seq(|vs|, k requires 0 <= k < |vs| => AfterRounds(vs, rounds, k));
    StandMeans(tags, vs, rounds);
  }

  lemma {:induction false} BatchStands(tags: seq<TagInfo>, vs: seq<View>, rounds: seq<Round>, before: seq<TagData>,
                                       start: nat, next: nat, full: bool, empty: bool)
    requires start <= next <= |tags| == |vs| == |before| && full == (next < |tags|)
    requires forall k :: 0 <= k < |vs| ==> before[k] == AfterRounds(vs, rounds, k)
    requires DataAre(tags, WalkedTo(vs, before, start, next, full, empty))
    requires forall k :: 0 <= k < |tags| ==> tags[k].transfers == vs[k].transfers + ToldBy(vs, rounds, k)
    ensures StandBuilt(tags, vs, rounds, start, next, empty)
  {
    forall k | 0 <= k < |tags|
      ensures tags[k].data == Rest(vs[k], AfterRounds(vs, rounds, k), start <= k < next, k == next, empty)
    {
      WalkedAt(vs, before, start, next, full, empty, k);
    }
    StandBuiltMeans(tags, vs, rounds, start, next, empty);
  }

  /** Where a pass that has nothing more to send ends: at the list's end or at a tag too large by itself. */
  ghost predicate Ends(limit: nat, vs: seq<View>, start: nat, stop: nat) {
    start <= stop <= |vs| && CostsIn(vs, start, stop) == [] && FullBatch(limit, vs, start, stop)
  }

  lemma {:induction false} NothingLeft(tags: seq<TagInfo>, vs: seq<View>, rounds: seq<Round>, limit: nat)
    requires Stand(tags, vs, rounds)
    ensures StandBuilt(tags, vs, rounds, |tags|, |tags|, true) && Ends(limit, vs, |tags|, |tags|)
  {
    StandMeans(tags, vs, rounds);
    StandBuiltMeans(tags, vs, rounds, |tags|, |tags|, true);
  }

  datatype Outcome = Exhausted | Transferred | Failed

  /** One turn of the loop: a batch built and, unless it is empty, transferred. */
  method Turn(c: Connection, tags: seq<TagInfo>, at: nat, ghost vs: seq<View>, ghost ls: set<Listener>, ghost rounds: seq<Round>, ghost id: nat)
    returns (outcome: Outcome, next: nat, ghost r: Round)
    requires at < |tags| && Distinct(tags) && Fixed(tags, vs) && Bound(vs, ls) && Stand(tags, vs, rounds)
    requires Rounds(c.bufferLimit, c.stream.writable, vs, rounds, at, id)
    requires c.ids.Valid() && c.ids.next == IdAfter(id, |rounds|)
    modifies c.stream, c.ids
    modifies (set t | t in tags)`data, (set t | t in tags)`transfers
    modifies ls
    ensures Fixed(tags, vs) && c.stream.writable == old(c.stream.writable)
    ensures outcome.Exhausted? ==>
              && Ends(c.bufferLimit, vs, at, next) && StandBuilt(tags, vs, rounds, at, next, true)
              && c.stream.written == old(c.stream.written)
    ensures outcome.Transferred? ==>
              && at < next <= |tags| && Rounds(c.bufferLimit, c.stream.writable, vs, rounds + [r], next, id)
              && c.ids.Valid() && c.ids.next == IdAfter(id, |rounds| + 1)
    ensures outcome.Failed? ==>
              && r.from == at && Batched(c.bufferLimit, vs, at, r.to) && |r.replies| < Rank(vs, at, r.to)
    ensures !outcome.Exhausted? ==>
              && Stand(tags, vs, rounds + [r])
              && (c.stream.written == old(c.stream.written) + [FrameOf(c.session, c.slot, c.bufferLimit, vs, r)]
                  || (outcome.Failed? && c.stream.written == old(c.stream.written)))
  {
    WaitsBehind(tags, vs, rounds, at, c.bufferLimit, c.stream.writable, id);
    var items;
    items, next := BuildMultiRequest(c.bufferLimit, tags, at, vs, rounds);
    EmptyBatch(items, tags, vs, at, next, c.bufferLimit);
    if items == [] {
      return Exhausted, next, Round(0, 0, 0, [], [], []);
    }
    var sent;
    sent, r := SendRound(c, items, tags, vs, ls, rounds, at, next, id);
    outcome := if sent then Transferred else Failed;
  }

  lemma {:induction false} OneMoreFrame(before: seq<seq<byte>>, session: nat, slot: byte, limit: nat, vs: seq<View>, rounds: seq<Round>, r: Round)
    ensures before + Frames(session, slot, limit, vs, rounds) + [FrameOf(session, slot, limit, vs, r)]
         == before + Frames(session, slot, limit, vs, rounds + [r])
  {
    FramesNext(session, slot, limit, vs, rounds, r);
  }

  /**
   * One scan of a list. `vs` is what the pass finds; `rounds` are the batches answered in full,
   * `stop` is where a pass that went well ended, and `last` the batch that failed.
   */
  method ProcessScanList(c: Connection, list: ScanList, ghost vs: seq<View>, ghost ls: set<Listener>)
    returns (ok: bool, ghost rounds: seq<Round>, ghost start: nat, ghost stop: nat, ghost last: Round)
    requires c.ids.Valid() && Distinct(list.tags) && Fixed(list.tags, vs) && Bound(vs, ls) && Stand(list.tags, vs, [])
    modifies c.stream, c.ids
    modifies (set t | t in list.tags)`data, (set t | t in list.tags)`transfers
    modifies ls
    ensures Rounds(c.bufferLimit, c.stream.writable, vs, rounds, start, old(c.ids.next))
    ensures ok ==>
              && Ends(c.bufferLimit, vs, start, stop)
              && StandBuilt(list.tags, vs, rounds, start, stop, true)
              && c.stream.written == old(c.stream.written) + Frames(c.session, c.slot, c.bufferLimit, vs, rounds)
    ensures !ok ==>
              && last.from == start && Batched(c.bufferLimit, vs, start, last.to)
              && |last.replies| < Rank(vs, start, last.to)
              && Stand(list.tags, vs, rounds + [last])
              && (c.stream.written == old(c.stream.written) + Frames(c.session, c.slot, c.bufferLimit, vs, rounds)
                  || c.stream.written == old(c.stream.written) + Frames(c.session, c.slot, c.bufferLimit, vs, rounds + [last]))
  {
    var tags := list.tags;
    var at := 0;
    ghost var id, writable, written := c.ids.next, c.stream.writable, c.stream.written;
    rounds, last := [], Round(0, 0, 0, [], [], []);
    while at < |tags|
      invariant at <= |tags|
      invariant Fixed(tags, vs) && Stand(tags, vs, rounds)
      invariant Rounds(c.bufferLimit, writable, vs, rounds, at, id)
      invariant c.ids.Valid() && c.ids.next == IdAfter(id, |rounds|) && c.stream.writable == writable
      invariant c.stream.written == written + Frames(c.session, c.slot, c.bufferLimit, vs, rounds)
    {
      var outcome, next;
      outcome, next, last := Turn(c, tags, at, vs, ls, rounds, id);
      OneMoreFrame(written, c.session, c.slot, c.bufferLimit, vs, rounds, last);
      if !outcome.Transferred? {
        return outcome.Exhausted?, rounds, at, next, last;
      }
      rounds := rounds + [last];
      at := next;
    }
    NothingLeft(tags, vs, rounds, c.bufferLimit);
    ok, start, stop := true, at, |tags|;
  }
}
