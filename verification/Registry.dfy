/** A PLC's scan lists and the tags registered in them (drivers/ether-ip/src/driver.rs). */
module Registry {
  import opened Wrappers
  import opened Bytes
  import opened Numerals
  import opened TagPath
  import opened TagBuffer
  import opened Listeners
  import opened Tags

  /** One call that registered a tag. */
  datatype Ask = Ask(period: real, name: Text, elements: nat)

  /** The smallest period ever asked for a tag. */
  function MinPeriod(asked: seq<Ask>, name: Text): Option<real> {
    if asked == [] then None
    else
      var a, before := asked[|asked| - 1], MinPeriod(asked[..|asked| - 1], name);
      if a.name != name then before
      else if before.None? || a.period < before.value then Some(a.period)
      else before
  }

  /** The largest element count ever asked for it. */
  function MaxElements(asked: seq<Ask>, name: Text): nat {
    if asked == [] then 0
    else
      var a, before := asked[|asked| - 1], MaxElements(asked[..|asked| - 1], name);
      if a.name == name && a.elements > before then a.elements else before
  }

  lemma {:induction false} AskedOnce(asked: seq<Ask>, a: Ask, name: Text)
    ensures MinPeriod(asked + [a], name)
         == if a.name != name then MinPeriod(asked, name)
            else match MinPeriod(asked, name)
                 case None => Some(a.period)
                 case Some(p) => Some(if a.period < p then a.period else p)
    ensures MaxElements(asked + [a], name)
         == if a.name == name && a.elements > MaxElements(asked, name) then a.elements else MaxElements(asked, name)
  {
    assert (asked + [a])[..|asked|] == asked;
  }

  lemma {:induction false} NeverAsked(asked: seq<Ask>, name: Text)
    requires MinPeriod(asked, name).None?
    ensures MaxElements(asked, name) == 0
  {
    if asked != [] {
      NeverAsked(asked[..|asked| - 1], name);
    }
  }

  /** The smallest and the largest are what their names say. */
  lemma {:induction false} MinAndMax(asked: seq<Ask>, name: Text, k: nat)
    requires k < |asked| && asked[k].name == name
    ensures MinPeriod(asked, name).Some? && MinPeriod(asked, name).value <= asked[k].period
    ensures MaxElements(asked, name) >= asked[k].elements
    decreases |asked|
  {
    if k < |asked| - 1 {
      MinAndMax(asked[..|asked| - 1], name, k);
    }
  }

  /** Where a tag is and how many elements it asks for. */
  datatype Entry = Entry(tag: TagInfo, list: ScanList, count: nat)

  lemma {:induction false} Replaced<K, V>(m: map<K, V>, k: K, v: V)
    ensures (m - {k})[k := v] == m[k := v]
  {
  }

  lemma {:induction false} Overwritten<K, V>(m: map<K, V>, k: K, v: V, w: V)
    ensures m[k := v][k := w] == m[k := w]
    ensures k in m && m[k] == v ==> m[k := v] == m
  {
  }

  /**
   * What the calls on record come to: every tag asked for, and no other, is in the list at the smallest
   * period asked for it, with the largest count.
   */
  ghost predicate OnRecord(asked: seq<Ask>, entries: map<Text, Entry>) {
    && (forall n :: MinPeriod(asked, n).Some? <==> n in entries)
    && (forall n :: n in entries ==> Filed(asked, n, entries[n]))
  }

  ghost predicate Filed(asked: seq<Ask>, n: Text, e: Entry) {
    MinPeriod(asked, n) == Some(e.list.period) && MaxElements(asked, n) == e.count && ParseTag(n) == Some(e.tag.path)
  }

  /** The entry of a tag asked for again: the smaller period and the larger count. */
  ghost predicate Refiled(was: Entry, e: Entry, ask: Ask) {
    && e.tag == was.tag
    && e.list.period == (if ask.period < was.list.period then ask.period else was.list.period)
    && e.count == (if ask.elements > was.count then ask.elements else was.count)
  }

  /** One more call on record: its tag's entry follows, all others stay. */
  lemma {:induction false} Recorded(asked: seq<Ask>, ask: Ask, entries: map<Text, Entry>, e: Entry)
    requires OnRecord(asked, entries)
    requires ask.name in entries ==> Refiled(entries[ask.name], e, ask)
    requires ask.name !in entries ==> e.list.period == ask.period && e.count == ask.elements && ParseTag(ask.name) == Some(e.tag.path)
    ensures OnRecord(asked + [ask], entries[ask.name := e])
  {
    forall n
      ensures MinPeriod(asked + [ask], n).Some? <==> n in entries || n == ask.name
      ensures n in entries && n != ask.name ==> Filed(asked + [ask], n, entries[n])
    {
      AskedOnce(asked, ask, n);
    }
    AskedOnce(asked, ask, ask.name);
    if ask.name !in entries {
      NeverAsked(asked, ask.name);
    }
  }

  /** The lists as before, or with one more at a period. */
  ghost predicate Extended(before: seq<ScanList>, after: seq<ScanList>, period: real) {
    after == before || (|after| == |before| + 1 && after[..|before|] == before && after[|before|].period == period)
  }

  class Plc {
    var scanlists: seq<ScanList>
    ghost var asked: seq<Ask>
    ghost var entries: map<Text, Entry>

    /** A list holds exactly the tags entered for it, each once, and they report its statistics. */
    ghost predicate Holds(l: ScanList)
      reads `entries, l`tags, (set t | t in l.tags)`listStats, (set t | t in l.tags)`elements
    {
      && Distinct(l.tags)
      && (forall t :: t in l.tags ==> t.name in entries && entries[t.name] == Entry(t, l, t.elements) && t.listStats == l.stats)
      && (forall name :: name in entries && entries[name].list == l ==> entries[name].tag in l.tags)
    }

    /** Lists and tags know each other, and no two lists share a period. */
    ghost predicate Linked()
      reads `scanlists, `entries, (set l | l in scanlists)`tags
      reads (set l, t | l in scanlists && t in l.tags :: t)`listStats, (set l, t | l in scanlists && t in l.tags :: t)`elements
    {
      && Distinct(scanlists)
      && (forall l, m :: l in scanlists && m in scanlists && l.period == m.period ==> l == m)
      && (forall l :: l in scanlists ==> Holds(l))
      && (forall name :: name in entries ==> entries[name].tag.name == name && entries[name].list in scanlists)
    }

    ghost predicate Valid()
      reads `scanlists, `entries, `asked, (set l | l in scanlists)`tags
      reads (set l, t | l in scanlists && t in l.tags :: t)`listStats, (set l, t | l in scanlists && t in l.tags :: t)`elements
    {
      Linked() && OnRecord(asked, entries)
    }

    constructor ()
      ensures Valid() && asked == [] && scanlists == []
    {
      scanlists, asked, entries := [], [], map[];
    }

    method FindTag(name: Text) returns (r: Option<(ScanList, TagInfo)>)
      requires Linked()
      ensures match r
              case None => name !in entries
              case Some(found) => name in entries && found == (entries[name].list, entries[name].tag)
    {
      for i := 0 to |scanlists|
        invariant forall k :: 0 <= k < i ==> forall t :: t in scanlists[k].tags ==> t.name != name
      {
        assert Holds(scanlists[i]);
        var tags := scanlists[i].tags;
        for j := 0 to |tags|
          invariant forall k :: 0 <= k < j ==> tags[k].name != name
        {
          if tags[j].name == name {
            return Some((scanlists[i], tags[j]));
          }
        }
      }
      r := None;
    }

    /** The list at a period, made if there is none yet. */
    method GetList(period: real) returns (list: ScanList)
      requires Linked()
      modifies this`scanlists
      ensures Linked() && list in scanlists && list.period == period
      ensures scanlists == old(scanlists) || (scanlists == old(scanlists) + [list] && fresh(list) && list.tags == [])
    {
      for i := 0 to |scanlists|
        invariant forall k :: 0 <= k < i ==> scanlists[k].period != period
      {
        if scanlists[i].period == period {
          return scanlists[i];
        }
      }
      list := new ScanList(period);
      DistinctSnoc(scanlists, list);
      scanlists := scanlists + [list];
    }

    /** A tag taken off its list. */
    method Unlist(list: ScanList, info: TagInfo)
      requires Linked() && info.name in entries && entries[info.name].tag == info && entries[info.name].list == list
      modifies this`entries, list`tags
      ensures Linked() && entries == old(entries) - {info.name}
    {
      assert Holds(list);
      WithoutOne(list.tags, info);
      forall t: TagInfo
        ensures t in Without(list.tags, info) <==> t in list.tags && t != info
      {
        WithoutMembers(list.tags, info, t);
      }
      list.tags := Without(list.tags, info);
      entries := entries - {info.name};
      assert Holds(list);
      forall l | l in scanlists && l != list
        ensures Holds(l)
      {
        assert old(Holds(l));
      }
    }

    /** A tag of a new name put at the end of a list. */
    method Enlist(list: ScanList, info: TagInfo)
      requires Linked() && info.name !in entries && list in scanlists && info.listStats == list.stats
      modifies this`entries, list`tags
      ensures Linked() && entries == old(entries)[info.name := Entry(info, list, info.elements)]
    {
      assert Holds(list);
      DistinctSnoc(list.tags, info);
      list.tags := list.tags + [info];
      entries := entries[info.name := Entry(info, list, info.elements)];
      assert Holds(list);
      forall l | l in scanlists && l != list
        ensures Holds(l)
      {
        assert old(Holds(l));
      }
    }

    /** A tag that is in a list already, moved to the list at a shorter period. */
    method MoveTag(list: ScanList, info: TagInfo, period: real) returns (faster: ScanList)
      requires Linked() && info.name in entries && entries[info.name].tag == info && entries[info.name].list == list
      modifies this`scanlists, this`entries, scanlists, info`listStats
      ensures Linked() && entries == old(entries)[info.name := Entry(info, faster, info.elements)]
      ensures faster.period == period && Extended(old(scanlists), scanlists, period)
    {
      Unlist(list, info);
      faster := GetList(period);
      info.listStats := faster.stats;
      Replaced(old(entries), info.name, Entry(info, faster, info.elements));
      Enlist(faster, info);
    }

    method SetElements(list: ScanList, info: TagInfo, elements: nat)
      requires Linked() && info.name in entries && entries[info.name].tag == info && entries[info.name].list == list
      modifies this`entries, info`elements
      ensures Linked() && info.elements == elements
      ensures entries == old(entries)[info.name := Entry(info, list, elements)]
    {
      assert Holds(list);
      info.elements := elements;
      entries := entries[info.name := Entry(info, list, elements)];
      assert Holds(list);
      forall l | l in scanlists && l != list
        ensures Holds(l)
      {
        assert old(Holds(l));
      }
    }

    /** More elements asked for. */
    method Raise(list: ScanList, info: TagInfo, elements: nat)
      requires Linked() && info.name in entries && entries[info.name].tag == info && entries[info.name].list == list
      modifies this`entries, info`elements
      ensures Linked() && info.elements == if elements > old(info.elements) then elements else old(info.elements)
      ensures entries == old(entries)[info.name := Entry(info, list, info.elements)]
    {
      assert Holds(list);
      if elements > info.elements {
        SetElements(list, info, elements);
      }
    }

    /** A registered tag asked for again: it moves to a shorter period, and asks for more elements. */
    method FileAgain(list: ScanList, info: TagInfo, period: real, elements: nat) returns (ghost e: Entry)
      requires Linked() && info.name in entries && entries[info.name].tag == info && entries[info.name].list == list
      modifies this`scanlists, this`entries, scanlists, info`listStats, info`elements
      ensures Linked() && entries == old(entries)[info.name := e]
      ensures Refiled(old(entries)[info.name], e, Ask(period, info.name, elements))
      ensures Extended(old(scanlists), scanlists, period)
    {
      ghost var before, name := entries, info.name;
      assert Holds(list);
      var home := list;
      if list.period > period {
        home := MoveTag(list, info, period);
      }
      Raise(home, info, elements);
      e := Entry(info, home, info.elements);
      Overwritten(before, name, Entry(info, home, old(info.elements)), e);
    }

    /** A tag made in a list. */
    method Enter(home: ScanList, name: Text, path: Path, elements: nat) returns (info: TagInfo)
      requires Linked() && name !in entries && home in scanlists
      modifies this`entries, home`tags
      ensures Linked() && fresh(info) && info.data == FRESH && info.path == path
      ensures entries == old(entries)[name := Entry(info, home, elements)]
    {
      info := new TagInfo(name, path, elements, home.stats);
      Enlist(home, info);
    }

    /** A tag of a new name; nothing is filed when the name cannot be parsed, but a new list stays. */
    method FileNew(period: real, name: Text, elements: nat) returns (r: Option<TagInfo>, ghost list: ScanList)
      requires Linked() && name !in entries
      modifies this`scanlists, this`entries, scanlists
      ensures Linked() && Extended(old(scanlists), scanlists, period) && list.period == period && list in scanlists
      ensures match r
              case None => ParseTag(name) == None && entries == old(entries)
              case Some(info) =>
                && fresh(info) && info.data == FRESH && ParseTag(name) == Some(info.path)
                && entries == old(entries)[name := Entry(info, list, elements)]
    {
      var home := GetList(period);
      list := home;
      var path := Parse(name);
      if path.None? {
        return None, list;
      }
      var info := Enter(home, name, path.value, elements);
      r := Some(info);
    }

    /** The call goes on record, and only this tag's entry changes. */
    ghost predicate OnlyFiled(before: map<Text, Entry>, calls: seq<Ask>, ask: Ask, info: TagInfo)
      reads `entries, `asked
    {
      && asked == calls + [ask]
      && ask.name in entries && entries[ask.name].tag == info
      && entries == before[ask.name := entries[ask.name]]
    }

    /** What has been filed goes on record. */
    ghost method PutOnRecord(before: map<Text, Entry>, ask: Ask, e: Entry)
      requires Linked() && OnRecord(asked, before) && entries == before[ask.name := e]
      requires ask.name in before ==> Refiled(before[ask.name], e, ask)
      requires ask.name !in before ==> e.list.period == ask.period && e.count == ask.elements && ParseTag(ask.name) == Some(e.tag.path)
      modifies this`asked
      ensures Valid() && asked == old(asked) + [ask]
    {
      Recorded(asked, ask, before, e);
      asked := asked + [ask];
    }

    method AddAgain(list: ScanList, info: TagInfo, period: real, elements: nat)
      requires Valid() && info.name in entries && entries[info.name].tag == info && entries[info.name].list == list
      modifies this, scanlists, info`listStats, info`elements
      ensures Valid() && Extended(old(scanlists), scanlists, period)
      ensures OnlyFiled(old(entries), old(asked), Ask(period, info.name, elements), info)
    {
      ghost var before := entries;
      ghost var e := FileAgain(list, info, period, elements);
      PutOnRecord(before, Ask(period, info.name, elements), e);
    }

    method AddNew(period: real, name: Text, elements: nat) returns (r: Option<TagInfo>)
      requires Valid() && name !in entries
      modifies this, scanlists
      ensures Valid() && Extended(old(scanlists), scanlists, period)
      ensures exists l :: l in scanlists && l.period == period
      ensures match r
              case None => ParseTag(name) == None && asked == old(asked) && entries == old(entries)
              case Some(info) =>
                fresh(info) && info.data == FRESH && ParseTag(name).Some?
                && OnlyFiled(old(entries), old(asked), Ask(period, name, elements), info)
    {
      ghost var before, ask := entries, Ask(period, name, elements);
      ghost var list;
      r, list := FileNew(period, name, elements);
      if r.Some? {
        PutOnRecord(before, ask, Entry(r.value, list, elements));
      }
    }

    /**
     * A tag registered for scanning. It is refused only when its name is new and cannot be parsed;
     * otherwise the call goes on record.
     */
    method AddTag(period: real, name: Text, elements: nat) returns (r: Option<TagInfo>)
      requires Valid()
      modifies this, scanlists
      modifies (set n | n in entries :: entries[n].tag)`listStats, (set n | n in entries :: entries[n].tag)`elements
      ensures Valid() && Extended(old(scanlists), scanlists, period)
      ensures r.None? <==> name !in old(entries) && ParseTag(name).None?
      ensures name !in old(entries) ==> exists l :: l in scanlists && l.period == period
      ensures r.None? ==> asked == old(asked) && entries == old(entries)
      ensures r.Some? ==> OnlyFiled(old(entries), old(asked), Ask(period, name, elements), r.value)
      ensures r.Some? ==> if name in old(entries) then r.value == old(entries)[name].tag else fresh(r.value) && r.value.data == FRESH
    {
      var found := FindTag(name);
      match found {
        case Some((list, info)) =>
          AddAgain(list, info, period, elements);
          r := Some(info);
        case None =>
          r := AddNew(period, name, elements);
      }
    }
  }

  // ---------------------------------------------------------------------------
  // What the invariant says of every registered tag
  // ---------------------------------------------------------------------------

  /**
   * After any calls: a tag asked for is in exactly one list, once; that list's period is the smallest ever
   * asked for the tag, its element count the largest, and its statistics are that list's.
   */
  lemma {:induction false} TagIsWhereAsked(plc: Plc, k: nat) returns (l: ScanList, t: TagInfo)
    requires plc.Valid() && k < |plc.asked|
    ensures l in plc.scanlists && t in l.tags && Distinct(l.tags) && t.name == plc.asked[k].name
    ensures t.listStats == l.stats && ParseTag(t.name) == Some(t.path)
    ensures forall m, u :: m in plc.scanlists && u in m.tags && u.name == t.name ==> m == l && u == t
    ensures Some(l.period) == MinPeriod(plc.asked, t.name) && l.period <= plc.asked[k].period
    ensures t.elements == MaxElements(plc.asked, t.name) && t.elements >= plc.asked[k].elements
  {
    var name := plc.asked[k].name;
    MinAndMax(plc.asked, name, k);
    var e := plc.entries[name];
    assert Filed(plc.asked, name, e);
    l, t := e.list, e.tag;
    assert plc.Holds(l);
    forall m, u | m in plc.scanlists && u in m.tags && u.name == t.name
      ensures m == l && u == t
    {
      assert plc.Holds(m);
    }
  }

  /** The smallest period and the largest count are ones that were asked for. */
  lemma {:induction false} MinAndMaxWereAsked(asked: seq<Ask>, name: Text) returns (i: nat, j: nat)
    requires MinPeriod(asked, name).Some?
    ensures i < |asked| && asked[i].name == name && asked[i].period == MinPeriod(asked, name).value
    ensures j < |asked| && asked[j].name == name && asked[j].elements == MaxElements(asked, name)
    decreases |asked|
  {
    var n := |asked| - 1;
    if MinPeriod(asked[..n], name).None? {
      NeverAsked(asked[..n], name);
      i, j := n, n;
    } else {
      i, j := MinAndMaxWereAsked(asked[..n], name);
      if asked[n].name == name {
        i := if asked[n].period < asked[i].period then n else i;
        j := if asked[n].elements > asked[j].elements then n else j;
      }
    }
  }
}
