/** Tags and the scan lists they live in (drivers/ether-ip/src/driver.rs, drivers/ether-ip/src/device.rs). */
module Tags {
  import opened Wrappers
  import opened Bytes
  import opened Numerals
  import opened Bits
  import opened TagPath
  import opened Cip
  import opened Values
  import opened BitArray
  import opened TagBuffer
  import opened Listeners

  /** A list's statistics, shared with the tags that live in it. */
  class ListStats {
    var errors: nat

    constructor ()
      ensures errors == 0
    {
      errors := 0;
    }
  }

  /** The bits put into a copy of a buffer. */
  method PutBitsInto(buf: seq<byte>, el: nat, bit: nat, bits: nat, rval: nat) returns (ok: bool, after: seq<byte>)
    requires WellFormed(SetBits(el, bit, bits, rval))
    ensures Put(buf, SetBits(el, bit, bits, rval), after, ok)
  {
    var raw := new byte[|buf|](i requires 0 <= i < |buf| => buf[i]);
    assert raw[..] == buf;
    ok := PutBits(raw, el, Pow2(bit), bits, rval, bit);
    after := raw[..];
  }

  class TagInfo {
    const name: Text
    const path: Path
    var elements: nat
    var data: TagData
    var listeners: seq<Listener>
    var listStats: ListStats
    ghost var transfers: nat // how often its records have been notified

    constructor (name: Text, path: Path, elements: nat, listStats: ListStats)
      ensures this.name == name && this.path == path && this.elements == elements && this.listStats == listStats
      ensures data == FRESH && listeners == [] && transfers == 0
    {
      this.name, this.path, this.elements, this.listStats := name, path, elements, listStats;
      data, listeners, transfers := FRESH, [], 0;
    }

    /** Tells every bound record, once, that a transfer of this tag is over. */
    method Notify()
      requires Distinct(listeners)
      modifies this`transfers, set l | l in listeners
      ensures transfers == old(transfers) + 1
      ensures forall l :: l in listeners ==>
                && l.told == old(l.told) + Reaction(old(l.writeDone), l.onTransfer)
                && l.writeDone == None
    {
      NotifyAll(listeners);
      transfers := transfers + 1;
    }

    method AddListener(onTransfer: OnTransfer) returns (l: Listener)
      requires Distinct(listeners)
      modifies this`listeners
      ensures fresh(l) && l.onTransfer == onTransfer && l.writeDone == None && l.told == []
      ensures listeners == old(listeners) + [l] && Distinct(listeners)
    {
      l := new Listener(onTransfer);
      DistinctSnoc(listeners, l);
      listeners := listeners + [l];
    }

    method RemoveListener(l: Listener)
      requires Distinct(listeners)
      modifies this`listeners
      ensures listeners == Without(old(listeners), l) && Distinct(listeners) && l !in listeners
    {
      WithoutOne(listeners, l);
      listeners := Without(listeners, l);
    }

    method EditBits(el: nat, bit: nat, bits: nat, rval: nat) returns (changed: bool)
      requires WellFormed(SetBits(el, bit, bits, rval))
      modifies this`data
      ensures Edited(old(data), SetBits(el, bit, bits, rval), data, changed)
    {
      var now := GetBits(data.buf, el, Pow2(bit), bits, bit);
      changed := now.Some? && now.value != rval;
      if changed {
        var buf;
        changed, buf := PutBitsInto(data.buf, el, bit, bits, rval);
        data := data.(buf := buf);
      }
    }

    /** The record's value put into the buffer, if the buffer holds another one. */
    method EditBuffer(e: Edit) returns (changed: bool)
      requires WellFormed(e)
      modifies this`data
      ensures Edited(old(data), e, data, changed)
    {
      var put := None;
      match e {
        case SetBits(el, bit, bits, rval) =>
          changed := EditBits(el, bit, bits, rval);
          return;
        case SetDint(el, v) =>
          var t := TypeOf(data.buf);
          if t != Some(Real) && t != Some(Lreal) {
            var now := GetDint(data.buf, el);
            if now.Some? && now.value != v {
              put := PutDint(data.buf, el, v);
            }
          }
        case SetLint(el, v) =>
          var now := GetLint(data.buf, el);
          if now.Some? && now.value != v {
            put := PutLint(data.buf, el, v);
          }
        case SetText(el, size, text) =>
          var now := GetString(data.buf, el, size);
          if now.Some? && now.value != text {
            put := PutString(data.buf, text);
          }
      }
      changed := put.Some?;
      if changed {
        data := data.(buf := put.value);
      }
    }

    /**
     * An output record's write: its value staged in the buffer and flagged when the buffer holds
     * another one; the record is left pending until a transfer tells its listener.
     */
    method StageWrite(e: Edit, listener: Option<Listener>, done: Option<nat>) returns (pending: bool, ghost staged: bool)
      requires WellFormed(e)
      modifies this`data, (match listener case Some(l) => {l} case None => {})`writeDone
      ensures Stages(old(data), elements, e, data, staged)
      ensures pending == (staged && done.Some?)
      ensures listener.Some? ==>
                listener.value.writeDone == if pending then done else old(listener.value.writeDone)
    {
      if data.valid == 0 || elements <= e.element {
        return false, false;
      }
      var changed := EditBuffer(e);
      if changed {
        RequestWrite();
        if done.Some? && listener.Some? {
          listener.value.writeDone := done;
        }
      }
      pending, staged := changed && done.Some?, changed;
    }

    /** The flag of the write handshake set; it may be set already. */
    method RequestWrite()
      modifies this`data
      ensures data == old(data).(doWrite := true)
    {
      if !data.doWrite {
        data := data.(doWrite := true);
      }
    }
  }

  /** A list without an element. */
  function Without<T(==)>(xs: seq<T>, x: T): seq<T> {
    if xs == [] then [] else (if xs[0] == x then [] else [xs[0]]) + Without(xs[1..], x)
  }

  lemma {:induction false} WithoutMembers<T>(xs: seq<T>, x: T, y: T)
    ensures y in Without(xs, x) <==> y in xs && y != x
  {
    if xs != [] {
      WithoutMembers(xs[1..], x, y);
      assert xs == [xs[0]] + xs[1..];
    }
  }

  lemma {:induction false} DistinctSnoc<T>(xs: seq<T>, x: T)
    requires Distinct(xs) && x !in xs
    ensures Distinct(xs + [x])
  {
    if xs != [] {
      DistinctSnoc(xs[1..], x);
      assert (xs + [x])[1..] == xs[1..] + [x];
    }
  }

  lemma {:induction false} WithoutOne<T>(xs: seq<T>, x: T)
    requires Distinct(xs)
    ensures Distinct(Without(xs, x)) && x !in Without(xs, x)
  {
    WithoutMembers(xs, x, x);
    if xs != [] {
      WithoutOne(xs[1..], x);
      WithoutMembers(xs[1..], x, xs[0]);
      if xs[0] != x {
        assert Without(xs, x)[1..] == Without(xs[1..], x);
      } else {
        assert Without(xs, x) == Without(xs[1..], x);
      }
    }
  }

  class ScanList {
    const period: real
    const stats: ListStats
    var enabled: bool
    var tags: seq<TagInfo>

    constructor (period: real)
      ensures this.period == period && enabled && tags == [] && fresh(stats)
    {
      this.period, enabled, tags := period, true, [];
      stats := new ListStats();
    }
  }
}
