/**
 * BOOL arrays packed into 32-bit words: a flat bit index folded into a word and a mask,
 * gathered into a number and scattered back in place (drivers/ether-ip/src/device.rs).
 */
module BitArray {
  import opened Wrappers
  import opened Bytes
  import opened Bits
  import opened Cip
  import opened Values

  /** Bit `m` of the array the words of a buffer make up. */
  predicate Flat(raw: seq<byte>, m: nat) {
    var word := GetUdint(raw, m / 32);
    word.Some? && Bit(word.value, m % 32)
  }

  /** Bits `n` to `n + count - 1` as a number, bit `n` lowest. */
  function Gathered(raw: seq<byte>, n: nat, count: nat): nat {
    if count == 0 then 0
    else Gathered(raw, n, count - 1) + if Flat(raw, n + count - 1) then Pow2(count - 1) else 0
  }

  /** Whether the last of `count` bits from bit `n` on is in a readable word. */
  predicate Reaches(raw: seq<byte>, n: nat, count: nat)
    requires count > 0
  {
    GetUdint(raw, (n + count - 1) / 32).Some?
  }

  function Max1(bits: nat): (n: nat)
    ensures n > 0
  {
    if bits == 0 then 1 else bits
  }

  lemma {:induction false} GatheredBound(raw: seq<byte>, n: nat, count: nat)
    ensures Gathered(raw, n, count) < Pow2(count)
  {
    if count > 0 {
      GatheredBound(raw, n, count - 1);
    }
  }

  lemma {:induction false} TopBit(low: nat, c: nat, on: bool, i: nat)
    requires low < Pow2(c)
    ensures Bit(low + if on then Pow2(c) else 0, i) <==> if i == c then on else Bit(low, i)
  {
    if on {
      OrAbove(low, c);
      BitOfOr(low, Pow2(c), i);
      BitOfPow2(c, i);
    }
    if i == c {
      NoBitAbove(c, low, i);
    }
  }

  /** The gathered number holds exactly those bits of the array, each in its place. */
  lemma {:induction false} GatheredBit(raw: seq<byte>, n: nat, count: nat, i: nat)
    ensures Bit(Gathered(raw, n, count), i) <==> i < count && Flat(raw, n + i)
  {
    if count == 0 {
      BitOfZero(i);
    } else {
      var c := count - 1;
      assert Gathered(raw, n, count) == Gathered(raw, n, c) + if Flat(raw, n + c) then Pow2(c) else 0;
      GatheredBit(raw, n, c, i);
      GatheredBound(raw, n, c);
      TopBit(Gathered(raw, n, c), c, Flat(raw, n + c), i);
    }
  }

  lemma {:induction false} ReadableBelow(raw: seq<byte>, e: nat, f: nat)
    requires e <= f && GetUdint(raw, f).Some?
    ensures GetUdint(raw, e).Some?
  {
    ReadableElements(raw, e);
    ReadableElements(raw, f);
  }

  lemma {:induction false} Position(e: nat, j: nat)
    requires j < 32
    ensures (32 * e + j) / 32 == e && (32 * e + j) % 32 == j
  {
  }

  lemma {:induction false} WordOrder(e: nat, j: nat, last: nat)
    requires j < 32 && 32 * e + j <= last
    ensures e <= last / 32
  {
  }

  /** Testing one more bit, bit `j` of word `e`, gathers one more bit. */
  lemma {:induction false} GatherStep(raw: seq<byte>, n: nat, i: nat, value: nat, e: nat, j: nat)
    requires j < 32 && n + i == 32 * e + j && GetUdint(raw, e) == Some(value)
    ensures Gathered(raw, n, i + 1)
         == if And(value, Pow2(j)) != 0 then Or(Gathered(raw, n, i), Pow2(i)) else Gathered(raw, n, i)
  {
    Position(e, j);
    MaskTests(value, j);
    GatheredBound(raw, n, i);
    OrAbove(Gathered(raw, n, i), i);
  }

  /** Word `e` cannot be read, so the last word wanted, at or behind it, cannot either. */
  lemma {:induction false} UnreadableAbove(raw: seq<byte>, e: nat, j: nat, last: nat)
    requires j < 32 && 32 * e + j <= last && GetUdint(raw, e).None?
    ensures GetUdint(raw, last / 32).None?
  {
    WordOrder(e, j, last);
    if GetUdint(raw, last / 32).Some? {
      ReadableBelow(raw, e, last / 32);
    }
  }

  lemma {:induction false} ReachedAt(raw: seq<byte>, e: nat, j: nat, n: nat, count: nat)
    requires count > 0 && j < 32 && n + count - 1 == 32 * e + j
    ensures Reaches(raw, n, count) == GetUdint(raw, e).Some?
  {
    Position(e, j);
  }

  lemma {:induction false} NotReached(raw: seq<byte>, e: nat, j: nat, n: nat, count: nat)
    requires j < 32 && 32 * e + j < n + count && count > 0 && GetUdint(raw, e).None?
    ensures !Reaches(raw, n, count)
  {
    UnreadableAbove(raw, e, j, n + count - 1);
  }

  /** What a read of `count` bits comes to: all of them, or nothing when the last is out of reach. */
  function BitsAt(raw: seq<byte>, n: nat, count: nat): Option<nat>
    requires count > 0
  {
    if Reaches(raw, n, count) then Some(Gathered(raw, n, count)) else None
  }

  lemma {:induction false} NothingRead(raw: seq<byte>, e: nat, j: nat, n: nat, count: nat)
    requires j < 32 && 32 * e + j < n + count && count > 0 && GetUdint(raw, e).None?
    ensures BitsAt(raw, n, count) == None
  {
    NotReached(raw, e, j, n, count);
  }

  lemma {:induction false} AllRead(raw: seq<byte>, e: nat, j: nat, n: nat, count: nat)
    requires count > 0 && j < 32 && n + count - 1 == 32 * e + j && GetUdint(raw, e).Some?
    ensures BitsAt(raw, n, count) == Some(Gathered(raw, n, count))
  {
    ReachedAt(raw, e, j, n, count);
  }

  lemma {:induction false} GatherFirst(raw: seq<byte>, n: nat, value: nat, e: nat, j: nat)
    requires j < 32 && n == 32 * e + j && GetUdint(raw, e) == Some(value)
    ensures Gathered(raw, n, 1) == if And(value, Pow2(j)) != 0 then Or(0, 1) else 0
  {
    GatherStep(raw, n, 0, value, e, j);
  }

  /** The mask is at bit `j` of word `e`, the last of the `i` bits from `n` on. */
  ghost predicate Looking(raw: seq<byte>, e: nat, j: nat, m: nat, value: nat, n: nat, i: nat) {
    j < 32 && i > 0 && n + i - 1 == 32 * e + j && m == Pow2(j) && GetUdint(raw, e) == Some(value)
  }

  /** The mask moved on by one bit, into the next word where the last one ends. */
  method NextBit(raw: seq<byte>, element: nat, mask: nat, word: nat, ghost k: nat, ghost n: nat, ghost i: nat)
    returns (there: bool, e: nat, m: nat, value: nat, ghost j: nat)
    requires Looking(raw, element, k, mask, word, n, i)
    ensures there ==> Looking(raw, e, j, m, value, n, i + 1)
    ensures !there ==> j == 0 && n + i == 32 * e && GetUdint(raw, e).None?
  {
    MaskShifts(k);
    there, e, m, value, j := true, element, Shl1(mask), word, k + 1;
    if m == 0 {
      m, j, e := 1, 0, e + 1;
      var next := GetUdint(raw, e);
      there := next.Some?;
      if there {
        value := next.value;
      }
    }
  }

  method GetBits(raw: seq<byte>, element: nat, mask: nat, bits: nat, ghost k: nat) returns (r: Option<nat>)
    requires k < 32 && mask == Pow2(k) && bits <= 32
    ensures r == BitsAt(raw, 32 * element + k, Max1(bits))
  {
    ghost var n, count := 32 * element + k, Max1(bits);
    var word := GetUdint(raw, element);
    if word.None? {
      NothingRead(raw, element, k, n, count);
      return None;
    }
    var e, m, value := element, mask, word.value;
    ghost var j := k;
    var rval := 0;
    GatherFirst(raw, n, value, e, j);
    if And(value, m) != 0 {
      rval := Or(rval, 1);
    }
    var i := 1;
    while i < bits
      invariant 1 <= i <= count
      invariant Looking(raw, e, j, m, value, n, i)
      invariant rval == Gathered(raw, n, i)
    {
      var there;
      there, e, m, value, j := NextBit(raw, e, m, value, j, n, i);
      if !there {
        NothingRead(raw, e, j, n, count);
        return None;
      }
      GatherStep(raw, n, i, value, e, j);
      if And(value, m) != 0 {
        rval := Or(rval, Pow2(i));
      }
      i := i + 1;
    }
    AllRead(raw, e, j, n, count);
    r := Some(rval);
  }

  // ---------------------------------------------------------------------------
  // Scattering
  // ---------------------------------------------------------------------------

  /** Whether bit `m` has a place in the buffer. */
  predicate Holds(raw: seq<byte>, m: nat) {
    GetUdint(raw, m / 32).Some? && m % 32 < Width(TypeOf(raw).value)
  }

  /** Bits `n` to `top - 1` carry a value's bits, where there is room, and all others are kept. */
  ghost predicate Scattered(before: seq<byte>, after: seq<byte>, n: nat, top: nat, rval: nat) {
    && |after| == |before| && TypeOf(after) == TypeOf(before)
    && (forall e :: GetUdint(after, e).Some? <==> GetUdint(before, e).Some?)
    && (forall m: nat :: Flat(after, m) <==>
          if n <= m < top && Holds(before, m) then Bit(rval, m - n) else Flat(before, m))
  }

  /** A word being edited: its bits below `top` carry the value's, the others are as before. */
  ghost predicate WordSet(original: nat, value: nat, e: nat, n: nat, top: nat, rval: nat) {
    forall j :: 0 <= j < 32 ==>
      (Bit(value, j) <==> if n <= 32 * e + j < top then Bit(rval, 32 * e + j - n) else Bit(original, j))
  }

  lemma {:induction false} HalvesOfMod(v: nat, w: nat)
    requires w > 0
    ensures v % Pow2(w) / 2 == v / 2 % Pow2(w - 1) && v % Pow2(w) % 2 == v % 2
  {
    HalfMod(v, w);
  }

  lemma {:induction false} BitOfMod(v: nat, w: nat, j: nat)
    ensures Bit(v % Pow2(w), j) <==> j < w && Bit(v, j)
    decreases j
  {
    if j >= w {
      NoBitAbove(w, v % Pow2(w), j);
    } else {
      HalvesOfMod(v, w);
      if j > 0 {
        BitOfMod(v / 2, w - 1, j - 1);
      }
    }
  }

  lemma {:induction false} BitOfCut(t: CipType, v: nat, j: nat)
    requires HasPattern(t) && v < 0x1_0000_0000 && j < 32
    ensures Bit(Cut(t, v), j) <==> j < Width(t) && Bit(v, j)
  {
    assert Pow2(8) == 0x100;
    assert Pow2(16) == 0x1_0000;
    if Size(t) == 1 {
      BitOfMod(v, 8, j);
    } else if Size(t) == 2 {
      BitOfMod(v, 16, j);
    }
  }

  /** A word read from the buffer has no bits its type has no room for. */
  lemma {:induction false} WordFits(raw: seq<byte>, e: nat, j: nat)
    requires GetUdint(raw, e).Some? && j < 32
    ensures GetUdint(raw, e).value < 0x1_0000_0000
    ensures j >= Width(TypeOf(raw).value) ==> !Bit(GetUdint(raw, e).value, j)
  {
    var t, v := TypeOf(raw).value, GetUdint(raw, e).value;
    assert Cut(t, v) == v;
    BitOfCut(t, v, j);
  }

  /** Storing an edited word extends what has been scattered to its edited bits. */
  lemma {:induction false} StoreWord(before: seq<byte>, raw: seq<byte>, after: seq<byte>,
                                     e: nat, value: nat, n: nat, top: nat, rval: nat)
    requires Scattered(before, raw, n, 32 * e, rval)
    requires GetUdint(before, e).Some? && value < 0x1_0000_0000
    requires WordSet(GetUdint(before, e).value, value, e, n, top, rval)
    requires 32 * e <= top <= 32 * (e + 1)
    requires PutUdint(raw, e, value) == Some(after)
    ensures Scattered(before, after, n, top, rval)
  {
    var t := TypeOf(raw).value;
    SliceKeepsType(raw, ElementOffset(t, e), PatternBytes(t, value).value);
    forall f: nat
      ensures GetUdint(after, f).Some? <==> GetUdint(before, f).Some?
    {
      ReadableElements(after, f);
      ReadableElements(before, f);
    }
    forall m: nat
      ensures Flat(after, m) <==>
        if n <= m < top && Holds(before, m) then Bit(rval, m - n) else Flat(before, m)
    {
      if m / 32 == e {
        StoredBit(before, raw, after, e, value, n, top, rval, m);
      } else {
        PatternElsewhere(raw, e, value, m / 32);
        assert Flat(after, m) == Flat(raw, m);
      }
    }
  }

  lemma {:induction false} StoredBit(before: seq<byte>, raw: seq<byte>, after: seq<byte>,
                                     e: nat, value: nat, n: nat, top: nat, rval: nat, m: nat)
    requires TypeOf(raw) == TypeOf(before) && m / 32 == e
    requires GetUdint(before, e).Some? && value < 0x1_0000_0000
    requires WordSet(GetUdint(before, e).value, value, e, n, top, rval)
    requires PutUdint(raw, e, value) == Some(after)
    ensures Flat(after, m) <==>
              if n <= m < top && Holds(before, m) then Bit(rval, m - n) else Flat(before, m)
  {
    var j := m % 32;
    PatternReadsBack(raw, e, value);
    WritableWhenReadable(raw, e, value);
    BitOfCut(TypeOf(raw).value, value, j);
    WordFits(before, e, j);
    assert 32 * e + j == m;
  }

  /** `v >> i`. */
  function Shr(v: nat, i: nat): nat
    decreases i
  {
    if i == 0 then v else Shr(v, i - 1) / 2
  }

  lemma {:induction false} ShrBit(v: nat, i: nat)
    ensures Bit(v, i) <==> Shr(v, i) % 2 == 1
  {
    ShrFirst(v, i);
    if i > 0 {
      ShrBit(v / 2, i - 1);
    }
  }

  lemma {:induction false} ShrFirst(v: nat, i: nat)
    ensures i > 0 ==> Shr(v, i) == Shr(v / 2, i - 1)
  {
    if i > 1 {
      ShrFirst(v, i - 1);
    }
  }

  /** `value |= mask` or `value &= !mask`, as the bit to be written is set or clear. */
  function WithBit(value: nat, mask: nat, on: bool): nat
    requires mask <= ALL_ONES
  {
    if on then Or(value, mask) else And(value, Not32(mask))
  }

  lemma {:induction false} WithBitSets(value: nat, k: nat, on: bool)
    requires value < 0x1_0000_0000 && k < 32 && Pow2(k) <= ALL_ONES
    ensures WithBit(value, Pow2(k), on) < 0x1_0000_0000
    ensures forall j :: 0 <= j < 32 ==>
              (Bit(WithBit(value, Pow2(k), on), j) <==> if j == k then on else Bit(value, j))
  {
    var mask := Pow2(k);
    Pow2Of32();
    OrBound(32, value, mask);
    AndBound(32, value, Not32(mask));
    forall j | 0 <= j < 32
      ensures Bit(WithBit(value, mask, on), j) <==> if j == k then on else Bit(value, j)
    {
      BitOfOr(value, mask, j);
      BitOfAnd(value, Not32(mask), j);
      BitOfNot(mask, j);
      BitOfPow2(k, j);
    }
  }

  method CopyInto(raw: array<byte>, at: nat, src: seq<byte>)
    requires at + |src| <= raw.Length
    modifies raw
    ensures Some(raw[..]) == WriteSlice(old(raw[..]), at, src)
  {
    ghost var before := raw[..];
    for i := 0 to |src|
      invariant raw[..] == before[..at] + src[..i] + before[at + i..]
    {
      raw[at + i] := src[i];
    }
    assert src[..|src|] == src;
  }

  method PutUdintInPlace(raw: array<byte>, element: nat, value: nat) returns (ok: bool)
    modifies raw
    ensures ok == PutUdint(old(raw[..]), element, value).Some?
    ensures raw[..] == if ok then PutUdint(old(raw[..]), element, value).value else old(raw[..])
  {
    var t := TypeOf(raw[..]);
    if t.None? {
      return false;
    }
    var src := PatternBytes(t.value, value);
    var at := ElementOffset(t.value, element);
    if src.None? || at + |src.value| > raw.Length {
      return false;
    }
    CopyInto(raw, at, src.value);
    ok := true;
  }

  lemma {:induction false} NothingScattered(raw: seq<byte>, n: nat, top: nat, rval: nat)
    requires top <= n
    ensures Scattered(raw, raw, n, top, rval)
  {
  }

  /** Editing one more bit, bit `j`, of word `e`. */
  lemma {:induction false} SetNext(original: nat, value: nat, e: nat, j: nat, n: nat, top: nat, rval: nat)
    requires WordSet(original, value, e, n, top, rval) && value < 0x1_0000_0000
    requires n <= top && j < 32 && top == 32 * e + j && Pow2(j) <= ALL_ONES
    ensures var v := WithBit(value, Pow2(j), Bit(rval, top - n));
            v < 0x1_0000_0000 && WordSet(original, v, e, n, top + 1, rval)
  {
    WithBitSets(value, j, Bit(rval, top - n));
  }

  lemma {:induction false} FreshWord(original: nat, e: nat, j: nat, n: nat, top: nat, rval: nat)
    requires j < 32 && (top == 32 * e || top == n == 32 * e + j)
    ensures WordSet(original, original, e, n, top, rval)
  {
  }

  /** A word about to be edited: what the editing starts from. */
  lemma {:induction false} NextWord(before: seq<byte>, now: seq<byte>, e: nat, n: nat, rval: nat)
    requires Scattered(before, now, n, 32 * e, rval) && GetUdint(now, e).Some?
    ensures GetUdint(before, e) == GetUdint(now, e) && GetUdint(now, e).value < 0x1_0000_0000
    ensures WordSet(GetUdint(before, e).value, GetUdint(now, e).value, e, n, 32 * e, rval)
  {
    SameWord(before, now, n, 32 * e, rval, e);
    FreshWord(GetUdint(now, e).value, e, 0, n, 32 * e, rval);
    WordFits(now, e, 0);
  }

  method StoreEdited(raw: array<byte>, e: nat, value: nat, ghost before: seq<byte>, ghost n: nat, ghost top: nat, ghost rval: nat)
    returns (ok: bool)
    requires Scattered(before, raw[..], n, 32 * e, rval)
    requires GetUdint(before, e).Some? && value < 0x1_0000_0000
    requires WordSet(GetUdint(before, e).value, value, e, n, top, rval)
    requires 32 * e <= top <= 32 * (e + 1)
    modifies raw
    ensures ok && Scattered(before, raw[..], n, top, rval)
  {
    WritableWhenReadable(raw[..], e, value);
    ok := PutUdintInPlace(raw, e, value);
    StoreWord(before, old(raw[..]), raw[..], e, value, n, top, rval);
  }

  /** The state of the loop: `i` bits are done, the last of them bit `j` of word `e`. */
  ghost predicate Editing(before: seq<byte>, now: seq<byte>, e: nat, j: nat, mask: nat, value: nat, rest: nat,
                          n: nat, i: nat, rval: nat)
  {
    && i > 0 && j < 32 && n + i - 1 == 32 * e + j && mask == Pow2(j)
    && rest == Shr(rval, i - 1)
    && Scattered(before, now, n, 32 * e, rval)
    && GetUdint(before, e).Some? && value < 0x1_0000_0000
    && WordSet(GetUdint(before, e).value, value, e, n, n + i, rval)
  }

  /** The mask moved on, and with it, past bit 31, the word. */
  method NextPlace(raw: array<byte>, element: nat, mask: nat, word: nat,
                   ghost before: seq<byte>, ghost k: nat, ghost n: nat, ghost top: nat, ghost rval: nat)
    returns (ok: bool, e: nat, m: nat, value: nat, ghost j: nat)
    requires k < 32 && n < top == 32 * element + k + 1 && mask == Pow2(k)
    requires Scattered(before, raw[..], n, 32 * element, rval)
    requires GetUdint(before, element).Some? && word < 0x1_0000_0000
    requires WordSet(GetUdint(before, element).value, word, element, n, top, rval)
    modifies raw
    ensures j < 32 && top == 32 * e + j && m == Pow2(j)
    ensures Scattered(before, raw[..], n, 32 * e, rval)
    ensures ok == GetUdint(before, e).Some?
    ensures ok ==> value < 0x1_0000_0000 && WordSet(GetUdint(before, e).value, value, e, n, top, rval)
    ensures !ok ==> j == 0
  {
    MaskShifts(k);
    e, m, value, j := element, Shl1(mask), word, k + 1;
    ok := true;
    if m == 0 {
      ok := StoreEdited(raw, e, value, before, n, top, rval);
      m, j := 1, 0;
      e := e + 1;
      var next := GetUdint(raw[..], e);
      if next.None? {
        return false, e, m, value, j;
      }
      value := next.value;
      NextWord(before, raw[..], e, n, rval);
    }
  }

  /** All bits but the first, with words stored as they are left; the last one is still to be stored. */
  method PutOthers(raw: array<byte>, element: nat, mask: nat, word: nat, rval: nat, bits: nat,
                   ghost before: seq<byte>, ghost k: nat, ghost n: nat)
    returns (there: bool, e: nat, value: nat, ghost m: nat, ghost rest: nat, ghost j: nat)
    requires Editing(before, raw[..], element, k, mask, word, rval, n, 1, rval)
    modifies raw
    ensures there ==> Editing(before, raw[..], e, j, m, value, rest, n, Max1(bits), rval)
    ensures !there ==> !Reaches(before, n, Max1(bits)) && Scattered(before, raw[..], n, n + Max1(bits), rval)
  {
    there, e, value, j := true, element, word, k;
    var mask', rest' := mask, rval;
    var i := 1;
    while i < bits
      invariant 1 <= i <= Max1(bits)
      invariant Editing(before, raw[..], e, j, mask', value, rest', n, i, rval)
    {
      rest' := rest' / 2;
      there, e, mask', value, j := NextPlace(raw, e, mask', value, before, j, n, n + i, rval);
      if !there {
        PartlyScattered(before, raw[..], e, n, Max1(bits), rval);
        m, rest := mask', rest';
        return;
      }
      EditNext(before, raw[..], e, j, value, rest', n, i, rval);
      value := WithBit(value, mask', rest' % 2 == 1);
      i := i + 1;
    }
    there, m, rest := true, mask', rest';
  }

  method PutBits(raw: array<byte>, element: nat, mask: nat, bits: nat, rval: nat, ghost k: nat) returns (ok: bool)
    requires k < 32 && mask == Pow2(k) && bits <= 32 && rval < 0x1_0000_0000
    modifies raw
    ensures ok == Reaches(old(raw[..]), 32 * element + k, Max1(bits))
    ensures Scattered(old(raw[..]), raw[..], 32 * element + k, 32 * element + k + Max1(bits), rval)
  {
    ghost var before, n, count := raw[..], 32 * element + k, Max1(bits);
    var word := GetUdint(raw[..], element);
    if word.None? {
      NothingReaches(before, element, k, n, count, rval);
      return false;
    }
    EditFirst(before, element, k, word.value, n, rval);
    var first := WithBit(word.value, mask, rval % 2 == 1);
    var e, value;
    ghost var m, rest, j;
    ok, e, value, m, rest, j := PutOthers(raw, element, mask, first, rval, bits, before, k, n);
    if ok {
      ok := StoreEdited(raw, e, value, before, n, n + count, rval);
      ReachedAt(before, e, j, n, count);
    }
  }

  lemma {:induction false} EditFirst(before: seq<byte>, e: nat, j: nat, value: nat, n: nat, rval: nat)
    requires j < 32 && n == 32 * e + j && GetUdint(before, e) == Some(value)
    ensures Pow2(j) <= ALL_ONES
    ensures Editing(before, before, e, j, Pow2(j), WithBit(value, Pow2(j), rval % 2 == 1), rval, n, 1, rval)
  {
    MaskShifts(j);
    NothingScattered(before, n, 32 * e, rval);
    WordFits(before, e, 0);
    FreshWord(value, e, j, n, n, rval);
    SetNext(value, value, e, j, n, n, rval);
  }

  lemma {:induction false} EditNext(before: seq<byte>, now: seq<byte>, e: nat, j: nat, value: nat, rest: nat,
                                    n: nat, i: nat, rval: nat)
    requires i > 0 && j < 32 && n + i == 32 * e + j && rest == Shr(rval, i)
    requires Scattered(before, now, n, 32 * e, rval)
    requires GetUdint(before, e).Some? && value < 0x1_0000_0000
    requires WordSet(GetUdint(before, e).value, value, e, n, n + i, rval)
    ensures Pow2(j) <= ALL_ONES
    ensures Editing(before, now, e, j, Pow2(j), WithBit(value, Pow2(j), rest % 2 == 1), rest, n, i + 1, rval)
  {
    MaskShifts(j);
    ShrBit(rval, i);
    SetNext(GetUdint(before, e).value, value, e, j, n, n + i, rval);
  }

  /** Where no word can be read there is nothing to scatter into. */
  lemma {:induction false} PartlyScattered(before: seq<byte>, after: seq<byte>, e: nat, n: nat, count: nat, rval: nat)
    requires Scattered(before, after, n, 32 * e, rval) && 32 * e < n + count && count > 0
    requires GetUdint(before, e).None?
    ensures Scattered(before, after, n, n + count, rval) && !Reaches(before, n, count)
  {
    NotReached(before, e, 0, n, count);
    forall m: nat | 32 * e <= m < n + count
      ensures !Holds(before, m)
    {
      UnreadableAbove(before, e, 0, m);
    }
  }

  lemma {:induction false} NothingReaches(raw: seq<byte>, e: nat, j: nat, n: nat, count: nat, rval: nat)
    requires j < 32 && n == 32 * e + j && count > 0 && GetUdint(raw, e).None?
    ensures Scattered(raw, raw, n, n + count, rval) && !Reaches(raw, n, count)
  {
    NotReached(raw, e, j, n, count);
    forall m: nat | n <= m < n + count
      ensures !Holds(raw, m)
    {
      UnreadableAbove(raw, e, j, m);
    }
  }

  /** Words are equal when their bits are. */
  lemma {:induction false} EqualBits(n: nat, a: nat, b: nat)
    requires a < Pow2(n) && b < Pow2(n)
    requires forall j :: 0 <= j < n ==> (Bit(a, j) <==> Bit(b, j))
    ensures a == b
    decreases n
  {
    if n > 0 {
      assert Bit(a, 0) <==> Bit(b, 0);
      forall j | 0 <= j < n - 1
        ensures Bit(a / 2, j) <==> Bit(b / 2, j)
      {
        assert Bit(a, j + 1) <==> Bit(b, j + 1);
      }
      EqualBits(n - 1, a / 2, b / 2);
    }
  }

  /** A word not reached yet is as before. */
  lemma {:induction false} SameWord(before: seq<byte>, after: seq<byte>, n: nat, top: nat, rval: nat, e: nat)
    requires Scattered(before, after, n, top, rval) && top <= 32 * e
    requires GetUdint(before, e).Some?
    ensures GetUdint(after, e) == GetUdint(before, e)
  {
    var a, b := GetUdint(after, e).value, GetUdint(before, e).value;
    WordFits(before, e, 0);
    WordFits(after, e, 0);
    Pow2Of32();
    forall j | 0 <= j < 32
      ensures Bit(a, j) <==> Bit(b, j)
    {
      var m := 32 * e + j;
      assert m / 32 == e && m % 32 == j;
      assert Flat(after, m) <==> Flat(before, m);
    }
    EqualBits(32, a, b);
  }

  // ---------------------------------------------------------------------------
  // Reading back what was scattered
  // ---------------------------------------------------------------------------

  lemma {:induction false} ModSplits(v: nat, b: nat)
    ensures v % Pow2(b + 1) == v % Pow2(b) + if Bit(v, b) then Pow2(b) else 0
    decreases b
  {
    HalfMod(v, b + 1);
    if b > 0 {
      HalfMod(v, b);
      ModSplits(v / 2, b - 1);
    }
  }

  lemma {:induction false} GatheredIs(raw: seq<byte>, n: nat, count: nat, v: nat)
    requires forall i :: 0 <= i < count ==> (Flat(raw, n + i) <==> Bit(v, i))
    ensures Gathered(raw, n, count) == v % Pow2(count)
  {
    if count > 0 {
      GatheredIs(raw, n, count - 1, v);
      ModSplits(v, count - 1);
      assert Flat(raw, n + (count - 1)) <==> Bit(v, count - 1);
    }
  }

  /**
   * In a DINT or BITS buffer with room for them, scattered bits are gathered again as the
   * value modulo 2^count; all other bits and the type are unchanged.
   */
  lemma {:induction false} GatherInvertsScatter(before: seq<byte>, after: seq<byte>, n: nat, count: nat, rval: nat)
    requires TypeOf(before) == Some(Dint) || TypeOf(before) == Some(Bits)
    requires count > 0 && Reaches(before, n, count)
    requires Scattered(before, after, n, n + count, rval)
    ensures Reaches(after, n, count)
    ensures Gathered(after, n, count) == rval % Pow2(count)
    ensures forall m: nat :: m < n || n + count <= m ==> (Flat(after, m) <==> Flat(before, m))
    ensures TypeOf(after) == TypeOf(before)
  {
    forall i | 0 <= i < count
      ensures Flat(after, n + i) <==> Bit(rval, i)
    {
      ReadableBelow(before, (n + i) / 32, (n + count - 1) / 32);
      assert Holds(before, n + i);
      assert Flat(after, n + i) <==> Bit(rval, n + i - n);
    }
    GatheredIs(after, n, count, rval);
  }

  lemma {:induction false} ScatteredReadsBack(before: seq<byte>, after: seq<byte>, n: nat, count: nat, rval: nat)
    requires TypeOf(before) == Some(Dint) || TypeOf(before) == Some(Bits)
    requires count > 0 && Reaches(before, n, count)
    requires Scattered(before, after, n, n + count, rval)
    ensures BitsAt(after, n, count) == Some(rval % Pow2(count))
  {
    GatherInvertsScatter(before, after, n, count, rval);
  }

  // ---------------------------------------------------------------------------
  // Folding a link's index
  // ---------------------------------------------------------------------------

  /** Where a link points: the word, the mask in it, and how many elements must be fetched. */
  datatype Target = Target(element: nat, mask: nat, elements: nat)

  /**
   * The last step of reading a link. `bits` is the width of a bit record, else 0; `flagged` tells
   * that the link gave an explicit bit number. All arithmetic is on a 64-bit `usize`.
   */
  function FoldLink(indexed: bool, index: nat, flagged: bool, bit: nat, bits: nat, count: nat): Option<Target> {
    if count > 1 && (bits > 0 || flagged) then None
    else if bits > 0 && !flagged then
      var last := (index + (bits - 1)) % 0x1_0000_0000_0000_0000 / 32;
      Some(Target(index / 32, if indexed then Pow2(index % 32) else 1, (last + count) % 0x1_0000_0000_0000_0000))
    else
      Some(Target(index, Pow2(bit % 32), (index + count) % 0x1_0000_0000_0000_0000))
  }

  lemma {:induction false} WordsReadable(raw: seq<byte>, words: nat, e: nat)
    requires TypeOf(raw) == Some(Dint) || TypeOf(raw) == Some(Bits)
    requires |raw| == TYPECODE_SIZE + 4 * words
    ensures GetUdint(raw, e).Some? <==> e < words
  {
    ReadableElements(raw, e);
  }

  /**
   * For a BOOL index and 1 to 32 bits, a buffer of exactly the elements asked for lets the
   * driver gather bits `index` to `index + bits - 1`, exactly when the last of them has a
   * 64-bit index; when it has not, the link's element is refused as past the tag's end.
   */
  lemma {:induction false} FoldedLinkReachesItsBits(index: nat, bits: nat, raw: seq<byte>)
    requires index < 0x1_0000_0000_0000_0000 && 1 <= bits <= 32
    requires TypeOf(raw) == Some(Dint) || TypeOf(raw) == Some(Bits)
    requires |raw| == TYPECODE_SIZE + 4 * FoldLink(true, index, false, 0, bits, 1).value.elements
    ensures var t := FoldLink(true, index, false, 0, bits, 1).value;
            && t.mask == Pow2(index % 32)
            && 32 * t.element + index % 32 == index
            && (t.element < t.elements <==> index + bits - 1 < 0x1_0000_0000_0000_0000)
            && (Reaches(raw, index, bits) <==> index + bits - 1 < 0x1_0000_0000_0000_0000)
  {
    var t := FoldLink(true, index, false, 0, bits, 1).value;
    WordsReadable(raw, t.elements, (index + bits - 1) / 32);
    LastWord(index, bits);
  }

  /**
   * With a bit number, or of an unindexed link, the link reaches that bit of its element, taken modulo 32, from a buffer
   * of exactly the elements asked for: the bits are read exactly when they do not go past that element.
   */
  lemma {:induction false} FlaggedLinkReachesItsBits(indexed: bool, el: nat, flagged: bool, bit: nat, bits: nat, raw: seq<byte>)
    requires el < 0xFFFF_FFFF_FFFF_FFFF && 1 <= bits <= 32
    requires !flagged ==> !indexed && el == 0 && bit == 0
    requires TypeOf(raw) == Some(Dint) || TypeOf(raw) == Some(Bits)
    requires |raw| == TYPECODE_SIZE + 4 * (el + 1)
    ensures var t, n := FoldLink(indexed, el, flagged, bit, bits, 1), 32 * el + bit % 32;
            && t == Some(Target(el, Pow2(bit % 32), el + 1))
            && BitsAt(raw, n, bits) == if bit % 32 + bits <= 32 then Some(Gathered(raw, n, bits)) else None
  {
    var n := 32 * el + bit % 32;
    FlaggedTarget(indexed, el, flagged, bit, bits);
    assert (n + bits - 1) / 32 == el <==> bit % 32 + bits <= 32;
    WordsReadable(raw, el + 1, (n + bits - 1) / 32);
  }

  lemma {:induction false} FlaggedTarget(indexed: bool, el: nat, flagged: bool, bit: nat, bits: nat)
    requires el < 0xFFFF_FFFF_FFFF_FFFF && 1 <= bits <= 32
    requires !flagged ==> !indexed && el == 0 && bit == 0
    ensures FoldLink(indexed, el, flagged, bit, bits, 1) == Some(Target(el, Pow2(bit % 32), el + 1))
  {
    Wraps(el + 1);
    assert Pow2(0) == 1;
  }

  lemma {:induction false} LastWord(index: nat, bits: nat)
    requires index < 0x1_0000_0000_0000_0000 && 1 <= bits <= 32
    ensures FoldLink(true, index, false, 0, bits, 1).value.elements
         == if index + bits - 1 < 0x1_0000_0000_0000_0000 then (index + bits - 1) / 32 + 1 else 1
  {
    Wraps(index + (bits - 1));
    FewAbove(index + (bits - 1));
  }

  lemma {:induction false} FewAbove(v: nat)
    requires v < 0x1_0000_0000_0000_0000 + 31
    ensures v >= 0x1_0000_0000_0000_0000 ==> (v - 0x1_0000_0000_0000_0000) / 32 == 0
  {
  }

  lemma {:induction false} Wraps(v: nat)
    requires v < 0x1_0000_0000_0000_0000 + 32
    ensures v % 0x1_0000_0000_0000_0000
         == if v < 0x1_0000_0000_0000_0000 then v else v - 0x1_0000_0000_0000_0000
  {
  }
}
