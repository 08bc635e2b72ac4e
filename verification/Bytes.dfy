/** Octets, growing byte vectors and the little-endian fields of the wire formats. */
module Bytes {
  import opened Wrappers

  type byte = b: int | 0 <= b < 0x100

  /** A growing byte vector: what every encoder appends to. */
  class Vec {
    var bytes: seq<byte>

    constructor ()
      ensures bytes == []
    {
      bytes := [];
    }

    method Push(b: byte)
      modifies this
      ensures bytes == old(bytes) + [b]
    {
      bytes := bytes + [b];
    }

    method Extend(s: seq<byte>)
      modifies this
      ensures bytes == old(bytes) + s
    {
      bytes := bytes + s;
    }
  }

  lemma {:induction false} Assoc(a: seq<byte>, b: seq<byte>, c: seq<byte>)
    ensures a + b + c == a + (b + c)
  {
  }

  /** The low 16 bits of `n`, low byte first. */
  function U16(n: nat): seq<byte> {
    [n % 0x100, n / 0x100 % 0x100]
  }

  /** The low 32 bits of `n`, low byte first. */
  function U32(n: nat): seq<byte> {
    U16(n) + U16(n / 0x1_0000)
  }

  function U64(n: nat): seq<byte> {
    U32(n) + U32(n / 0x1_0000_0000)
  }

  function Rd16(b: seq<byte>, at: nat): (r: Option<nat>)
    ensures r.Some? ==> r.value < 0x1_0000
  {
    if at + 2 <= |b| then Some(b[at] as int + 0x100 * b[at + 1] as int) else None
  }

  function Rd32(b: seq<byte>, at: nat): (r: Option<nat>)
    ensures r.Some? ==> r.value < 0x1_0000_0000
  {
    match (Rd16(b, at), Rd16(b, at + 2))
    case (Some(low), Some(high)) => Some(low + 0x1_0000 * high)
    case _ => None
  }

  function Rd64(b: seq<byte>, at: nat): Option<nat> {
    match (Rd32(b, at), Rd32(b, at + 4))
    case (Some(low), Some(high)) => Some(low + 0x1_0000_0000 * high)
    case _ => None
  }

  /** A 16-bit field anywhere in a message reads back the low 16 bits written. */
  lemma {:induction false} ReadU16(pre: seq<byte>, n: nat, post: seq<byte>)
    ensures Rd16(pre + U16(n) + post, |pre|) == Some(n % 0x1_0000)
  {
    var b := pre + U16(n) + post;
    assert b[|pre|] == n % 0x100 && b[|pre| + 1] == n / 0x100 % 0x100;
    LowBytes(n);
  }

  lemma {:induction false} LowBytes(n: nat)
    ensures n % 0x1_0000 == n % 0x100 + 0x100 * (n / 0x100 % 0x100)
  {
    var high := n / 0x100;
    assert n == 0x1_0000 * (high / 0x100) + (0x100 * (high % 0x100) + n % 0x100);
  }

  lemma {:induction false} Whole16(n: nat)
    requires n < 0x1_0000
    ensures n % 0x1_0000 == n
  {
  }

  lemma {:induction false} Whole32(n: nat)
    requires n < 0x1_0000_0000
    ensures n % 0x1_0000_0000 == n
  {
  }

  lemma {:induction false} ReadU32(pre: seq<byte>, n: nat, post: seq<byte>)
    ensures Rd32(pre + U32(n) + post, |pre|) == Some(n % 0x1_0000_0000)
  {
    var high := n / 0x1_0000;
    assert pre + U32(n) + post == pre + U16(n) + (U16(high) + post);
    ReadU16(pre, n, U16(high) + post);
    assert pre + U32(n) + post == (pre + U16(n)) + U16(high) + post;
    ReadU16(pre + U16(n), high, post);
    LowHalves(n);
  }

  lemma {:induction false} LowHalves(n: nat)
    ensures n % 0x1_0000_0000 == n % 0x1_0000 + 0x1_0000 * (n / 0x1_0000 % 0x1_0000)
  {
    var high := n / 0x1_0000;
    assert n == 0x1_0000_0000 * (high / 0x1_0000) + (0x1_0000 * (high % 0x1_0000) + n % 0x1_0000);
  }

  lemma {:induction false} LowWords(n: nat)
    ensures n % 0x1_0000_0000_0000_0000
         == n % 0x1_0000_0000 + 0x1_0000_0000 * (n / 0x1_0000_0000 % 0x1_0000_0000)
  {
    var high := n / 0x1_0000_0000;
    assert n == 0x1_0000_0000_0000_0000 * (high / 0x1_0000_0000)
             + (0x1_0000_0000 * (high % 0x1_0000_0000) + n % 0x1_0000_0000);
  }

  lemma {:induction false} ReadU64(pre: seq<byte>, n: nat, post: seq<byte>)
    ensures Rd64(pre + U64(n) + post, |pre|) == Some(n % 0x1_0000_0000_0000_0000)
  {
    var high := n / 0x1_0000_0000;
    assert pre + U64(n) + post == pre + U32(n) + (U32(high) + post);
    ReadU32(pre, n, U32(high) + post);
    assert pre + U64(n) + post == (pre + U32(n)) + U32(high) + post;
    ReadU32(pre + U32(n), high, post);
    LowWords(n);
  }
}
