/**
 * Tag names compiled into CIP path segments (drivers/ether-ip/src/cip.rs).
 * A text is its UTF-8 bytes: every delimiter is ASCII, so no split falls inside a character.
 */
module TagPath {
  import opened Wrappers
  import opened Bytes
  import opened Numerals

  const DOT: byte := 46
  const OPEN: byte := 91
  const CLOSE: byte := 93

  /** One element of a path. An index is a `usize`. */
  datatype TagElement = Name(text: Text) | Index(value: nat)

  type Path = seq<TagElement>

  // ---------------------------------------------------------------------------
  // The text form
  // ---------------------------------------------------------------------------

  /** How long the name is that a text starts with: it runs to the next '.' or '['. */
  function NameLength(t: Text): (n: nat)
    ensures n <= |t|
  {
    if t == [] || t[0] == DOT || t[0] == OPEN then 0 else 1 + NameLength(t[1..])
  }

  lemma {:induction false} NameLengthIsMaximal(t: Text)
    ensures var n := NameLength(t);
            && (forall k :: 0 <= k < n ==> t[k] != DOT && t[k] != OPEN)
            && (n < |t| ==> t[n] == DOT || t[n] == OPEN)
  {
    if t != [] && t[0] != DOT && t[0] != OPEN {
      NameLengthIsMaximal(t[1..]);
      var n := NameLength(t);
      assert forall k :: 0 < k < n ==> t[k] == t[1..][k - 1];
    }
  }

  /** The position of the first ']'. */
  function FindClose(t: Text): (r: Option<nat>)
    ensures r.Some? ==> r.value < |t|
  {
    if t == [] then None
    else if t[0] == CLOSE then Some(0)
    else match FindClose(t[1..]) case None => None case Some(n) => Some(n + 1)
  }

  /** C's `atol` into a 64-bit `long`: it saturates, and anything unreadable is 0. */
  function Atol(s: Text): int {
    var t := SkipSpace(s);
    var negative := t != [] && t[0] == MINUS;
    var u := if t != [] && (t[0] == MINUS || t[0] == PLUS) then t[1..] else t;
    var v: int := Value(u[..DigitRun(u, 10)], 10);
    if negative
    then if v > 0x8000_0000_0000_0000 then -0x8000_0000_0000_0000 else -v
    else if v > 0x7FFF_FFFF_FFFF_FFFF then 0x7FFF_FFFF_FFFF_FFFF else v
  }

  /** A signed 64-bit number cast to `usize`. */
  function AsUsize(v: int): nat {
    v % 0x1_0000_0000_0000_0000
  }

  function SkipDot(t: Text): Text {
    if t != [] && t[0] == DOT then t[1..] else t
  }

  /** The index behind a '[', and the text behind its ']' and the '.' that may follow. */
  function IndexIn(t: Text): (r: Option<(nat, Text)>)
    ensures r.Some? ==> |r.value.1| < |t|
  {
    match FindClose(t)
    case None => None
    case Some(close) => Some((AsUsize(Atol(t[..close])), SkipDot(t[close + 1..])))
  }

  /** What one turn of the parser finds at the head of a text. */
  datatype Segment =
    | Nothing                          // an empty name: the parser keeps what it has
    | Unclosed                         // a '[' without its ']'
    | More(elements: Path, rest: Text) // the elements read and the text behind them

  function FirstSegment(t: Text): (s: Segment)
    ensures s.More? ==> |s.rest| < |t|
  {
    var n := NameLength(t);
    if n == 0 then Nothing
    else if n == |t| || t[n] == DOT then More([Name(t[..n])], SkipDot(t[n..]))
    else
      match IndexIn(t[n + 1..])
      case None => Unclosed
      case Some(found) => More([Name(t[..n]), Index(found.0)], found.1)
  }

  /** All the elements of a text; None for a '[' that is never closed. */
  function Elements(t: Text): (r: Option<Path>)
    decreases |t|
  {
    match FirstSegment(t)
    case Nothing => Some([])
    case Unclosed => None
    case More(es, rest) =>
      match Elements(rest)
      case None => None
      case Some(tail) => Some(es + tail)
  }

  function ParseTag(tag: Text): Option<Path> {
    match Elements(tag)
    case Some(p) => if p == [] then None else Some(p)
    case None => None
  }

  /** `out` has been read of `tag` and `t` is left. */
  ghost predicate Agrees(tag: Text, out: Path, t: Text) {
    match Elements(t)
    case None => Elements(tag) == None
    case Some(tail) => Elements(tag) == Some(out + tail)
  }

  lemma {:induction false} AgreesStep(tag: Text, out: Path, t: Text)
    requires Agrees(tag, out, t)
    ensures match FirstSegment(t)
            case Nothing => Elements(tag) == Some(out)
            case Unclosed => Elements(tag) == None
            case More(es, rest) => Agrees(tag, out + es, rest)
  {
    match FirstSegment(t)
    case Nothing => assert out + [] == out;
    case Unclosed =>
    case More(es, rest) =>
      match Elements(rest)
      case None =>
      case Some(tail) => assert out + (es + tail) == (out + es) + tail;
  }

  lemma {:induction false} UnfoldName(t: Text, n: nat)
    requires 0 < n == NameLength(t)
    ensures n == |t| ==> FirstSegment(t) == More([Name(t)], [])
    ensures n < |t| && t[n] == DOT ==> FirstSegment(t) == More([Name(t[..n])], t[n + 1..])
  {
    assert t[..|t|] == t;
  }

  lemma {:induction false} UnfoldIndex(t: Text, n: nat, name: Text, inner: Text)
    requires 0 < n == NameLength(t) < |t| && t[n] == OPEN
    requires t[..n] == name && t[n + 1..] == inner
    ensures match IndexIn(inner)
            case None => FirstSegment(t) == Unclosed
            case Some(found) => FirstSegment(t) == More([Name(name), Index(found.0)], found.1)
  {
  }

  method ReadName(tag: Text, start: nat) returns (i: nat)
    requires start <= |tag|
    ensures start <= i <= |tag| && i - start == NameLength(tag[start..])
    ensures i < |tag| ==> tag[i] == DOT || tag[i] == OPEN
  {
    i := start;
    while i < |tag| && tag[i] != DOT && tag[i] != OPEN
      invariant start <= i <= |tag|
      invariant NameLength(tag[start..]) == i - start + NameLength(tag[i..])
    {
      assert tag[i..][1..] == tag[i + 1..];
      i := i + 1;
    }
  }

  method ReadIndex(tag: Text, at: nat) returns (r: Option<(nat, nat)>)
    requires at <= |tag|
    ensures match IndexIn(tag[at..])
            case None => r == None
            case Some(found) =>
              r.Some? && r.value.0 == found.0 && at < r.value.1 <= |tag| && tag[r.value.1..] == found.1
  {
    var inner := tag[at..];
    var close := FindClose(inner);
    if close.None? {
      return None;
    }
    var next := at + close.value + 1;
    var rest := inner[close.value + 1..];
    assert rest == tag[next..];
    if rest != [] && rest[0] == DOT {
      next := next + 1;
    }
    r := Some((AsUsize(Atol(inner[..close.value])), next));
  }

  method ReadIndexed(tag: Text, start: nat, at: nat) returns (s: Segment, next: nat)
    requires start < at < |tag| && at - start == NameLength(tag[start..]) && tag[at] == OPEN
    ensures s == FirstSegment(tag[start..])
    ensures s.More? ==> start < next <= |tag| && s.rest == tag[next..]
  {
    var name := tag[start..at];
    assert tag[start..][..at - start] == name && tag[start..][at - start + 1..] == tag[at + 1..];
    UnfoldIndex(tag[start..], at - start, name, tag[at + 1..]);
    var found := ReadIndex(tag, at + 1);
    match found {
      case None =>
        s, next := Unclosed, at;
      case Some(pair) =>
        next := pair.1;
        s := More([Name(name), Index(pair.0)], tag[next..]);
    }
  }

  /** One turn of the loop: the name, then a '.' or an index with the '.' behind it. */
  method ReadSegment(tag: Text, start: nat) returns (s: Segment, next: nat)
    requires start <= |tag|
    ensures s == FirstSegment(tag[start..])
    ensures s.More? ==> start < next <= |tag| && s.rest == tag[next..]
  {
    var i := ReadName(tag, start);
    ghost var t, n := tag[start..], i - start;
    if i == start {
      return Nothing, i;
    }
    assert t[..n] == tag[start..i];
    if i == |tag| {
      UnfoldName(t, n);
      return More([Name(tag[start..i])], []), i;
    }
    assert t[n + 1..] == tag[i + 1..];
    if tag[i] == DOT {
      UnfoldName(t, n);
      return More([Name(tag[start..i])], tag[i + 1..]), i + 1;
    }
    s, next := ReadIndexed(tag, start, i);
  }

  method Parse(tag: Text) returns (r: Option<Path>)
    ensures r == ParseTag(tag)
  {
    var out: Path := [];
    var i := 0;
    assert Agrees(tag, out, tag) by {
      if Elements(tag).Some? {
        assert [] + Elements(tag).value == Elements(tag).value;
      }
    }
    assert tag[0..] == tag;
    while i < |tag|
      invariant 0 <= i <= |tag| && Agrees(tag, out, tag[i..])
      decreases |tag| - i
    {
      AgreesStep(tag, out, tag[i..]);
      var s, next := ReadSegment(tag, i);
      match s {
        case Nothing =>
          return if out == [] then None else Some(out);
        case Unclosed =>
          return None;
        case More(es, _) =>
          out := out + es;
          i := next;
      }
    }
    AgreesStep(tag, out, tag[i..]);
    r := if out == [] then None else Some(out);
  }

  /** How an element prints; only the low 32 bits of an index do. */
  function DisplayElement(e: TagElement, first: bool): Text {
    match e
    case Name(n) => if first then n else [DOT] + n
    case Index(v) => [OPEN] + (Decimal(v % 0x1_0000_0000) + [CLOSE])
  }

  function DisplayFrom(p: Path, first: bool): Text {
    if p == [] then [] else DisplayElement(p[0], first) + DisplayFrom(p[1..], false)
  }

  function Display(p: Path): Text {
    DisplayFrom(p, true)
  }

  predicate PlainName(n: Text) {
    n != [] && forall k :: 0 <= k < |n| ==> n[k] != DOT && n[k] != OPEN
  }

  /** Starts with a name, names are plain, and no two indices are adjacent. */
  predicate WellShaped(p: Path) {
    && p != [] && p[0].Name?
    && (forall k :: 0 <= k < |p| && p[k].Name? ==> PlainName(p[k].text))
    && (forall k :: 0 < k < |p| && p[k].Index? ==> p[k - 1].Name?)
  }

  /** Every index fits the 32 bits that are printed. */
  predicate Indices32(p: Path) {
    forall k :: 0 <= k < |p| && p[k].Index? ==> p[k].value < 0x1_0000_0000
  }

  lemma {:induction false} WellShapedBehind(es: Path, tail: Path)
    requires WellShaped(es) && |es| <= 2
    requires tail == [] || WellShaped(tail)
    ensures WellShaped(es + tail)
  {
    var p := es + tail;
    assert forall k :: |es| <= k < |p| ==> p[k] == tail[k - |es|];
  }

  lemma {:induction false} SegmentIsWellShaped(t: Text)
    ensures FirstSegment(t).More? ==> WellShaped(FirstSegment(t).elements) && |FirstSegment(t).elements| <= 2
  {
    NameLengthIsMaximal(t);
  }

  /** The parser yields nothing but well-shaped paths. */
  lemma {:induction false} ParsedIsWellShaped(t: Text)
    ensures var r := Elements(t); r.Some? && r.value != [] ==> WellShaped(r.value)
    decreases |t|
  {
    var s := FirstSegment(t);
    if s.More? {
      ParsedIsWellShaped(s.rest);
      var tail := Elements(s.rest);
      if tail.Some? {
        SegmentIsWellShaped(t);
        WellShapedBehind(s.elements, tail.value);
      }
    }
  }

  lemma {:induction false} NameEnds(n: Text, post: Text)
    requires n == [] || PlainName(n)
    requires post == [] || post[0] == DOT || post[0] == OPEN
    ensures NameLength(n + post) == |n|
  {
    if n == [] {
      assert n + post == post;
    } else {
      NameEnds(n[1..], post);
      assert (n + post)[1..] == n[1..] + post;
    }
  }

  lemma {:induction false} CloseFound(digits: Text, post: Text)
    requires CLOSE !in digits
    ensures FindClose(digits + [CLOSE] + post) == Some(|digits|)
  {
    var t := digits + [CLOSE] + post;
    if digits != [] {
      CloseFound(digits[1..], post);
      assert t[1..] == digits[1..] + [CLOSE] + post;
    }
  }

  lemma {:induction false} AtolOfDecimal(v: nat)
    requires v < 0x8000_0000_0000_0000
    ensures AsUsize(Atol(Decimal(v))) == v
  {
    var d := Decimal(v);
    assert IsDigit(d[0], 10);
    assert SkipSpace(d) == d;
    assert d + [] == d;
    RunEnds(d, [], 10);
    assert d[..|d|] == d;
    NumeralValue(v, 10, false);
  }

  function Then(es: Path, tail: Option<Path>): Option<Path> {
    match tail case None => None case Some(p) => Some(es + p)
  }

  lemma {:induction false} NoClose(idx: Text)
    requires CLOSE !in idx
    ensures FindClose(idx) == None
  {
    if idx != [] {
      NoClose(idx[1..]);
    }
  }

  /** A name ends a text, or goes on behind a '.'; at an empty name the parser keeps what it has. */
  lemma {:induction false} NamesParse(n: Text, rest: Text)
    requires PlainName(n)
    ensures Elements(n) == Some([Name(n)])
    ensures Elements(n + ([46] + rest)) == Then([Name(n)], Elements(rest))
    ensures rest == [] || rest[0] == 46 || rest[0] == 91 ==> Elements(rest) == Some([])
  {
    NameEnds(n, []);
    NameEnds(n, [DOT] + rest);
    assert n + [] == n && n[..|n|] == n;
    var t := n + ([DOT] + rest);
    assert t[..|n|] == n && t[|n| + 1..] == rest;
    assert SkipDot(n[|n|..]) == [] && Elements([]) == Some([]);
    assert [Name(n)] + [] == [Name(n)];
  }

  /** A name with an index: read by `atol`, with one '.' behind it or none, and never without its ']'. */
  lemma {:induction false} IndexedNamesParse(n: Text, idx: Text, rest: Text)
    requires PlainName(n) && 93 !in idx && (rest != [] ==> rest[0] != 46)
    ensures var es := [Name(n), Index(AsUsize(Atol(idx)))];
            && Elements(n + ([91] + (idx + [93] + rest))) == Then(es, Elements(rest))
            && Elements(n + ([91] + (idx + [93] + ([46] + rest)))) == Then(es, Elements(rest))
    ensures Elements(n + ([91] + idx)) == None
  {
    IndexedSegment(n, idx, rest);
    IndexedSegment(n, idx, [DOT] + rest);
    assert ([DOT] + rest)[1..] == rest;
    var t := n + ([OPEN] + idx);
    NameEnds(n, [OPEN] + idx);
    assert t[|n| + 1..] == idx;
    NoClose(idx);
  }

  lemma {:induction false} IndexedSegment(n: Text, idx: Text, rest: Text)
    requires PlainName(n) && CLOSE !in idx
    ensures FirstSegment(n + ([OPEN] + (idx + [CLOSE] + rest))) == More([Name(n), Index(AsUsize(Atol(idx)))], SkipDot(rest))
  {
    var inner := idx + [CLOSE] + rest;
    var t := n + ([OPEN] + inner);
    NameEnds(n, [OPEN] + inner);
    CloseFound(idx, rest);
    assert t[..|n|] == n && t[|n| + 1..] == inner;
    assert inner[..|idx|] == idx && inner[|idx| + 1..] == rest;
  }

  /** `atol` skips blanks, takes a sign and the digits up to anything else, and saturates at 64 bits. */
  lemma {:induction false} AtolReads(blanks: nat, sign: Text, digits: Text, rest: Text)
    requires sign == [] || sign == [MINUS] || sign == [PLUS]
    requires AllDigits(digits, 10) && (rest == [] || !IsDigit(rest[0], 10))
    requires digits == [] && sign == [] ==> rest == [] || (!IsSpace(rest[0]) && rest[0] != MINUS && rest[0] != PLUS)
    ensures var v, r := Value(digits, 10), Atol(Repeat(SPACE, blanks) + (sign + (digits + rest)));
            if sign == [MINUS] then r == (if v > 0x8000_0000_0000_0000 then -0x8000_0000_0000_0000 else 0 - v as int)
            else r == if v > 0x7FFF_FFFF_FFFF_FFFF then 0x7FFF_FFFF_FFFF_FFFF else v
  {
    var body := digits + rest;
    var t := sign + body;
    assert sign == [] ==> t == body;
    assert digits != [] ==> IsDigit(digits[0], 10) && body[0] == digits[0];
    SpacesSkipped(blanks, t);
    RunEnds(digits, rest, 10);
    assert sign != [] ==> t[1..] == body;
    assert body[..|digits|] == digits;
  }

  /** A path behind another element: with its leading '.', or nothing at all. */
  function Tail(p: Path): Text {
    if p == [] then [] else [DOT] + DisplayFrom(p, true)
  }

  lemma {:induction false} TailDisplays(p: Path)
    requires p != [] ==> p[0].Name?
    ensures DisplayFrom(p, false) == Tail(p)
  {
    if p != [] {
      assert DisplayElement(p[0], false) == [DOT] + DisplayElement(p[0], true);
    }
  }

  lemma {:induction false} TailSkips(p: Path)
    ensures SkipDot(Tail(p)) == Display(p)
  {
  }

  /** A name, then nothing or a '.', is one segment. */
  lemma {:induction false} NameSegment(n: Text, tail: Text)
    requires PlainName(n) && (tail == [] || tail[0] == DOT)
    ensures FirstSegment(n + tail) == More([Name(n)], SkipDot(tail))
  {
    var t := n + tail;
    NameEnds(n, tail);
    assert t[..|n|] == n && t[|n|..] == tail;
  }

  lemma {:induction false} IndexReads(v: nat, tail: Text)
    requires v < 0x1_0000_0000
    ensures IndexIn(Decimal(v) + [CLOSE] + tail) == Some((v, SkipDot(tail)))
  {
    var d := Decimal(v);
    var inner := d + [CLOSE] + tail;
    CloseFound(d, tail);
    assert inner[..|d|] == d;
    assert inner[|d| + 1..] == tail;
    AtolOfDecimal(v);
  }

  /** A name, an index, then nothing or a '.', are one segment. */
  lemma {:induction false} IndexSegment(n: Text, v: nat, tail: Text)
    requires PlainName(n) && v < 0x1_0000_0000
    ensures FirstSegment(n + ([OPEN] + (Decimal(v) + [CLOSE] + tail))) == More([Name(n), Index(v)], SkipDot(tail))
  {
    var inner := Decimal(v) + [CLOSE] + tail;
    var t := n + ([OPEN] + inner);
    NameEnds(n, [OPEN] + inner);
    assert t[..|n|] == n && t[|n|] == OPEN;
    assert t[|n| + 1..] == inner;
    IndexReads(v, tail);
  }

  lemma {:induction false} NameDisplays(p: Path)
    requires p != [] && p[0].Name? && (|p| > 1 ==> p[1].Name?)
    ensures Display(p) == p[0].text + Tail(p[1..])
  {
    TailDisplays(p[1..]);
  }

  lemma {:induction false} DisplaysOne(e: TagElement, rest: Path, first: bool)
    ensures DisplayFrom([e] + rest, first) == DisplayElement(e, first) + DisplayFrom(rest, false)
  {
    assert ([e] + rest)[1..] == rest;
  }

  lemma {:induction false} IndexTail(v: nat, rest: Path)
    requires v < 0x1_0000_0000 && (rest != [] ==> rest[0].Name?)
    ensures DisplayFrom([Index(v)] + rest, false) == [OPEN] + (Decimal(v) + [CLOSE] + Tail(rest))
  {
    DisplaysOne(Index(v), rest, false);
    TailDisplays(rest);
    var digits, tail := Decimal(v) + [CLOSE], Tail(rest);
    assert DisplayElement(Index(v), false) == [OPEN] + digits;
    Assoc([OPEN], digits, tail);
  }

  lemma {:induction false} IndexDisplays(p: Path)
    requires |p| > 1 && p[0].Name? && p[1].Index? && p[1].value < 0x1_0000_0000
    requires |p| > 2 ==> p[2].Name?
    ensures Display(p) == p[0].text + ([OPEN] + (Decimal(p[1].value) + [CLOSE] + Tail(p[2..])))
  {
    IndexTail(p[1].value, p[2..]);
    assert p[1..] == [p[1]] + p[2..];
  }

  /** The head of a printed path is read as its first name and that name's index, if any. */
  lemma {:induction false} HeadParses(p: Path, used: nat)
    requires WellShaped(p) && Indices32(p)
    requires used == if |p| > 1 && p[1].Index? then 2 else 1
    ensures FirstSegment(Display(p)) == More(p[..used], Display(p[used..]))
  {
    TailSkips(p[used..]);
    if used == 2 {
      IndexDisplays(p);
      IndexSegment(p[0].text, p[1].value, Tail(p[2..]));
      assert p[..2] == [p[0], p[1]];
    } else {
      NameDisplays(p);
      NameSegment(p[0].text, Tail(p[1..]));
      assert p[..1] == [p[0]];
    }
  }

  lemma {:induction false} DisplayParses(p: Path)
    requires p != [] ==> WellShaped(p)
    requires Indices32(p)
    ensures Elements(Display(p)) == Some(p)
    decreases |p|
  {
    if p != [] {
      var used := if |p| > 1 && p[1].Index? then 2 else 1;
      var rest := p[used..];
      HeadParses(p, used);
      assert rest != [] ==> WellShaped(rest);
      DisplayParses(rest);
      assert p[..used] + rest == p;
    }
  }

  /** An element as much of it as is printed. */
  function Low(e: TagElement): TagElement {
    match e
    case Name(n) => e
    case Index(v) => Index(v % 0x1_0000_0000)
  }

  function LowIndices(p: Path): (q: Path)
    ensures |q| == |p|
  {
    if p == [] then [] else [Low(p[0])] + LowIndices(p[1..])
  }

  lemma {:induction false} LowAt(p: Path, k: nat)
    requires k < |p|
    ensures LowIndices(p)[k] == Low(p[k])
  {
    if k > 0 {
      LowAt(p[1..], k - 1);
    }
  }

  lemma {:induction false} LowTwice(v: nat)
    ensures v % 0x1_0000_0000 % 0x1_0000_0000 == v % 0x1_0000_0000
  {
  }

  lemma {:induction false} LowDisplaysAlike(e: TagElement, first: bool)
    ensures DisplayElement(Low(e), first) == DisplayElement(e, first)
  {
    if e.Index? {
      LowTwice(e.value);
    }
  }

  lemma {:induction false} LowIndicesDisplayAlike(p: Path, first: bool)
    ensures DisplayFrom(LowIndices(p), first) == DisplayFrom(p, first)
    decreases |p|
  {
    if p != [] {
      LowIndicesDisplayAlike(p[1..], false);
      LowDisplaysAlike(p[0], first);
      DisplaysOne(Low(p[0]), LowIndices(p[1..]), first);
    }
  }

  lemma {:induction false} LowIsWellShaped(p: Path)
    requires WellShaped(p)
    ensures WellShaped(LowIndices(p)) && Indices32(LowIndices(p))
  {
    forall k | 0 <= k < |p|
      ensures LowIndices(p)[k] == Low(p[k])
    {
      LowAt(p, k);
    }
  }

  /** Parsing undoes printing for exactly the well-shaped paths whose indices fit 32 bits. */
  lemma {:induction false} DisplayRoundTrip(p: Path)
    ensures ParseTag(Display(p)) == Some(p) <==> WellShaped(p) && Indices32(p)
  {
    if WellShaped(p) && Indices32(p) {
      DisplayParses(p);
    }
    if ParseTag(Display(p)) == Some(p) {
      ParsedIsWellShaped(Display(p));
      var q := LowIndices(p);
      LowIndicesDisplayAlike(p, true);
      LowIsWellShaped(p);
      DisplayParses(q);
    }
  }

  // ---------------------------------------------------------------------------
  // The encoded form
  // ---------------------------------------------------------------------------

  /** One path segment: an ANSI extended symbol, or an element index of 8, 16 or 32 bits. */
  function SegmentBytes(e: TagElement): seq<byte> {
    match e
    case Name(n) =>
      [0x91, |n| % 0x100] + n + (if |n| % 2 != 0 then [0] else [])
    case Index(v) =>
      if v <= 0xFF then [0x28, v]
      else if v <= 0xFFFF then [0x29, 0x00] + U16(v)
      else [0x2A, 0x00] + U32(v)
  }

  function PathBytes(p: Path): seq<byte> {
    if p == [] then [] else SegmentBytes(p[0]) + PathBytes(p[1..])
  }

  method EncodeSegment(e: TagElement, out: Vec)
    modifies out
    ensures out.bytes == old(out.bytes) + SegmentBytes(e)
  {
    match e {
      case Name(n) =>
        out.Push(0x91);
        out.Push(|n| % 0x100);
        out.Extend(n);
        if |n| % 2 != 0 {
          out.Push(0);
        }
      case Index(v) =>
        if v <= 0xFF {
          out.Push(0x28);
          out.Push(v);
        } else if v <= 0xFFFF {
          out.Push(0x29);
          out.Push(0x00);
          out.Extend(U16(v));
        } else {
          out.Push(0x2A);
          out.Push(0x00);
          out.Extend(U32(v));
        }
    }
  }

  method EncodePath(p: Path, out: Vec)
    modifies out
    ensures out.bytes == old(out.bytes) + PathBytes(p)
  {
    for i := 0 to |p|
      invariant out.bytes + PathBytes(p[i..]) == old(out.bytes) + PathBytes(p)
    {
      ghost var before := out.bytes;
      EncodeSegment(p[i], out);
      UnfoldPath(before, p, i);
    }
  }

  lemma {:induction false} UnfoldPath(before: seq<byte>, p: Path, i: nat)
    requires i < |p|
    ensures before + PathBytes(p[i..]) == before + SegmentBytes(p[i]) + PathBytes(p[i + 1..])
  {
    assert p[i..][1..] == p[i + 1..];
  }

  function SegmentSize(e: TagElement): nat {
    match e
    case Name(n) => 2 + |n| + |n| % 2
    case Index(v) => if v <= 0xFF then 2 else if v <= 0xFFFF then 4 else 6
  }

  function PathSize(p: Path): nat {
    if p == [] then 0 else SegmentSize(p[0]) + PathSize(p[1..])
  }

  /** Path sizes are counted in 16-bit words on the wire. */
  function PathWords(p: Path): nat {
    PathSize(p) / 2
  }

  lemma {:induction false} SegmentSizeIsExact(e: TagElement)
    ensures |SegmentBytes(e)| == SegmentSize(e) && SegmentSize(e) % 2 == 0
  {
  }

  /** The word count the packer trusts is exactly half the encoded length, for every path. */
  lemma {:induction false} PathWordsAreExact(p: Path)
    ensures |PathBytes(p)| == 2 * PathWords(p)
    decreases |p|
  {
    if p != [] {
      PathWordsAreExact(p[1..]);
      SegmentSizeIsExact(p[0]);
    }
  }

  /** A reader of encoded paths: what the target does with the bytes. */
  function ReadPathSegment(b: seq<byte>): (r: Option<(TagElement, seq<byte>)>)
    ensures r.Some? ==> |r.value.1| < |b|
  {
    if |b| < 2 then None
    else if b[0] == 0x91 then
      var n: nat := b[1];
      var used := 2 + n + n % 2;
      if |b| < used then None else Some((Name(b[2..2 + n]), b[used..]))
    else if b[0] == 0x28 then Some((Index(b[1]), b[2..]))
    else if b[0] == 0x29 && |b| >= 4 then Some((Index(Rd16(b, 2).value), b[4..]))
    else if b[0] == 0x2A && |b| >= 6 then Some((Index(Rd32(b, 2).value), b[6..]))
    else None
  }

  function ReadPath(b: seq<byte>): Option<Path>
    decreases |b|
  {
    if b == [] then Some([])
    else
      match ReadPathSegment(b)
      case None => None
      case Some(found) =>
        match ReadPath(found.1)
        case None => None
        case Some(tail) => Some([found.0] + tail)
  }

  /** The elements whose segment has room for all of them. */
  predicate Encodable(e: TagElement) {
    match e
    case Name(n) => |n| <= 0xFF
    case Index(v) => v < 0x1_0000_0000
  }

  lemma {:induction false} NameSegmentReads(n: Text, rest: seq<byte>)
    ensures |n| <= 0xFF ==> ReadPathSegment(SegmentBytes(Name(n)) + rest) == Some((Name(n), rest))
    ensures var r := ReadPathSegment(SegmentBytes(Name(n)) + rest);
            |n| > 0xFF ==> r.Some? && r.value.0 != Name(n)
  {
    var s := SegmentBytes(Name(n));
    var b := s + rest;
    assert b[0] == 0x91 && b[1] == |n| % 0x100;
    assert b[2..2 + |n|] == n;
    assert b[|s|..] == rest;
  }

  lemma {:induction false} ByteIndexReads(v: nat, rest: seq<byte>)
    requires v <= 0xFF
    ensures ReadPathSegment(SegmentBytes(Index(v)) + rest) == Some((Index(v), rest))
  {
    var b := [0x28, v] + rest;
    assert SegmentBytes(Index(v)) + rest == b;
    assert b[0] == 0x28 && b[1] == v && b[2..] == rest;
  }

  lemma {:induction false} WordIndexReads(v: nat, rest: seq<byte>)
    requires 0xFF < v <= 0xFFFF
    ensures ReadPathSegment(SegmentBytes(Index(v)) + rest) == Some((Index(v), rest))
  {
    var b := [0x29, 0x00] + U16(v) + rest;
    assert SegmentBytes(Index(v)) + rest == b;
    assert b[0] == 0x29 && b[4..] == rest;
    ReadU16([0x29, 0x00], v, rest);
  }

  lemma {:induction false} LongIndexReads(v: nat, rest: seq<byte>)
    requires v > 0xFFFF
    ensures ReadPathSegment(SegmentBytes(Index(v)) + rest) == Some((Index(v % 0x1_0000_0000), rest))
  {
    var b := [0x2A, 0x00] + U32(v) + rest;
    assert SegmentBytes(Index(v)) + rest == b;
    assert b[0] == 0x2A && b[6..] == rest;
    ReadU32([0x2A, 0x00], v, rest);
  }

  lemma {:induction false} IndexSegmentReads(v: nat, rest: seq<byte>)
    ensures ReadPathSegment(SegmentBytes(Index(v)) + rest) == Some((Index(v % 0x1_0000_0000), rest))
  {
    if v <= 0xFF {
      ByteIndexReads(v, rest);
    } else if v <= 0xFFFF {
      WordIndexReads(v, rest);
    } else {
      LongIndexReads(v, rest);
    }
  }

  lemma {:induction false} SegmentReads(e: TagElement, rest: seq<byte>)
    ensures var r := ReadPathSegment(SegmentBytes(e) + rest);
            if Encodable(e) then r == Some((e, rest)) else r.Some? && r.value.0 != e
  {
    match e {
      case Name(n) => NameSegmentReads(n, rest);
      case Index(v) => IndexSegmentReads(v, rest);
    }
  }

  /** An encoded path reads back as itself exactly when every element is encodable. */
  lemma {:induction false} PathRoundTrip(p: Path)
    ensures ReadPath(PathBytes(p)) == Some(p) <==> forall k :: 0 <= k < |p| ==> Encodable(p[k])
    decreases |p|
  {
    if p != [] {
      var e, tail := p[0], p[1..];
      SegmentReads(e, PathBytes(tail));
      assert p == [e] + tail;
      if Encodable(e) {
        PathRoundTrip(tail);
        assert forall k :: 0 < k < |p| ==> p[k] == tail[k - 1];
        assert ReadPath(PathBytes(p)) == Some(p) ==> ReadPath(PathBytes(tail)).value == tail;
      } else {
        assert ReadPath(PathBytes(p)).Some? ==> ReadPath(PathBytes(p)).value[0] != e;
      }
    }
  }

  lemma {:induction false} EncodablePathReads(p: Path)
    requires forall k :: 0 <= k < |p| ==> Encodable(p[k])
    ensures ReadPath(PathBytes(p)) == Some(p)
  {
    PathRoundTrip(p);
  }

  /** No two encodable paths share an encoding. */
  lemma {:induction false} PathBytesInjective(p: Path, q: Path)
    requires PathBytes(p) == PathBytes(q)
    requires forall k :: 0 <= k < |p| ==> Encodable(p[k])
    requires forall k :: 0 <= k < |q| ==> Encodable(q[k])
    ensures p == q
  {
    EncodablePathReads(p);
    EncodablePathReads(q);
  }
}
