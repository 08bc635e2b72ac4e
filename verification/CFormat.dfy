/** C's `printf` of one integer with a format that is data (drivers/ip/src/fmt.rs). */
module CFormat {
  import opened Wrappers
  import opened Bytes
  import opened Numerals
  import opened CScan

  const PERCENT: byte := 37
  const POINT: byte := 46
  const HASH: byte := 35

  /** One conversion of a format string. */
  datatype Spec = Spec(left: bool, plus: bool, space: bool, zero: bool, alt: bool,
                       width: nat, precision: Option<nat>, conversion: byte)

  const PLAIN := Spec(false, false, false, false, false, 0, None, 32)

  /** `d i u x X o`: the conversions that take an int. */
  predicate TakesInt(c: byte) {
    c == 100 || c == 105 || c == 117 || c == 120 || c == 88 || c == 111
  }

  // ---------------------------------------------------------------------------
  // Reading a format
  // ---------------------------------------------------------------------------

  /** Literal text up to a lone '%'; `%%` stands for one. */
  function ReadPrefix(s: Text): (r: Option<(Text, Text)>)
    ensures r.Some? ==> |r.value.1| < |s|
    decreases |s|
  {
    if s == [] then None
    else if s[0] != PERCENT then Behind([s[0]], ReadPrefix(s[1..]))
    else if |s| > 1 && s[1] == PERCENT then Behind([PERCENT], ReadPrefix(s[2..]))
    else Some(([], s[1..]))
  }

  function Behind(lead: Text, r: Option<(Text, Text)>): Option<(Text, Text)> {
    match r case None => None case Some(found) => Some((lead + found.0, found.1))
  }

  /** Literal text to the end; a lone '%' is a second conversion. */
  function ReadSuffix(s: Text): Option<Text>
    decreases |s|
  {
    if s == [] then Some([])
    else if s[0] != PERCENT then Ahead([s[0]], ReadSuffix(s[1..]))
    else if |s| > 1 && s[1] == PERCENT then Ahead([PERCENT], ReadSuffix(s[2..]))
    else None
  }

  function Ahead(lead: Text, r: Option<Text>): Option<Text> {
    match r case None => None case Some(t) => Some(lead + t)
  }

  function WithFlag(spec: Spec, c: byte): Option<Spec> {
    if c == MINUS then Some(spec.(left := true))
    else if c == PLUS then Some(spec.(plus := true))
    else if c == SPACE then Some(spec.(space := true))
    else if c == ZERO then Some(spec.(zero := true))
    else if c == HASH then Some(spec.(alt := true))
    else None
  }

  function ReadFlags(spec: Spec, s: Text): (r: (Spec, Text))
    ensures |r.1| <= |s|
    decreases |s|
  {
    if s == [] || WithFlag(spec, s[0]).None? then (spec, s) else ReadFlags(WithFlag(spec, s[0]).value, s[1..])
  }

  /** A run of digits and what is behind it. */
  function ReadNumber(s: Text): (nat, Text) {
    var n := DigitRun(s, 10);
    (Value(s[..n], 10), s[n..])
  }

  function ReadPrecision(s: Text): (Option<nat>, Text) {
    if s != [] && s[0] == POINT then (Some(ReadNumber(s[1..]).0), ReadNumber(s[1..]).1) else (None, s)
  }

  /** The length modifiers `l L h`. */
  function SkipLength(s: Text): Text {
    if s != [] && (s[0] == 108 || s[0] == 76 || s[0] == 104) then SkipLength(s[1..]) else s
  }

  function ReadSpec(s: Text): Option<(Spec, Text)> {
    var (flags, afterFlags) := ReadFlags(PLAIN, s);
    var (width, afterWidth) := ReadNumber(afterFlags);
    var (precision, afterPrecision) := ReadPrecision(afterWidth);
    var t := SkipLength(afterPrecision);
    if t == [] || !TakesInt(t[0]) then None
    else Some((flags.(width := width, precision := precision, conversion := t[0]), t[1..]))
  }

  /** The text before the conversion, the conversion, and the text behind it. */
  function ParseFormat(format: Text): Option<(Text, Spec, Text)> {
    match ReadPrefix(format)
    case None => None
    case Some(p) =>
      match ReadSpec(p.1)
      case None => None
      case Some(s) =>
        match ReadSuffix(s.1)
        case None => None
        case Some(suffix) => Some((p.0, s.0, suffix))
  }

  /** Text as a format spells it. */
  function Escape(t: Text): Text {
    if t == [] then [] else (if t[0] == PERCENT then [PERCENT, PERCENT] else [t[0]]) + Escape(t[1..])
  }

  function Flag(on: bool, c: byte): Text {
    if on then [c] else []
  }

  function FlagText(s: Spec): Text {
    Flag(s.left, MINUS) + (Flag(s.plus, PLUS) + (Flag(s.space, SPACE) + (Flag(s.zero, ZERO) + Flag(s.alt, HASH))))
  }

  function WidthText(s: Spec): Text {
    if s.width > 0 then Decimal(s.width) else []
  }

  function PrecisionText(s: Spec): Text {
    match s.precision case None => [] case Some(p) => [POINT] + Decimal(p)
  }

  /** What goes before a conversion's letter: flags, width, precision and length modifiers. */
  function SpecHead(s: Spec, lengths: Text): Text {
    FlagText(s) + (WidthText(s) + (PrecisionText(s) + lengths))
  }

  /** A conversion as a format spells it. */
  function SpecText(s: Spec, lengths: Text): Text {
    SpecHead(s, lengths) + [s.conversion]
  }

  /** Length modifiers, which are passed over. */
  predicate Lengths(t: Text) {
    forall i :: 0 <= i < |t| ==> t[i] == 108 || t[i] == 76 || t[i] == 104
  }

  /** A byte that goes on with what is before a conversion's letter. */
  predicate GoesOn(c: byte) {
    c in [32, 35, 43, 45, 46, 76, 104, 108] || 48 <= c <= 57
  }

  const INT_LETTERS: seq<byte> := [100, 105, 117, 120, 88, 111]

  lemma {:induction false} PrefixReads(t: Text, rest: Text)
    requires rest == [] || rest[0] != PERCENT
    ensures ReadPrefix(Escape(t) + ([PERCENT] + rest)) == Some((t, rest))
  {
    var tail := [PERCENT] + rest;
    var s := Escape(t) + tail;
    if t == [] {
      assert s == tail && s[1..] == rest;
    } else {
      PrefixReads(t[1..], rest);
      var lead := if t[0] == PERCENT then [PERCENT, PERCENT] else [t[0]];
      Assoc(lead, Escape(t[1..]), tail);
      assert s[|lead|..] == Escape(t[1..]) + tail;
      assert t == [t[0]] + t[1..];
    }
  }

  lemma {:induction false} SuffixStep(c: byte, tail: Text)
    ensures ReadSuffix((if c == PERCENT then [PERCENT, PERCENT] else [c]) + tail) == Ahead([c], ReadSuffix(tail))
  {
    var lead := if c == PERCENT then [PERCENT, PERCENT] else [c];
    assert (lead + tail)[|lead|..] == tail;
  }

  lemma {:induction false} SuffixReads(t: Text)
    ensures ReadSuffix(Escape(t)) == Some(t)
  {
    if t != [] {
      SuffixReads(t[1..]);
      SuffixStep(t[0], Escape(t[1..]));
      assert t == [t[0]] + t[1..];
    }
  }

  predicate IsFlag(c: byte) {
    WithFlag(PLAIN, c).Some?
  }

  lemma {:induction false} FlagReads(spec: Spec, on: bool, c: byte, rest: Text)
    requires IsFlag(c)
    ensures ReadFlags(spec, Flag(on, c) + rest)
         == ReadFlags(if on then WithFlag(spec, c).value else spec, rest)
  {
    if on {
      assert ([c] + rest)[1..] == rest;
    } else {
      assert [] + rest == rest;
    }
  }

  /** The flags are read up to the first byte that is none. */
  lemma {:induction false} FlagsRead(s: Spec, rest: Text)
    requires rest == [] || !IsFlag(rest[0])
    ensures ReadFlags(PLAIN, FlagText(s) + rest) == (s.(width := 0, precision := None, conversion := 32), rest)
  {
    var r5 := rest;
    var r4 := Flag(s.alt, HASH) + r5;
    var r3 := Flag(s.zero, ZERO) + r4;
    var r2 := Flag(s.space, SPACE) + r3;
    var r1 := Flag(s.plus, PLUS) + r2;
    FlagTextSplits(s, rest);
    var s1 := PLAIN.(left := s.left);
    var s2 := s1.(plus := s.plus);
    var s3 := s2.(space := s.space);
    var s4 := s3.(zero := s.zero);
    FlagReads(PLAIN, s.left, MINUS, r1);
    FlagReads(s1, s.plus, PLUS, r2);
    FlagReads(s2, s.space, SPACE, r3);
    FlagReads(s3, s.zero, ZERO, r4);
    FlagReads(s4, s.alt, HASH, r5);
  }

  lemma {:induction false} FlagTextSplits(s: Spec, rest: Text)
    ensures FlagText(s) + rest
         == Flag(s.left, MINUS) + (Flag(s.plus, PLUS) + (Flag(s.space, SPACE) + (Flag(s.zero, ZERO) + (Flag(s.alt, HASH) + rest))))
  {
    var a, b, c, d, e := Flag(s.left, MINUS), Flag(s.plus, PLUS), Flag(s.space, SPACE), Flag(s.zero, ZERO), Flag(s.alt, HASH);
    Assoc(a, b + (c + (d + e)), rest);
    Assoc(b, c + (d + e), rest);
    Assoc(c, d + e, rest);
    Assoc(d, e, rest);
  }

  lemma {:induction false} NumberReads(n: nat, rest: Text)
    requires rest == [] || !IsDigit(rest[0], 10)
    ensures ReadNumber(Decimal(n) + rest) == (n, rest)
  {
    var d := Decimal(n);
    RunEnds(d, rest, 10);
    assert (d + rest)[..|d|] == d && (d + rest)[|d|..] == rest;
    NumeralValue(n, 10, false);
  }

  lemma {:induction false} NoNumber(rest: Text)
    requires rest == [] || !IsDigit(rest[0], 10)
    ensures ReadNumber(rest) == (0, rest)
  {
    assert rest[..0] == [] && rest[0..] == rest;
  }

  lemma {:induction false} WidthReads(s: Spec, rest: Text)
    requires rest == [] || !IsDigit(rest[0], 10)
    ensures ReadNumber(WidthText(s) + rest) == (s.width, rest)
  {
    if s.width > 0 {
      NumberReads(s.width, rest);
    } else {
      assert [] + rest == rest;
      NoNumber(rest);
    }
  }

  lemma {:induction false} PrecisionReads(s: Spec, rest: Text)
    requires rest == [] || (!IsDigit(rest[0], 10) && rest[0] != POINT)
    ensures ReadPrecision(PrecisionText(s) + rest) == (s.precision, rest)
  {
    match s.precision
    case None => assert [] + rest == rest;
    case Some(p) =>
      NumberReads(p, rest);
      Assoc([POINT], Decimal(p), rest);
      assert ([POINT] + (Decimal(p) + rest))[1..] == Decimal(p) + rest;
  }

  lemma {:induction false} LengthsSkipped(lengths: Text, end: Text)
    requires Lengths(lengths) && (end == [] || !GoesOn(end[0]))
    ensures SkipLength(lengths + end) == end
  {
    if lengths == [] {
      assert lengths + end == end;
    } else {
      assert (lengths + end)[1..] == lengths[1..] + end;
      LengthsSkipped(lengths[1..], end);
    }
  }

  lemma {:induction false} SpecFrom(whole: Text, flags: Spec, wide: Text, width: nat, tail: Text, precision: Option<nat>,
                                    long: Text, end: Text)
    requires ReadFlags(PLAIN, whole) == (flags, wide) && ReadNumber(wide) == (width, tail)
    requires ReadPrecision(tail) == (precision, long) && SkipLength(long) == end
    ensures ReadSpec(whole)
         == if end == [] || end[0] !in INT_LETTERS then None
            else Some((flags.(width := width, precision := precision, conversion := end[0]), end[1..]))
  {
  }

  lemma {:induction false} HeadSplits(s: Spec, lengths: Text, end: Text)
    ensures SpecHead(s, lengths) + end == FlagText(s) + (WidthText(s) + (PrecisionText(s) + (lengths + end)))
  {
    Assoc(FlagText(s), WidthText(s) + (PrecisionText(s) + lengths), end);
    Assoc(WidthText(s), PrecisionText(s) + lengths, end);
    Assoc(PrecisionText(s), lengths, end);
  }

  /** A byte behind a part of a conversion's head starts a later part, or ends the head. */
  predicate StartsLater(t: Text) {
    t == [] || t[0] == POINT || Lengths([t[0]]) || !GoesOn(t[0])
  }

  lemma {:induction false} LaterParts(s: Spec, lengths: Text, end: Text)
    requires Lengths(lengths) && (end == [] || !GoesOn(end[0]))
    ensures var long := lengths + end;
            && (long == [] || (!IsDigit(long[0], 10) && long[0] != POINT))
            && StartsLater(PrecisionText(s) + long)
            && (var wide := WidthText(s) + (PrecisionText(s) + long); wide == [] || !IsFlag(wide[0]))
  {
    if s.width > 0 {
      NumeralHead(s.width, 10, false);
      assert IsDigit(Decimal(s.width)[0], 10);
    }
  }

  /** The head of a conversion is read as its parts, and taken with one of the six letters alone. */
  lemma {:induction false} SpecReads(s: Spec, lengths: Text, end: Text)
    requires Lengths(lengths) && (end == [] || !GoesOn(end[0]))
    ensures ReadSpec(SpecHead(s, lengths) + end)
         == if end == [] || end[0] !in INT_LETTERS then None else Some((s.(conversion := end[0]), end[1..]))
  {
    var long := lengths + end;
    var tail := PrecisionText(s) + long;
    var wide := WidthText(s) + tail;
    HeadSplits(s, lengths, end);
    LaterParts(s, lengths, end);
    FlagsRead(s, wide);
    WidthReads(s, tail);
    PrecisionReads(s, long);
    LengthsSkipped(lengths, end);
    SpecFrom(SpecHead(s, lengths) + end, s.(width := 0, precision := None, conversion := 32), wide, s.width, tail, s.precision,
             long, end);
  }

  lemma {:induction false} HeadStarts(s: Spec, lengths: Text, end: Text)
    requires Lengths(lengths) && (end == [] || end[0] != PERCENT)
    ensures var t := SpecHead(s, lengths) + end; t == [] || t[0] != PERCENT
  {
    HeadSplits(s, lengths, end);
    if s.width > 0 {
      assert IsDigit(Decimal(s.width)[0], 10);
    }
  }

  /** A format spelled out is read back as its parts. */
  lemma {:induction false} FormatReads(prefix: Text, s: Spec, lengths: Text, suffix: Text)
    requires s.conversion in INT_LETTERS && Lengths(lengths)
    ensures ParseFormat(Escape(prefix) + ([37] + (SpecText(s, lengths) + Escape(suffix)))) == Some((prefix, s, suffix))
  {
    var end := [s.conversion] + Escape(suffix);
    Assoc(SpecHead(s, lengths), [s.conversion], Escape(suffix));
    HeadStarts(s, lengths, end);
    PrefixReads(prefix, SpecHead(s, lengths) + end);
    SpecReads(s, lengths, end);
    assert end[1..] == Escape(suffix);
    SuffixReads(suffix);
  }

  lemma {:induction false} NoConversion(t: Text)
    ensures ReadPrefix(Escape(t)) == None
  {
    if t != [] {
      NoConversion(t[1..]);
      var lead := if t[0] == PERCENT then [PERCENT, PERCENT] else [t[0]];
      assert Escape(t)[|lead|..] == Escape(t[1..]);
    }
  }

  lemma {:induction false} SecondConversion(t: Text, rest: Text)
    requires rest == [] || rest[0] != PERCENT
    ensures ReadSuffix(Escape(t) + ([PERCENT] + rest)) == None
  {
    var tail := [PERCENT] + rest;
    if t == [] {
      assert Escape(t) + tail == tail;
    } else {
      SecondConversion(t[1..], rest);
      var lead := if t[0] == PERCENT then [PERCENT, PERCENT] else [t[0]];
      Assoc(lead, Escape(t[1..]), tail);
      SuffixStep(t[0], Escape(t[1..]) + tail);
    }
  }

  lemma {:induction false} SecondRefused(prefix: Text, s: Spec, lengths: Text, suffix: Text, rest: Text)
    requires Lengths(lengths) && s.conversion in INT_LETTERS && (rest == [] || rest[0] != PERCENT)
    ensures ParseFormat(Escape(prefix) + ([PERCENT] + (SpecText(s, lengths) + (Escape(suffix) + ([PERCENT] + rest))))) == None
  {
    var behind := Escape(suffix) + ([PERCENT] + rest);
    var whole := [s.conversion] + behind;
    Assoc(SpecHead(s, lengths), [s.conversion], behind);
    HeadStarts(s, lengths, whole);
    PrefixReads(prefix, SpecHead(s, lengths) + whole);
    SpecReads(s, lengths, whole);
    assert whole[1..] == behind;
    SecondConversion(suffix, rest);
  }

  /** A format is refused that has no conversion, ends inside one, has one of another type, or has a second one. */
  lemma {:induction false} FormatRefused(prefix: Text, s: Spec, lengths: Text, end: Text, suffix: Text, rest: Text)
    requires Lengths(lengths) && (end == [] || (!GoesOn(end[0]) && end[0] !in INT_LETTERS && end[0] != PERCENT))
    requires rest == [] || rest[0] != PERCENT
    ensures ParseFormat(Escape(prefix)) == None
    ensures ParseFormat(Escape(prefix) + ([PERCENT] + (SpecHead(s, lengths) + end))) == None
    ensures s.conversion in INT_LETTERS ==>
              ParseFormat(Escape(prefix) + ([PERCENT] + (SpecText(s, lengths) + (Escape(suffix) + ([PERCENT] + rest))))) == None
  {
    NoConversion(prefix);
    HeadStarts(s, lengths, end);
    PrefixReads(prefix, SpecHead(s, lengths) + end);
    SpecReads(s, lengths, end);
    if s.conversion in INT_LETTERS {
      SecondRefused(prefix, s, lengths, suffix, rest);
    }
  }

  // ---------------------------------------------------------------------------
  // The reading loops
  // ---------------------------------------------------------------------------

  lemma {:induction false} BehindTwice(a: Text, b: Text, r: Option<(Text, Text)>)
    ensures Behind(a, Behind(b, r)) == Behind(a + b, r)
  {
    if r.Some? {
      Assoc(a, b, r.value.0);
    }
  }

  lemma {:induction false} AheadTwice(a: Text, b: Text, r: Option<Text>)
    ensures Ahead(a, Ahead(b, r)) == Ahead(a + b, r)
  {
    if r.Some? {
      Assoc(a, b, r.value);
    }
  }

  lemma {:induction false} NothingBefore(t: Text, r: Option<(Text, Text)>, q: Option<Text>)
    ensures Behind([], r) == r && Ahead([], q) == q && t + [] == t
  {
    if r.Some? {
      assert [] + r.value.0 == r.value.0;
    }
    if q.Some? {
      assert [] + q.value == q.value;
    }
  }

  method TakePrefix(format: Text) returns (r: Option<(Text, Text)>)
    ensures r == ReadPrefix(format)
  {
    var prefix: Text, i := [], 0;
    assert format[0..] == format;
    NothingBefore([], ReadPrefix(format), None);
    while i < |format|
      invariant i <= |format|
      invariant Behind(prefix, ReadPrefix(format[i..])) == ReadPrefix(format)
    {
      ghost var rest := format[i..];
      assert rest[1..] == format[i + 1..];
      if format[i] == PERCENT {
        if i + 1 < |format| && format[i + 1] == PERCENT {
          assert rest[2..] == format[i + 2..];
          BehindTwice(prefix, [PERCENT], ReadPrefix(format[i + 2..]));
          prefix, i := prefix + [PERCENT], i + 2;
        } else {
          NothingBefore(prefix, None, None);
          return Some((prefix, format[i + 1..]));
        }
      } else {
        BehindTwice(prefix, [format[i]], ReadPrefix(format[i + 1..]));
        prefix, i := prefix + [format[i]], i + 1;
      }
    }
    r := None;
  }

  method TakeSuffix(s: Text) returns (r: Option<Text>)
    ensures r == ReadSuffix(s)
  {
    var suffix: Text, i := [], 0;
    assert s[0..] == s;
    NothingBefore([], None, ReadSuffix(s));
    while i < |s|
      invariant i <= |s|
      invariant Ahead(suffix, ReadSuffix(s[i..])) == ReadSuffix(s)
    {
      ghost var rest := s[i..];
      assert rest[1..] == s[i + 1..];
      if s[i] == PERCENT {
        if i + 1 < |s| && s[i + 1] == PERCENT {
          assert rest[2..] == s[i + 2..];
          AheadTwice(suffix, [PERCENT], ReadSuffix(s[i + 2..]));
          suffix, i := suffix + [PERCENT], i + 2;
        } else {
          return None;
        }
      } else {
        AheadTwice(suffix, [s[i]], ReadSuffix(s[i + 1..]));
        suffix, i := suffix + [s[i]], i + 1;
      }
    }
    NothingBefore(suffix, None, None);
    r := Some(suffix);
  }

  method TakeFlags(s: Text) returns (spec: Spec, rest: Text)
    ensures (spec, rest) == ReadFlags(PLAIN, s)
  {
    spec := PLAIN;
    var i := 0;
    assert s[0..] == s;
    while i < |s| && WithFlag(spec, s[i]).Some?
      invariant i <= |s| && ReadFlags(spec, s[i..]) == ReadFlags(PLAIN, s)
    {
      assert s[i..][1..] == s[i + 1..];
      spec := WithFlag(spec, s[i]).value;
      i := i + 1;
    }
    rest := s[i..];
  }

  method TakeNumber(s: Text) returns (n: nat, rest: Text)
    ensures (n, rest) == ReadNumber(s)
  {
    n := 0;
    var i := 0;
    while i < |s| && IsDigit(s[i], 10)
      invariant i <= |s| && n == Value(s[..i], 10) && DigitRun(s, 10) == i + DigitRun(s[i..], 10)
    {
      assert s[i..][1..] == s[i + 1..];
      assert s[..i + 1] == s[..i] + [s[i]];
      ValueSnoc(s[..i], s[i], 10);
      n := n * 10 + DigitValue(s[i]);
      i := i + 1;
    }
    rest := s[i..];
  }

  method TakeLength(s: Text) returns (rest: Text)
    ensures rest == SkipLength(s)
  {
    var i := 0;
    assert s[0..] == s;
    while i < |s| && (s[i] == 108 || s[i] == 76 || s[i] == 104)
      invariant i <= |s| && SkipLength(s[i..]) == SkipLength(s)
    {
      assert s[i..][1..] == s[i + 1..];
      i := i + 1;
    }
    rest := s[i..];
  }

  method Parse(format: Text) returns (r: Option<(Text, Spec, Text)>)
    ensures r == ParseFormat(format)
  {
    var p := TakePrefix(format);
    if p.None? {
      return None;
    }
    var spec, s := TakeFlags(p.value.1);
    var width;
    width, s := TakeNumber(s);
    var precision := None;
    if s != [] && s[0] == POINT {
      var n;
      n, s := TakeNumber(s[1..]);
      precision := Some(n);
    }
    s := TakeLength(s);
    if s == [] || !TakesInt(s[0]) {
      return None;
    }
    spec := spec.(width := width, precision := precision, conversion := s[0]);
    var suffix := TakeSuffix(s[1..]);
    r := if suffix.None? then None else Some((p.value.0, spec, suffix.value));
  }

  // ---------------------------------------------------------------------------
  // Printing
  // ---------------------------------------------------------------------------

  predicate Signed(c: byte) {
    c == 100 || c == 105
  }

  predicate Hex(c: byte) {
    c == 120 || c == 88
  }

  /** A 32-bit number as it is printed: its magnitude, or its bits. */
  function Magnitude(s: Spec, v: int): nat
    requires -0x8000_0000 <= v < 0x8000_0000
  {
    if Signed(s.conversion) then (if v < 0 then -v else v) else v % 0x1_0000_0000
  }

  function Base(s: Spec): Radix {
    if Hex(s.conversion) then 16 else if s.conversion == 111 then 8 else 10
  }

  /** The digits with as many zeros before them as the precision asks for; of 0 there may be none. */
  function Digits(s: Spec, v: int): Text
    requires -0x8000_0000 <= v < 0x8000_0000
  {
    var digits := Numeral(Magnitude(s, v), Base(s), s.conversion == 88);
    match s.precision
    case None => digits
    case Some(p) =>
      if p == 0 && v == 0 then [] else if |digits| < p then Repeat(ZERO, p - |digits|) + digits else digits
  }

  /** The sign, or the prefix of the alternative form. */
  function Head(s: Spec, v: int): Text
    requires -0x8000_0000 <= v < 0x8000_0000
  {
    if Signed(s.conversion) then
      if v < 0 then [MINUS] else if s.plus then [PLUS] else if s.space then [SPACE] else []
    else if Hex(s.conversion) then (if s.alt && v != 0 then [ZERO, s.conversion] else [])
    else if s.conversion == 111 then (if s.alt && (Digits(s, v) == [] || Digits(s, v)[0] != ZERO) then [ZERO] else [])
    else []
  }

  function Fill(s: Spec, v: int): nat
    requires -0x8000_0000 <= v < 0x8000_0000
  {
    var n := |Head(s, v)| + |Digits(s, v)|;
    if s.width > n then s.width - n else 0
  }

  /** One number printed. */
  function IntText(s: Spec, v: int): Text
    requires -0x8000_0000 <= v < 0x8000_0000
  {
    var fill := Fill(s, v);
    if fill == 0 then Head(s, v) + Digits(s, v)
    else if s.left then Head(s, v) + (Digits(s, v) + Repeat(SPACE, fill))
    else if s.zero && s.precision.None? then Head(s, v) + (Repeat(ZERO, fill) + Digits(s, v))
    else Repeat(SPACE, fill) + (Head(s, v) + Digits(s, v))
  }

  function FormatInt(format: Text, v: int): Option<Text>
    requires -0x8000_0000 <= v < 0x8000_0000
  {
    match ParseFormat(format)
    case None => None
    case Some((prefix, s, suffix)) => Some(prefix + (IntText(s, v) + suffix))
  }

  // ---------------------------------------------------------------------------
  // Reading back what was printed
  // ---------------------------------------------------------------------------

  /** Blanks before and behind, and zeros before the digits: only one of them fills the width. */
  function Leading(s: Spec, v: int): nat
    requires -0x8000_0000 <= v < 0x8000_0000
  {
    if s.left || (s.zero && s.precision.None?) then 0 else Fill(s, v)
  }

  function Trailing(s: Spec, v: int): nat
    requires -0x8000_0000 <= v < 0x8000_0000
  {
    if s.left then Fill(s, v) else 0
  }

  function Padded(s: Spec, v: int): Text
    requires -0x8000_0000 <= v < 0x8000_0000
  {
    (if !s.left && s.zero && s.precision.None? then Repeat(ZERO, Fill(s, v)) else []) + Digits(s, v)
  }

  lemma {:induction false} NoFill(t: Text)
    ensures Repeat(SPACE, 0) + t == t && t + Repeat(SPACE, 0) == t && Repeat(ZERO, 0) + t == t && [] + t == t
  {
  }

  /** A printed number is blanks, head, digits and blanks, whatever the flags. */
  lemma {:induction false} TextParts(s: Spec, v: int, rest: Text)
    requires -0x8000_0000 <= v < 0x8000_0000
    ensures IntText(s, v) + rest
         == Repeat(SPACE, Leading(s, v)) + (Head(s, v) + (Padded(s, v) + (Repeat(SPACE, Trailing(s, v)) + rest)))
  {
    var fill, h, d := Fill(s, v), Head(s, v), Digits(s, v);
    NoFill(rest);
    NoFill(d);
    if s.left {
      NoFill(h + (d + (Repeat(SPACE, fill) + rest)));
      if fill == 0 {
        Assoc(h, d, rest);
      } else {
        Assoc(h, d + Repeat(SPACE, fill), rest);
        Assoc(d, Repeat(SPACE, fill), rest);
      }
    } else if s.zero && s.precision.None? {
      NoFill(h + (Padded(s, v) + rest));
      if fill == 0 {
        Assoc(h, d, rest);
      } else {
        Assoc(h, Repeat(ZERO, fill) + d, rest);
      }
    } else {
      Assoc(h, d, rest);
      NoFill(h + (d + rest));
      if fill > 0 {
        Assoc(Repeat(SPACE, fill), h + d, rest);
      }
    }
  }

  /** A printed number takes at least its width, and no more than its sign and digits need beyond that. */
  lemma {:induction false} PrintedWidth(s: Spec, v: int)
    requires -0x8000_0000 <= v < 0x8000_0000
    ensures var n := |Head(s, v)| + |Digits(s, v)|;
            |IntText(s, v)| == if s.width > n then s.width else n
  {
  }

  /**
   * Where it is filled: blanks behind it with `-`, zeros behind its head with `0`, unless there is a `-` or a precision,
   * and blanks before it otherwise.
   */
  lemma {:induction false} PrintedSides(s: Spec, v: int, i: nat)
    requires -0x8000_0000 <= v < 0x8000_0000 && i < |IntText(s, v)|
    ensures var text, h, d := IntText(s, v), Head(s, v), Digits(s, v);
            var fill := |text| - |h| - |d|;
            if s.left then h + d <= text && (i >= |h| + |d| ==> text[i] == SPACE)
            else if s.zero && s.precision.None? then
              h <= text && text[|text| - |d|..] == d && (|h| <= i < |h| + fill ==> text[i] == ZERO)
            else text[fill..] == h + d && (i < fill ==> text[i] == SPACE)
  {
    var text, h, d := IntText(s, v), Head(s, v), Digits(s, v);
    var fill := Fill(s, v);
    if fill > 0 {
      assert s.left ==> text == (h + d) + Repeat(SPACE, fill);
      assert !s.left && s.zero && s.precision.None? ==> text == (h + Repeat(ZERO, fill)) + d;
    }
  }

  predicate PrintsNothing(s: Spec, v: int) {
    v == 0 && s.precision == Some(0)
  }

  lemma {:induction false} ZerosBefore(k: nat, d: Text, radix: nat)
    requires AllDigits(d, radix) && radix > 0
    ensures AllDigits(Repeat(ZERO, k) + d, radix) && Value(Repeat(ZERO, k) + d, radix) == Value(d, radix)
  {
    LeadingZeros(k, d, radix);
  }

  lemma {:induction false} DigitsValue(s: Spec, v: int)
    requires -0x8000_0000 <= v < 0x8000_0000 && !PrintsNothing(s, v)
    ensures Digits(s, v) != [] && AllDigits(Digits(s, v), Base(s)) && Value(Digits(s, v), Base(s)) == Magnitude(s, v)
  {
    var digits := Numeral(Magnitude(s, v), Base(s), s.conversion == 88);
    NumeralValue(Magnitude(s, v), Base(s), s.conversion == 88);
    if s.precision.Some? && |digits| < s.precision.value {
      ZerosBefore(s.precision.value - |digits|, digits, Base(s));
    }
  }

  /** The digits printed, zeros and all, are a numeral of the number. */
  lemma {:induction false} PaddedValue(s: Spec, v: int)
    requires -0x8000_0000 <= v < 0x8000_0000 && !PrintsNothing(s, v)
    ensures Padded(s, v) != [] && AllDigits(Padded(s, v), Base(s)) && Value(Padded(s, v), Base(s)) == Magnitude(s, v)
  {
    var digits := Digits(s, v);
    DigitsValue(s, v);
    if !s.left && s.zero && s.precision.None? {
      ZerosBefore(Fill(s, v), digits, Base(s));
    } else {
      NoFill(digits);
    }
  }

  lemma {:induction false} DigitCase(d: nat, upper: bool)
    requires d < 16
    ensures var b := Digit(d, upper); IsDigit(b, 10) || (if upper then 65 <= b <= 70 else 97 <= b <= 102)
  {
  }

  lemma {:induction false} NumeralCase(n: nat, radix: Radix, upper: bool, i: nat)
    requires i < |Numeral(n, radix, upper)|
    ensures var b := Numeral(n, radix, upper)[i]; IsDigit(b, 10) || (if upper then 65 <= b <= 70 else 97 <= b <= 102)
    decreases n
  {
    if n >= radix && i < |Numeral(n / radix, radix, upper)| {
      NumeralCase(n / radix, radix, upper, i);
    } else {
      DigitCase(n % radix, upper);
    }
  }

  /**
   * The digits of a printed number stand for its magnitude, or for its 32 bits, in the base of its conversion; there are
   * at least as many as the precision asks for, no zero before them without one, and of 0 with precision 0 there is none.
   */
  lemma {:induction false} PrintedDigits(s: Spec, v: int)
    requires -0x8000_0000 <= v < 0x8000_0000 && s.conversion in INT_LETTERS
    ensures var c, d := s.conversion, Digits(s, v);
            && (d == [] <==> v == 0 && s.precision == Some(0))
            && (s.precision.Some? ==> |d| >= s.precision.value)
            && (d != [] && d[0] == ZERO ==> v == 0 || (s.precision.Some? && |d| == s.precision.value))
            && (c == 100 || c == 105 ==> AllDigits(d, 10) && Value(d, 10) == if v < 0 then -v else v)
            && (c == 117 ==> AllDigits(d, 10) && Value(d, 10) == v % 0x1_0000_0000)
            && (c == 111 ==> AllDigits(d, 8) && Value(d, 8) == v % 0x1_0000_0000)
            && (c == 120 || c == 88 ==> AllDigits(d, 16) && Value(d, 16) == v % 0x1_0000_0000)
  {
    if !PrintsNothing(s, v) {
      DigitsValue(s, v);
    }
    NumeralHead(Magnitude(s, v), Base(s), s.conversion == 88);
  }

  /** Hexadecimal digits above 9 are small with `%x` and capital with `%X`. */
  lemma {:induction false} PrintedCase(s: Spec, v: int, i: nat)
    requires -0x8000_0000 <= v < 0x8000_0000 && Hex(s.conversion) && i < |Digits(s, v)|
    ensures var b := Digits(s, v)[i]; IsDigit(b, 10) || (if s.conversion == 88 then 65 <= b <= 70 else 97 <= b <= 102)
  {
    var digits := Numeral(Magnitude(s, v), Base(s), s.conversion == 88);
    var zeros := |Digits(s, v)| - |digits|;
    if i >= zeros {
      NumeralCase(Magnitude(s, v), Base(s), s.conversion == 88, i - zeros);
      assert zeros > 0 ==> Digits(s, v) == Repeat(ZERO, zeros) + digits;
    }
  }

  /** What goes before the digits: a sign where there is room for one, and `0` or `0x` in the alternative form. */
  lemma {:induction false} PrintedHead(s: Spec, v: int)
    requires -0x8000_0000 <= v < 0x8000_0000 && s.conversion in INT_LETTERS
    ensures var c, h, d := s.conversion, Head(s, v), Digits(s, v);
            && (c == 100 || c == 105 ==> h == if v < 0 then [45] else if s.plus then [43] else if s.space then [32] else [])
            && (c == 117 ==> h == [])
            && (c == 111 ==> h == [] || h == [ZERO])
            && (c == 111 && s.alt ==> h + d != [] && (h + d)[0] == ZERO && (h != [] && d != [] ==> d[0] != ZERO))
            && (c == 111 && !s.alt ==> h == [])
            && (c == 120 || c == 88 ==> h == if s.alt && v != 0 then [ZERO, c] else [])
  {
  }

  lemma {:induction false} BehindBlanks(n: nat, rest: Text)
    ensures n > 0 ==> (Repeat(SPACE, n) + rest)[0] == SPACE
    ensures n == 0 ==> Repeat(SPACE, n) + rest == rest
  {
  }

  lemma {:induction false} BlanksEndDigits(n: nat, rest: Text)
    requires rest == [] || !IsDigit(rest[0], 10)
    ensures var t := Repeat(SPACE, n) + rest; t == [] || !IsDigit(t[0], 10)
  {
    BehindBlanks(n, rest);
  }

  lemma {:induction false} HeadIsSign(s: Spec, v: int)
    requires -0x8000_0000 <= v < 0x8000_0000 && Signed(s.conversion)
    ensures Base(s) == 10 && (Head(s, v) == [] || Head(s, v) == [MINUS] || Head(s, v) == [PLUS] || Head(s, v) == [SPACE])
    ensures Clamped(Head(s, v) == [MINUS], Magnitude(s, v)) == v
  {
  }

  /**
   * What `%d` and `%i` print, `%d` reads back, for every 32-bit number, flag, width and precision, up to a
   * byte that cannot go on with the number.
   */
  lemma {:induction false} DecimalReadsBack(s: Spec, v: int, rest: Text)
    requires -0x8000_0000 <= v < 0x8000_0000 && Signed(s.conversion) && !PrintsNothing(s, v)
    requires rest == [] || !IsDigit(rest[0], 10)
    ensures ScanInt(IntText(s, v) + rest) == Some((v, Repeat(SPACE, Trailing(s, v)) + rest))
  {
    TextParts(s, v, rest);
    PaddedValue(s, v);
    HeadIsSign(s, v);
    BlanksEndDigits(Trailing(s, v), rest);
    IntReads(Leading(s, v), Head(s, v), Padded(s, v), Repeat(SPACE, Trailing(s, v)) + rest);
  }

  lemma {:induction false} BitsReadBack(v: int)
    requires -0x8000_0000 <= v < 0x8000_0000
    ensures Low32(false, v % 0x1_0000_0000) == v
  {
  }

  /** And what `%x` and `%X` print, `%x` reads back, negative numbers and the `0x` prefix included. */
  lemma {:induction false} HexReadsBack(s: Spec, v: int, rest: Text)
    requires -0x8000_0000 <= v < 0x8000_0000 && Hex(s.conversion) && !PrintsNothing(s, v)
    requires EndsHex(rest)
    ensures ScanHex(IntText(s, v) + rest) == Some((v, Repeat(SPACE, Trailing(s, v)) + rest))
  {
    TextParts(s, v, rest);
    PaddedValue(s, v);
    BehindBlanks(Trailing(s, v), rest);
    BitsReadBack(v);
    HexReads(Leading(s, v), Head(s, v), Padded(s, v), Repeat(SPACE, Trailing(s, v)) + rest);
  }

  lemma {:induction false} BlankOnly(a: nat, sign: Text, b: nat)
    requires sign == [] || sign == [PLUS] || sign == [SPACE]
    ensures ScanInt(Repeat(SPACE, a) + (sign + Repeat(SPACE, b))) == None
    ensures ScanHex(Repeat(SPACE, a) + (sign + Repeat(SPACE, b))) == None
  {
    var tail := Repeat(SPACE, b);
    BlanksSkipped(a, sign + tail);
    BlanksSkipped(b, []);
    assert tail + [] == tail;
    if sign == [SPACE] {
      BlanksSkipped(1, tail);
      assert Repeat(SPACE, 1) == [SPACE];
    }
    assert sign == [] ==> sign + tail == tail;
    assert sign == [PLUS] ==> TrimStart(sign + tail) == sign + tail && (sign + tail)[1..] == tail;
  }

  lemma {:induction false} NothingReadsBack(s: Spec, v: int)
    requires -0x8000_0000 <= v < 0x8000_0000 && PrintsNothing(s, v) && (Signed(s.conversion) || Hex(s.conversion))
    ensures ScanInt(IntText(s, v)) == None && ScanHex(IntText(s, v)) == None
  {
    TextParts(s, v, []);
    assert IntText(s, v) + [] == IntText(s, v);
    assert Padded(s, v) == [];
    var b := Repeat(SPACE, Trailing(s, v));
    assert b + [] == b && [] + b == b;
    BlankOnly(Leading(s, v), Head(s, v), Trailing(s, v));
  }

  /** A printed number alone is read back exactly unless it is 0 with precision 0, which prints no digit. */
  lemma {:induction false} ReadsBackUnlessEmpty(s: Spec, v: int)
    requires -0x8000_0000 <= v < 0x8000_0000
    ensures Signed(s.conversion) ==>
              (ScanInt(IntText(s, v)).Some? && ScanInt(IntText(s, v)).value.0 == v <==> !PrintsNothing(s, v))
    ensures Hex(s.conversion) ==>
              (ScanHex(IntText(s, v)).Some? && ScanHex(IntText(s, v)).value.0 == v <==> !PrintsNothing(s, v))
  {
    assert IntText(s, v) + [] == IntText(s, v);
    if Signed(s.conversion) || Hex(s.conversion) {
      if PrintsNothing(s, v) {
        NothingReadsBack(s, v);
      } else if Signed(s.conversion) {
        DecimalReadsBack(s, v, []);
      } else {
        HexReadsBack(s, v, []);
      }
    }
  }

  /**
   * The whole way: a number printed with a spelled-out format scans back behind the format's prefix, followed by its
   * suffix, whichever of `%d`, `%i`, `%x` and `%X` it is.
   */
  lemma {:induction false} PrintedThenScanned(prefix: Text, s: Spec, lengths: Text, suffix: Text, v: int)
    requires -0x8000_0000 <= v < 0x8000_0000 && !PrintsNothing(s, v) && Lengths(lengths)
    requires if Signed(s.conversion) then suffix == [] || !IsDigit(suffix[0], 10) else Hex(s.conversion) && EndsHex(suffix)
    ensures var format := Escape(prefix) + ([PERCENT] + (SpecText(s, lengths) + Escape(suffix)));
            && FormatInt(format, v).Some? && prefix <= FormatInt(format, v).value
            && var printed := FormatInt(format, v).value[|prefix|..];
               (if Signed(s.conversion) then ScanInt(printed) else ScanHex(printed))
               == Some((v, Repeat(SPACE, Trailing(s, v)) + suffix))
  {
    FormatReads(prefix, s, lengths, suffix);
    var number := IntText(s, v) + suffix;
    assert (prefix + number)[|prefix|..] == number && prefix <= prefix + number;
    if Signed(s.conversion) {
      DecimalReadsBack(s, v, suffix);
    } else {
      HexReadsBack(s, v, suffix);
    }
  }

  lemma {:induction false} ClampedBits(v: int)
    requires -0x8000_0000 <= v < 0x8000_0000
    ensures Clamped(false, v % 0x1_0000_0000) == if v >= 0 then v else 0x7FFF_FFFF
  {
  }

  /** `%u` reads back as a signed number exactly when it was not negative; a negative one saturates. */
  lemma {:induction false} UnsignedReadsBack(s: Spec, v: int)
    requires -0x8000_0000 <= v < 0x8000_0000 && s.conversion == 117 && !PrintsNothing(s, v)
    ensures ScanInt(IntText(s, v)) == Some((if v >= 0 then v else 0x7FFF_FFFF, Repeat(SPACE, Trailing(s, v))))
  {
    var blanks := Repeat(SPACE, Trailing(s, v));
    TextParts(s, v, []);
    PaddedValue(s, v);
    assert IntText(s, v) + [] == IntText(s, v) && blanks + [] == blanks;
    assert Head(s, v) == [];
    BehindBlanks(Trailing(s, v), []);
    ClampedBits(v);
    IntReads(Leading(s, v), [], Padded(s, v), blanks);
  }
}
