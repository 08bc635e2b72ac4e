/** The link of a record, `@PLC tag[index] flags...` (drivers/ether-ip/src/device.rs). */
module Links {
  import opened Wrappers
  import opened Bytes
  import opened Numerals
  import opened Words
  import opened Bits
  import opened Cip
  import opened BitArray
  import CScan
  import TagPath

  const AT: byte := 64
  const TWO_63 := 9_223_372_036_854_775_808.0

  // ---------------------------------------------------------------------------
  // Tokens
  // ---------------------------------------------------------------------------

  function SkipBlanks(t: Text): (u: Text)
    ensures |u| <= |t| && (u != [] ==> u[0] != SPACE)
  {
    if t != [] && t[0] == SPACE then SkipBlanks(t[1..]) else t
  }

  /** How far it is to the next space. */
  function TokenLength(t: Text): (n: nat)
    ensures n <= |t| && (t != [] && t[0] != SPACE ==> n > 0)
  {
    if t == [] || t[0] == SPACE then 0 else 1 + TokenLength(t[1..])
  }

  method FindToken(text: Text, from: nat) returns (r: Option<(nat, nat)>)
    requires from <= |text|
    ensures match r
            case None => SkipBlanks(text[from..]) == []
            case Some(found) =>
              && from <= found.0 < found.1 <= |text|
              && text[found.0..] == SkipBlanks(text[from..])
              && found.1 - found.0 == TokenLength(text[found.0..])
  {
    var start := from;
    while start < |text| && text[start] == SPACE
      invariant from <= start <= |text|
      invariant SkipBlanks(text[start..]) == SkipBlanks(text[from..])
    {
      assert text[start..][1..] == text[start + 1..];
      start := start + 1;
    }
    if start == |text| {
      return None;
    }
    var end := start;
    while end < |text| && text[end] != SPACE
      invariant start <= end <= |text|
      invariant TokenLength(text[start..]) == end - start + TokenLength(text[end..])
    {
      assert text[end..][1..] == text[end + 1..];
      end := end + 1;
    }
    return Some((start, end));
  }

  // ---------------------------------------------------------------------------
  // Flags
  // ---------------------------------------------------------------------------

  datatype Flag =
    | SingleElement | ScanPeriod | BitNumber | Force
    | PlcErrors | PlcTaskSlow
    | ListErrors | ListTicks | ListScanTime | ListMinScanTime | ListMaxScanTime
    | TagTransferTime | ListTime

  /** What reading a floating-point number comes to. */
  datatype Double = Finite(value: real) | Infinite | NaN

  /**
   * What a link is taken apart with: the flag a text starts with, and the number a text starts with and
   * how many bytes it takes.
   */
  datatype Reader = Reader(flag: Text -> Option<Flag>, number: Text -> (Double, nat))

  predicate TakesNumber(f: Flag) {
    f == ScanPeriod || f == BitNumber
  }

  /** A reader of numbers takes no more than it is given. */
  ghost predicate WithinText(number: Text -> (Double, nat)) {
    forall t: Text :: number(t).1 <= |t|
  }

  /** Numbers are read within the text, and behind two letters of flag. */
  ghost predicate Bounded(rd: Reader) {
    && WithinText(rd.number)
    && (forall t: Text :: rd.flag(t).Some? && TakesNumber(rd.flag(t).value) ==> |t| >= 2)
  }

  function Truncated(x: real): int {
    if x >= 0.0 then x.Floor else -(-x).Floor
  }

  /** A number cast to a 64-bit `size_t`: a negative one wraps, and what is out of range is 2^63. */
  function SizeOf(v: Double): nat {
    match v
    case Finite(x) =>
      if -TWO_63 < x < TWO_63 then TagPath.AsUsize(Truncated(x))
      else if TWO_63 <= x < 2.0 * TWO_63 then x.Floor
      else 0x8000_0000_0000_0000
    case _ => 0x8000_0000_0000_0000
  }

  datatype LinkError =
    | MissingPlc
    | MissingTag
    | InvalidFlag(rest: Text)
    | ArrayWithSingleElement
    | BadPeriod
    | MalformedIndex
    | UnknownPlc
    | BitsOfArray

  datatype Options = Options(flags: set<Flag>, period: Double, bit: nat)

  const NO_OPTIONS := Options({}, Finite(0.0), 0)

  /** One flag taken off the head of a text, with the number behind it if it has one. */
  function TakeFlag(o: Options, f: Flag, t: Text, count: nat, rd: Reader): (r: Result<(Options, Text), LinkError>)
    requires Bounded(rd) && t != [] && t[0] != SPACE && rd.flag(t) == Some(f)
    ensures r.Ok? ==> |r.value.1| < |t|
  {
    var q := o.(flags := o.flags + {f});
    match f
    case SingleElement =>
      if count != 1 then Err(ArrayWithSingleElement) else Ok((q, t[TokenLength(t)..]))
    case ScanPeriod =>
      var read := rd.number(t[2..]);
      if read.0.Infinite? then Err(BadPeriod) else Ok((q.(period := read.0), t[2 + read.1..]))
    case BitNumber =>
      var read := rd.number(t[2..]);
      Ok((q.(bit := SizeOf(read.0)), t[2 + read.1..]))
    case _ => Ok((q, t[TokenLength(t)..]))
  }

  function ReadFlags(o: Options, t: Text, count: nat, rd: Reader): Result<Options, LinkError>
    requires Bounded(rd)
    decreases |t|
  {
    var u := SkipBlanks(t);
    if u == [] then Ok(o)
    else
      match rd.flag(u)
      case None => Err(InvalidFlag(u))
      case Some(f) =>
        match TakeFlag(o, f, u, count, rd)
        case Err(e) => Err(e)
        case Ok(taken) => ReadFlags(taken.0, taken.1, count, rd)
  }

  /** One flag of a text from `p` on, whose token ends before `e`. */
  method TakeOne(o: Options, f: Flag, text: Text, p: nat, e: nat, count: nat, rd: Reader)
    returns (r: Result<Options, LinkError>, end: nat)
    requires Bounded(rd) && p < e <= |text| && text[p] != SPACE && rd.flag(text[p..]) == Some(f)
    requires e - p == TokenLength(text[p..])
    ensures match TakeFlag(o, f, text[p..], count, rd)
            case Err(error) => r == Err(error)
            case Ok(taken) => p < end <= |text| && r == Ok(taken.0) && text[end..] == taken.1
  {
    end := e;
    assert text[p..][e - p..] == text[e..];
    var q := o.(flags := o.flags + {f});
    if f == SingleElement && count != 1 {
      return Err(ArrayWithSingleElement), end;
    } else if f == ScanPeriod || f == BitNumber {
      var number := text[p + 2..];
      assert text[p..][2..] == number;
      var read := rd.number(number);
      if f == BitNumber {
        q := q.(bit := SizeOf(read.0));
      } else if read.0.Infinite? {
        return Err(BadPeriod), end;
      } else {
        q := q.(period := read.0);
      }
      end := p + 2 + read.1;
      assert text[p..][2 + read.1..] == text[end..];
    }
    r := Ok(q);
  }

  method TakeFlags(text: Text, from: nat, count: nat, rd: Reader) returns (r: Result<Options, LinkError>)
    requires from <= |text| && Bounded(rd)
    ensures r == ReadFlags(NO_OPTIONS, text[from..], count, rd)
  {
    var o := NO_OPTIONS;
    var end := from;
    while true
      invariant end <= |text|
      invariant ReadFlags(o, text[end..], count, rd) == ReadFlags(NO_OPTIONS, text[from..], count, rd)
      decreases |text| - end
    {
      var token := FindToken(text, end);
      if token.None? {
        return Ok(o);
      }
      var p := token.value.0;
      var rest := text[p..];
      var flag := rd.flag(rest);
      if flag.None? {
        return Err(InvalidFlag(rest));
      }
      var taken, next := TakeOne(o, flag.value, text, p, token.value.1, count, rd);
      if taken.Err? {
        return Err(taken.error);
      }
      o, end := taken.value, next;
    }
  }

  // ---------------------------------------------------------------------------
  // The index
  // ---------------------------------------------------------------------------

  /** The base of a C numeral, told by its prefix; `0b` is binary as in glibc. */
  function RadixOf(u: Text): nat {
    if CScan.PrefixLength(u) > 0 then 16
    else if |u| > 2 && u[0] == ZERO && (u[1] == 98 || u[1] == 66) && IsDigit(u[2], 2) then 2
    else if u != [] && u[0] == ZERO then 8
    else 10
  }

  /** C's `strtol` in base 0; None when it reads no digit, or ends up at the limits of 64 bits. */
  function ReadIndex(s: Text): Option<nat> {
    var t := SkipSpace(s);
    var u := t[CScan.SignLength(t)..];
    var radix := RadixOf(u);
    var digits := if radix == 16 || radix == 2 then u[2..] else u;
    var n := DigitRun(digits, radix);
    var v: int := if CScan.Negative(t) then 0 - Value(digits[..n], radix) else Value(digits[..n], radix);
    if n == 0 || v <= -0x8000_0000_0000_0000 || v >= 0x7FFF_FFFF_FFFF_FFFF then None else Some(TagPath.AsUsize(v))
  }

  /** The last '[' of a text. */
  function LastOpen(t: Text): (r: Option<nat>)
    ensures r.Some? ==> r.value < |t|
  {
    if t == [] then None
    else if t[|t| - 1] == TagPath.OPEN then Some(|t| - 1)
    else LastOpen(t[..|t| - 1])
  }

  /** A tag's name and the index behind it, unless the PLC is to do the indexing. */
  function SplitIndex(tag: Text, single: bool): Result<(Text, Option<nat>), LinkError> {
    if tag != [] && tag[|tag| - 1] == TagPath.CLOSE && !single then
      match LastOpen(tag[..|tag| - 1])
      case None => Err(MalformedIndex)
      case Some(open) =>
        if open == 0 then Err(MalformedIndex)
        else
          match ReadIndex(tag[open + 1..])
          case None => Err(MalformedIndex)
          case Some(n) => Ok((tag[..open], Some(n)))
    else Ok((tag, None))
  }

  // ---------------------------------------------------------------------------
  // The link
  // ---------------------------------------------------------------------------

  datatype Link = Link(plcName: Text, stringTag: Text, indexed: bool, flags: set<Flag>, period: real, target: Target)

  /** What a record asks for, and what its link finds around it: its own period, and the PLCs there are. */
  datatype Record = Record(count: nat, bits: nat, period: real, known: set<Text>)

  /** What a tag, its index and the flags come to. */
  function Bind(plc: Text, tag: Text, index: Option<nat>, o: Options, rec: Record): Result<Link, LinkError> {
    if plc !in rec.known then Err(UnknownPlc)
    else
      match FoldLink(index.Some?, if index.Some? then index.value else 0, BitNumber in o.flags, o.bit, rec.bits, rec.count)
      case None => Err(BitsOfArray)
      case Some(target) =>
        var period := if o.period.Finite? && o.period.value > 0.0 then o.period.value else rec.period;
        Ok(Link(plc, tag, index.Some?, o.flags, period, target))
  }

  /** The steps behind the flags. */
  function Resolve(plc: Text, tag: Text, o: Options, rec: Record): Result<Link, LinkError> {
    match SplitIndex(tag, SingleElement in o.flags)
    case Err(e) => Err(e)
    case Ok(split) => Bind(plc, split.0, split.1, o, rec)
  }

  /** A token and the text behind it. */
  function NextToken(t: Text): Option<(Text, Text)> {
    var u := SkipBlanks(t);
    if u == [] then None else Some((u[..TokenLength(u)], u[TokenLength(u)..]))
  }

  lemma {:induction false} Cut(t: Text, a: nat, b: nat)
    requires a <= b <= |t|
    ensures t[a..][..b - a] == t[a..b] && t[a..][b - a..] == t[b..]
  {
  }

  method TakeToken(text: Text, from: nat) returns (r: Option<(Text, nat)>)
    requires from <= |text|
    ensures match r
            case None => NextToken(text[from..]) == None
            case Some(found) => found.1 <= |text| && NextToken(text[from..]) == Some((found.0, text[found.1..]))
  {
    var token := FindToken(text, from);
    if token.None? {
      return None;
    }
    Cut(text, token.value.0, token.value.1);
    r := Some((text[token.value.0..token.value.1], token.value.1));
  }

  function LinkOf(text: Text, rec: Record, rd: Reader): Result<Link, LinkError>
    requires Bounded(rd)
  {
    match NextToken(if text != [] && text[0] == AT then text[1..] else text)
    case None => Err(MissingPlc)
    case Some(plc) =>
      match NextToken(plc.1)
      case None => Err(MissingTag)
      case Some(tag) =>
        match ReadFlags(NO_OPTIONS, tag.1, rec.count, rd)
        case Err(e) => Err(e)
        case Ok(o) => Resolve(plc.0, tag.0, o, rec)
  }

  method AnalyzeLink(text: Text, rec: Record, rd: Reader) returns (r: Result<Link, LinkError>)
    requires Bounded(rd)
    ensures r == LinkOf(text, rec, rd)
  {
    var t := if text != [] && text[0] == AT then text[1..] else text;
    assert t[0..] == t;
    var plc := TakeToken(t, 0);
    if plc.None? {
      return Err(MissingPlc);
    }
    var tag := TakeToken(t, plc.value.1);
    if tag.None? {
      return Err(MissingTag);
    }
    var o := TakeFlags(t, tag.value.1, rec.count, rd);
    if o.Err? {
      return Err(o.error);
    }
    r := Resolve(plc.value.0, tag.value.0, o.value, rec);
  }

  // ---------------------------------------------------------------------------
  // The flags' own words
  // ---------------------------------------------------------------------------

  /** Flags in the order they are looked for. */
  const FLAGS := [SingleElement, ScanPeriod, BitNumber, Force, PlcErrors, PlcTaskSlow, ListErrors, ListTicks,
                  ListScanTime, ListMinScanTime, ListMaxScanTime, TagTransferTime, ListTime]

  function LeadingWords(): (ws: seq<Text>)
    ensures |ws| == 6
  {
    [Ascii("E"), Ascii("S "), Ascii("B "), Ascii("FORCE"), Ascii("PLC_ERRORS"), Ascii("PLC_TASK_SLOW")]
  }

  function ListWords(): (ws: seq<Text>)
    ensures |ws| == 3
  {
    [Ascii("LIST_ERRORS"), Ascii("LIST_TICKS"), Ascii("LIST_SCAN_TIME")]
  }

  function LastWords(): (ws: seq<Text>)
    ensures |ws| == 4
  {
    [Ascii("LIST_MIN_SCAN_TIME"), Ascii("LIST_MAX_SCAN_TIME"), Ascii("TAG_TRANSFER_TIME"), Ascii("LIST_TIME")]
  }

  function OtherWords(): (ws: seq<Text>)
    ensures |ws| == 7
  {
    ListWords() + LastWords()
  }

  function FlagWords(): (ws: seq<Text>)
    ensures |ws| == 13
  {
    LeadingWords() + OtherWords()
  }

  /** The flag a text starts with; anything may follow it. */
  function FlagOf(t: Text): Option<Flag> {
    match ReadChoice(FlagWords(), t) case None => None case Some(i) => Some(FLAGS[i])
  }

  function Place(f: Flag): (i: nat)
    ensures i < 13
  {
    match f
    case SingleElement => 0 case ScanPeriod => 1 case BitNumber => 2 case Force => 3
    case PlcErrors => 4 case PlcTaskSlow => 5
    case ListErrors => 6 case ListTicks => 7 case ListScanTime => 8 case ListMinScanTime => 9 case ListMaxScanTime => 10
    case TagTransferTime => 11 case ListTime => 12
  }

  function Word(f: Flag): Text {
    FlagWords()[Place(f)]
  }

  lemma {:induction false} PlaceHolds(f: Flag)
    ensures FLAGS[Place(f)] == f
  {
  }

  lemma {:induction false} LeadingPrefixFree()
    ensures PrefixFree(LeadingWords())
  {
  }

  lemma {:induction false} ListPrefixFree()
    ensures PrefixFree(ListWords())
  {
  }

  lemma {:induction false} LastPrefixFree()
    ensures PrefixFree(LastWords())
  {
  }

  lemma {:induction false} ListApart(i: nat, j: nat)
    requires i < 3 && j < 4
    ensures Apart(ListWords()[i], LastWords()[j])
  {
  }

  lemma {:induction false} OthersPrefixFree()
    ensures PrefixFree(OtherWords())
  {
    ListPrefixFree();
    LastPrefixFree();
    forall i, j | 0 <= i < 3 && 0 <= j < 4
      ensures Apart(ListWords()[i], LastWords()[j])
    {
      ListApart(i, j);
    }
    PrefixFreeJoin(ListWords(), LastWords());
  }

  lemma {:induction false} LeadingApart(i: nat, j: nat)
    requires i < 6 && j < 7
    ensures Apart(LeadingWords()[i], OtherWords()[j])
  {
  }

  lemma {:induction false} FlagWordsPrefixFree()
    ensures PrefixFree(FlagWords())
  {
    LeadingPrefixFree();
    OthersPrefixFree();
    forall i, j | 0 <= i < 6 && 0 <= j < 7
      ensures Apart(LeadingWords()[i], OtherWords()[j])
    {
      LeadingApart(i, j);
    }
    PrefixFreeJoin(LeadingWords(), OtherWords());
  }

  /** Every flag is found by its word. */
  lemma {:induction false} FlagFound(f: Flag, rest: Text)
    ensures FlagOf(Word(f) + rest) == Some(f)
  {
    FlagWordsPrefixFree();
    ChoiceReads(FlagWords(), Place(f), rest);
    PlaceHolds(f);
  }

  /** How the first six flags are spelled, and the others. */
  lemma {:induction false} LeadingSpelled()
    ensures Word(SingleElement) == Ascii("E") && Word(ScanPeriod) == Ascii("S ") && Word(BitNumber) == Ascii("B ")
    ensures Word(Force) == Ascii("FORCE") && Word(PlcErrors) == Ascii("PLC_ERRORS") && Word(PlcTaskSlow) == Ascii("PLC_TASK_SLOW")
  {
  }

  lemma {:induction false} OthersSpelled()
    ensures Word(ListErrors) == Ascii("LIST_ERRORS") && Word(ListTicks) == Ascii("LIST_TICKS")
    ensures Word(ListScanTime) == Ascii("LIST_SCAN_TIME") && Word(ListMinScanTime) == Ascii("LIST_MIN_SCAN_TIME")
    ensures Word(ListMaxScanTime) == Ascii("LIST_MAX_SCAN_TIME") && Word(ListTime) == Ascii("LIST_TIME")
    ensures Word(TagTransferTime) == Ascii("TAG_TRANSFER_TIME")
  {
  }

  lemma {:induction false} WordStarts(f: Flag)
    ensures Word(f) != [] && Word(f)[0] != SPACE
  {
  }

  /** Words have no blanks, but for the one behind a flag that takes a number. */
  lemma {:induction false} WordIs(f: Flag)
    ensures if TakesNumber(f) then |Word(f)| == 2 else SPACE !in Word(f)
  {
    if Place(f) < 6 {
      LeadingBlanks(Place(f));
    } else {
      OtherBlanks(Place(f) - 6);
    }
  }

  lemma {:induction false} LeadingBlanks(i: nat)
    requires i < 6
    ensures if i == 1 || i == 2 then |LeadingWords()[i]| == 2 else SPACE !in LeadingWords()[i]
  {
  }

  lemma {:induction false} OtherBlanks(i: nat)
    requires i < 7
    ensures SPACE !in OtherWords()[i]
  {
  }

  lemma {:induction false} FlagIsLong(t: Text)
    requires FlagOf(t).Some? && TakesNumber(FlagOf(t).value)
    ensures |t| >= 2
  {
    ChoiceStarts(FlagWords(), t);
    var i := ReadChoice(FlagWords(), t).value;
    PlaceIs(i);
    WordIs(FLAGS[i]);
  }

  lemma {:induction false} PlaceIs(i: nat)
    requires i < 13
    ensures Place(FLAGS[i]) == i
  {
  }

  lemma {:induction false} FlagsAreLong()
    ensures forall t: Text :: FlagOf(t).Some? && TakesNumber(FlagOf(t).value) ==> |t| >= 2
  {
    forall t: Text | FlagOf(t).Some? && TakesNumber(FlagOf(t).value)
      ensures |t| >= 2
    {
      FlagIsLong(t);
    }
  }

  /** A link is taken apart with these flags and any reader of numbers. */
  function Standard(number: Text -> (Double, nat)): (rd: Reader)
    requires WithinText(number)
    ensures Bounded(rd)
  {
    FlagsAreLong();
    Reader(t => FlagOf(t), number)
  }

  // ---------------------------------------------------------------------------
  // Spelled links
  // ---------------------------------------------------------------------------

  /** A flag with the number behind it, if it takes one. */
  datatype Setting = Setting(flag: Flag, digits: Text, value: Double)

  function SettingText(s: Setting): Text {
    Word(s.flag) + s.digits
  }

  function SettingsText(ss: seq<Setting>): Text {
    if ss == [] then [] else [SPACE] + (SettingText(ss[0]) + SettingsText(ss[1..]))
  }

  /** Whether a setting can stand in the link of a record of `count` elements. */
  ghost predicate Allowed(s: Setting, count: nat, number: Text -> (Double, nat)) {
    if TakesNumber(s.flag) then
      && (forall rest: Text :: rest == [] || rest[0] == SPACE ==> number(s.digits + rest) == (s.value, |s.digits|))
      && (s.flag == ScanPeriod ==> !s.value.Infinite?)
    else
      s.digits == [] && (s.flag == SingleElement ==> count == 1)
  }

  function With(o: Options, s: Setting): Options {
    var q := o.(flags := o.flags + {s.flag});
    match s.flag
    case ScanPeriod => q.(period := s.value)
    case BitNumber => q.(bit := SizeOf(s.value))
    case _ => q
  }

  /** All settings together: the last period and the last bit number count. */
  function WithAll(o: Options, ss: seq<Setting>): Options
    decreases |ss|
  {
    if ss == [] then o else WithAll(With(o, ss[0]), ss[1..])
  }

  lemma {:induction false} TokenEnds(w: Text, rest: Text)
    requires SPACE !in w && (rest == [] || rest[0] == SPACE)
    ensures TokenLength(w + rest) == |w|
  {
    if w != [] {
      TokenEnds(w[1..], rest);
      assert (w + rest)[1..] == w[1..] + rest;
    } else {
      assert w + rest == rest;
    }
  }

  lemma {:induction false} SettingTaken(o: Options, s: Setting, word: Text, t: Text, rest: Text, count: nat, rd: Reader)
    requires Bounded(rd) && Allowed(s, count, rd.number) && rd.flag(t) == Some(s.flag)
    requires t == word + s.digits + rest && word != [] && word[0] != SPACE && (rest == [] || rest[0] == SPACE)
    requires if TakesNumber(s.flag) then |word| == 2 else SPACE !in word
    ensures TakeFlag(o, s.flag, t, count, rd) == Ok((With(o, s), rest))
  {
    if TakesNumber(s.flag) {
      assert t[2..] == s.digits + rest;
      assert t[2 + |s.digits|..] == rest;
    } else {
      assert t == word + rest;
      TokenEnds(word, rest);
      assert t[|word|..] == rest;
    }
  }

  lemma {:induction false} ReadOne(o: Options, f: Flag, t: Text, rest: Text, q: Options, count: nat, rd: Reader)
    requires Bounded(rd) && t != [] && t[0] != SPACE && rd.flag(t) == Some(f)
    requires TakeFlag(o, f, t, count, rd) == Ok((q, rest))
    ensures ReadFlags(o, [SPACE] + t, count, rd) == ReadFlags(q, rest, count, rd)
  {
    assert ([SPACE] + t)[1..] == t;
    assert SkipBlanks([SPACE] + t) == SkipBlanks(t) == t;
  }

  lemma {:induction false} SettingsStart(ss: seq<Setting>, tail: Text)
    requires tail == [] || tail[0] == SPACE
    ensures SettingsText(ss) + tail == [] || (SettingsText(ss) + tail)[0] == SPACE
  {
  }

  lemma {:induction false} SettingsSplit(ss: seq<Setting>, tail: Text)
    requires ss != []
    ensures SettingsText(ss) + tail
         == [SPACE] + (Word(ss[0].flag) + (ss[0].digits + (SettingsText(ss[1..]) + tail)))
  {
    var s, rest := ss[0], SettingsText(ss[1..]);
    Assoc([SPACE], SettingText(s) + rest, tail);
    Assoc(SettingText(s), rest, tail);
    Assoc(Word(s.flag), s.digits, rest + tail);
  }

  lemma {:induction false} OneSettingRead(o: Options, s: Setting, rest: Text, count: nat, number: Text -> (Double, nat))
    requires WithinText(number) && Allowed(s, count, number) && (rest == [] || rest[0] == SPACE)
    ensures ReadFlags(o, [SPACE] + (Word(s.flag) + (s.digits + rest)), count, Standard(number))
         == ReadFlags(With(o, s), rest, count, Standard(number))
  {
    var t := Word(s.flag) + (s.digits + rest);
    WordStarts(s.flag);
    WordIs(s.flag);
    FlagFound(s.flag, s.digits + rest);
    Assoc(Word(s.flag), s.digits, rest);
    SettingTaken(o, s, Word(s.flag), t, rest, count, Standard(number));
    ReadOne(o, s.flag, t, rest, With(o, s), count, Standard(number));
  }

  /** A link's settings are read as what they say, in order, whatever follows them. */
  lemma {:induction false} SettingsRead(o: Options, ss: seq<Setting>, tail: Text, count: nat, number: Text -> (Double, nat))
    requires WithinText(number) && (tail == [] || tail[0] == SPACE)
    requires forall i :: 0 <= i < |ss| ==> Allowed(ss[i], count, number)
    ensures ReadFlags(o, SettingsText(ss) + tail, count, Standard(number))
         == ReadFlags(WithAll(o, ss), tail, count, Standard(number))
    decreases |ss|
  {
    if ss == [] {
      assert SettingsText(ss) + tail == tail;
    } else {
      SettingsStart(ss[1..], tail);
      SettingsSplit(ss, tail);
      OneSettingRead(o, ss[0], SettingsText(ss[1..]) + tail, count, number);
      SettingsRead(With(o, ss[0]), ss[1..], tail, count, number);
    }
  }

  /** The first setting that cannot stand in a link is the error, whatever follows it. */
  lemma {:induction false} BadSetting(o: Options, ss: seq<Setting>, text: Text, count: nat, number: Text -> (Double, nat))
    requires WithinText(number) && text != [] && text[0] != SPACE
    requires forall i :: 0 <= i < |ss| ==> Allowed(ss[i], count, number)
    ensures var r := ReadFlags(o, SettingsText(ss) + ([SPACE] + text), count, Standard(number));
            && (FlagOf(text).None? ==> r == Err(InvalidFlag(text)))
            && (FlagOf(text) == Some(SingleElement) && count != 1 ==> r == Err(ArrayWithSingleElement))
            && (FlagOf(text) == Some(ScanPeriod) && number(text[2..]).0.Infinite? ==> r == Err(BadPeriod))
  {
    SettingsRead(o, ss, [SPACE] + text, count, number);
    assert ([SPACE] + text)[1..] == text;
    assert SkipBlanks([SPACE] + text) == SkipBlanks(text) == text;
  }

  /** What the last setting with a flag says. */
  function LastValue(ss: seq<Setting>, f: Flag): Option<Double> {
    if ss == [] then None
    else if ss[|ss| - 1].flag == f then Some(ss[|ss| - 1].value)
    else LastValue(ss[..|ss| - 1], f)
  }

  predicate Given(ss: seq<Setting>, f: Flag) {
    LastValue(ss, f).Some?
  }

  lemma {:induction false} WithSnoc(o: Options, ss: seq<Setting>, s: Setting)
    ensures WithAll(o, ss + [s]) == With(WithAll(o, ss), s)
    decreases |ss|
  {
    if ss == [] {
      assert ss + [s] == [s] && [s][1..] == [];
      assert WithAll(With(o, s), []) == With(o, s);
    } else {
      assert (ss + [s])[1..] == ss[1..] + [s];
      WithSnoc(With(o, ss[0]), ss[1..], s);
    }
  }

  /** All settings together: the flags given, the last period and the last bit number. */
  lemma {:induction false} SettingsHold(ss: seq<Setting>)
    ensures var o := WithAll(NO_OPTIONS, ss);
            && (forall f :: f in o.flags <==> LastValue(ss, f).Some?)
            && o.period == (match LastValue(ss, ScanPeriod) case Some(v) => v case None => Finite(0.0))
            && o.bit == (match LastValue(ss, BitNumber) case Some(v) => SizeOf(v) case None => 0)
  {
    if ss != [] {
      var n := |ss| - 1;
      SettingsHold(ss[..n]);
      WithSnoc(NO_OPTIONS, ss[..n], ss[n]);
      assert ss == ss[..n] + [ss[n]];
    }
  }

  datatype Base = Decimals | Octals | Hexadecimals | Binaries

  /** An index and how it is spelled: in which base, with small or capital letters. */
  datatype Index = Index(n: nat, base: Base, upper: bool)

  function RadixFor(b: Base): Radix {
    match b case Decimals => 10 case Octals => 8 case Hexadecimals => 16 case Binaries => 2
  }

  /** What tells the base. */
  function BasePrefix(i: Index): Text {
    match i.base
    case Decimals => []
    case Octals => [ZERO]
    case Hexadecimals => [ZERO, if i.upper then 88 else 120]
    case Binaries => [ZERO, if i.upper then 66 else 98]
  }

  function IndexText(i: Index): Text {
    BasePrefix(i) + Numeral(i.n, RadixFor(i.base), i.upper)
  }

  function TagText(tag: Text, index: Option<Index>): Text {
    match index
    case None => tag
    case Some(i) => tag + ([TagPath.OPEN] + (IndexText(i) + [TagPath.CLOSE]))
  }

  function LinkText(plc: Text, tag: Text, index: Option<Index>, ss: seq<Setting>): Text {
    [AT] + (plc + ([SPACE] + (TagText(tag, index) + SettingsText(ss))))
  }

  const INDEX_MAX := 0x7FFF_FFFF_FFFF_FFFF

  /** A numeral of `n` in a base that its head tells, and the bracket behind it. */
  ghost predicate Spells(u: Text, radix: nat, digits: Text, n: nat) {
    && digits != [] && AllDigits(digits, radix) && 2 <= radix <= 16 && Value(digits, radix) == n
    && RadixOf(u) == radix && u != [] && IsDigit(u[0], 10)
    && var skip := if radix == 16 || radix == 2 then 2 else 0;
       skip <= |u| && u[skip..] == digits + [TagPath.CLOSE]
  }

  /** What an index is taken for as a `size_t`; None when it is at the limits of 64 bits. */
  function IndexValue(sign: Text, n: nat): Option<nat> {
    if sign == [MINUS] then
      if n >= 0x8000_0000_0000_0000 then None else Some(if n == 0 then 0 else 0x1_0000_0000_0000_0000 - n)
    else if n < 0x7FFF_FFFF_FFFF_FFFF then Some(n) else None
  }

  lemma {:induction false} NumeralRead(blanks: nat, sign: Text, u: Text, radix: nat, digits: Text, n: nat)
    requires Spells(u, radix, digits, n) && (sign == [] || sign == [MINUS] || sign == [PLUS])
    ensures ReadIndex(Repeat(SPACE, blanks) + (sign + u)) == IndexValue(sign, n)
  {
    var t := sign + u;
    assert sign == [] ==> t == u;
    assert t != [] && !IsSpace(t[0]) && t[|sign|..] == u && CScan.SignLength(t) == |sign|;
    SpacesSkipped(blanks, t);
    RunEnds(digits, [TagPath.CLOSE], radix);
    assert (digits + [TagPath.CLOSE])[..|digits|] == digits;
    assert CScan.Negative(t) <==> sign == [MINUS];
  }

  lemma {:induction false} DecimalSpells(n: nat)
    ensures Spells(Decimal(n) + [TagPath.CLOSE], if n == 0 then 8 else 10, Decimal(n), n)
  {
    NumeralHead(n, 10, false);
    NumeralValue(n, 10, false);
    assert (Decimal(n) + [TagPath.CLOSE])[0] == Decimal(n)[0];
  }

  lemma {:induction false} OctalSpells(n: nat, upper: bool)
    ensures Spells([ZERO] + Numeral(n, 8, upper) + [TagPath.CLOSE], 8, [ZERO] + Numeral(n, 8, upper), n)
  {
    var digits := [ZERO] + Numeral(n, 8, upper);
    assert Repeat(ZERO, 1) == [ZERO];
    LeadingZeros(1, Numeral(n, 8, upper), 8);
    NumeralValue(n, 8, upper);
    assert digits[1] == Numeral(n, 8, upper)[0];
  }

  lemma {:induction false} PrefixedSpells(n: nat, letter: byte, radix: Radix, upper: bool)
    requires (radix == 16 && (letter == 120 || letter == 88)) || (radix == 2 && (letter == 98 || letter == 66))
    ensures Spells([ZERO, letter] + Numeral(n, radix, upper) + [TagPath.CLOSE], radix, Numeral(n, radix, upper), n)
  {
    var digits := Numeral(n, radix, upper);
    var u := [ZERO, letter] + digits + [TagPath.CLOSE];
    NumeralValue(n, radix, upper);
    assert u[2..] == digits + [TagPath.CLOSE] && u[2] == digits[0];
  }

  lemma {:induction false} IndexSpells(i: Index) returns (radix: nat, digits: Text)
    ensures Spells(IndexText(i) + [TagPath.CLOSE], radix, digits, i.n)
  {
    match i.base {
      case Decimals =>
        DecimalDigits(i.n, i.upper);
        DecimalSpells(i.n);
        radix, digits := if i.n == 0 then 8 else 10, Decimal(i.n);
      case Octals =>
        OctalSpells(i.n, i.upper);
        radix, digits := 8, [ZERO] + Numeral(i.n, 8, i.upper);
      case Hexadecimals =>
        PrefixedSpells(i.n, if i.upper then 88 else 120, 16, i.upper);
        radix, digits := 16, Numeral(i.n, 16, i.upper);
      case Binaries =>
        PrefixedSpells(i.n, if i.upper then 66 else 98, 2, i.upper);
        radix, digits := 2, Numeral(i.n, 2, i.upper);
    }
  }

  /**
   * In every base an index is read back as its number, behind blanks and a sign; a negative one wraps, and one at the
   * limits of 64 bits is refused.
   */
  lemma {:induction false} IndexReads(blanks: nat, sign: Text, i: Index)
    requires sign == [] || sign == [MINUS] || sign == [PLUS]
    ensures ReadIndex(Repeat(SPACE, blanks) + (sign + (IndexText(i) + [TagPath.CLOSE]))) == IndexValue(sign, i.n)
  {
    var radix, digits := IndexSpells(i);
    NumeralRead(blanks, sign, IndexText(i) + [TagPath.CLOSE], radix, digits, i.n);
  }

  /** And a bracket without digits is refused. */
  lemma {:induction false} NoIndexReads(blanks: nat, sign: Text)
    requires sign == [] || sign == [MINUS] || sign == [PLUS]
    ensures ReadIndex(Repeat(SPACE, blanks) + (sign + [TagPath.CLOSE])) == None
  {
    var t := sign + [TagPath.CLOSE];
    assert t[|sign|..] == [TagPath.CLOSE] && t != [] && !IsSpace(t[0]) && CScan.SignLength(t) == |sign|;
    SpacesSkipped(blanks, t);
  }

  lemma {:induction false} DecimalDigits(n: nat, upper: bool)
    ensures [] + Numeral(n, 10, upper) == Decimal(n)
    decreases n
  {
    if n >= 10 {
      DecimalDigits(n / 10, upper);
    }
  }

  /** A spelled index has no blank and no bracket. */
  lemma {:induction false} IndexIsPlain(i: Index)
    ensures SPACE !in IndexText(i) && TagPath.OPEN !in IndexText(i) && IndexText(i) != []
  {
  }

  lemma {:induction false} LastOpenFound(tag: Text, inner: Text)
    requires TagPath.OPEN !in inner
    ensures LastOpen(tag + ([TagPath.OPEN] + inner)) == Some(|tag|)
    decreases |inner|
  {
    var t := tag + ([TagPath.OPEN] + inner);
    if inner != [] {
      LastOpenFound(tag, inner[..|inner| - 1]);
      assert t[..|t| - 1] == tag + ([TagPath.OPEN] + inner[..|inner| - 1]);
      assert t[|t| - 1] == inner[|inner| - 1];
    }
  }

  lemma {:induction false} IndexAt(t: Text, open: nat, inner: Text)
    requires 0 < open < |t| - 1 && t[|t| - 1] == TagPath.CLOSE && t[open + 1..] == inner
    requires LastOpen(t[..|t| - 1]) == Some(open)
    ensures SplitIndex(t, false)
         == match ReadIndex(inner) case None => Err(MalformedIndex) case Some(n) => Ok((t[..open], Some(n)))
  {
  }

  lemma {:induction false} IndexSplits(tag: Text, i: Index)
    requires tag != []
    ensures SplitIndex(TagText(tag, Some(i)), false)
         == if i.n < INDEX_MAX then Ok((tag, Some(i.n))) else Err(MalformedIndex)
  {
    var t, inner := TagText(tag, Some(i)), IndexText(i) + [TagPath.CLOSE];
    IndexIsPlain(i);
    LastOpenFound(tag, IndexText(i));
    assert t[..|t| - 1] == tag + ([TagPath.OPEN] + IndexText(i));
    assert t[|tag| + 1..] == inner;
    assert t[..|tag|] == tag;
    IndexAt(t, |tag|, inner);
    IndexReads(0, [], i);
    assert Repeat(SPACE, 0) + ([] + inner) == inner;
  }

  predicate Token(t: Text) {
    t != [] && SPACE !in t
  }

  lemma {:induction false} TokenTaken(t: Text, rest: Text)
    requires Token(t) && (rest == [] || rest[0] == SPACE)
    ensures NextToken(t + rest) == Some((t, rest)) && NextToken([SPACE] + (t + rest)) == Some((t, rest))
  {
    TokenEnds(t, rest);
    assert ([SPACE] + (t + rest))[1..] == t + rest;
    assert SkipBlanks([SPACE] + (t + rest)) == SkipBlanks(t + rest) == t + rest;
    assert (t + rest)[..|t|] == t && (t + rest)[|t|..] == rest;
  }

  lemma {:induction false} TagTextIsToken(tag: Text, index: Option<Index>)
    requires Token(tag)
    ensures Token(TagText(tag, index))
  {
    if index.Some? {
      IndexIsPlain(index.value);
    }
  }

  lemma {:induction false} LinkFrom(plc: Text, tag: Text, settings: Text, o: Options, rec: Record, rd: Reader)
    requires Token(plc) && Token(tag) && (settings == [] || settings[0] == SPACE)
    requires Bounded(rd) && ReadFlags(NO_OPTIONS, settings, rec.count, rd) == Ok(o)
    ensures LinkOf([AT] + (plc + ([SPACE] + (tag + settings))), rec, rd) == Resolve(plc, tag, o, rec)
  {
    var behind := [SPACE] + (tag + settings);
    assert ([AT] + (plc + behind))[1..] == plc + behind;
    TokenTaken(plc, behind);
    TokenTaken(tag, settings);
  }

  /** A link without a PLC, or with nothing behind it. */
  lemma {:induction false} LinkMissing(plc: Text, blanks: nat, rec: Record, rd: Reader)
    requires Bounded(rd) && Token(plc)
    ensures LinkOf([64] + Repeat(SPACE, blanks), rec, rd) == Err(MissingPlc)
    ensures LinkOf([64] + (plc + Repeat(SPACE, blanks)), rec, rd) == Err(MissingTag)
  {
    var tail := Repeat(SPACE, blanks);
    assert ([64] + tail)[1..] == tail && ([64] + (plc + tail))[1..] == plc + tail;
    OnlyBlanks(blanks);
    TokenTaken(plc, tail);
  }

  lemma {:induction false} OnlyBlanks(n: nat)
    ensures SkipBlanks(Repeat(SPACE, n)) == []
  {
    if n > 0 {
      assert Repeat(SPACE, n)[1..] == Repeat(SPACE, n - 1);
      OnlyBlanks(n - 1);
    }
  }

  /** What a tag and its index, spelled out, are resolved to. */
  function Resolved(plc: Text, tag: Text, index: Option<Index>, o: Options, rec: Record): Result<Link, LinkError> {
    if SingleElement in o.flags then Bind(plc, TagText(tag, index), None, o, rec)
    else
      match index
      case None => Bind(plc, tag, None, o, rec)
      case Some(i) => if i.n >= INDEX_MAX then Err(MalformedIndex) else Bind(plc, tag, Some(i.n), o, rec)
  }

  lemma {:induction false} TagResolves(plc: Text, tag: Text, index: Option<Index>, o: Options, rec: Record)
    requires tag != [] && (index.None? ==> tag[|tag| - 1] != TagPath.CLOSE)
    ensures Resolve(plc, TagText(tag, index), o, rec) == Resolved(plc, tag, index, o, rec)
  {
    if index.Some? {
      IndexSplits(tag, index.value);
    }
  }

  /**
   * A link spelled out is read back as its PLC, tag, index and settings: with an `E` the index stays part
   * of the tag, and without it an index at or beyond the limit of 64 bits is refused, in whichever base it is spelled.
   */
  lemma {:induction false} LinkReads(plc: Text, tag: Text, index: Option<Index>, ss: seq<Setting>, rec: Record,
                                     number: Text -> (Double, nat))
    requires Token(plc) && Token(tag) && (index.None? ==> tag[|tag| - 1] != TagPath.CLOSE)
    requires WithinText(number) && forall i :: 0 <= i < |ss| ==> Allowed(ss[i], rec.count, number)
    ensures LinkOf(LinkText(plc, tag, index, ss), rec, Standard(number))
         == Resolved(plc, tag, index, WithAll(NO_OPTIONS, ss), rec)
  {
    var o := WithAll(NO_OPTIONS, ss);
    SettingsRead(NO_OPTIONS, ss, [], rec.count, number);
    SettingsStart(ss, []);
    assert SettingsText(ss) + [] == SettingsText(ss);
    TagTextIsToken(tag, index);
    LinkFrom(plc, TagText(tag, index), SettingsText(ss), o, rec, Standard(number));
    TagResolves(plc, tag, index, o, rec);
  }

  /** The period a link asks for: the last one given, if it is a positive number, or the record's own. */
  function PeriodAsked(ss: seq<Setting>, own: real): real {
    match LastValue(ss, ScanPeriod)
    case Some(Finite(x)) => if x > 0.0 then x else own
    case _ => own
  }

  /** Why a spelled-out link is refused, in the order it is looked for. */
  function Refusal(plc: Text, index: Option<Index>, single: bool, flagged: bool, rec: Record): Option<LinkError> {
    if index.Some? && index.value.n >= 0x7FFF_FFFF_FFFF_FFFF && !single then Some(MalformedIndex)
    else if plc !in rec.known then Some(UnknownPlc)
    else if rec.count > 1 && (rec.bits > 0 || flagged) then Some(BitsOfArray)
    else None
  }

  lemma {:induction false} ResolvedHolds(plc: Text, tag: Text, index: Option<Index>, o: Options, rec: Record)
    ensures var r := Resolved(plc, tag, index, o, rec);
            var single := SingleElement in o.flags;
            match Refusal(plc, index, single, BitNumber in o.flags, rec)
            case Some(error) => r == Err(error)
            case None =>
              && r.Ok? && r.value.plcName == plc && r.value.flags == o.flags
              && r.value.stringTag == (if single then TagText(tag, index) else tag)
              && r.value.indexed == (index.Some? && !single)
              && r.value.period == if o.period.Finite? && o.period.value > 0.0 then o.period.value else rec.period
  {
  }

  /** Which spelled-out links are refused and why, and what the others hold: names, flags, period. */
  lemma {:induction false} LinkHolds(plc: Text, tag: Text, index: Option<Index>, ss: seq<Setting>, rec: Record,
                                     number: Text -> (Double, nat))
    requires Token(plc) && Token(tag) && (index.None? ==> tag[|tag| - 1] != TagPath.CLOSE)
    requires WithinText(number) && forall i :: 0 <= i < |ss| ==> Allowed(ss[i], rec.count, number)
    ensures var r := LinkOf(LinkText(plc, tag, index, ss), rec, Standard(number));
            match Refusal(plc, index, Given(ss, SingleElement), Given(ss, BitNumber), rec)
            case Some(error) => r == Err(error)
            case None =>
              && r.Ok? && r.value.plcName == plc && (forall f :: f in r.value.flags <==> Given(ss, f))
              && r.value.stringTag == (if Given(ss, SingleElement) then TagText(tag, index) else tag)
              && r.value.indexed == (index.Some? && !Given(ss, SingleElement))
              && r.value.period == PeriodAsked(ss, rec.period)
  {
    var o := WithAll(NO_OPTIONS, ss);
    LinkReads(plc, tag, index, ss, rec, number);
    SettingsHold(ss);
    assert SingleElement in o.flags <==> Given(ss, SingleElement);
    assert BitNumber in o.flags <==> Given(ss, BitNumber);
    ResolvedHolds(plc, tag, index, o, rec);
  }

  lemma {:induction false} NotGiven(ss: seq<Setting>, f: Flag)
    requires !Given(ss, f)
    ensures f !in WithAll(NO_OPTIONS, ss).flags
  {
    SettingsHold(ss);
  }

  /** A buffer of so many 32-bit words. */
  predicate Words32(raw: seq<byte>, words: nat) {
    (TypeOf(raw) == Some(Dint) || TypeOf(raw) == Some(Bits)) && |raw| == TYPECODE_SIZE + 4 * words
  }

  /** A link to bit `n` of a BOOL array, which reads exactly that and the following bits from a buffer of its elements. */
  ghost predicate LinksBits(r: Result<Link, LinkError>, tag: Text, n: nat, bits: nat, raw: seq<byte>)
    requires bits > 0
  {
    && r.Ok? && r.value.stringTag == tag
    && var t := r.value.target;
       && t.mask == Pow2(n % 32) && 32 * t.element + n % 32 == n
       && (Words32(raw, t.elements) ==> BitsAt(raw, 32 * t.element + n % 32, bits) == Some(Gathered(raw, n, bits)))
  }

  lemma {:induction false} BitsFold(n: nat, bits: nat, raw: seq<byte>, t: Target)
    requires n < INDEX_MAX && 1 <= bits <= 32 && FoldLink(true, n, false, 0, bits, 1) == Some(t)
    ensures t.mask == Pow2(n % 32) && 32 * t.element + n % 32 == n
    ensures Words32(raw, t.elements) ==> BitsAt(raw, n, bits) == Some(Gathered(raw, n, bits))
  {
    if Words32(raw, t.elements) {
      FoldedLinkReachesItsBits(n, bits, raw);
    }
  }

  lemma {:induction false} BitsBind(plc: Text, tag: Text, n: nat, o: Options, rec: Record, raw: seq<byte>)
    requires plc in rec.known && n < INDEX_MAX && BitNumber !in o.flags
    requires rec.count == 1 && 1 <= rec.bits <= 32
    ensures LinksBits(Bind(plc, tag, Some(n), o, rec), tag, n, rec.bits, raw)
  {
    var t := FoldLink(true, n, false, 0, rec.bits, 1);
    assert FoldLink(true, n, false, o.bit, rec.bits, 1) == t;
    BitsFold(n, rec.bits, raw, t.value);
  }

  /**
   * A bit record of 1 to 32 bits whose link names bit `n` of a BOOL array, with neither an `E` nor a `B`,
   * reads exactly bits `n` to `n + bits - 1` from a buffer of the elements its link asks for.
   */
  lemma {:induction false} LinkReachesItsBits(plc: Text, tag: Text, i: Index, ss: seq<Setting>, rec: Record,
                                              number: Text -> (Double, nat), raw: seq<byte>)
    requires Token(plc) && Token(tag) && plc in rec.known && i.n < INDEX_MAX
    requires WithinText(number) && forall k :: 0 <= k < |ss| ==> Allowed(ss[k], rec.count, number)
    requires !Given(ss, SingleElement) && !Given(ss, BitNumber)
    requires rec.count == 1 && 1 <= rec.bits <= 32
    ensures LinksBits(LinkOf(LinkText(plc, tag, Some(i), ss), rec, Standard(number)), tag, i.n, rec.bits, raw)
  {
    LinkReads(plc, tag, Some(i), ss, rec, number);
    NotGiven(ss, SingleElement);
    NotGiven(ss, BitNumber);
    BitsBind(plc, tag, i.n, WithAll(NO_OPTIONS, ss), rec, raw);
  }

  /** The bit a link names in its element: the last `B`, if there is one, counted modulo 32, or bit 0. */
  function BitAsked(ss: seq<Setting>): nat {
    match LastValue(ss, BitNumber)
    case Some(v) => SizeOf(v) % 32
    case None => 0
  }

  /** A link to bit `bit` of element `el`, which asks for the elements up to that one and reads just that bit and the following. */
  ghost predicate LinksBitOf(r: Result<Link, LinkError>, tag: Text, el: nat, bit: nat, bits: nat, raw: seq<byte>)
    requires bits > 0
  {
    && r.Ok? && r.value.stringTag == tag
    && r.value.target == Target(el, Pow2(bit), el + 1)
    && (Words32(raw, el + 1) ==>
          BitsAt(raw, 32 * el + bit, bits) == if bit + bits <= 32 then Some(Gathered(raw, 32 * el + bit, bits)) else None)
  }

  lemma {:induction false} BitOfBind(plc: Text, tag: Text, index: Option<nat>, o: Options, rec: Record, raw: seq<byte>)
    requires plc in rec.known && rec.count == 1 && 1 <= rec.bits <= 32
    requires if BitNumber in o.flags then index.Some? ==> index.value < INDEX_MAX else index.None? && o.bit == 0
    ensures LinksBitOf(Bind(plc, tag, index, o, rec), tag, if index.Some? then index.value else 0, o.bit % 32, rec.bits, raw)
  {
    var el := if index.Some? then index.value else 0;
    var whole := FoldLink(index.Some?, el, BitNumber in o.flags, o.bit, rec.bits, 1);
    assert whole == Some(Target(el, Pow2(o.bit % 32), el + 1)) by {
      FlaggedTarget(index.Some?, el, BitNumber in o.flags, o.bit, rec.bits);
    }
    if Words32(raw, el + 1) {
      FlaggedLinkReachesItsBits(index.Some?, el, BitNumber in o.flags, o.bit, rec.bits, raw);
    }
  }

  /**
   * A bit record of 1 to 32 bits whose link has a `B`, or no index, reads from that bit of its element on, from a buffer
   * of the elements its link asks for, and fails exactly when its bits go past that element.
   */
  lemma {:induction false} LinkReachesBitOfElement(plc: Text, tag: Text, index: Option<Index>, ss: seq<Setting>, rec: Record,
                                                   number: Text -> (Double, nat), raw: seq<byte>)
    requires Token(plc) && Token(tag) && (index.None? ==> tag[|tag| - 1] != TagPath.CLOSE) && plc in rec.known
    requires WithinText(number) && forall k :: 0 <= k < |ss| ==> Allowed(ss[k], rec.count, number)
    requires !Given(ss, SingleElement) && (index.Some? ==> Given(ss, BitNumber) && index.value.n < INDEX_MAX)
    requires rec.count == 1 && 1 <= rec.bits <= 32
    ensures LinksBitOf(LinkOf(LinkText(plc, tag, index, ss), rec, Standard(number)), tag,
                       if index.Some? then index.value.n else 0, BitAsked(ss), rec.bits, raw)
  {
    var o := WithAll(NO_OPTIONS, ss);
    LinkReads(plc, tag, index, ss, rec, number);
    SettingsHold(ss);
    NotGiven(ss, SingleElement);
    BitOfBind(plc, tag, if index.Some? then Some(index.value.n) else None, o, rec, raw);
  }

  /**
   * A number is cut to its whole part as a `size_t`: below 2^64 it is taken as it is, a negative one wraps, so that `B -1`
   * is bit 31, and what is out of range or no number is 2^63.
   */
  lemma {:induction false} SizesOfNumbers(b: nat, part: real, x: real)
    requires b < 0x8000_0000_0000_0000 && 0.0 <= part < 1.0
    ensures SizeOf(Finite(b as real + part)) == b
    ensures SizeOf(Finite(-(b as real + part))) == if b == 0 then 0 else 0x1_0000_0000_0000_0000 - b
    ensures SizeOf(Finite(-1.0)) % 32 == 31
    ensures 9_223_372_036_854_775_808.0 <= x < 18_446_744_073_709_551_616.0 ==> SizeOf(Finite(x)) == x.Floor
    ensures x >= 18_446_744_073_709_551_616.0 || x <= -9_223_372_036_854_775_808.0 ==> SizeOf(Finite(x)) == 0x8000_0000_0000_0000
    ensures SizeOf(Infinite) == 0x8000_0000_0000_0000 && SizeOf(NaN) == 0x8000_0000_0000_0000
  {
    var v := b as real + part;
    assert v.Floor == b;
    assert (-(-v)).Floor == b;
    assert v == 0.0 ==> (-v).Floor == 0;
  }

  lemma {:induction false} ElementsBind(plc: Text, tag: Text, n: nat, o: Options, rec: Record)
    requires plc in rec.known && n < INDEX_MAX && BitNumber !in o.flags
    requires rec.bits == 0 && 0 < rec.count <= INDEX_MAX
    ensures LinksElements(Bind(plc, tag, Some(n), o, rec), tag, n, rec.count)
  {
  }

  /** A link to element `n` of an array, which asks for just enough elements to hold it and the following. */
  predicate LinksElements(r: Result<Link, LinkError>, tag: Text, n: nat, count: nat) {
    r.Ok? && r.value.stringTag == tag && r.value.target.element == n && r.value.target.elements == n + count
  }

  /** Any other record asks for just the elements up to the last one it names. */
  lemma {:induction false} LinkReachesItsElements(plc: Text, tag: Text, i: Index, ss: seq<Setting>, rec: Record,
                                                  number: Text -> (Double, nat))
    requires Token(plc) && Token(tag) && plc in rec.known && i.n < INDEX_MAX
    requires WithinText(number) && forall k :: 0 <= k < |ss| ==> Allowed(ss[k], rec.count, number)
    requires !Given(ss, SingleElement) && !Given(ss, BitNumber)
    requires rec.bits == 0 && 0 < rec.count <= INDEX_MAX
    ensures LinksElements(LinkOf(LinkText(plc, tag, Some(i), ss), rec, Standard(number)), tag, i.n, rec.count)
  {
    LinkReads(plc, tag, Some(i), ss, rec, number);
    NotGiven(ss, SingleElement);
    NotGiven(ss, BitNumber);
    ElementsBind(plc, tag, i.n, WithAll(NO_OPTIONS, ss), rec);
  }
}
