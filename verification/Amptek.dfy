/**
 * The ASCII configuration of Amptek processors, printed and read back (drivers/mca-amptek/src/config.rs).
 * Doubles are fixed-point numbers here, in millionths.
 */
module Amptek {
  import opened Wrappers
  import opened Bytes
  import opened Numerals
  import opened CScan
  import opened Words

  const EQUALS: byte := 61
  const SEMICOLON: byte := 59
  const DOT: byte := 46
  const MILLION := 1_000_000

  /** The fields in the order they are sent. */
  datatype Key =
    | CLCK | AINP | TPEA | TPFA | TFLA | GAIN | THSL | THFA | MCAC | GATE | PRER | PRET | PREC | PRCL
    | PRCH | MCAS | PURE | HVSE | TECS | MCSL | MCSH | MCST | AUO1 | AUO2 | AU34 | CON1 | CON2 | SCAW

  const ORDER := [CLCK, AINP, TPEA, TPFA, TFLA, GAIN, THSL, THFA, MCAC, GATE, PRER, PRET, PREC, PRCL,
                  PRCH, MCAS, PURE, HVSE, TECS, MCSL, MCSH, MCST, AUO1, AUO2, AU34, CON1, CON2, SCAW]

  function Name(k: Key): (t: Text)
    ensures |t| == 4
  {
    match k
    case CLCK => Ascii("CLCK") case AINP => Ascii("AINP") case TPEA => Ascii("TPEA") case TPFA => Ascii("TPFA")
    case TFLA => Ascii("TFLA") case GAIN => Ascii("GAIN") case THSL => Ascii("THSL") case THFA => Ascii("THFA")
    case MCAC => Ascii("MCAC") case GATE => Ascii("GATE") case PRER => Ascii("PRER") case PRET => Ascii("PRET")
    case PREC => Ascii("PREC") case PRCL => Ascii("PRCL") case PRCH => Ascii("PRCH") case MCAS => Ascii("MCAS")
    case PURE => Ascii("PURE") case HVSE => Ascii("HVSE") case TECS => Ascii("TECS") case MCSL => Ascii("MCSL")
    case MCSH => Ascii("MCSH") case MCST => Ascii("MCST") case AUO1 => Ascii("AUO1") case AUO2 => Ascii("AUO2")
    case AU34 => Ascii("AU34") case CON1 => Ascii("CON1") case CON2 => Ascii("CON2") case SCAW => Ascii("SCAW")
  }

  /** Four letters as one number. */
  function Number(t: Text): nat
    requires |t| == 4
  {
    0x100_0000 * t[0] as int + 0x1_0000 * t[1] as int + 0x100 * t[2] as int + t[3] as int
  }

  function Code(k: Key): nat {
    match k
    case CLCK => 0x434C434B case AINP => 0x41494E50 case TPEA => 0x54504541 case TPFA => 0x54504641
    case TFLA => 0x54464C41 case GAIN => 0x4741494E case THSL => 0x5448534C case THFA => 0x54484641
    case MCAC => 0x4D434143 case GATE => 0x47415445 case PRER => 0x50524552 case PRET => 0x50524554
    case PREC => 0x50524543 case PRCL => 0x5052434C case PRCH => 0x50524348 case MCAS => 0x4D434153
    case PURE => 0x50555245 case HVSE => 0x48565345 case TECS => 0x54454353 case MCSL => 0x4D43534C
    case MCSH => 0x4D435348 case MCST => 0x4D435354 case AUO1 => 0x41554F31 case AUO2 => 0x41554F32
    case AU34 => 0x41553334 case CON1 => 0x434F4E31 case CON2 => 0x434F4E32 case SCAW => 0x53434157
  }

  function KeyOf(n: nat): Key {
    match n
    case 0x434C434B => CLCK case 0x41494E50 => AINP case 0x54504541 => TPEA case 0x54504641 => TPFA
    case 0x54464C41 => TFLA case 0x4741494E => GAIN case 0x5448534C => THSL case 0x54484641 => THFA
    case 0x4D434143 => MCAC case 0x47415445 => GATE case 0x50524552 => PRER case 0x50524554 => PRET
    case 0x50524543 => PREC case 0x5052434C => PRCL case 0x50524348 => PRCH case 0x4D434153 => MCAS
    case 0x50555245 => PURE case 0x48565345 => HVSE case 0x54454353 => TECS case 0x4D43534C => MCSL
    case 0x4D435348 => MCSH case 0x4D435354 => MCST case 0x41554F31 => AUO1 case 0x41554F32 => AUO2
    case 0x41553334 => AU34 case 0x434F4E31 => CON1 case 0x434F4E32 => CON2 case _ => SCAW
  }

  lemma {:induction false} NumberIsCode(k: Key)
    ensures Number(Name(k)) == Code(k)
  {
  }

  lemma {:induction false} KeyBack(k: Key)
    ensures KeyOf(Code(k)) == k
  {
  }

  /** No two fields share a key. */
  lemma {:induction false} NamesDiffer(k: Key, l: Key)
    requires k != l
    ensures Name(k) != Name(l)
  {
    KeyBack(k);
    KeyBack(l);
    NumberIsCode(k);
    NumberIsCode(l);
  }

  predicate Plain(t: Text) {
    EQUALS !in t
  }

  lemma {:induction false} NamePlain(k: Key)
    ensures Plain(Name(k))
  {
    var t := Name(k);
    assert t[0] != EQUALS && t[1] != EQUALS && t[2] != EQUALS && t[3] != EQUALS;
  }

  // ---------------------------------------------------------------------------
  // The fields
  // ---------------------------------------------------------------------------

  /** Choices as indices into their tables, doubles in millionths, counts of presets in millionths too. */
  datatype ConfigFields = ConfigFields(
    clock: int, inputPolarity: int, peakingTime: int, fastPeakingTime: int,
    flatTopTime: int, gain: int, slowThreshold: int, fastThreshold: int,
    numChannels: int, gate: int, presetRealTime: int, presetLiveTime: int,
    presetCounts: int, presetLowChannel: int, presetHighChannel: int, mcaSource: int,
    purEnable: int, setHighVoltage: int, setDetTemp: int, mcsLowChannel: int,
    mcsHighChannel: int, dwellTime: int, auxOut1: int, auxOut2: int,
    auxOut34: int, connect1: int, connect2: int, scaOutputWidth: int)

  function Get(f: ConfigFields, k: Key): int {
    match k
    case CLCK => f.clock case AINP => f.inputPolarity case TPEA => f.peakingTime
    case TPFA => f.fastPeakingTime case TFLA => f.flatTopTime case GAIN => f.gain
    case THSL => f.slowThreshold case THFA => f.fastThreshold case MCAC => f.numChannels
    case GATE => f.gate case PRER => f.presetRealTime case PRET => f.presetLiveTime
    case PREC => f.presetCounts case PRCL => f.presetLowChannel case PRCH => f.presetHighChannel
    case MCAS => f.mcaSource case PURE => f.purEnable case HVSE => f.setHighVoltage
    case TECS => f.setDetTemp case MCSL => f.mcsLowChannel case MCSH => f.mcsHighChannel
    case MCST => f.dwellTime case AUO1 => f.auxOut1 case AUO2 => f.auxOut2
    case AU34 => f.auxOut34 case CON1 => f.connect1 case CON2 => f.connect2
    case SCAW => f.scaOutputWidth
  }

  /** How a field is printed: a choice, a double, an integer, or a double cut to an integer. */
  datatype Kind = OneOf(words: seq<Text>) | Double | Whole | Cut

  function Words2(a: string, b: string): seq<Text> {
    [Ascii(a), Ascii(b)]
  }

  function Words3(a: string, b: string, c: string): seq<Text> {
    [Ascii(a), Ascii(b), Ascii(c)]
  }

  function FastTimes(): seq<Text> {
    [Ascii("50"), Ascii("100"), Ascii("200"), Ascii("400"), Ascii("800"), Ascii("1600"), Ascii("3200")]
  }

  function McaSources(): seq<Text> {
    [Ascii("NORM"), Ascii("MCS"), Ascii("FAST"), Ascii("PUR"), Ascii("RTD")]
  }

  function AuxOutputs(): seq<Text> {
    AuxOutputsLow() + AuxOutputsHigh()
  }

  function AuxOutputsLow(): seq<Text> {
    [Ascii("OFF"), Ascii("ICR"), Ascii("PILEUP"), Ascii("MCSTB"), Ascii("ONESH"), Ascii("DETRES"), Ascii("MCAEN")]
  }

  function AuxOutputsHigh(): seq<Text> {
    [Ascii("PEAKH"), Ascii("SCA8"), Ascii("RTDOS"), Ascii("RTDREJ"), Ascii("VETO"), Ascii("LIVE"), Ascii("STREAM")]
  }

  function Connections2(): seq<Text> {
    [Ascii("AUXOUT2"), Ascii("AUXIN2"), Ascii("GATEH"), Ascii("GATEL")]
  }

  function KindOf(k: Key): Kind {
    match k
    case CLCK => OneOf(Words3("AUTO", "20", "80"))
    case AINP => OneOf(Words2("POS", "NEG"))
    case TPFA => OneOf(FastTimes())
    case GATE => OneOf(Words3("OFF", "HI", "LOW"))
    case MCAS => OneOf(McaSources())
    case PURE => OneOf(Words3("ON", "OFF", "MAX"))
    case AUO1 | AUO2 => OneOf(AuxOutputs())
    case CON1 => OneOf(Words3("DAC", "AUXOUT1", "AUXIN1"))
    case CON2 => OneOf(Connections2())
    case SCAW => OneOf(Words2("100", "1000"))
    case TPEA | TFLA | GAIN | THSL | THFA | PRER | PRET | TECS | MCST => Double
    case PREC => Cut
    case MCAC | PRCL | PRCH | HVSE | MCSL | MCSH | AU34 => Whole
  }

  /** Truncated toward zero and saturated to 32 bits. */
  function AsI32(micros: int): int {
    var n := if micros >= 0 then micros / MILLION else -(-micros / MILLION);
    if n > 0x7FFF_FFFF then 0x7FFF_FFFF else if n < -0x8000_0000 then -0x8000_0000 else n
  }

  /** Six digits behind the point. */
  function SixDigits(r: nat): Text
    requires r < MILLION
  {
    var d := Decimal(r);
    (if |d| < 6 then Repeat(ZERO, 6 - |d|) else []) + d
  }

  function Magnitude6(m: nat): Text {
    Decimal(m / MILLION) + ([DOT] + SixDigits(m % MILLION))
  }

  function DoubleText(micros: int): Text {
    if micros < 0 then [MINUS] + Magnitude6(-micros) else Magnitude6(micros)
  }

  function Print(kind: Kind, v: int): Text {
    match kind
    case OneOf(words) => if 0 <= v < |words| then words[v] else []
    case Double => DoubleText(v)
    case Whole => SignedDecimal(v)
    case Cut => SignedDecimal(AsI32(v))
  }

  function FieldText(f: ConfigFields, k: Key): Text {
    Name(k) + ([EQUALS] + (Print(KindOf(k), Get(f, k)) + [SEMICOLON]))
  }

  function FieldsText(f: ConfigFields, keys: seq<Key>): Text {
    if keys == [] then [] else FieldText(f, keys[0]) + FieldsText(f, keys[1..])
  }

  /** A configuration as a device might have it. */
  const SAMPLE := ConfigFields(
    0, 1, 12_500_000, 2, 800_000, 100_000_000, 1_500_000, 30_000_000, 1024, 1, 0, 0, 5_000_000_000, 0,
    1023, 0, 1, 200, -20_000_000, 0, 1023, 100_000, 6, 0, 0, 0, 0, 0)

  /** A field of the sample as it is sent. */
  predicate Sent(k: Key, name: string, text: string) {
    Name(k) == Ascii(name) && Print(KindOf(k), Get(SAMPLE, k)) == Ascii(text)
  }

  /** Each table's words stand for the choices they are sent as. */
  lemma {:induction false} SampleChoices()
    ensures Sent(CLCK, "CLCK", "AUTO") && Sent(AINP, "AINP", "NEG") && Sent(TPFA, "TPFA", "200")
    ensures Sent(GATE, "GATE", "HI")
  {
  }

  lemma {:induction false} SampleSources()
    ensures Sent(MCAS, "MCAS", "NORM") && Sent(PURE, "PURE", "OFF")
  {
  }

  lemma {:induction false} SampleConnections()
    ensures Sent(CON1, "CON1", "DAC") && Sent(CON2, "CON2", "AUXOUT2")
  {
  }

  lemma {:induction false} SampleWidth()
    ensures Sent(SCAW, "SCAW", "100")
  {
  }

  lemma {:induction false} SampleAux()
    ensures Sent(AUO1, "AUO1", "MCAEN") && Sent(AUO2, "AUO2", "OFF")
  {
  }

  /** All fields, in the order they are sent. */
  function FormatConfiguration(f: ConfigFields): Text {
    FieldsText(f, ORDER)
  }

  // ---------------------------------------------------------------------------
  // Reading back
  // ---------------------------------------------------------------------------

  /** The text behind the first `KEY=`, wherever it is. */
  function FindValueAfter(cfg: Text, k: Key): Option<Text> {
    if |cfg| < 5 then None
    else if cfg[..4] == Name(k) && cfg[4] == EQUALS then Some(cfg[5..])
    else FindValueAfter(cfg[1..], k)
  }

  predicate StartsOff(t: Text) {
    Starts(t, Ascii("OFF"))
  }

  /** The first six digits behind the point, in millionths. */
  function Fraction(digits: Text): nat {
    Value(if |digits| >= 6 then digits[..6] else digits + Repeat(ZERO, 6 - |digits|), 10)
  }

  /** The digits of a decimal, before and behind its point. */
  function ScanMagnitude(u: Text): Option<nat> {
    var n := DigitRun(u, 10);
    var behind := u[n..];
    var m := if behind != [] && behind[0] == DOT then DigitRun(behind[1..], 10) else 0;
    if n + m == 0 then None
    else Some(Value(u[..n], 10) * MILLION + if m > 0 then Fraction(behind[1..][..m]) else 0)
  }

  /** `strtod` on a decimal without an exponent. */
  function ScanDouble(s: Text): Option<int> {
    var t := SkipSpace(s);
    match ScanMagnitude(t[SignLength(t)..])
    case None => None
    case Some(m) => Some(if Negative(t) then 0 - m as int else m)
  }

  function ReadDouble(t: Text): Option<int> {
    if StartsOff(t) then Some(0) else ScanDouble(t)
  }

  function ReadWhole(t: Text): Option<int> {
    if StartsOff(t) then Some(0)
    else match ScanInt(t) case None => None case Some(found) => Some(found.0)
  }

  function ReadKind(kind: Kind, t: Text): Option<int> {
    match kind
    case OneOf(words) => (match ReadChoice(words, t) case None => None case Some(i) => Some(i))
    case Double => ReadDouble(t)
    case Cut => ReadDouble(t)
    case Whole => ReadWhole(t)
  }

  datatype DppType = Dp5 | Px5 | Dp5G | Mca8000D | Tb5 | Dp5X | Unknown(id: byte)

  /** Fields read back at all: two depend on the device, two never are. */
  predicate ReadBack(device: DppType, k: Key) {
    match k
    case GATE => device == Dp5 || device == Mca8000D
    case TECS => device == Dp5 || device == Px5
    case AU34 | SCAW => false
    case _ => true
  }

  /** One field of a configuration; None when it is not found or not readable. */
  function ParseField(cfg: Text, k: Key): Option<int> {
    match FindValueAfter(cfg, k) case None => None case Some(t) => ReadKind(KindOf(k), t)
  }

  /** The fields a configuration is said to lack. */
  function Errors(cfg: Text, device: DppType, keys: seq<Key>): seq<Key> {
    if keys == [] then []
    else
      var k := keys[|keys| - 1];
      Errors(cfg, device, keys[..|keys| - 1]) + if ReadBack(device, k) && ParseField(cfg, k).None? then [k] else []
  }

  /** One field kept, or its key among the errors. */
  ghost predicate Kept(cfg: Text, device: DppType, keys: seq<Key>, parsed: map<Key, int>) {
    && (forall k :: k in parsed <==> k in keys && ReadBack(device, k) && ParseField(cfg, k).Some?)
    && (forall k :: k in parsed ==> parsed[k] == ParseField(cfg, k).value)
  }

  lemma {:induction false} ErrorsSnoc(cfg: Text, device: DppType, keys: seq<Key>, k: Key)
    ensures Errors(cfg, device, keys + [k])
         == Errors(cfg, device, keys) + if ReadBack(device, k) && ParseField(cfg, k).None? then [k] else []
  {
    assert (keys + [k])[..|keys|] == keys;
  }

  /** Every field read back that could be, and the keys of those that could not, in order. */
  method ParseFields(cfg: Text, device: DppType, keys: seq<Key>) returns (parsed: map<Key, int>, errors: seq<Key>)
    ensures errors == Errors(cfg, device, keys) && Kept(cfg, device, keys, parsed)
  {
    parsed, errors := map[], [];
    for i := 0 to |keys|
      invariant errors == Errors(cfg, device, keys[..i]) && Kept(cfg, device, keys[..i], parsed)
    {
      var k := keys[i];
      assert keys[..i + 1] == keys[..i] + [k];
      ErrorsSnoc(cfg, device, keys[..i], k);
      if ReadBack(device, k) {
        var v := ParseField(cfg, k);
        if v.Some? {
          parsed := parsed[k := v.value];
        } else {
          errors := errors + [k];
        }
      }
    }
    assert keys[..|keys|] == keys;
  }

  method ParseConfiguration(cfg: Text, device: DppType) returns (parsed: map<Key, int>, errors: seq<Key>)
    ensures errors == Errors(cfg, device, ORDER) && Kept(cfg, device, ORDER, parsed)
  {
    parsed, errors := ParseFields(cfg, device, ORDER);
  }

  // ---------------------------------------------------------------------------
  // Finding a field
  // ---------------------------------------------------------------------------

  /** No '=' among the first bytes of a text. */
  predicate NoEquals(t: Text, n: nat) {
    forall i :: 0 <= i < |t| && i < n ==> t[i] != EQUALS
  }

  /** Text without '=' is passed over. */
  lemma {:induction false} TextSkipped(t: Text, rest: Text, k: Key)
    requires Plain(t) && NoEquals(rest, 4)
    ensures FindValueAfter(t + rest, k) == FindValueAfter(rest, k)
  {
    var s := t + rest;
    if t == [] {
      assert s == rest;
    } else {
      TextSkipped(t[1..], rest, k);
      assert s[1..] == t[1..] + rest;
      if |s| >= 5 {
        assert s[4] == if |t| > 4 then t[4] else rest[4 - |t|];
      }
    }
  }

  /** Up to four bytes before an '=' are passed over, unless they are the key. */
  lemma {:induction false} KeySkipped(n: Text, rest: Text, k: Key)
    requires |n| <= 4 && n != Name(k)
    ensures FindValueAfter(n + ([EQUALS] + rest), k) == FindValueAfter(rest, k)
  {
    var s := n + ([EQUALS] + rest);
    NamePlain(k);
    assert |n| == 4 ==> s[..4] == n;
    assert s[|n|] == EQUALS;
    if n == [] {
      assert s[1..] == rest;
      NoFindShort(s, rest, k);
    } else {
      assert s[1..] == n[1..] + ([EQUALS] + rest);
      KeySkipped(n[1..], rest, k);
      NoFindShort(s, rest, k);
    }
  }

  lemma {:induction false} NoFindShort(s: Text, rest: Text, k: Key)
    requires |rest| <= |s|
    ensures |s| < 5 ==> FindValueAfter(s, k) == FindValueAfter(rest, k)
  {
  }

  lemma {:induction false} FieldSplits(n: Text, v: Text, rest: Text)
    ensures n + ([EQUALS] + (v + [SEMICOLON])) + rest == n + ([EQUALS] + ((v + [SEMICOLON]) + rest))
  {
    Assoc(n, [EQUALS] + (v + [SEMICOLON]), rest);
    Assoc([EQUALS], v + [SEMICOLON], rest);
  }

  /** A field with another key is passed over. */
  lemma {:induction false} FieldSkipped(l: Key, v: Text, rest: Text, k: Key)
    requires k != l && Plain(v) && NoEquals(rest, 4)
    ensures FindValueAfter(Name(l) + ([EQUALS] + (v + [SEMICOLON])) + rest, k) == FindValueAfter(rest, k)
  {
    FieldSplits(Name(l), v, rest);
    NamesDiffer(k, l);
    KeySkipped(Name(l), (v + [SEMICOLON]) + rest, k);
    TextSkipped(v + [SEMICOLON], rest, k);
  }

  /** The field with the key is found where it starts. */
  lemma {:induction false} FieldFound(k: Key, v: Text, rest: Text)
    ensures FindValueAfter(Name(k) + ([EQUALS] + (v + [SEMICOLON])) + rest, k) == Some(v + ([SEMICOLON] + rest))
  {
    FieldSplits(Name(k), v, rest);
    Assoc(v, [SEMICOLON], rest);
    var behind := v + ([SEMICOLON] + rest);
    var s := Name(k) + ([EQUALS] + behind);
    assert s[..4] == Name(k) && s[4] == EQUALS && s[5..] == behind;
  }

  // ---------------------------------------------------------------------------
  // Reading a value
  // ---------------------------------------------------------------------------

  lemma {:induction false} FastTimesPrefixFree()
    ensures PrefixFree(FastTimes())
  {
  }

  lemma {:induction false} McaSourcesPrefixFree()
    ensures PrefixFree(McaSources())
  {
  }

  lemma {:induction false} LowPrefixFree()
    ensures PrefixFree(AuxOutputsLow())
  {
  }

  lemma {:induction false} HighPrefixFree()
    ensures PrefixFree(AuxOutputsHigh())
  {
  }

  lemma {:induction false} LowAndHighApart(i: nat, j: nat)
    requires i < 7 && j < 7
    ensures Apart(AuxOutputsLow()[i], AuxOutputsHigh()[j])
  {
  }

  lemma {:induction false} AuxOutputsPrefixFree()
    ensures PrefixFree(AuxOutputs())
  {
    LowPrefixFree();
    HighPrefixFree();
    forall i, j | 0 <= i < 7 && 0 <= j < 7
      ensures Apart(AuxOutputsLow()[i], AuxOutputsHigh()[j])
    {
      LowAndHighApart(i, j);
    }
    PrefixFreeJoin(AuxOutputsLow(), AuxOutputsHigh());
  }

  lemma {:induction false} SmallTablesPrefixFree()
    ensures PrefixFree(Words3("AUTO", "20", "80")) && PrefixFree(Words2("POS", "NEG")) && PrefixFree(Words3("OFF", "HI", "LOW"))
  {
  }

  lemma {:induction false} OtherTablesPrefixFree()
    ensures PrefixFree(Words3("ON", "OFF", "MAX")) && PrefixFree(Words3("DAC", "AUXOUT1", "AUXIN1"))
    ensures PrefixFree(Connections2())
  {
  }

  /** The tables of all fields that are read back. */
  lemma {:induction false} TablesPrefixFree(k: Key, device: DppType)
    requires ReadBack(device, k) && KindOf(k).OneOf?
    ensures PrefixFree(KindOf(k).words)
  {
    match k
    case TPFA => FastTimesPrefixFree();
    case MCAS => McaSourcesPrefixFree();
    case AUO1 => AuxOutputsPrefixFree();
    case AUO2 => AuxOutputsPrefixFree();
    case _ =>
      SmallTablesPrefixFree();
      OtherTablesPrefixFree();
  }

  lemma {:induction false} DecimalLength(n: nat, k: nat)
    requires k > 0 && n < Power(10, k)
    ensures |Decimal(n)| <= k
    decreases k
  {
    if n >= 10 {
      DecimalLength(n / 10, k - 1);
    }
  }

  lemma {:induction false} SixDigitsRead(r: nat)
    requires r < MILLION
    ensures |SixDigits(r)| == 6 && AllDigits(SixDigits(r), 10) && Fraction(SixDigits(r)) == r
  {
    assert Power(10, 3) == 1000;
    assert Power(10, 6) == MILLION;
    DecimalLength(r, 6);
    var d := Decimal(r);
    NumeralValue(r, 10, false);
    LeadingZeros(6 - |d|, d, 10);
    var six := SixDigits(r);
    assert six[..6] == six;
    if |d| == 6 {
      assert six == d;
    }
  }

  lemma {:induction false} MagnitudeFrom(whole: Text, six: Text, tail: Text, u: Text)
    requires whole != [] && AllDigits(whole, 10) && AllDigits(six, 10) && |six| == 6
    requires tail != [] && tail[0] == SEMICOLON && u == whole + ([DOT] + (six + tail))
    ensures ScanMagnitude(u) == Some(Value(whole, 10) * MILLION + Fraction(six))
  {
    var point := [DOT] + (six + tail);
    RunEnds(whole, point, 10);
    assert u[..|whole|] == whole && u[|whole|..] == point;
    RunEnds(six, tail, 10);
    assert point[1..] == six + tail && (six + tail)[..6] == six;
  }

  lemma {:induction false} MagnitudeReads(m: nat, tail: Text)
    requires tail != [] && tail[0] == SEMICOLON
    ensures ScanMagnitude(Magnitude6(m) + tail) == Some(m)
    ensures IsDigit((Magnitude6(m) + tail)[0], 10)
  {
    var whole, six := Decimal(m / MILLION), SixDigits(m % MILLION);
    SixDigitsRead(m % MILLION);
    NumeralValue(m / MILLION, 10, false);
    Assoc(whole, [DOT] + six, tail);
    Assoc([DOT], six, tail);
    MagnitudeFrom(whole, six, tail, Magnitude6(m) + tail);
    assert IsDigit(whole[0], 10);
  }

  lemma {:induction false} NotOff(t: Text)
    requires t != [] && t[0] != 79
    ensures !StartsOff(t)
  {
    assert Ascii("OFF")[0] == 79;
    assert |t| >= 3 ==> t[..3][0] == t[0];
  }

  /** A sign and a text that starts with a digit. */
  lemma {:induction false} SignReads(u: Text, m: nat)
    requires u != [] && IsDigit(u[0], 10) && ScanMagnitude(u) == Some(m)
    ensures ReadDouble(u) == Some(m) && ReadDouble([MINUS] + u) == Some(0 - m as int)
  {
    var t := [MINUS] + u;
    NotOff(u);
    NotOff(t);
    assert SkipSpace(u) == u && u[0..] == u;
    assert SkipSpace(t) == t && t[1..] == u;
  }

  lemma {:induction false} DoubleReads(v: int, tail: Text)
    requires tail != [] && tail[0] == SEMICOLON
    ensures ReadDouble(DoubleText(v) + tail) == Some(v)
  {
    var m: nat := if v < 0 then -v else v;
    MagnitudeReads(m, tail);
    Assoc([MINUS], Magnitude6(m), tail);
    SignReads(Magnitude6(m) + tail, m);
  }

  lemma {:induction false} SignedParts(v: int, tail: Text)
    ensures SignedDecimal(v) + tail
         == (if v < 0 then [MINUS] else []) + (Decimal(if v < 0 then -v else v) + tail)
  {
    if v < 0 {
      Assoc([MINUS], Decimal(-v), tail);
    } else {
      assert [] + (Decimal(v) + tail) == Decimal(v) + tail;
    }
  }

  lemma {:induction false} WholeReads(v: int, tail: Text)
    requires -0x8000_0000 <= v < 0x8000_0000 && tail != [] && tail[0] == SEMICOLON
    ensures ReadWhole(SignedDecimal(v) + tail) == Some(v)
  {
    var m: nat := if v < 0 then -v else v;
    var sign := if v < 0 then [MINUS] else [];
    SignedParts(v, tail);
    NumeralValue(m, 10, false);
    IntReadsBare(sign, Decimal(m), tail);
    assert IsDigit(Decimal(m)[0], 10);
    NotOff(sign + (Decimal(m) + tail));
  }

  lemma {:induction false} IntReadsBare(sign: Text, digits: Text, tail: Text)
    requires sign == [] || sign == [MINUS]
    requires digits != [] && AllDigits(digits, 10) && tail != [] && tail[0] == SEMICOLON
    ensures ScanInt(sign + (digits + tail)) == Some((Clamped(sign == [MINUS], Value(digits, 10)), tail))
  {
    var t := sign + (digits + tail);
    IntReads(0, sign, digits, tail);
    assert Repeat(SPACE, 0) + t == t;
  }

  lemma {:induction false} PositiveAsDouble(m: nat, tail: Text, t: Text)
    requires tail != [] && tail[0] == SEMICOLON && t == Decimal(m) + tail
    ensures ReadDouble(t) == Some(m * MILLION)
  {
    WholeMagnitude(m, tail);
    SignReads(t, m * MILLION);
  }

  lemma {:induction false} NegativeAsDouble(m: nat, micros: int, tail: Text, u: Text)
    requires tail != [] && tail[0] == SEMICOLON && micros == -(m * MILLION) && u == Decimal(m) + tail
    ensures ReadDouble([MINUS] + u) == Some(micros)
  {
    WholeMagnitude(m, tail);
    SignReads(u, m * MILLION);
  }

  lemma {:induction false} SignedAs(n: int, tail: Text)
    ensures n < 0 ==> SignedDecimal(n) + tail == [MINUS] + (Decimal(-n) + tail)
    ensures n >= 0 ==> SignedDecimal(n) + tail == Decimal(n) + tail
  {
    if n < 0 {
      Assoc([MINUS], Decimal(-n), tail);
    }
  }

  /** An integer read as a double. */
  lemma {:induction false} CutReads(n: int, micros: int, tail: Text, t: Text)
    requires tail != [] && tail[0] == SEMICOLON && micros == n * MILLION
    requires t == if n < 0 then [MINUS] + (Decimal(-n) + tail) else Decimal(n) + tail
    ensures ReadDouble(t) == Some(micros)
  {
    if n < 0 {
      NegativeAsDouble(-n, micros, tail, Decimal(-n) + tail);
    } else {
      PositiveAsDouble(n, tail, t);
    }
  }

  lemma {:induction false} WholeMagnitude(m: nat, tail: Text)
    requires tail != [] && tail[0] == SEMICOLON
    ensures ScanMagnitude(Decimal(m) + tail) == Some(m * MILLION)
    ensures IsDigit((Decimal(m) + tail)[0], 10)
  {
    var d := Decimal(m);
    NumeralValue(m, 10, false);
    RunEnds(d, tail, 10);
    assert (d + tail)[..|d|] == d && (d + tail)[|d|..] == tail;
    assert IsDigit(d[0], 10);
  }

  // ---------------------------------------------------------------------------
  // The whole configuration
  // ---------------------------------------------------------------------------

  /** Choices inside their tables, integers inside 32 bits. */
  predicate InRange(kind: Kind, v: int) {
    match kind
    case OneOf(words) => 0 <= v < |words|
    case Whole => -0x8000_0000 <= v < 0x8000_0000
    case Double => true
    case Cut => true
  }

  /** What reading makes of a printed value. */
  function Back(kind: Kind, v: int): int {
    if kind.Cut? then AsI32(v) * MILLION else v
  }

  lemma {:induction false} ValueReads(k: Key, device: DppType, v: int, tail: Text)
    requires ReadBack(device, k) && InRange(KindOf(k), v) && tail != [] && tail[0] == SEMICOLON
    ensures ReadKind(KindOf(k), Print(KindOf(k), v) + tail) == Some(Back(KindOf(k), v))
  {
    match KindOf(k)
    case OneOf(words) =>
      TablesPrefixFree(k, device);
      ChoiceReads(words, v, tail);
    case Double => DoubleReads(v, tail);
    case Whole => WholeReads(v, tail);
    case Cut =>
      SignedAs(AsI32(v), tail);
      CutReads(AsI32(v), AsI32(v) * MILLION, tail, Print(Cut, v) + tail);
  }

  lemma {:induction false} DigitsPlain(d: Text)
    requires AllDigits(d, 10)
    ensures Plain(d)
  {
  }

  lemma {:induction false} PlainJoin(a: Text, b: Text)
    requires Plain(a) && Plain(b)
    ensures Plain(a + b)
  {
  }

  lemma {:induction false} NumbersPlain(v: int)
    ensures Plain(SignedDecimal(v)) && Plain(DoubleText(v))
  {
    var m: nat := if v < 0 then -v else v;
    DigitsPlain(Decimal(m));
    PlainJoin([MINUS], Decimal(m));
    SixDigitsRead(m % MILLION);
    DigitsPlain(SixDigits(m % MILLION));
    DigitsPlain(Decimal(m / MILLION));
    PlainJoin([DOT], SixDigits(m % MILLION));
    PlainJoin(Decimal(m / MILLION), [DOT] + SixDigits(m % MILLION));
    PlainJoin([MINUS], Magnitude6(m));
  }

  ghost predicate AllPlain(words: seq<Text>) {
    forall i :: 0 <= i < |words| ==> Plain(words[i])
  }

  lemma {:induction false} SmallTablesPlain()
    ensures AllPlain(Words3("AUTO", "20", "80")) && AllPlain(Words2("POS", "NEG")) && AllPlain(Words3("OFF", "HI", "LOW"))
    ensures AllPlain(Words3("ON", "OFF", "MAX")) && AllPlain(Words3("DAC", "AUXOUT1", "AUXIN1")) && AllPlain(Words2("100", "1000"))
  {
  }

  lemma {:induction false} LargeTablesPlain()
    ensures AllPlain(FastTimes()) && AllPlain(McaSources()) && AllPlain(Connections2())
  {
  }

  lemma {:induction false} AuxOutputsPlain()
    ensures AllPlain(AuxOutputsLow()) && AllPlain(AuxOutputsHigh())
  {
  }

  /** No value has an '=' in it. */
  lemma {:induction false} PrintPlain(k: Key, v: int)
    ensures Plain(Print(KindOf(k), v))
  {
    match KindOf(k)
    case OneOf(words) =>
      SmallTablesPlain();
      LargeTablesPlain();
      AuxOutputsPlain();
      assert AllPlain(words);
    case Double => NumbersPlain(v);
    case Whole => NumbersPlain(v);
    case Cut => NumbersPlain(AsI32(v));
  }

  lemma {:induction false} FieldsStart(f: ConfigFields, keys: seq<Key>)
    ensures NoEquals(FieldsText(f, keys), 4)
  {
    if keys != [] {
      var n := Name(keys[0]);
      NamePlain(keys[0]);
      FieldSplits(n, Print(KindOf(keys[0]), Get(f, keys[0])), FieldsText(f, keys[1..]));
      assert forall i :: 0 <= i < 4 ==> FieldsText(f, keys)[i] == n[i];
    }
  }

  lemma {:induction false} ThisFieldReads(f: ConfigFields, k: Key, rest: Text, device: DppType)
    requires ReadBack(device, k) && InRange(KindOf(k), Get(f, k))
    ensures ParseField(FieldText(f, k) + rest, k) == Some(Back(KindOf(k), Get(f, k)))
  {
    FieldFound(k, Print(KindOf(k), Get(f, k)), rest);
    ValueReads(k, device, Get(f, k), [SEMICOLON] + rest);
  }

  lemma {:induction false} OtherFieldSkipped(f: ConfigFields, l: Key, rest: Text, k: Key)
    requires k != l && NoEquals(rest, 4)
    ensures ParseField(FieldText(f, l) + rest, k) == ParseField(rest, k)
  {
    PrintPlain(l, Get(f, l));
    FieldSkipped(l, Print(KindOf(l), Get(f, l)), rest, k);
  }

  /** A field among others is found, and its value read. */
  lemma {:induction false} FieldReads(f: ConfigFields, keys: seq<Key>, k: Key, device: DppType)
    requires k in keys && ReadBack(device, k) && InRange(KindOf(k), Get(f, k))
    ensures ParseField(FieldsText(f, keys), k) == Some(Back(KindOf(k), Get(f, k)))
    decreases |keys|
  {
    var l, rest := keys[0], FieldsText(f, keys[1..]);
    if l == k {
      ThisFieldReads(f, k, rest, device);
    } else {
      FieldsStart(f, keys[1..]);
      OtherFieldSkipped(f, l, rest, k);
      FieldReads(f, keys[1..], k, device);
    }
  }

  ghost predicate ValidFields(f: ConfigFields) {
    forall k :: InRange(KindOf(k), Get(f, k))
  }

  /** A field's place in the order of sending. */
  function PlaceOf(k: Key): (i: nat)
    ensures i < 28
  {
    match k
    case CLCK => 0 case AINP => 1 case TPEA => 2 case TPFA => 3 case TFLA => 4 case GAIN => 5 case THSL => 6
    case THFA => 7 case MCAC => 8 case GATE => 9 case PRER => 10 case PRET => 11 case PREC => 12 case PRCL => 13
    case PRCH => 14 case MCAS => 15 case PURE => 16 case HVSE => 17 case TECS => 18 case MCSL => 19 case MCSH => 20
    case MCST => 21 case AUO1 => 22 case AUO2 => 23 case AU34 => 24 case CON1 => 25 case CON2 => 26 case SCAW => 27
  }

  lemma {:induction false} AllSent(k: Key)
    ensures ORDER[PlaceOf(k)] == k
  {
  }

  /**
   * Every field that a device reports is read back from the configuration sent: choices, integers and
   * doubles exactly, preset counts cut to a 32-bit integer.
   */
  lemma {:induction false} ConfigurationReadsBack(f: ConfigFields, device: DppType, k: Key)
    requires ValidFields(f) && ReadBack(device, k)
    ensures ParseField(FormatConfiguration(f), k) == Some(Back(KindOf(k), Get(f, k)))
  {
    AllSent(k);
    FieldReads(f, ORDER, k, device);
  }

  /** So there are no errors, for any device. */
  lemma {:induction false} NoErrors(f: ConfigFields, device: DppType, keys: seq<Key>)
    requires ValidFields(f)
    ensures Errors(FormatConfiguration(f), device, keys) == []
  {
    if keys != [] {
      var k := keys[|keys| - 1];
      if ReadBack(device, k) {
        ConfigurationReadsBack(f, device, k);
      }
      NoErrors(f, device, keys[..|keys| - 1]);
    }
  }

  /** Preset counts read back as sent exactly when they are a whole number of 32 bits. */
  lemma {:induction false} CountsReadBack(f: ConfigFields, device: DppType)
    requires ValidFields(f)
    ensures ParseField(FormatConfiguration(f), PREC) == Some(f.presetCounts)
       <==> f.presetCounts % MILLION == 0 && -0x8000_0000 <= f.presetCounts / MILLION < 0x8000_0000
  {
    ConfigurationReadsBack(f, device, PREC);
    CutExact(f.presetCounts);
  }

  lemma {:induction false} CutExact(v: int)
    ensures AsI32(v) * MILLION == v <==> v % MILLION == 0 && -0x8000_0000 <= v / MILLION < 0x8000_0000
  {
  }
}