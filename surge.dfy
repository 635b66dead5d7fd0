/**
 * The per-pair decision of the meme-coin detector: the token-age gate, the core volume
 * surge against the five-minute baseline, the auxiliary price-change condition, and the
 * report entry with its severity.
 */
module Surge {
  import opened Wrappers
  import opened Numbers
  import opened VolumeHistory

  /** The current one-hour volume must exceed the baseline by this factor. */
  const VolumeIncreaseFactor: real := 1.5

  /** The volume gained over five minutes must exceed this amount. */
  const MinFiveMinVolume: real := 50000.0

  /** Only tokens older than this many hours are tested for a surge. */
  const TokenAgeThresholdHours: real := 6.0

  /** Milliseconds per hour, to turn a difference of timestamps into an age in hours. */
  const MsPerHour: real := 3600000.0

  /**
   * The fields of one pair record from the market-data API that the detector reads;
   * `None` is a missing field.
   */
  datatype PairSnapshot = PairSnapshot(
    pairAddress: Option<string>,
    chainId: Option<string>,
    dexId: Option<string>,
    url: Option<string>,
    baseSymbol: Option<string>,
    quoteSymbol: Option<string>,
    h1Volume: Option<Scalar>,
    h24Volume: Option<Scalar>,
    h1PriceChange: Option<Scalar>,
    h24PriceChange: Option<Scalar>,
    createdAt: Option<Scalar>)

  /** The first creation time, in milliseconds, whose date lies in year 1: 0001-01-01 00:00 UTC. */
  const FirstCreatedMs: real := -62135596800000.0

  /** The first creation time, in milliseconds, whose date lies past year 9999: 10000-01-01 00:00 UTC. */
  const EndCreatedMs: real := 253402300800000.0

  /**
   * The token's age in hours at `now` (milliseconds). The age stays 0 when the creation
   * time is missing or falsy (0 or an empty string); when it is a non-empty string, whose
   * division by 1000 raises the `TypeError` the source swallows; and when its date falls
   * outside years 1 to 9999, where `datetime.fromtimestamp` raises the `ValueError` the
   * source swallows as well.
   */
  function TokenAgeHours(createdAt: Option<Scalar>, now: int): (r: real)
    ensures r != 0.0 ==> createdAt.Some? && createdAt.value.JNumber? && createdAt.value.n != 0.0 &&
                         FirstCreatedMs <= createdAt.value.n < EndCreatedMs
    ensures createdAt.Some? && createdAt.value.JNumber? && createdAt.value.n != 0.0 &&
            FirstCreatedMs <= createdAt.value.n < EndCreatedMs ==>
              r * MsPerHour == now as real - createdAt.value.n
  {
    match createdAt
    case Some(JNumber(ms)) =>
      if ms != 0.0 && FirstCreatedMs <= ms < EndCreatedMs then (now as real - ms) / MsPerHour else 0.0
    case _ => 0.0
  }

  /**
   * A token with a valid creation time `ms` passes the six-hour age gate exactly when more
   * than 21,600,000 milliseconds passed since `ms`.
   */
  lemma PastAgeGate(ms: real, now: int)
    requires ms != 0.0 && FirstCreatedMs <= ms < EndCreatedMs
    ensures TokenAgeHours(Some(JNumber(ms)), now) > TokenAgeThresholdHours <==> now as real - ms > 21600000.0
  {
    var age := TokenAgeHours(Some(JNumber(ms)), now);
    assert age * MsPerHour == now as real - ms;
  }

  /** The core thresholds on a baseline `base` and a current volume `cur`. */
  predicate SurgeThresholds(base: real, cur: real) {
    base > 0.0 && cur > base * VolumeIncreaseFactor && cur - base > MinFiveMinVolume
  }

  /** What the rule decides about one pair in one cycle. */
  datatype Verdict = Verdict(core: bool, aux: bool, fiveMinVolume: real, ageHours: real)

  /**
   * The five-minute volume gained, which is computed only for a token past the age gate
   * whose current volume parses and whose buffer holds a baseline; otherwise `None`.
   */
  function FiveMinuteGain(ageHours: real, h1: Option<Scalar>, baseline: Option<real>): (gain: Option<real>) {
    if ageHours > TokenAgeThresholdHours && h1.Some? && baseline.Some? && Float(h1.value).Some? then
      Some(Float(h1.value).value - baseline.value)
    else None
  }

  /** The auxiliary condition: both price changes parse, and the one-hour change is positive and above the 24-hour one. */
  predicate Auxiliary(h1Change: Option<Scalar>, h24Change: Option<Scalar>)
    ensures Auxiliary(h1Change, h24Change) <==>
              h1Change.Some? && h24Change.Some? && Float(h1Change.value).Some? && Float(h24Change.value).Some? &&
              Float(h1Change.value).value > 0.0 && Float(h1Change.value).value > Float(h24Change.value).value
  {
    h1Change.Some? && h24Change.Some? &&
    match (Float(h1Change.value), Float(h24Change.value))
    case (Some(a), Some(b)) => a > b && a > 0.0
    case _ => false
  }

  /**
   * The verdict on pair `p` at `now` (milliseconds), given the baseline the lookback
   * found: no core condition and a five-minute volume of 0 for a token past no gate or
   * without a baseline; a core condition only for a token past the gate whose positive
   * baseline it outgrew by more than the minimum volume.
   */
  function Judge(p: PairSnapshot, baseline: Option<real>, now: int): (r: Verdict)
    ensures r.ageHours == TokenAgeHours(p.createdAt, now)
    ensures r.aux <==> Auxiliary(p.h1PriceChange, p.h24PriceChange)
    ensures r.ageHours <= TokenAgeThresholdHours || baseline.None? ==> !r.core && r.fiveMinVolume == 0.0
    ensures r.core ==> r.ageHours > TokenAgeThresholdHours && baseline.Some? && baseline.value > 0.0 &&
                       r.fiveMinVolume > MinFiveMinVolume
  {
    var age := TokenAgeHours(p.createdAt, now);
    var gain := FiveMinuteGain(age, p.h1Volume, baseline);
    var core := gain.Some? && SurgeThresholds(baseline.value, Float(p.h1Volume.value).value);
    Verdict(core, Auxiliary(p.h1PriceChange, p.h24PriceChange), gain.GetOr(0.0), age)
  }

  /**
   * The verdict on pair `p` at `now`, given its buffer AFTER this cycle's observation was
   * recorded: the baseline is the lookback five minutes before `now`.
   */
  function Evaluate(p: PairSnapshot, buf: seq<Observation>, now: int): (v: Verdict) {
    Judge(p, VolumeAsOf(buf, now - LookbackMs), now)
  }

  /** A token no older than six hours is never flagged and its five-minute volume stays 0. */
  lemma AgeGate(p: PairSnapshot, buf: seq<Observation>, now: int)
    requires TokenAgeHours(p.createdAt, now) <= TokenAgeThresholdHours
    ensures !Evaluate(p, buf, now).core && Evaluate(p, buf, now).fiveMinVolume == 0.0
  {
  }

  /** Without a creation time the age defaults to 0, so the pair is never flagged. */
  lemma MissingCreationTime(p: PairSnapshot, buf: seq<Observation>, now: int)
    requires p.createdAt.None?
    ensures Evaluate(p, buf, now).ageHours == 0.0 && !Evaluate(p, buf, now).core
  {
  }

  /**
   * A creation time given as a string leaves the age at 0, so the pair is never flagged:
   * an empty string is falsy, and dividing a non-empty one by 1000 raises a `TypeError`.
   */
  lemma StringCreationTime(p: PairSnapshot, buf: seq<Observation>, now: int, text: string)
    requires p.createdAt == Some(JString(text))
    ensures Evaluate(p, buf, now).ageHours == 0.0 && !Evaluate(p, buf, now).core
  {
  }

  /**
   * A creation time whose date falls outside years 1 to 9999 leaves the age at 0, so the
   * pair is never flagged: `datetime.fromtimestamp` raises a `ValueError` for it.
   */
  lemma OutOfRangeCreationTime(p: PairSnapshot, buf: seq<Observation>, now: int, ms: real)
    requires p.createdAt == Some(JNumber(ms)) && (ms < FirstCreatedMs || EndCreatedMs <= ms)
    ensures Evaluate(p, buf, now).ageHours == 0.0 && !Evaluate(p, buf, now).core
  {
  }

  /** A creation time of -10^15 milliseconds, some 29,700 years before 1970, is one of them. */
  lemma FarPastCreationTime(now: int)
    ensures TokenAgeHours(Some(JNumber(-1000000000000000.0)), now) == 0.0
  {
  }

  /** Without a current one-hour volume the pair is never flagged. */
  lemma MissingVolume(p: PairSnapshot, buf: seq<Observation>, now: int)
    requires p.h1Volume.None?
    ensures !Evaluate(p, buf, now).core && Evaluate(p, buf, now).fiveMinVolume == 0.0
  {
  }

  /**
   * A current one-hour volume that is present but does not parse is never flagged either:
   * `float()` raises the `ValueError` the source catches, and the five-minute volume stays 0.
   */
  lemma UnparsableVolume(p: PairSnapshot, buf: seq<Observation>, now: int)
    requires p.h1Volume.Some? && Float(p.h1Volume.value).None?
    ensures !Evaluate(p, buf, now).core && Evaluate(p, buf, now).fiveMinVolume == 0.0
  {
  }

  /** Without an observation at least five minutes old the pair is never flagged. */
  lemma NoBaseline(p: PairSnapshot, buf: seq<Observation>, now: int)
    requires forall i :: 0 <= i < |buf| ==> buf[i].ts > now - LookbackMs
    ensures !Evaluate(p, buf, now).core && Evaluate(p, buf, now).fiveMinVolume == 0.0
  {
  }

  /**
   * Once evaluated (age past the gate, current volume `cur` parsed, baseline `base` found),
   * the five-minute volume is `cur - base` whether or not the thresholds pass, and the core
   * condition holds exactly when the thresholds do.
   */
  lemma CoreWhenEvaluated(p: PairSnapshot, buf: seq<Observation>, now: int, base: real, cur: real)
    requires TokenAgeHours(p.createdAt, now) > TokenAgeThresholdHours
    requires p.h1Volume.Some? && Float(p.h1Volume.value) == Some(cur)
    requires VolumeAsOf(buf, now - LookbackMs) == Some(base)
    ensures Evaluate(p, buf, now).fiveMinVolume == cur - base
    ensures Evaluate(p, buf, now).core <==> base > 0.0 && cur > 1.5 * base && cur - base > 50000.0
  {
  }

  /** Conversely, a flagged pair passed the age gate, had a parsed volume and a baseline, and passed the thresholds. */
  lemma CoreOnlyWhenEvaluated(p: PairSnapshot, buf: seq<Observation>, now: int)
    requires Evaluate(p, buf, now).core
    ensures TokenAgeHours(p.createdAt, now) > TokenAgeThresholdHours
    ensures p.h1Volume.Some? && Float(p.h1Volume.value).Some?
    ensures exists i :: 0 <= i < |buf| && buf[i].ts <= now - LookbackMs
    ensures SurgeThresholds(VolumeAsOf(buf, now - LookbackMs).value, Float(p.h1Volume.value).value)
  {
  }

  /** A baseline of 1000 and a current volume of 1600 grow by more than half, but by too little volume. */
  lemma SmallSurgeNotFlagged()
    ensures !SurgeThresholds(1000.0, 1600.0)
  {
  }

  /** A baseline of 40000 and a current volume of 100000 pass all three thresholds. */
  lemma LargeSurgeFlagged()
    ensures SurgeThresholds(40000.0, 100000.0)
  {
  }

  /**
   * A one-hour price change of 5 against a 24-hour change of 2 meets the auxiliary
   * condition; -1 against -5 rises faster but is not positive, so it does not; and a
   * missing 24-hour change never does.
   */
  lemma AuxiliaryExamples()
    ensures Auxiliary(Some(JNumber(5.0)), Some(JNumber(2.0)))
    ensures !Auxiliary(Some(JNumber(-1.0)), Some(JNumber(-5.0)))
    ensures !Auxiliary(Some(JNumber(5.0)), None)
  {
  }

  /** Severity of a report: three fires for the core condition alone, five with the auxiliary one. */
  datatype Severity = Normal | High

  /** One entry of the report list. */
  datatype Report = Report(
    pairName: string,
    chain: Option<string>,
    dex: Option<string>,
    h1Volume: Option<Scalar>,
    h24Volume: Option<Scalar>,
    h1PriceChange: Option<Scalar>,
    h24PriceChange: Option<Scalar>,
    url: Option<string>,
    severity: Severity,
    tokenAgeHours: real,
    fiveMinVolume: real)

  /** `BASE/QUOTE` with `N/A` for a missing symbol. */
  function PairName(p: PairSnapshot): (name: string) {
    p.baseSymbol.GetOr("N/A") + "/" + p.quoteSymbol.GetOr("N/A")
  }

  /**
   * The report entry for pair `p` under verdict `v`, if any: a pair is reported exactly
   * when the core condition holds, at high severity exactly when the auxiliary condition
   * holds too, so the auxiliary condition alone never reports a pair.
   */
  function ReportFor(p: PairSnapshot, v: Verdict): (r: Option<Report>)
    ensures r.Some? <==> v.core
    ensures r.Some? ==> (r.value.severity == High <==> v.aux)
    ensures r.Some? ==> r.value.fiveMinVolume == v.fiveMinVolume && r.value.tokenAgeHours == v.ageHours
    ensures r.Some? ==> r.value.h1Volume == p.h1Volume && r.value.h24Volume == p.h24Volume
                        && r.value.h1PriceChange == p.h1PriceChange && r.value.h24PriceChange == p.h24PriceChange
                        && r.value.chain == p.chainId && r.value.dex == p.dexId && r.value.url == p.url
                        && r.value.pairName == PairName(p)
  {
    if v.core then
      Some(Report(PairName(p), p.chainId, p.dexId, p.h1Volume, p.h24Volume, p.h1PriceChange, p.h24PriceChange,
                  p.url, if v.aux then High else Normal, v.ageHours, v.fiveMinVolume))
    else None
  }

  /** The report entry for pair `p` at `now`, given its buffer after recording. */
  function Assess(p: PairSnapshot, buf: seq<Observation>, now: int): (r: Option<Report>) {
    ReportFor(p, Evaluate(p, buf, now))
  }

  /** Every reported pair gained more than the minimum volume in five minutes. */
  lemma ReportedGain(p: PairSnapshot, buf: seq<Observation>, now: int)
    requires Assess(p, buf, now).Some?
    ensures Assess(p, buf, now).value.fiveMinVolume > MinFiveMinVolume
    ensures Assess(p, buf, now).value.tokenAgeHours > TokenAgeThresholdHours
  {
  }
}
