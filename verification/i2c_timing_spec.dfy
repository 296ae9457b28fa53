/** I2C timing synthesis: the constants, the 32-bit machine arithmetic and the two searches
    of stm32n6570_discovery_bus.c as functions.  I2cTimingLemmas proves what these functions
    mean; I2cBus holds the imperative driver that is proved against them. */
module I2cTimingSpec {
  import opened Words

  const SEC2NSEC: nat := 1_000_000_000
  const VALID_TIMING_NBR: nat := 128
  const PRESC_MAX: nat := 16
  const SCLDEL_MAX: nat := 16
  const SDADEL_MAX: nat := 16
  const SCLL_MAX: nat := 256
  const SCLH_MAX: nat := 256
  const PAIRS: nat := 65536      // SCLL_MAX * SCLH_MAX, the pairs tried for one table entry
  const ANALOG_FILTER_MIN: nat := 50
  const ANALOG_FILTER_MAX: nat := 260
  const NO_CONFIG: nat := 0xFFFF_FFFF

  /** One speed band: frequencies in Hz, delays in ns. */
  datatype Charac = Charac(freq: nat, freqMin: nat, freqMax: nat, hddatMin: nat, vddatMax: nat, sudatMin: nat,
                           lsclMin: nat, hsclMin: nat, trise: nat, tfall: nat, dnf: nat)

  const STANDARD := Charac(100000, 80000, 120000, 0, 3450, 250, 4700, 4000, 640, 20, 0)
  const FAST := Charac(400000, 320000, 480000, 0, 900, 100, 1300, 600, 250, 100, 0)
  const FAST_PLUS := Charac(1000000, 800000, 1200000, 0, 450, 50, 500, 260, 60, 100, 0)
  const SPEEDS: seq<Charac> := [STANDARD, FAST, FAST_PLUS]

  predicate IsSpeed(c: Charac) { c == STANDARD || c == FAST || c == FAST_PLUS }

  datatype Timing = Timing(presc: nat, tscldel: nat, tsdadel: nat, sclh: nat, scll: nat)

  const ZERO := Timing(0, 0, 0, 0, 0)

  predicate InRange(e: Timing) {
    && e.presc < PRESC_MAX && e.tscldel < SCLDEL_MAX && e.tsdadel < SDADEL_MAX
    && e.sclh < SCLH_MAX && e.scll < SCLL_MAX
  }

  // unsigned 32-bit arithmetic
  function Add32(a: nat, b: nat): nat { (a + b) % U32 }
  function Mul32(a: nat, b: nat): nat { (a * b) % U32 }

  /** The source clock period, rounded to whole ns. */
  function ClockPeriod(f: nat): nat requires f != 0 { (SEC2NSEC + f / 2) / f }

  function TargetPeriod(c: Charac): nat requires IsSpeed(c) { (SEC2NSEC + c.freq / 2) / c.freq }
  function ClkMax(c: Charac): nat requires IsSpeed(c) { SEC2NSEC / c.freqMin }
  function ClkMin(c: Charac): nat requires IsSpeed(c) { SEC2NSEC / c.freqMax }

  // ---- first pass: prescaler and data delays ----

  function ClampToZero(x: int): nat { if x <= 0 then 0 else x }

  /** The unclamped lower and upper bounds on the SDA delay. */
  function SdaDelayLow(c: Charac, t: nat): int { c.tfall + c.hddatMin - ANALOG_FILTER_MIN - (c.dnf + 3) * t }
  function SdaDelayHigh(c: Charac, t: nat): int { c.vddatMax - c.trise - ANALOG_FILTER_MAX - (c.dnf + 4) * t }
  function SclDelayLow(c: Charac): nat { c.trise + c.sudatMin }

  function SclDelay32(t: nat, p: nat, l: nat): nat { Mul32(Mul32(l + 1, p + 1), t) }
  function SdaDelay32(t: nat, p: nat, a: nat): nat { Mul32(Mul32(a, p + 1), t) }

  predicate SclDelOk(c: Charac, t: nat, p: nat, l: nat) { SclDelay32(t, p, l) >= SclDelayLow(c) }
  predicate SdaDelOk(c: Charac, t: nat, p: nat, a: nat) {
    ClampToZero(SdaDelayLow(c, t)) <= SdaDelay32(t, p, a) <= ClampToZero(SdaDelayHigh(c, t))
  }

  /** The least admissible SCLDEL not below `from`, or SCLDEL_MAX when there is none. */
  function LeastSclDel(c: Charac, t: nat, p: nat, from: nat): (r: nat)
    requires from <= SCLDEL_MAX
    ensures from <= r <= SCLDEL_MAX
    ensures r < SCLDEL_MAX ==> SclDelOk(c, t, p, r)
    ensures forall l :: from <= l < r ==> !SclDelOk(c, t, p, l)
    decreases SCLDEL_MAX - from
  {
    if from == SCLDEL_MAX || SclDelOk(c, t, p, from) then from else LeastSclDel(c, t, p, from + 1)
  }

  function LeastSdaDel(c: Charac, t: nat, p: nat, from: nat): (r: nat)
    requires from <= SDADEL_MAX
    ensures from <= r <= SDADEL_MAX
    ensures r < SDADEL_MAX ==> SdaDelOk(c, t, p, r)
    ensures forall a :: from <= a < r ==> !SdaDelOk(c, t, p, a)
    decreases SDADEL_MAX - from
  {
    if from == SDADEL_MAX || SdaDelOk(c, t, p, from) then from else LeastSdaDel(c, t, p, from + 1)
  }

  /** The entry the first pass adds for one prescaler, if any. */
  function FirstDelays(c: Charac, t: nat, p: nat): (r: seq<Timing>)
    ensures |r| <= 1
  {
    var l, a := LeastSclDel(c, t, p, 0), LeastSdaDel(c, t, p, 0);
    if l < SCLDEL_MAX && a < SDADEL_MAX then [Timing(p, l, a, 0, 0)] else []
  }

  /** The entries the first pass finds for prescalers below n, in increasing order. */
  function Candidates(c: Charac, t: nat, n: nat): (r: seq<Timing>)
    ensures |r| <= n
  {
    if n == 0 then [] else Candidates(c, t, n - 1) + FirstDelays(c, t, n - 1)
  }

  /** The table after the first pass: it stops for good when the table is full, but looks only after it has
      written an entry, so on a full table the first entry found still goes behind the end. */
  function AfterFirstPass(tab: seq<Timing>, c: Charac, t: nat): (r: seq<Timing>)
    requires |tab| <= VALID_TIMING_NBR
  {
    var found := Candidates(c, t, PRESC_MAX);
    var room := if |tab| == VALID_TIMING_NBR then 1 else VALID_TIMING_NBR - |tab|;
    tab + if |found| <= room then found else found[..room]
  }

  // ---- second pass: SCL low and high periods ----

  /** tLOW or tHIGH for SCLL or SCLH equal to x. */
  function SclPhase32(c: Charac, t: nat, p: nat, x: nat): nat {
    Add32(Add32(Add32(ANALOG_FILTER_MIN, Mul32(c.dnf, t)), Mul32(2, t)), Mul32(x + 1, Mul32(p + 1, t)))
  }
  function Period32(c: Charac, t: nat, p: nat, l: nat, h: nat): nat {
    Add32(Add32(Add32(SclPhase32(c, t, p, l), SclPhase32(c, t, p, h)), c.trise), c.tfall)
  }

  predicate LowOk(c: Charac, t: nat, p: nat, l: nat) {
    var low := SclPhase32(c, t, p, l);
    low > c.lsclMin && t < (low - ANALOG_FILTER_MIN - Mul32(c.dnf, t)) / 4
  }
  predicate HighOk(c: Charac, t: nat, p: nat, l: nat, h: nat)
    requires IsSpeed(c)
  {
    var high := SclPhase32(c, t, p, h);
    ClkMin(c) <= Period32(c, t, p, l, h) <= ClkMax(c) && high >= c.hsclMin && t < high
  }

  function Error(c: Charac, t: nat, p: nat, l: nat, h: nat): nat
    requires IsSpeed(c)
  {
    var e := Period32(c, t, p, l, h) - TargetPeriod(c);
    if e < 0 then -e else e
  }

  // Pairs in search order: pair number k is SCLL = k / 256, SCLH = k % 256.
  predicate PairOk(c: Charac, t: nat, p: nat, k: nat)
    requires IsSpeed(c)
  {
    LowOk(c, t, p, k / SCLH_MAX) && HighOk(c, t, p, k / SCLH_MAX, k % SCLH_MAX)
  }
  function PairError(c: Charac, t: nat, p: nat, k: nat): nat
    requires IsSpeed(c)
  {
    Error(c, t, p, k / SCLH_MAX, k % SCLH_MAX)
  }

  /** The best pair so far: its error, and its number or PAIRS when the bound was not beaten. */
  datatype Best = Best(err: nat, pair: nat)

  function BestPair(c: Charac, t: nat, p: nat, bound: nat, k: nat): Best
    requires IsSpeed(c)
  {
    if k == 0 then Best(bound, PAIRS) else
      var b := BestPair(c, t, p, bound, k - 1);
      if PairOk(c, t, p, k - 1) && PairError(c, t, p, k - 1) < b.err
      then Best(PairError(c, t, p, k - 1), k - 1) else b
  }

  /** The search state after n table entries: least error, winning index, table. */
  datatype Outcome = Outcome(err: nat, idx: nat, tab: seq<Timing>)

  predicate SameDelays(a: Timing, b: Timing) {
    a.presc == b.presc && a.tscldel == b.tscldel && a.tsdadel == b.tsdadel
  }

  function SetPair(e: Timing, b: Best): Timing {
    if b.pair == PAIRS then e else e.(scll := b.pair / SCLH_MAX, sclh := b.pair % SCLH_MAX)
  }

  function Scan(tab: seq<Timing>, c: Charac, t: nat, n: nat): (r: Outcome)
    requires IsSpeed(c) && n <= |tab|
    ensures |r.tab| == |tab| && r.tab[n..] == tab[n..]
    ensures forall i :: 0 <= i < |tab| ==> SameDelays(r.tab[i], tab[i])
  {
    if n == 0 then Outcome(TargetPeriod(c), NO_CONFIG, tab) else
      var o := Scan(tab, c, t, n - 1);
      var b := BestPair(c, t, tab[n - 1].presc, o.err, PAIRS);
      Outcome(b.err, if b.pair == PAIRS then o.idx else n - 1, o.tab[n - 1 := SetPair(o.tab[n - 1], b)])
  }

  // ---- the timing word ----

  function Pack(e: Timing): nat {
    (e.presc % 16) * 0x1000_0000 + (e.tscldel % 16) * 0x10_0000 + (e.tsdadel % 16) * 0x1_0000
    + (e.sclh % 256) * 0x100 + e.scll % 256
  }
  function Unpack(w: nat): Timing {
    Timing(w / 0x1000_0000 % 16, w / 0x10_0000 % 16, w / 0x1_0000 % 16, w / 0x100 % 256, w % 256)
  }

  predicate InBand(freq: nat, c: Charac) { c.freqMin <= freq <= c.freqMax }

  /** The timing word and the table after one request. */
  function GetTiming(tab: seq<Timing>, f: nat, freq: nat): (nat, seq<Timing>)
    requires |tab| < VALID_TIMING_NBR
  {
    if f == 0 || freq == 0 then (0, tab)
    else if InBand(freq, STANDARD) then Request(tab, f, STANDARD)
    else if InBand(freq, FAST) then Request(tab, f, FAST)
    else if InBand(freq, FAST_PLUS) then Request(tab, f, FAST_PLUS)
    else (0, tab)
  }

  function Request(tab: seq<Timing>, f: nat, c: Charac): (nat, seq<Timing>)
    requires |tab| < VALID_TIMING_NBR && f != 0 && IsSpeed(c)
  {
    var filled := AfterFirstPass(tab, c, ClockPeriod(f));
    var o := Scan(filled, c, ClockPeriod(f), |filled|);
    (if o.idx < |filled| then Pack(o.tab[o.idx]) else 0, o.tab)
  }
}
