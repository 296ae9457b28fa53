/** From the searches to the timing word: what a returned word promises about the bus, for the
    requested speed band. */
module I2cTimingBand {
  import opened Arithmetic
  import opened I2cTimingSpec
  import opened Words
  import opened I2cTimingLemmas

  // ---- the first pass ----

  predicate DelaysOk(c: Charac, t: nat, e: Timing) {
    SclDelOk(c, t, e.presc, e.tscldel) && SdaDelOk(c, t, e.presc, e.tsdadel)
  }

  /** e has admissible delays, and the least ones for its prescaler. */
  ghost predicate LeastDelays(c: Charac, t: nat, e: Timing) {
    && InRange(e) && DelaysOk(c, t, e)
    && (forall l :: 0 <= l < e.tscldel ==> !SclDelOk(c, t, e.presc, l))
    && (forall a :: 0 <= a < e.tsdadel ==> !SdaDelOk(c, t, e.presc, a))
  }

  predicate AdmitsDelays(c: Charac, t: nat, p: nat) {
    LeastSclDel(c, t, p, 0) < SCLDEL_MAX && LeastSdaDel(c, t, p, 0) < SDADEL_MAX
  }

  lemma DelaysAdmitted(c: Charac, t: nat, e: Timing)
    requires InRange(e) && DelaysOk(c, t, e)
    ensures AdmitsDelays(c, t, e.presc)
  {
  }

  /** One entry, in increasing order, for exactly the prescalers below n that admit some delays. */
  ghost predicate OneForEach(r: seq<Timing>, c: Charac, t: nat, n: nat) {
    && (forall i :: 0 <= i < |r| ==> LeastDelays(c, t, r[i]) && r[i].presc < n)
    && (forall i, j :: 0 <= i < j < |r| ==> r[i].presc < r[j].presc)
    && (forall p :: 0 <= p < n && AdmitsDelays(c, t, p) ==> exists i :: 0 <= i < |r| && r[i].presc == p)
  }

  lemma {:induction false} CandidatesExact(c: Charac, t: nat, n: nat)
    requires n <= PRESC_MAX
    ensures OneForEach(Candidates(c, t, n), c, t, n)
  {
    hide OneForEach, Candidates;
    if n == 0 {
      NoCandidates(c, t);
    } else {
      CandidatesExact(c, t, n - 1);
      FirstDelaysLeast(c, t, n - 1);
      OneMore(Candidates(c, t, n - 1), c, t, n - 1);
      CandidatesUnfold(c, t, n);
    }
  }

  lemma NoCandidates(c: Charac, t: nat)
    ensures OneForEach(Candidates(c, t, 0), c, t, 0)
  {
  }

  lemma CandidatesUnfold(c: Charac, t: nat, n: nat)
    requires n > 0
    ensures Candidates(c, t, n) == Candidates(c, t, n - 1) + FirstDelays(c, t, n - 1)
  {
  }

  lemma OneMore(q: seq<Timing>, c: Charac, t: nat, n: nat)
    requires OneForEach(q, c, t, n) && n < PRESC_MAX
    requires |FirstDelays(c, t, n)| == (if AdmitsDelays(c, t, n) then 1 else 0)
    requires FirstDelays(c, t, n) != [] ==>
               FirstDelays(c, t, n)[0].presc == n && LeastDelays(c, t, FirstDelays(c, t, n)[0])
    ensures OneForEach(q + FirstDelays(c, t, n), c, t, n + 1)
  {
    hide LeastDelays, FirstDelays, AdmitsDelays;
    var r := q + FirstDelays(c, t, n);
    forall p | 0 <= p < n + 1 && AdmitsDelays(c, t, p) ensures exists i :: 0 <= i < |r| && r[i].presc == p {
      if p == n {
        assert r[|r| - 1].presc == p;
      } else {
        var i :| 0 <= i < |q| && q[i].presc == p;
        assert r[i].presc == p;
      }
    }
  }

  lemma FirstDelaysLeast(c: Charac, t: nat, p: nat)
    requires p < PRESC_MAX
    ensures |FirstDelays(c, t, p)| == (if AdmitsDelays(c, t, p) then 1 else 0)
    ensures FirstDelays(c, t, p) != [] ==>
              FirstDelays(c, t, p)[0].presc == p && LeastDelays(c, t, FirstDelays(c, t, p)[0])
  {
    hide SclDelOk, SdaDelOk;
  }

  // ---- when the 32-bit arithmetic is exact ----

  function SclPhase(c: Charac, t: nat, p: nat, x: nat): nat {
    ANALOG_FILTER_MIN + c.dnf * t + 2 * t + (x + 1) * ((p + 1) * t)
  }
  function Period(c: Charac, t: nat, p: nat, l: nat, h: nat): nat {
    SclPhase(c, t, p, l) + SclPhase(c, t, p, h) + c.trise + c.tfall
  }

  /** No sum or product of the search reaches 2^32, over its whole range. */
  ghost predicate NothingWraps(c: Charac, t: nat) {
    forall p, l, h :: 0 <= p < PRESC_MAX && 0 <= l < SCLL_MAX && 0 <= h < SCLH_MAX ==> Period(c, t, p, l, h) < U32
  }

  lemma PhaseBound(c: Charac, t: nat, p: nat, x: nat)
    requires IsSpeed(c) && p < PRESC_MAX && x < SCLL_MAX
    ensures SclPhase(c, t, p, x) <= 50 + 4098 * t
  {
    ProductBound(p + 1, t, 16, t);
    ProductBound(x + 1, (p + 1) * t, 256, 16 * t);
  }

  lemma ClockPeriodBound(f: nat)
    requires f != 0
    ensures f >= 1909 <==> ClockPeriod(f) <= 524031
    ensures f >= 2 ==> ClockPeriod(f) <= 500_000_000
  {
    var t := ClockPeriod(f);
    assert t * f <= SEC2NSEC + f / 2 < (t + 1) * f;
    if f >= 1909 && t >= 524032 {
      ProductBound(524032, f, t, f);
      assert false;
    }
    if f <= 1908 && t <= 524031 {
      ProductBound(t + 1, f, 524032, f);
      assert false;
    }
    if f >= 2 && t > 500_000_000 {
      ProductBound(500_000_001, f, t, f);
      assert false;
    }
  }

  /** The arithmetic is exact for every source clock from 1909 Hz up, and for no slower one. */
  lemma NothingWrapsExactly(c: Charac, f: nat)
    requires IsSpeed(c) && f != 0
    ensures NothingWraps(c, ClockPeriod(f)) <==> f >= 1909
  {
    var t := ClockPeriod(f);
    ClockPeriodBound(f);
    hide ClockPeriod;
    if f >= 1909 {
      forall p, l, h | 0 <= p < PRESC_MAX && 0 <= l < SCLL_MAX && 0 <= h < SCLH_MAX
        ensures Period(c, t, p, l, h) < U32
      {
        PhaseBound(c, t, p, l);
        PhaseBound(c, t, p, h);
      }
    } else {
      assert Period(c, t, 15, 255, 255) == 100 + 8196 * t + c.trise + c.tfall;
      assert !NothingWraps(c, t);
    }
  }

  lemma Exact32(a: nat, b: nat)
    ensures a * b < U32 ==> Mul32(a, b) == a * b
    ensures a + b < U32 ==> Add32(a, b) == a + b
  {
  }

  lemma PhaseExact(c: Charac, t: nat, p: nat, x: nat)
    requires IsSpeed(c) && t <= 524031 && p < PRESC_MAX && x < SCLL_MAX
    ensures SclPhase32(c, t, p, x) == SclPhase(c, t, p, x) <= 50 + 4098 * t
  {
    PhaseBound(c, t, p, x);
    ProductBound(p + 1, t, 16, t);
    ProductBound(x + 1, (p + 1) * t, 256, 16 * t);
    hide Mul32, Add32;
    Exact32(p + 1, t);
    Exact32(x + 1, (p + 1) * t);
    Exact32(c.dnf, t);
    Exact32(2, t);
    Exact32(50, 0);
    Exact32(50, 2 * t);
    Exact32(50 + 2 * t, (x + 1) * ((p + 1) * t));
  }

  lemma PeriodExact(c: Charac, t: nat, p: nat, l: nat, h: nat)
    requires IsSpeed(c) && t <= 524031 && p < PRESC_MAX && l < SCLL_MAX && h < SCLH_MAX
    ensures Period32(c, t, p, l, h) == Period(c, t, p, l, h)
  {
    PhaseExact(c, t, p, l);
    PhaseExact(c, t, p, h);
    hide SclPhase, SclPhase32, Add32;
    var low, high := SclPhase(c, t, p, l), SclPhase(c, t, p, h);
    Exact32(low, high);
    Exact32(low + high, c.trise);
    Exact32(low + high + c.trise, c.tfall);
  }

  lemma DelaysExact(t: nat, p: nat, x: nat)
    requires t <= 524031 && p < PRESC_MAX && x < SCLDEL_MAX
    ensures SclDelay32(t, p, x) == (x + 1) * (p + 1) * t
    ensures SdaDelay32(t, p, x) == x * (p + 1) * t
  {
    hide Mul32, Add32;
    ProductBound(x + 1, p + 1, 16, 16);
    ProductBound((x + 1) * (p + 1), t, 256, t);
    Exact32(x + 1, p + 1);
    Exact32((x + 1) * (p + 1), t);
    ProductBound(x, p + 1, 16, 16);
    ProductBound(x * (p + 1), t, 256, t);
    Exact32(x, p + 1);
    Exact32(x * (p + 1), t);
  }

  // ---- the limits in numbers ----

  /** The clock period is a nearest whole number of ns. */
  lemma NearestPeriod(f: nat)
    requires f != 0
    ensures 2 * (ClockPeriod(f) * f) - f <= 2_000_000_000 <= 2 * (ClockPeriod(f) * f) + f
  {
    assert ClockPeriod(f) * f <= SEC2NSEC + f / 2 < ClockPeriod(f) * f + f;
  }

  /** The target period is that of the nominal frequency, the others those of four and six fifths of it. */
  lemma PeriodLimits(c: Charac, x: nat)
    requires IsSpeed(c)
    ensures TargetPeriod(c) * c.freq == 1_000_000_000 && 5 * c.freqMin == 4 * c.freq && 5 * c.freqMax == 6 * c.freq
    ensures ClkMin(c) <= x <= ClkMax(c) <==> x * c.freqMin <= 1_000_000_000 < (x + 1) * c.freqMax
  {
  }

  /** The SDADEL window: tf + tHD;DAT(min) from below; from above tVD;DAT(max), to which SDADEL = 0 is not held. */
  predicate SdaWindow(c: Charac, t: nat, p: nat, a: nat) {
    && a * (p + 1) * t + 50 + (c.dnf + 3) * t >= c.tfall + c.hddatMin
    && (a == 0 || a * (p + 1) * t + 260 + (c.dnf + 4) * t + c.trise <= c.vddatMax)
  }

  /** The 32-bit tests of the first pass are the windows of the formulas. */
  lemma SdaDelOkExactly(c: Charac, t: nat, p: nat, a: nat)
    requires IsSpeed(c) && t <= 524031 && p < PRESC_MAX && a < SDADEL_MAX
    ensures SdaDelOk(c, t, p, a) <==> SdaWindow(c, t, p, a)
  {
    DelaysExact(t, p, a);
    hide SdaDelay32;
    if a > 0 && t > 0 {
      ProductBound(1, t, a * (p + 1), t);
    }
  }

  lemma SclDelOkExactly(c: Charac, t: nat, p: nat, l: nat)
    requires t <= 524031 && p < PRESC_MAX && l < SCLDEL_MAX
    ensures SclDelOk(c, t, p, l) <==> (l + 1) * (p + 1) * t >= c.trise + c.sudatMin
  {
    DelaysExact(t, p, l);
  }

  // ---- one request ----

  /** The limits of a speed band on a whole timing, in exact arithmetic on a clock period of t ns. */
  predicate MeetsBand(c: Charac, t: nat, e: Timing)
    requires IsSpeed(c)
  {
    OtherLimits(c, t, e) && SclPhase(c, t, e.presc, e.scll) > c.lsclMin
  }

  /** All of them but the least SCL low time. */
  predicate OtherLimits(c: Charac, t: nat, e: Timing)
    requires IsSpeed(c)
  {
    && InRange(e)
    && (e.tscldel + 1) * (e.presc + 1) * t >= c.trise + c.sudatMin
    && SdaWindow(c, t, e.presc, e.tsdadel)
    && var low, high := SclPhase(c, t, e.presc, e.scll), SclPhase(c, t, e.presc, e.sclh);
    && 50 + c.dnf * t + 4 * (t + 1) <= low
    && high >= c.hsclMin && t < high
    && var period := Period(c, t, e.presc, e.scll, e.sclh);
    && period * c.freqMin <= 1_000_000_000 < (period + 1) * c.freqMax
  }

  function Deviation(c: Charac, t: nat, e: Timing): nat
    requires IsSpeed(c)
  {
    var d := Period(c, t, e.presc, e.scll, e.sclh) - TargetPeriod(c);
    if d < 0 then -d else d
  }

  lemma MeetsBandExact(c: Charac, t: nat, e: Timing)
    requires IsSpeed(c) && t <= 524031 && InRange(e)
    ensures MeetsBand(c, t, e) <==> DelaysOk(c, t, e) && PairOk(c, t, e.presc, PairOf(e))
    ensures Deviation(c, t, e) == PairError(c, t, e.presc, PairOf(e))
  {
    SclDelOkExactly(c, t, e.presc, e.tscldel);
    SdaDelOkExactly(c, t, e.presc, e.tsdadel);
    LowHighExact(c, t, e);
    PeriodLimits(c, Period(c, t, e.presc, e.scll, e.sclh));
    hide SclPhase, Period, SclDelOk, SdaDelOk, SdaWindow, PairOk, PairError, Deviation, ClkMin, ClkMax, TargetPeriod;
  }

  lemma LowHighExact(c: Charac, t: nat, e: Timing)
    requires IsSpeed(c) && t <= 524031 && InRange(e)
    ensures PairOk(c, t, e.presc, PairOf(e)) <==>
      && var low, high := SclPhase(c, t, e.presc, e.scll), SclPhase(c, t, e.presc, e.sclh);
      && low > c.lsclMin && t < (low - ANALOG_FILTER_MIN - c.dnf * t) / 4
      && high >= c.hsclMin && t < high
      && ClkMin(c) <= Period(c, t, e.presc, e.scll, e.sclh) <= ClkMax(c)
    ensures Deviation(c, t, e) == PairError(c, t, e.presc, PairOf(e))
  {
    DivMod(PairOf(e), e.scll, e.sclh, SCLH_MAX);
    PhaseExact(c, t, e.presc, e.scll);
    PhaseExact(c, t, e.presc, e.sclh);
    PeriodExact(c, t, e.presc, e.scll, e.sclh);
    Exact32(c.dnf, t);
    hide SclPhase, SclPhase32, Period, Period32, Mul32, TargetPeriod, ClkMin, ClkMax, PairOf;
  }

  lemma PackSum(e: Timing)
    requires InRange(e)
    ensures Pack(e) == e.presc * 0x1000_0000 + e.tscldel * 0x10_0000 + e.tsdadel * 0x1_0000 + e.sclh * 0x100 + e.scll
  {
    DivMod(e.presc, 0, e.presc, 16);
    DivMod(e.tscldel, 0, e.tscldel, 16);
    DivMod(e.tsdadel, 0, e.tsdadel, 16);
    DivMod(e.sclh, 0, e.sclh, 256);
    DivMod(e.scll, 0, e.scll, 256);
  }

  lemma PackUnpack(e: Timing)
    requires InRange(e)
    ensures Unpack(Pack(e)) == e && Pack(e) < U32
  {
    hide Pack;
    var w := Pack(e);
    PackSum(e);
    DivMod(w, e.presc * 0x10_0000 + e.tscldel * 0x1000 + e.tsdadel * 0x100 + e.sclh, e.scll, 0x100);
    DivMod(w, e.presc * 0x1000 + e.tscldel * 0x10 + e.tsdadel, e.sclh * 0x100 + e.scll, 0x1_0000);
    DivMod(w, e.presc * 0x100 + e.tscldel, e.tsdadel * 0x1_0000 + e.sclh * 0x100 + e.scll, 0x10_0000);
    DivMod(w, e.presc, w - e.presc * 0x1000_0000, 0x1000_0000);
    DivMod(e.presc * 0x10_0000 + e.tscldel * 0x1000 + e.tsdadel * 0x100 + e.sclh,
           e.presc * 0x1000 + e.tscldel * 0x10 + e.tsdadel, e.sclh, 0x100);
    DivMod(e.presc * 0x1000 + e.tscldel * 0x10 + e.tsdadel, e.presc * 0x100 + e.tscldel, e.tsdadel, 0x10);
    DivMod(e.presc * 0x100 + e.tscldel, e.presc * 0x10, e.tscldel, 0x10);
  }

  lemma LowestLowPhase(c: Charac, t: nat)
    requires IsSpeed(c) && t <= SEC2NSEC
    ensures !LowOk(c, t, 0, 0)
  {
    hide Mul32, Add32;
    Exact32(c.dnf, t);
    Exact32(2, t);
    Exact32(1, t);
    Exact32(50, 0);
    Exact32(50, 2 * t);
    Exact32(50 + 2 * t, t);
    assert SclPhase32(c, t, 0, 0) == 50 + 3 * t;
  }

  /** PRESC = SCLL = 0 is never feasible, so a feasible word is never zero. */
  lemma FeasibleWordNotZero(c: Charac, t: nat, e: Timing)
    requires IsSpeed(c) && t <= SEC2NSEC && InRange(e) && PairOk(c, t, e.presc, PairOf(e))
    ensures Pack(e) != 0
  {
    hide LowOk, HighOk;
    LowestLowPhase(c, t);
    assert PairOf(e) / SCLH_MAX == e.scll;
  }
}
