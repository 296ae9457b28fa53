/** Where the timing code departs from the formulas in its comments, and exactly when it does not. */
module I2cTimingLimits {
  import opened Arithmetic
  import opened I2cTimingSpec
  import opened I2cTimingLemmas
  import opened I2cTimingBand
  import opened I2cTimingRuns

  /** The comment bounds SDADEL above by tVD;DAT(max) - tr - tAF(max) - tDNF - 4 tI2CCLK.  The code clamps
      a negative bound to zero and accepts SDADEL = 0, so a first-pass entry keeps the documented bound
      exactly when that bound is not negative. */
  lemma DataValidBoundExactly(c: Charac, t: nat, e: Timing)
    requires IsSpeed(c) && t <= 524031 && LeastDelays(c, t, e)
    ensures e.tsdadel * (e.presc + 1) * t + 260 + (c.dnf + 4) * t + c.trise <= c.vddatMax <==>
            260 + (c.dnf + 4) * t + c.trise <= c.vddatMax
  {
    SdaDelOkExactly(c, t, e.presc, e.tsdadel);
    hide SdaDelOk, IsSpeed;
    ProductBound(0, t, e.tsdadel * (e.presc + 1), t);
    if e.tsdadel == 0 {
      assert e.tsdadel * (e.presc + 1) * t == 0;
    }
  }

  /** At a 1.43 MHz source clock and 100 kHz a timing is returned although the documented bound is negative. */
  lemma LateDataExample()
    ensures ClockPeriod(1_428_571) == 700 && 260 + (STANDARD.dnf + 4) * 700 + STANDARD.trise > STANDARD.vddatMax
    ensures GetTiming([], 1_428_571, 100_000).0 != 0
  {
    assert ClockPeriod(1_428_571) == 700;
    var e := Timing(0, 1, 0, 3, 4);
    assert MeetsBand(STANDARD, 700, e);
    GetTimingCorrect([], 1_428_571, 100_000);
  }

  // ---- the least SCL low time ----

  /** The comment admits a low time equal to the limit. */
  predicate MeetsComment(c: Charac, t: nat, e: Timing)
    requires IsSpeed(c)
  {
    OtherLimits(c, t, e) && SclPhase(c, t, e.presc, e.scll) >= c.lsclMin
  }

  /** The code refuses a timing that the comment admits exactly when its low time equals the limit. */
  lemma LowLimitExactly(c: Charac, f: nat, e: Timing)
    requires IsSpeed(c) && 1909 <= f && InRange(e) && MeetsComment(c, ClockPeriod(f), e)
    ensures DelaysOk(c, ClockPeriod(f), e) && PairOk(c, ClockPeriod(f), e.presc, PairOf(e)) <==>
            SclPhase(c, ClockPeriod(f), e.presc, e.scll) != c.lsclMin
  {
    ClockPeriodBound(f);
    MeetsBandExact(c, ClockPeriod(f), e);
    hide ClockPeriod, SclPhase, OtherLimits, DelaysOk, PairOk;
  }

  /** At 20 MHz a standard-mode timing with a low time of exactly 4700 ns. */
  lemma LowLimitExample()
    ensures ClockPeriod(20_000_000) == 50 && MeetsComment(STANDARD, 50, Timing(6, 2, 0, 10, 12))
    ensures !PairOk(STANDARD, 50, 6, PairOf(Timing(6, 2, 0, 10, 12)))
  {
    var e := Timing(6, 2, 0, 10, 12);
    assert SclPhase(STANDARD, 50, 6, 12) == 4700 && SclPhase(STANDARD, 50, 6, 10) == 4000;
    assert OtherLimits(STANDARD, 50, e);
    MeetsBandExact(STANDARD, 50, e);
    FirstDelaysFit(e);
  }

  lemma FirstDelaysFit(e: Timing)
    requires e == Timing(6, 2, 0, 10, 12)
    ensures DelaysOk(STANDARD, 50, e)
  {
    DelaysExact(50, 6, 2);
    DelaysExact(50, 6, 0);
  }

  // ---- entries left by another speed ----

  /** The delays in a word are those of the oldest entry recorded for the winning prescaler,
      for whatever clock and speed that entry was made. */
  lemma DelaysOfOldestEntry(tab: seq<Timing>, f: nat, c: Charac) returns (i: nat)
    requires |tab| < VALID_TIMING_NBR && TableInRange(tab) && f != 0 && IsSpeed(c) && Request(tab, f, c).0 != 0
    ensures var filled, e := AfterFirstPass(tab, c, ClockPeriod(f)), Unpack(Request(tab, f, c).0);
      && i < |filled| && SameDelays(e, filled[i])
      && forall j :: 0 <= j < i ==> filled[j].presc != e.presc
  {
    var t := ClockPeriod(f);
    hide Candidates, ClockPeriod, PairOk, PairError, Pack, Unpack;
    var filled := AfterFirstPass(tab, c, t);
    FirstPassSuits(tab, c, t);
    ScanFindsFirstBest(filled, c, t, |filled|);
    ScanKeepsRange(filled, c, t, |filled|);
    var o := Scan(filled, c, t, |filled|);
    i := o.idx;
    PackUnpack(o.tab[i]);
    forall j | 0 <= j < i ensures filled[j].presc != filled[i].presc {
    }
  }

  /** By the prescalers of a table and the clock alone: pair k of entry i is the first to reach the least
      error of all feasible pairs. */
  ghost predicate Winner(filled: seq<Timing>, c: Charac, t: nat, i: nat, k: nat)
    requires IsSpeed(c)
  {
    && i < |filled| && k < PAIRS && PairOk(c, t, filled[i].presc, k)
    && forall j, m :: 0 <= j < |filled| && 0 <= m < PAIRS && PairOk(c, t, filled[j].presc, m) ==>
         && PairError(c, t, filled[i].presc, k) <= PairError(c, t, filled[j].presc, m)
         && (Earlier(j, m, i, k) ==> PairError(c, t, filled[i].presc, k) < PairError(c, t, filled[j].presc, m))
  }

  lemma OneWinner(filled: seq<Timing>, c: Charac, t: nat, i: nat, k: nat, j: nat, m: nat)
    requires IsSpeed(c) && Winner(filled, c, t, i, k) && Winner(filled, c, t, j, m)
    ensures i == j && k == m
  {
    hide PairOk, PairError;
    assert Earlier(i, k, j, m) || Earlier(j, m, i, k) || (i == j && k == m);
  }

  /** For every clock and table, whoever filled it: a word comes back exactly when some entry wins. */
  lemma WordForWinner(tab: seq<Timing>, f: nat, c: Charac, t: nat, filled: seq<Timing>)
    requires |tab| < VALID_TIMING_NBR && TableInRange(tab) && f != 0 && IsSpeed(c)
    requires t == ClockPeriod(f) && filled == AfterFirstPass(tab, c, t)
    ensures Request(tab, f, c).0 != 0 <==> exists i: nat, k: nat :: Winner(filled, c, t, i, k)
  {
    LongestPeriod(f);
    hide Candidates, ClockPeriod, PairOk, PairError, Pack, Unpack, MeetsBand, DelaysOk, Winner, Correct;
    FirstPassSuits(tab, c, t);
    ScanFindsFirstBest(filled, c, t, |filled|);
    ScanKeepsRange(filled, c, t, |filled|);
    var o := Scan(filled, c, t, |filled|);
    if o.idx < |filled| {
      SearchFindsWinner(filled, c, t, o);
    } else {
      NoWinner(filled, c, t, o);
    }
  }

  /** That word meets the band exactly when the winning entry is new, or its old delays suit the band and clock
      now asked for. */
  lemma WordMeetsBandExactly(tab: seq<Timing>, f: nat, c: Charac, t: nat, filled: seq<Timing>, i: nat, k: nat)
    requires |tab| < VALID_TIMING_NBR && TableInRange(tab) && 1909 <= f && IsSpeed(c)
    requires t == ClockPeriod(f) && filled == AfterFirstPass(tab, c, t) && Winner(filled, c, t, i, k)
    ensures MeetsBand(c, t, Unpack(Request(tab, f, c).0)) <==> i >= |tab| || DelaysOk(c, t, tab[i])
  {
    ClockPeriodBound(f);
    hide Candidates, ClockPeriod, PairOk, PairError, Pack, Unpack, MeetsBand, DelaysOk, Winner, Correct;
    FirstPassSuits(tab, c, t);
    FirstPassNew(tab, c, t);
    ScanFindsFirstBest(filled, c, t, |filled|);
    ScanKeepsRange(filled, c, t, |filled|);
    var o := Scan(filled, c, t, |filled|);
    if o.idx < |filled| {
      SearchFindsWinner(filled, c, t, o);
      WordMeetsDelays(c, t, o.tab[o.idx], filled[o.idx]);
      OneWinner(filled, c, t, i, k, o.idx, PairOf(o.tab[o.idx]));
      WinnerInTable(filled, c, t, i, k);
    } else {
      NoWinner(filled, c, t, o);
    }
  }

  lemma WinnerInTable(filled: seq<Timing>, c: Charac, t: nat, i: nat, k: nat)
    requires IsSpeed(c) && Winner(filled, c, t, i, k)
    ensures i < |filled|
  {
  }

  lemma SearchFindsWinner(filled: seq<Timing>, c: Charac, t: nat, o: Outcome)
    requires IsSpeed(c) && t <= SEC2NSEC && |filled| <= VALID_TIMING_NBR && |o.tab| == |filled| && o.idx < |filled|
    requires Correct(filled, c, t, |filled|, o) && TableInRange(o.tab)
    requires forall i :: 0 <= i < |filled| ==> SameDelays(o.tab[i], filled[i])
    ensures Winner(filled, c, t, o.idx, PairOf(o.tab[o.idx])) && Pack(o.tab[o.idx]) != 0
    ensures PairOk(c, t, o.tab[o.idx].presc, PairOf(o.tab[o.idx]))
  {
    hide PairOk, PairError, Pack;
    FeasibleWordNotZero(c, t, o.tab[o.idx]);
  }

  lemma WordMeetsDelays(c: Charac, t: nat, e: Timing, was: Timing)
    requires IsSpeed(c) && t <= 524031 && InRange(e) && SameDelays(e, was) && PairOk(c, t, e.presc, PairOf(e))
    ensures MeetsBand(c, t, Unpack(Pack(e))) <==> DelaysOk(c, t, was)
  {
    hide PairOk, Pack, Unpack, MeetsBand, SclDelOk, SdaDelOk;
    PackUnpack(e);
    MeetsBandExact(c, t, e);
  }

  lemma NoWinner(filled: seq<Timing>, c: Charac, t: nat, o: Outcome)
    requires IsSpeed(c) && |filled| <= VALID_TIMING_NBR && |o.tab| == |filled| <= o.idx
    requires Correct(filled, c, t, |filled|, o)
    ensures forall i: nat, k: nat :: !Winner(filled, c, t, i, k)
  {
    hide PairOk, PairError;
  }

  /** At 16 MHz every standard-mode period is 1012 + 63 m ns, at least 21 ns from the 10000 ns target. */
  lemma StandardErrorAt16MHz(p: nat, k: nat)
    requires p < PRESC_MAX && k < PAIRS
    ensures PairError(STANDARD, 63, p, k) >= 21
  {
    var l, h := k / SCLH_MAX, k % SCLH_MAX;
    PeriodExact(STANDARD, 63, p, l, h);
    PhaseAt16MHz(p, l);
    PhaseAt16MHz(p, h);
    hide SclPhase, SclPhase32, Period32;
    var m := (l + 1) * (p + 1) + (h + 1) * (p + 1);
    assert Period(STANDARD, 63, p, l, h) == 1012 + 63 * m;
    assert TargetPeriod(STANDARD) == 10000;
    if m <= 142 {} else {}
  }

  lemma PhaseAt16MHz(p: nat, x: nat)
    ensures SclPhase(STANDARD, 63, p, x) == 176 + 63 * ((x + 1) * (p + 1))
  {
    assert (x + 1) * ((p + 1) * 63) == 63 * ((x + 1) * (p + 1));
  }

  /** The table after a fast-mode request at 16 MHz starts with a fast-mode entry for prescaler 0. */
  lemma FastEntryAt16MHz()
    ensures var tab := GetTiming([], 16_000_000, 400_000).1;
      0 < |tab| <= PRESC_MAX && TableInRange(tab) && SameDelays(tab[0], Timing(0, 5, 0, 0, 0))
  {
    assert ClockPeriod(16_000_000) == 63;
    hide ClockPeriod, Candidates, Scan, Pack, InRange;
    FastDelaysAt16MHz();
    CandidatesStart(FAST, 63, PRESC_MAX);
    RequestedBand([], 16_000_000, 400_000, FAST);
    hide GetTiming;
    var found := Candidates(FAST, 63, PRESC_MAX);
    assert AfterFirstPass([], FAST, 63) == found;
    FirstPassSuits([], FAST, 63);
    ScanKeepsRange(found, FAST, 63, |found|);
  }

  lemma FastDelaysAt16MHz()
    ensures FirstDelays(FAST, 63, 0) == [Timing(0, 5, 0, 0, 0)]
  {
    hide SclDelOk, SdaDelOk;
    forall l | 0 <= l <= 5 ensures SclDelOk(FAST, 63, 0, l) <==> l == 5 {
      DelaysExact(63, 0, l);
      SclDelOkExactly(FAST, 63, 0, l);
    }
    DelaysExact(63, 0, 0);
    SdaDelOkExactly(FAST, 63, 0, 0);
    var l := LeastSclDel(FAST, 63, 0, 0);
    assert l == 5;
    assert LeastSdaDel(FAST, 63, 0, 0) == 0;
  }

  lemma {:induction false} CandidatesStart(c: Charac, t: nat, n: nat)
    requires n >= 1
    ensures FirstDelays(c, t, 0) <= Candidates(c, t, n)
  {
    hide FirstDelays;
    if n > 1 {
      CandidatesStart(c, t, n - 1);
    } else {
      assert Candidates(c, t, 0) == [];
    }
  }

  /** A standard-mode request after a fast-mode one reuses the fast-mode entry: at 16 MHz its SCLDEL of 5
      gives 378 ns of data setup where standard mode asks for 890 ns. */
  lemma StaleEntryExample()
    ensures var tab := GetTiming([], 16_000_000, 400_000).1;
      && |tab| < VALID_TIMING_NBR
      && var w := GetTiming(tab, 16_000_000, 100_000).0;
      && w != 0 && Unpack(w).tscldel == 5 && !MeetsBand(STANDARD, 63, Unpack(w))
  {
    hide ClockPeriod, GetTiming, MeetsBand, Unpack;
    FastEntryAt16MHz();
    StandardAfterFast(GetTiming([], 16_000_000, 400_000).1);
  }

  /** The same standard-mode request on an empty table gives a timing that meets the band. */
  lemma FreshStandardExample()
    ensures GetTiming([], 16_000_000, 100_000).0 != 0
    ensures BestForBand(STANDARD, 63, Unpack(GetTiming([], 16_000_000, 100_000).0))
  {
    assert ClockPeriod(16_000_000) == 63;
    StandardAt16MHz();
    RequestedBand([], 16_000_000, 100_000, STANDARD);
    hide ClockPeriod, GetTiming, MeetsBand, BestForBand, Unpack, Request;
    RequestCorrect([], 16_000_000, STANDARD);
  }

  lemma StandardAt16MHz()
    ensures MeetsBand(STANDARD, 63, Timing(0, 14, 0, 69, 72)) && InBand(100_000, STANDARD)
  {
  }

  /** SCLDEL 5 on prescaler 0 at 16 MHz gives 378 ns. */
  lemma MissesSetup(e: Timing)
    requires e.presc == 0 && e.tscldel == 5
    ensures !MeetsBand(STANDARD, 63, e)
  {
    assert (e.tscldel + 1) * (e.presc + 1) * 63 == 378;
  }

  lemma StandardAfterFast(tab: seq<Timing>)
    requires 0 < |tab| <= PRESC_MAX && TableInRange(tab) && SameDelays(tab[0], Timing(0, 5, 0, 0, 0))
    ensures var w := GetTiming(tab, 16_000_000, 100_000).0;
      w != 0 && Unpack(w).tscldel == 5 && !MeetsBand(STANDARD, 63, Unpack(w))
  {
    assert ClockPeriod(16_000_000) == 63;
    hide MeetsBand, Candidates, Pack, Unpack, PairOk, Correct, ClockPeriod;
    var filled := AfterFirstPass(tab, STANDARD, 63);
    FirstPassSuits(tab, STANDARD, 63);
    ScanFindsFirstBest(filled, STANDARD, 63, |filled|);
    ScanKeepsRange(filled, STANDARD, 63, |filled|);
    var o := Scan(filled, STANDARD, 63, |filled|);
    FirstEntryWins(filled, o);
    PackUnpack(o.tab[0]);
    MissesSetup(o.tab[0]);
    FeasibleWordNotZero(STANDARD, 63, o.tab[0]);
    assert GetTiming(tab, 16_000_000, 100_000) == Request(tab, 16_000_000, STANDARD);
  }

  lemma FirstEntryWins(filled: seq<Timing>, o: Outcome)
    requires 0 < |filled| <= VALID_TIMING_NBR && TableInRange(filled) && filled[0].presc == 0
    requires |o.tab| == |filled| && Correct(filled, STANDARD, 63, |filled|, o)
    ensures o.idx == 0 && PairOk(STANDARD, 63, 0, PairOf(o.tab[0]))
  {
    var e := Timing(0, 14, 0, 69, 72);
    assert MeetsBand(STANDARD, 63, e);
    MeetsBandExact(STANDARD, 63, e);
    assert Deviation(STANDARD, 63, e) == 21;
    hide PairOk, PairError;
    assert PairOk(STANDARD, 63, filled[0].presc, PairOf(e));
    StandardErrorAt16MHz(filled[o.idx].presc, PairOf(o.tab[o.idx]));
  }

  // ---- source clocks below 1909 Hz ----

  /** The machine's own tests, in its own arithmetic. */
  predicate Passes(c: Charac, t: nat, e: Timing)
    requires IsSpeed(c)
  {
    InRange(e) && DelaysOk(c, t, e) && PairOk(c, t, e.presc, PairOf(e))
  }

  lemma LongestPeriod(f: nat)
    requires f != 0
    ensures ClockPeriod(f) <= SEC2NSEC
  {
    if f > 1 {
      ClockPeriodBound(f);
    }
  }

  /** For every source clock, a first request returns a word if and only if some timing passes. */
  lemma WordForFeasible(f: nat, c: Charac)
    requires f != 0 && IsSpeed(c)
    ensures Request([], f, c).0 != 0 <==> exists e :: Passes(c, ClockPeriod(f), e)
  {
    var t := ClockPeriod(f);
    LongestPeriod(f);
    hide ClockPeriod, Candidates, PairOk, PairError, Pack, SclDelOk, SdaDelOk, Scan;
    var filled := AfterFirstPass([], c, t);
    FirstPassCovers([], c, t);
    FirstPassSuits([], c, t);
    FirstPassNew([], c, t);
    ScanFindsFirstBest(filled, c, t, |filled|);
    ScanKeepsRange(filled, c, t, |filled|);
    var o := Scan(filled, c, t, |filled|);
    if o.idx < |filled| {
      FeasibleWordNotZero(c, t, o.tab[o.idx]);
      assert Passes(c, t, o.tab[o.idx]);
    } else {
      forall e ensures !Passes(c, t, e) {
        NonePasses(filled, c, t, o, e);
      }
    }
  }

  lemma NonePasses(filled: seq<Timing>, c: Charac, t: nat, o: Outcome, e: Timing)
    requires IsSpeed(c) && Covers(filled, c, t) && |o.tab| == |filled| <= VALID_TIMING_NBR && o.idx >= |filled|
    requires Correct(filled, c, t, |filled|, o)
    ensures !Passes(c, t, e)
  {
    hide PairOk, PairError, SclDelOk, SdaDelOk, AdmitsDelays;
    if InRange(e) && DelaysOk(c, t, e) {
      DelaysAdmitted(c, t, e);
    }
  }

  /** Below 1909 Hz any word is wrong, so there a first request errs exactly when some timing passes. */
  lemma SlowWordExactly(f: nat, c: Charac)
    requires 0 < f < 1909 && IsSpeed(c)
    ensures (Request([], f, c).0 != 0 && !MeetsBand(c, ClockPeriod(f), Unpack(Request([], f, c).0)))
            <==> exists e :: Passes(c, ClockPeriod(f), e)
  {
    hide Request, ClockPeriod, MeetsBand, Passes, Unpack;
    WordForFeasible(f, c);
    NoSlowTiming(c, f, Unpack(Request([], f, c).0));
  }

  /** At 159 Hz the wrapped period looks like 100 kHz: a word is returned although no timing meets the band. */
  lemma SlowClockExample()
    ensures GetTiming([], 159, 100_000).0 != 0
    ensures forall e :: !MeetsBand(STANDARD, ClockPeriod(159), e)
  {
    assert ClockPeriod(159) == 6289308;
    hide ClockPeriod;
    SlowClockPasses();
    forall e ensures !MeetsBand(STANDARD, 6289308, e) {
      NoSlowTiming(STANDARD, 159, e);
    }
    RequestedBand([], 159, 100_000, STANDARD);
    hide GetTiming, Request, MeetsBand, DelaysOk, PairOk;
    assert PairOf(Timing(14, 0, 0, 255, 198)) == 198 * 256 + 255;
    assert Passes(STANDARD, 6289308, Timing(14, 0, 0, 255, 198));
    WordForFeasible(159, STANDARD);
  }

  /** Below 1909 Hz, where the arithmetic wraps, no timing meets any band: any word but 0 is wrong there. */
  lemma NoSlowTiming(c: Charac, f: nat, e: Timing)
    requires IsSpeed(c) && 0 < f < 1909
    ensures !MeetsBand(c, ClockPeriod(f), e)
  {
    ClockPeriodBound(f);
    PhaseAtLeast(c, ClockPeriod(f), e.presc, e.scll);
    PhaseAtLeast(c, ClockPeriod(f), e.presc, e.sclh);
    hide SclPhase, ClockPeriod;
  }

  lemma PhaseAtLeast(c: Charac, t: nat, p: nat, x: nat)
    ensures SclPhase(c, t, p, x) >= 2 * t
  {
  }

  lemma SlowClockPasses()
    ensures DelaysOk(STANDARD, 6289308, Timing(14, 0, 0, 255, 198))
    ensures PairOk(STANDARD, 6289308, 14, 198 * 256 + 255)
  {
    assert SclPhase32(STANDARD, 6289308, 14, 198) == 1606293862;
    assert SclPhase32(STANDARD, 6289308, 14, 255) == 2688684906;
    hide SclPhase32;
    assert Period32(STANDARD, 6289308, 14, 198, 255) == 12132;
  }

  // ---- the table fills up ----

  lemma {:induction false} AllCandidates(c: Charac, t: nat, n: nat)
    requires n <= PRESC_MAX && forall p :: 0 <= p < n ==> AdmitsDelays(c, t, p)
    ensures |Candidates(c, t, n)| == n
  {
    if n > 0 {
      hide FirstDelays, AdmitsDelays, Candidates, LeastDelays;
      AllCandidates(c, t, n - 1);
      FirstDelaysLeast(c, t, n - 1);
      CandidatesUnfold(c, t, n);
    } else {
      assert Candidates(c, t, 0) == [];
    }
  }

  lemma StandardAdmits(p: nat)
    requires p < PRESC_MAX
    ensures AdmitsDelays(STANDARD, 63, p)
  {
    DelaysExact(63, p, 14);
    DelaysExact(63, p, 0);
    hide SclDelay32, SdaDelay32;
    assert SclDelOk(STANDARD, 63, p, 14) && SdaDelOk(STANDARD, 63, p, 0);
  }

  /** The bound of eight is tight: eight standard-mode requests at 16 MHz, all of whose prescalers are feasible,
      fill the table. */
  lemma {:induction false} EightRequestsFill(tabs: seq<seq<Timing>>, n: nat)
    requires 0 < |tabs| && n < |tabs| && n <= 8 && tabs[0] == []
    requires forall i :: 0 <= i < |tabs| - 1 && |tabs[i]| < VALID_TIMING_NBR ==>
               tabs[i + 1] == GetTiming(tabs[i], 16_000_000, 100_000).1
    ensures |tabs[n]| == PRESC_MAX * n && (n == 8 ==> |tabs[n]| == VALID_TIMING_NBR)
  {
    if n > 0 {
      EightRequestsFill(tabs, n - 1);
      StandardGrows(tabs[n - 1]);
      hide GetTiming;
      assert tabs[n - 1 + 1] == tabs[n];
    }
  }

  /** A request on a full table writes behind its end if and only if some prescaler admits delays for it. */
  lemma FullTableExactly(tab: seq<Timing>, c: Charac, t: nat)
    requires |tab| == VALID_TIMING_NBR
    ensures |AfterFirstPass(tab, c, t)| > VALID_TIMING_NBR <==> exists p :: 0 <= p < PRESC_MAX && AdmitsDelays(c, t, p)
    ensures tab <= AfterFirstPass(tab, c, t)
  {
    var found := Candidates(c, t, PRESC_MAX);
    CandidatesExact(c, t, PRESC_MAX);
    if found != [] {
      DelaysAdmitted(c, t, found[0]);
    }
    hide Candidates, AdmitsDelays, LeastDelays;
  }

  /** As the ninth of those requests does. */
  lemma NinthOverruns(tab: seq<Timing>)
    requires |tab| == VALID_TIMING_NBR
    ensures |AfterFirstPass(tab, STANDARD, ClockPeriod(16_000_000))| == VALID_TIMING_NBR + 1
  {
    assert ClockPeriod(16_000_000) == 63;
    StandardAdmits(0);
    hide AdmitsDelays, Candidates;
    FullTableExactly(tab, STANDARD, 63);
  }

  lemma StandardGrows(tab: seq<Timing>)
    requires |tab| + PRESC_MAX <= VALID_TIMING_NBR
    ensures |GetTiming(tab, 16_000_000, 100_000).1| == |tab| + PRESC_MAX
  {
    assert ClockPeriod(16_000_000) == 63;
    forall p | 0 <= p < PRESC_MAX ensures AdmitsDelays(STANDARD, 63, p) {
      StandardAdmits(p);
    }
    AllCandidates(STANDARD, 63, PRESC_MAX);
    hide Candidates, AdmitsDelays, Scan;
    RequestedBand(tab, 16_000_000, 100_000, STANDARD);
  }
}
