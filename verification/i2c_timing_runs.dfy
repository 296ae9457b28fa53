/** The timing word end to end: correctness of one request, runs of requests over the shared
    table, and the requests for which the code misses its own formulas. */
module I2cTimingRuns {
  import opened I2cTimingSpec
  import opened I2cTimingLemmas
  import opened I2cTimingBand

  /** Every entry is a table entry whose delays are admissible for c and t, whoever recorded it. */
  ghost predicate Suits(tab: seq<Timing>, c: Charac, t: nat) {
    forall i :: 0 <= i < |tab| ==> InRange(tab[i]) && DelaysOk(c, t, tab[i])
  }

  /** No earlier entry has the prescaler of entry i. */
  ghost predicate Oldest(tab: seq<Timing>, i: nat) {
    i < |tab| && forall j :: 0 <= j < i ==> tab[j].presc != tab[i].presc
  }

  /** The oldest entry of each prescaler has admissible delays; later ones may hold anything in range. */
  ghost predicate OldestSuit(tab: seq<Timing>, c: Charac, t: nat) {
    TableInRange(tab) && forall i :: 0 <= i < |tab| && Oldest(tab, i) ==> DelaysOk(c, t, tab[i])
  }

  /** Every prescaler that admits delays has an entry. */
  ghost predicate Covers(tab: seq<Timing>, c: Charac, t: nat) {
    forall p :: 0 <= p < PRESC_MAX && AdmitsDelays(c, t, p) ==> exists i :: 0 <= i < |tab| && tab[i].presc == p
  }

  ghost predicate TableInRange(tab: seq<Timing>) { forall i :: 0 <= i < |tab| ==> InRange(tab[i]) }

  lemma FirstPassCovers(tab: seq<Timing>, c: Charac, t: nat)
    requires |tab| < VALID_TIMING_NBR && (|tab| + PRESC_MAX <= VALID_TIMING_NBR || Covers(tab, c, t))
    ensures Covers(AfterFirstPass(tab, c, t), c, t)
  {
    CandidatesExact(c, t, PRESC_MAX);
    hide LeastDelays, AdmitsDelays, Candidates;
    var filled, found := AfterFirstPass(tab, c, t), Candidates(c, t, PRESC_MAX);
    forall p | 0 <= p < PRESC_MAX && AdmitsDelays(c, t, p) ensures exists i :: 0 <= i < |filled| && filled[i].presc == p {
      if Covers(tab, c, t) {
        var i :| 0 <= i < |tab| && tab[i].presc == p;
        assert filled[i].presc == p;
      } else {
        var i :| 0 <= i < |found| && found[i].presc == p;
        assert filled[|tab| + i].presc == p;
      }
    }
  }

  lemma CandidatesSuit(c: Charac, t: nat)
    ensures Suits(Candidates(c, t, PRESC_MAX), c, t)
  {
    CandidatesExact(c, t, PRESC_MAX);
    var found := Candidates(c, t, PRESC_MAX);
    forall i | 0 <= i < |found| ensures InRange(found[i]) && DelaysOk(c, t, found[i]) {
      assert LeastDelays(c, t, found[i]);
    }
  }

  lemma FirstPassSuits(tab: seq<Timing>, c: Charac, t: nat)
    requires |tab| < VALID_TIMING_NBR && TableInRange(tab)
    ensures TableInRange(AfterFirstPass(tab, c, t))
    ensures Suits(tab, c, t) ==> Suits(AfterFirstPass(tab, c, t), c, t)
  {
    CandidatesSuit(c, t);
    hide Candidates, InRange, DelaysOk;
  }

  lemma {:induction false} ScanKeepsRange(tab: seq<Timing>, c: Charac, t: nat, n: nat)
    requires IsSpeed(c) && n <= |tab| && TableInRange(tab)
    ensures TableInRange(Scan(tab, c, t, n).tab)
  {
    hide PairOk, PairError, BestPair;
    if n > 0 {
      ScanKeepsRange(tab, c, t, n - 1);
      var o := Scan(tab, c, t, n - 1);
      BestPairIsFirstMinimum(c, t, tab[n - 1].presc, o.err, PAIRS);
    }
  }

  /** e meets the band and no timing that meets it is closer to the target period. */
  ghost predicate BestForBand(c: Charac, t: nat, e: Timing)
    requires IsSpeed(c)
  {
    MeetsBand(c, t, e) && forall x :: MeetsBand(c, t, x) ==> Deviation(c, t, e) <= Deviation(c, t, x)
  }

  lemma FirstPassOldest(tab: seq<Timing>, c: Charac, t: nat)
    requires |tab| < VALID_TIMING_NBR && OldestSuit(tab, c, t)
    ensures OldestSuit(AfterFirstPass(tab, c, t), c, t)
  {
    FirstPassSuits(tab, c, t);
    FirstPassNew(tab, c, t);
    hide Candidates, InRange, DelaysOk;
    var filled := AfterFirstPass(tab, c, t);
    forall i | 0 <= i < |filled| && Oldest(filled, i) ensures DelaysOk(c, t, filled[i]) {
      if i < |tab| {
        assert Oldest(tab, i);
      }
    }
  }

  /** What the first pass adds is admissible. */
  lemma FirstPassNew(tab: seq<Timing>, c: Charac, t: nat)
    requires |tab| < VALID_TIMING_NBR
    ensures var filled := AfterFirstPass(tab, c, t);
      tab <= filled && forall i :: |tab| <= i < |filled| ==> DelaysOk(c, t, filled[i])
  {
    CandidatesSuit(c, t);
    hide Candidates, InRange, DelaysOk;
  }

  /** From an empty table, or any table whose oldest entries suit the band: the word is zero exactly when no
      timing meets the band, and otherwise it is a timing that meets it with the least deviation. */
  lemma RequestCorrect(tab: seq<Timing>, f: nat, c: Charac)
    requires |tab| < VALID_TIMING_NBR && IsSpeed(c) && 1909 <= f
    requires OldestSuit(tab, c, ClockPeriod(f))
    requires |tab| + PRESC_MAX <= VALID_TIMING_NBR || Covers(tab, c, ClockPeriod(f))
    ensures Request(tab, f, c).0 != 0 <==> exists e :: MeetsBand(c, ClockPeriod(f), e)
    ensures Request(tab, f, c).0 != 0 ==> BestForBand(c, ClockPeriod(f), Unpack(Request(tab, f, c).0))
  {
    hide OldestSuit, Candidates, ClockPeriod, MeetsBand, BestForBand, PairOk, PairError;
    var t := ClockPeriod(f);
    ClockPeriodBound(f);
    var filled := AfterFirstPass(tab, c, t);
    FirstPassCovers(tab, c, t);
    FirstPassOldest(tab, c, t);
    OldestInRange(tab, c, t);
    OldestInRange(filled, c, t);
    ScanFindsFirstBest(filled, c, t, |filled|);
    ScanKeepsRange(filled, c, t, |filled|);
    SearchCorrect(filled, c, t, Scan(filled, c, t, |filled|));
  }

  lemma OldestInRange(tab: seq<Timing>, c: Charac, t: nat)
    requires OldestSuit(tab, c, t)
    ensures TableInRange(tab)
  {
  }

  /** The search's entry is the oldest of its prescaler, because ties keep the oldest. */
  lemma WinnerIsOldest(filled: seq<Timing>, c: Charac, t: nat, o: Outcome)
    requires IsSpeed(c) && |o.tab| == |filled| && FirstBest(filled, c, t, |filled|, o)
    ensures Oldest(filled, o.idx)
  {
    hide PairOk, PairError;
    forall j | 0 <= j < o.idx ensures filled[j].presc != filled[o.idx].presc {
      assert Earlier(j, PairOf(o.tab[o.idx]), o.idx, PairOf(o.tab[o.idx]));
    }
  }

  lemma SearchCorrect(filled: seq<Timing>, c: Charac, t: nat, o: Outcome)
    requires IsSpeed(c) && t <= 524031 && |filled| <= VALID_TIMING_NBR && |o.tab| == |filled|
    requires OldestSuit(filled, c, t) && Covers(filled, c, t) && Correct(filled, c, t, |filled|, o)
    requires TableInRange(o.tab) && forall i :: 0 <= i < |filled| ==> SameDelays(o.tab[i], filled[i])
    ensures var w := if o.idx < |filled| then Pack(o.tab[o.idx]) else 0;
      && (w != 0 <==> exists e :: MeetsBand(c, t, e))
      && (w != 0 ==> BestForBand(c, t, Unpack(w)))
  {
    hide MeetsBand, Deviation, Pack, Unpack, PairOk, PairError, SclDelOk, SdaDelOk, TargetPeriod, AdmitsDelays;
    forall e | MeetsBand(c, t, e)
      ensures o.idx < |filled| && o.err <= Deviation(c, t, e)
    {
      MeetsBandInRange(c, t, e);
      MeetsBandExact(c, t, e);
      DelaysAdmitted(c, t, e);
      var i :| 0 <= i < |filled| && filled[i].presc == e.presc;
      assert PairOk(c, t, filled[i].presc, PairOf(e));
    }
    if o.idx < |filled| {
      var e := o.tab[o.idx];
      WinnerIsOldest(filled, c, t, o);
      MeetsBandExact(c, t, e);
      FeasibleWordNotZero(c, t, e);
      PackUnpack(e);
    }
  }

  lemma MeetsBandInRange(c: Charac, t: nat, e: Timing)
    requires IsSpeed(c) && MeetsBand(c, t, e)
    ensures InRange(e)
  {
  }

  /** Bands do not overlap, so a frequency asks for one band or none. */
  lemma RequestedBand(tab: seq<Timing>, f: nat, freq: nat, c: Charac)
    requires |tab| < VALID_TIMING_NBR && f != 0 && IsSpeed(c) && InBand(freq, c)
    ensures GetTiming(tab, f, freq) == Request(tab, f, c)
  {
    hide Request;
  }

  /** For every source clock from 1909 Hz up: zero exactly for a zero argument, a frequency in no
      band, or a band that no timing meets; otherwise the best timing for the band. */
  lemma GetTimingCorrect(tab: seq<Timing>, f: nat, freq: nat)
    requires |tab| + PRESC_MAX <= VALID_TIMING_NBR && (f == 0 || 1909 <= f)
    requires f != 0 ==> forall c :: IsSpeed(c) && InBand(freq, c) ==> OldestSuit(tab, c, ClockPeriod(f))
    ensures GetTiming(tab, f, freq).0 != 0 <==>
              f != 0 && exists c, e :: IsSpeed(c) && InBand(freq, c) && MeetsBand(c, ClockPeriod(f), e)
    ensures f != 0 && GetTiming(tab, f, freq).0 != 0 ==>
              forall c :: IsSpeed(c) && InBand(freq, c) ==>
                BestForBand(c, ClockPeriod(f), Unpack(GetTiming(tab, f, freq).0))
  {
    hide Request, MeetsBand, Unpack, ClockPeriod, BestForBand, OldestSuit;
    if f != 0 {
      forall c | IsSpeed(c) && InBand(freq, c)
        ensures GetTiming(tab, f, freq) == Request(tab, f, c)
        ensures Request(tab, f, c).0 != 0 <==> exists e :: MeetsBand(c, ClockPeriod(f), e)
        ensures Request(tab, f, c).0 != 0 ==> BestForBand(c, ClockPeriod(f), Unpack(Request(tab, f, c).0))
      {
        RequestedBand(tab, f, freq, c);
        RequestCorrect(tab, f, c);
      }
    }
  }

  // ---- asking again ----

  /** Every entry repeats a candidate for (c, t), and the table starts with all of them. */
  ghost predicate SameOrigin(tab: seq<Timing>, c: Charac, t: nat) {
    var found := Candidates(c, t, PRESC_MAX);
    && |found| <= |tab|
    && (forall i :: 0 <= i < |found| ==> SameDelays(tab[i], found[i]))
    && (forall i :: 0 <= i < |tab| ==> CopyOf(tab[i], found))
  }

  ghost predicate CopyOf(e: Timing, found: seq<Timing>) {
    exists j :: 0 <= j < |found| && SameDelays(e, found[j])
  }

  lemma {:induction false} ScanDependsOnPrescalers(a: seq<Timing>, b: seq<Timing>, c: Charac, t: nat, n: nat)
    requires IsSpeed(c) && n <= |a| <= VALID_TIMING_NBR && n <= |b| <= VALID_TIMING_NBR
    requires forall i :: 0 <= i < n ==> a[i].presc == b[i].presc
    ensures SameChoice(Scan(a, c, t, n), Scan(b, c, t, n), n)
  {
    hide BestPair, TargetPeriod;
    if n > 0 {
      ScanDependsOnPrescalers(a, b, c, t, n - 1);
      assert a[n - 1].presc == b[n - 1].presc;
    }
  }

  /** The same error, entry number and pair. */
  ghost predicate SameChoice(a: Outcome, b: Outcome, n: nat) {
    && a.err == b.err && a.idx == b.idx && (a.idx < n || a.idx == NO_CONFIG)
    && (a.idx < n && a.idx < |a.tab| && a.idx < |b.tab| ==>
          a.tab[a.idx].scll == b.tab[a.idx].scll && a.tab[a.idx].sclh == b.tab[a.idx].sclh)
  }

  /** An entry that repeats an earlier prescaler never wins, because ties keep the oldest entry. */
  lemma ScanIgnoresRepeat(tab: seq<Timing>, c: Charac, t: nat, n: nat, j: nat)
    requires IsSpeed(c) && j < n < |tab| <= VALID_TIMING_NBR && tab[j].presc == tab[n].presc
    ensures Scan(tab, c, t, n + 1) == Scan(tab, c, t, n)
  {
    hide PairOk, PairError, BestPair, TargetPeriod, FirstBest, Infeasible;
    var o, p := Scan(tab, c, t, n), tab[n].presc;
    ScanFindsFirstBest(tab, c, t, n);
    BestPairIsFirstMinimum(c, t, p, o.err, PAIRS);
    var b := BestPair(c, t, p, o.err, PAIRS);
    if b.pair != PAIRS {
      NothingBelowBest(tab, c, t, n, o, j, b.pair);
      assert false;
    }
    assert Scan(tab, c, t, n + 1).tab == o.tab;
  }

  lemma NothingBelowBest(tab: seq<Timing>, c: Charac, t: nat, n: nat, o: Outcome, j: nat, k: nat)
    requires IsSpeed(c) && j < n <= |tab| == |o.tab| && k < PAIRS && Correct(tab, c, t, n, o)
    requires PairOk(c, t, tab[j].presc, k)
    ensures o.err <= PairError(c, t, tab[j].presc, k)
  {
    hide PairOk, PairError, TargetPeriod;
  }

  ghost predicate RepeatsPrescaler(tab: seq<Timing>, m: nat, i: nat)
    requires m <= i < |tab|
  {
    exists j :: 0 <= j < m && tab[j].presc == tab[i].presc
  }

  lemma ScanIgnoresCopy(tab: seq<Timing>, c: Charac, t: nat, m: nat, n: nat)
    requires IsSpeed(c) && m <= n < |tab| <= VALID_TIMING_NBR && RepeatsPrescaler(tab, m, n)
    ensures Scan(tab, c, t, n + 1) == Scan(tab, c, t, n)
  {
    hide Scan;
    var j :| 0 <= j < m && tab[j].presc == tab[n].presc;
    ScanIgnoresRepeat(tab, c, t, n, j);
  }

  lemma {:induction false} ScanIgnoresRepeats(tab: seq<Timing>, c: Charac, t: nat, m: nat, n: nat)
    requires IsSpeed(c) && m <= n <= |tab| <= VALID_TIMING_NBR
    requires forall i :: m <= i < n ==> RepeatsPrescaler(tab, m, i)
    ensures Scan(tab, c, t, n) == Scan(tab, c, t, m)
  {
    hide Scan, RepeatsPrescaler;
    if m < n {
      ScanIgnoresRepeats(tab, c, t, m, n - 1);
      ScanIgnoresCopy(tab, c, t, m, n - 1);
    }
  }

  lemma FirstPassSameOrigin(tab: seq<Timing>, c: Charac, t: nat)
    requires |tab| < VALID_TIMING_NBR && (tab == [] || SameOrigin(tab, c, t))
    ensures SameOrigin(AfterFirstPass(tab, c, t), c, t)
  {
    hide FirstDelays;
    var found, filled := Candidates(c, t, PRESC_MAX), AfterFirstPass(tab, c, t);
    forall i | 0 <= i < |filled| ensures CopyOf(filled[i], found) {
      if i >= |tab| {
        assert SameDelays(filled[i], found[i - |tab|]);
      }
    }
  }

  lemma ScanSameOrigin(filled: seq<Timing>, c: Charac, t: nat)
    requires IsSpeed(c) && |filled| <= VALID_TIMING_NBR && SameOrigin(filled, c, t)
    ensures var n := |Candidates(c, t, PRESC_MAX)|;
      SameChoice(Scan(filled, c, t, |filled|), Scan(Candidates(c, t, PRESC_MAX), c, t, n), n)
  {
    hide BestPair, FirstDelays;
    var found := Candidates(c, t, PRESC_MAX);
    forall i | |found| <= i < |filled| ensures RepeatsPrescaler(filled, |found|, i) {
      assert CopyOf(filled[i], found);
      var j :| 0 <= j < |found| && SameDelays(filled[i], found[j]);
      assert filled[j].presc == filled[i].presc;
    }
    ScanIgnoresRepeats(filled, c, t, |found|, |filled|);
    ScanDependsOnPrescalers(filled, found, c, t, |found|);
  }

  /** A request on a table built for the same band and clock period gives the word of a first request. */
  lemma RequestRepeats(tab: seq<Timing>, f: nat, c: Charac)
    requires |tab| < VALID_TIMING_NBR && f != 0 && IsSpeed(c)
    requires tab == [] || SameOrigin(tab, c, ClockPeriod(f))
    ensures Request(tab, f, c).0 == Request([], f, c).0
    ensures SameOrigin(Request(tab, f, c).1, c, ClockPeriod(f))
  {
    hide BestPair, FirstDelays, Candidates, ClockPeriod, Pack, Scan;
    var t := ClockPeriod(f);
    var found, filled := Candidates(c, t, PRESC_MAX), AfterFirstPass(tab, c, t);
    FirstPassSameOrigin(tab, c, t);
    ScanSameOrigin(filled, c, t);
    assert AfterFirstPass([], c, t) == found;
    var o, first := Scan(filled, c, t, |filled|), Scan(found, c, t, |found|);
    if o.idx < |found| {
      assert SameDelays(o.tab[o.idx], filled[o.idx]) && SameDelays(filled[o.idx], found[o.idx]);
      assert SameDelays(first.tab[o.idx], found[o.idx]);
      assert o.tab[o.idx] == first.tab[o.idx];
    }
    DelaysKeepOrigin(filled, o.tab, c, t);
  }

  lemma DelaysKeepOrigin(a: seq<Timing>, b: seq<Timing>, c: Charac, t: nat)
    requires SameOrigin(a, c, t) && |a| == |b| && forall i :: 0 <= i < |a| ==> SameDelays(b[i], a[i])
    ensures SameOrigin(b, c, t)
  {
    hide Candidates;
    var found := Candidates(c, t, PRESC_MAX);
    forall i | 0 <= i < |a| ensures CopyOf(b[i], found) {
      assert CopyOf(a[i], found);
      var j :| 0 <= j < |found| && SameDelays(a[i], found[j]);
      assert SameDelays(b[i], found[j]);
    }
  }

  /** The table is empty or was built by requests for the band of freq and the clock period of f. */
  ghost predicate OwnTable(tab: seq<Timing>, f: nat, freq: nat) {
    tab == [] || (f != 0 && forall c :: IsSpeed(c) && InBand(freq, c) ==> SameOrigin(tab, c, ClockPeriod(f)))
  }

  lemma GetTimingRepeats(tab: seq<Timing>, f: nat, freq: nat)
    requires |tab| < VALID_TIMING_NBR && OwnTable(tab, f, freq)
    ensures GetTiming(tab, f, freq).0 == GetTiming([], f, freq).0
    ensures OwnTable(GetTiming(tab, f, freq).1, f, freq)
  {
    hide Request, SameOrigin, ClockPeriod;
    if f != 0 {
      forall c | IsSpeed(c) && InBand(freq, c)
        ensures GetTiming(tab, f, freq) == Request(tab, f, c) && GetTiming([], f, freq) == Request([], f, c)
        ensures Request(tab, f, c).0 == Request([], f, c).0
        ensures SameOrigin(Request(tab, f, c).1, c, ClockPeriod(f))
      {
        RequestedBand(tab, f, freq, c);
        RequestedBand([], f, freq, c);
        RequestRepeats(tab, f, c);
      }
    }
  }

  /** A run of requests for one clock and one frequency, from the empty table, while slots are left. */
  ghost predicate SameRequestRun(tabs: seq<seq<Timing>>, words: seq<nat>, f: nat, freq: nat) {
    && |tabs| == |words| + 1 && tabs[0] == []
    && (forall i :: 0 <= i < |words| ==> |tabs[i]| < VALID_TIMING_NBR)
    && (forall i :: 0 <= i < |words| ==> (words[i], tabs[i + 1]) == GetTiming(tabs[i], f, freq))
  }

  /** Asking again always returns the same word, however many duplicates the table collects. */
  lemma {:induction false} AskingAgain(tabs: seq<seq<Timing>>, words: seq<nat>, f: nat, freq: nat)
    requires SameRequestRun(tabs, words, f, freq)
    ensures forall i :: 0 <= i < |words| ==> words[i] == GetTiming([], f, freq).0
  {
    hide GetTiming, OwnTable;
    var n := 0;
    OwnEmptyTable(f, freq);
    while n < |words|
      invariant n <= |words| && OwnTable(tabs[n], f, freq)
      invariant forall i :: 0 <= i < n ==> words[i] == GetTiming([], f, freq).0
    {
      GetTimingRepeats(tabs[n], f, freq);
      n := n + 1;
    }
  }

  lemma OwnEmptyTable(f: nat, freq: nat)
    ensures OwnTable([], f, freq)
  {
  }

  /** A run of any requests from the empty table: clocks and frequencies may change every time. */
  ghost predicate AnyRequestRun(tabs: seq<seq<Timing>>, requests: seq<(nat, nat)>) {
    && |tabs| == |requests| + 1 && tabs[0] == []
    && forall i :: 0 <= i < |requests| ==>
         |tabs[i]| < VALID_TIMING_NBR ==> tabs[i + 1] == GetTiming(tabs[i], requests[i].0, requests[i].1).1
  }

  /** The first eight requests always find a free slot, whatever they ask for. */
  lemma {:induction false} EightRequestsFit(tabs: seq<seq<Timing>>, requests: seq<(nat, nat)>, n: nat)
    requires AnyRequestRun(tabs, requests) && n < |tabs| && n <= 8
    ensures |tabs[n]| <= PRESC_MAX * n && (n < 8 ==> |tabs[n]| < VALID_TIMING_NBR) && TableInRange(tabs[n])
  {
    if n > 0 {
      EightRequestsFit(tabs, requests, n - 1);
      GetTimingGrows(tabs[n - 1], requests[n - 1].0, requests[n - 1].1);
      hide GetTiming;
      assert tabs[n - 1 + 1] == tabs[n];
    }
  }

  lemma GetTimingGrows(tab: seq<Timing>, f: nat, freq: nat)
    requires |tab| < VALID_TIMING_NBR && TableInRange(tab)
    ensures |tab| <= |GetTiming(tab, f, freq).1| <= |tab| + PRESC_MAX && TableInRange(GetTiming(tab, f, freq).1)
  {
    hide Request, TableInRange;
    if f != 0 {
      if InBand(freq, STANDARD) {
        RequestGrows(tab, f, STANDARD);
      } else if InBand(freq, FAST) {
        RequestGrows(tab, f, FAST);
      } else {
        RequestGrows(tab, f, FAST_PLUS);
      }
    }
  }

  lemma RequestGrows(tab: seq<Timing>, f: nat, c: Charac)
    requires |tab| < VALID_TIMING_NBR && TableInRange(tab) && f != 0 && IsSpeed(c)
    ensures |tab| <= |Request(tab, f, c).1| <= |tab| + PRESC_MAX && TableInRange(Request(tab, f, c).1)
  {
    var filled := AfterFirstPass(tab, c, ClockPeriod(f));
    FirstPassSuits(tab, c, ClockPeriod(f));
    hide Candidates, InRange;
    ScanKeepsRange(filled, c, ClockPeriod(f), |filled|);
  }
}
