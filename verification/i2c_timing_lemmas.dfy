/** The second search of I2cTimingSpec finds the first of the best choices, and none exactly when there is none. */
module I2cTimingLemmas {
  import opened I2cTimingSpec

  // ---- the second search finds the first best pair ----

  lemma {:induction false} BestPairIsFirstMinimum(c: Charac, t: nat, p: nat, bound: nat, k: nat)
    requires IsSpeed(c) && k <= PAIRS
    ensures var b := BestPair(c, t, p, bound, k);
      && b.err <= bound
      && (forall j :: 0 <= j < k && PairOk(c, t, p, j) ==> b.err <= PairError(c, t, p, j))
      && (b.pair == PAIRS ==> b.err == bound)
      && (b.pair != PAIRS ==>
            && b.pair < k && PairOk(c, t, p, b.pair) && PairError(c, t, p, b.pair) == b.err < bound
            && forall j :: 0 <= j < b.pair && PairOk(c, t, p, j) ==> b.err < PairError(c, t, p, j))
  {
    hide PairOk, PairError;
    if k > 0 {
      BestPairIsFirstMinimum(c, t, p, bound, k - 1);
    }
  }

  /** A feasible period is closer to the target than the search's initial bound. */
  lemma FeasibleErrorBelowTarget(c: Charac, t: nat, p: nat, k: nat)
    requires IsSpeed(c) && PairOk(c, t, p, k)
    ensures PairError(c, t, p, k) < TargetPeriod(c)
  {
    hide LowOk, SclPhase32, Period32;
  }

  /** The pair number held in a table entry. */
  function PairOf(e: Timing): nat { e.scll * SCLH_MAX + e.sclh }

  /** (i, k) is reached before (j, m) by the search. */
  predicate Earlier(i: nat, k: nat, j: nat, m: nat) { i < j || (i == j && k < m) }

  /** o.idx with the pair left in its entry is the first of the best feasible choices over entries below n. */
  ghost predicate FirstBest(tab: seq<Timing>, c: Charac, t: nat, n: nat, o: Outcome)
    requires IsSpeed(c) && n <= |tab| == |o.tab|
  {
    && o.idx < n && o.tab[o.idx].scll < SCLL_MAX && o.tab[o.idx].sclh < SCLH_MAX
    && var e := o.tab[o.idx];
    && PairOk(c, t, tab[o.idx].presc, PairOf(e))
    && o.err == PairError(c, t, tab[o.idx].presc, PairOf(e))
    && forall i, k :: 0 <= i < n && 0 <= k < PAIRS && PairOk(c, t, tab[i].presc, k) ==>
         && o.err <= PairError(c, t, tab[i].presc, k)
         && (Earlier(i, k, o.idx, PairOf(e)) ==> o.err < PairError(c, t, tab[i].presc, k))
  }

  /** Nothing feasible in the entries below n. */
  ghost predicate Infeasible(tab: seq<Timing>, c: Charac, t: nat, n: nat)
    requires IsSpeed(c) && n <= |tab|
  {
    forall i, k :: 0 <= i < n && 0 <= k < PAIRS ==> !PairOk(c, t, tab[i].presc, k)
  }

  ghost predicate Correct(tab: seq<Timing>, c: Charac, t: nat, n: nat, o: Outcome)
    requires IsSpeed(c) && n <= |tab| == |o.tab|
  {
    if o.idx == NO_CONFIG then Infeasible(tab, c, t, n) && o.tab == tab && o.err == TargetPeriod(c)
    else FirstBest(tab, c, t, n, o)
  }

  lemma {:induction false} ScanFindsFirstBest(tab: seq<Timing>, c: Charac, t: nat, n: nat)
    requires IsSpeed(c) && n <= |tab| <= VALID_TIMING_NBR
    ensures Correct(tab, c, t, n, Scan(tab, c, t, n))
  {
    hide Correct, BestPair;
    if n == 0 {
      ScanOfNothing(tab, c, t);
    } else {
      ScanFindsFirstBest(tab, c, t, n - 1);
      var o, p := Scan(tab, c, t, n - 1), tab[n - 1].presc;
      BestPairIsFirstMinimum(c, t, p, o.err, PAIRS);
      if BestPair(c, t, p, o.err, PAIRS).pair != PAIRS {
        ScanImproves(tab, c, t, n);
      } else if o.idx == NO_CONFIG {
        ScanStaysInfeasible(tab, c, t, n);
      } else {
        ScanKeeps(tab, c, t, n);
      }
    }
  }

  lemma ScanOfNothing(tab: seq<Timing>, c: Charac, t: nat)
    requires IsSpeed(c)
    ensures Correct(tab, c, t, 0, Scan(tab, c, t, 0))
  {
  }

  lemma ScanImproves(tab: seq<Timing>, c: Charac, t: nat, n: nat)
    requires IsSpeed(c) && 0 < n <= |tab| <= VALID_TIMING_NBR
    requires Correct(tab, c, t, n - 1, Scan(tab, c, t, n - 1))
    requires BestPair(c, t, tab[n - 1].presc, Scan(tab, c, t, n - 1).err, PAIRS).pair != PAIRS
    ensures Correct(tab, c, t, n, Scan(tab, c, t, n))
  {
    hide PairOk, PairError, BestPair, TargetPeriod;
    var o, p := Scan(tab, c, t, n - 1), tab[n - 1].presc;
    var r, b := Scan(tab, c, t, n), BestPair(c, t, p, o.err, PAIRS);
    BestPairIsFirstMinimum(c, t, p, o.err, PAIRS);
    assert PairOf(r.tab[n - 1]) == b.pair && r.idx == n - 1 && r.err == b.err;
    forall i, k | 0 <= i < n && 0 <= k < PAIRS && PairOk(c, t, tab[i].presc, k)
      ensures r.err <= PairError(c, t, tab[i].presc, k)
      ensures Earlier(i, k, n - 1, b.pair) ==> r.err < PairError(c, t, tab[i].presc, k)
    {
    }
  }

  lemma ScanStaysInfeasible(tab: seq<Timing>, c: Charac, t: nat, n: nat)
    requires IsSpeed(c) && 0 < n <= |tab| <= VALID_TIMING_NBR
    requires Correct(tab, c, t, n - 1, Scan(tab, c, t, n - 1)) && Scan(tab, c, t, n - 1).idx == NO_CONFIG
    requires BestPair(c, t, tab[n - 1].presc, Scan(tab, c, t, n - 1).err, PAIRS).pair == PAIRS
    ensures Correct(tab, c, t, n, Scan(tab, c, t, n))
  {
    hide PairOk, PairError, BestPair, TargetPeriod;
    var o, p := Scan(tab, c, t, n - 1), tab[n - 1].presc;
    BestPairIsFirstMinimum(c, t, p, o.err, PAIRS);
    forall k | 0 <= k < PAIRS ensures !PairOk(c, t, p, k) {
      if PairOk(c, t, p, k) {
        FeasibleErrorBelowTarget(c, t, p, k);
      }
    }
    assert Scan(tab, c, t, n).tab == tab;
  }

  lemma ScanKeeps(tab: seq<Timing>, c: Charac, t: nat, n: nat)
    requires IsSpeed(c) && 0 < n <= |tab| <= VALID_TIMING_NBR
    requires Correct(tab, c, t, n - 1, Scan(tab, c, t, n - 1)) && Scan(tab, c, t, n - 1).idx != NO_CONFIG
    requires BestPair(c, t, tab[n - 1].presc, Scan(tab, c, t, n - 1).err, PAIRS).pair == PAIRS
    ensures Correct(tab, c, t, n, Scan(tab, c, t, n))
  {
    hide PairOk, PairError, BestPair, TargetPeriod;
    var o, p := Scan(tab, c, t, n - 1), tab[n - 1].presc;
    BestPairIsFirstMinimum(c, t, p, o.err, PAIRS);
    assert Scan(tab, c, t, n).tab == o.tab;
  }
}
