/** The static timing table of stm32n6570_discovery_bus.c and the code that searches it,
    proved against the functions of I2cTimingSpec. */
module I2cBus {
  import opened I2cTimingSpec
  import opened Words

  class TimingTable {
    const validTiming: array<Timing>
    var validTimingNbr: nat
    var behind: Timing    // the memory that follows the table

    /** The table keeps its static zero image above the count, because no slot there is ever written; the count
        may run one past the end. */
    ghost predicate Valid()
      reads this, validTiming
    {
      && validTiming.Length == VALID_TIMING_NBR
      && validTimingNbr <= VALID_TIMING_NBR + 1
      && forall i :: validTimingNbr <= i < VALID_TIMING_NBR ==> validTiming[i] == ZERO
    }

    /** The entries, and the delays of the one behind the end if the count has run past it. */
    ghost function Contents(): seq<Timing>
      requires Valid()
      reads this, validTiming
    {
      if validTimingNbr <= VALID_TIMING_NBR then validTiming[..validTimingNbr]
      else validTiming[..] + [Timing(behind.presc, behind.tscldel, behind.tsdadel, 0, 0)]
    }

    constructor (behind: Timing)
      ensures Valid() && Contents() == [] && fresh(validTiming) && this.behind == behind
    {
      validTiming := new Timing[VALID_TIMING_NBR](_ => ZERO);
      validTimingNbr, this.behind := 0, behind;
    }

    /** Writes the three delay fields of slot `nbr`, which on a full table lies behind the end. */
    method Append(presc: nat, scldel: nat, sdadel: nat)
      requires Valid() && validTimingNbr <= VALID_TIMING_NBR
      modifies this, validTiming
      ensures Valid() && validTimingNbr == old(validTimingNbr) + 1
      ensures Contents() == old(Contents()) + [Timing(presc, scldel, sdadel, 0, 0)]
      ensures behind == if old(validTimingNbr) < VALID_TIMING_NBR then old(behind)
                        else old(behind).(presc := presc, tscldel := scldel, tsdadel := sdadel)
    {
      if validTimingNbr < VALID_TIMING_NBR {
        validTiming[validTimingNbr] :=
          validTiming[validTimingNbr].(presc := presc, tscldel := scldel, tsdadel := sdadel);
      } else {
        behind := behind.(presc := presc, tscldel := scldel, tsdadel := sdadel);
      }
      validTimingNbr := validTimingNbr + 1;
    }

    /** First pass.  The code writes slot `nbr` before it tests for a full table. */
    method ComputePrescSclDelSdaDel(f: nat, c: Charac)
      requires Valid() && validTimingNbr <= VALID_TIMING_NBR
      requires 2 <= f < U32 && IsSpeed(c)
      modifies this, validTiming
      ensures Valid() && Contents() == AfterFirstPass(old(Contents()), c, ClockPeriod(f))
      ensures validTimingNbr <= VALID_TIMING_NBR ==> behind == old(behind)
      ensures old(validTimingNbr) < VALID_TIMING_NBR ==> validTimingNbr <= VALID_TIMING_NBR
    {
      hide SdaDelayLow, SdaDelayHigh, SclDelayLow, FirstDelays, ClockPeriod;
      ghost var was := Contents();
      var prevPresc: nat := PRESC_MAX;
      var ti2cclk := ClockPeriod(f);
      var tsdadelMin: int := SdaDelayLow(c, ti2cclk);
      var tsdadelMax: int := SdaDelayHigh(c, ti2cclk);
      var tscldelMin := SclDelayLow(c);
      if tsdadelMin <= 0 { tsdadelMin := 0; }
      if tsdadelMax <= 0 { tsdadelMax := 0; }

      var presc := 0;
      while presc < PRESC_MAX
        invariant presc <= PRESC_MAX && (prevPresc < presc || prevPresc == PRESC_MAX)
        invariant Valid() && Room(|was|, validTimingNbr) && behind == old(behind)
        invariant Contents() == was + Candidates(c, ti2cclk, presc)
      {
        ghost var before := Contents();
        var full;
        prevPresc, full := TryDelays(c, ti2cclk, presc, prevPresc, tscldelMin, tsdadelMin, tsdadelMax);
        CandidatesStep(was, c, ti2cclk, presc);
        assert Contents() == before + FirstDelays(c, ti2cclk, presc);
        if full {
          FullTable(was, c, ti2cclk, presc + 1);
          return;
        }
        presc := presc + 1;
      }
      RoomLeft(was, c, ti2cclk);
    }

    /** The SCLDEL loop of the first pass, for one prescaler; `full` when the pass is over. */
    method TryDelays(c: Charac, t: nat, presc: nat, prevPresc0: nat, tscldelMin: nat, tsdadelMin: nat, tsdadelMax: nat)
      returns (prevPresc: nat, full: bool)
      requires Valid() && validTimingNbr <= VALID_TIMING_NBR
      requires presc < PRESC_MAX && prevPresc0 != presc
      requires tscldelMin == SclDelayLow(c)
      requires tsdadelMin == ClampToZero(SdaDelayLow(c, t)) && tsdadelMax == ClampToZero(SdaDelayHigh(c, t))
      modifies this, validTiming
      ensures Valid() && Contents() == old(Contents()) + FirstDelays(c, t, presc)
      ensures prevPresc == (if FirstDelays(c, t, presc) == [] then prevPresc0 else presc)
      ensures full <==> FirstDelays(c, t, presc) != [] && validTimingNbr >= VALID_TIMING_NBR
      ensures old(validTimingNbr) < VALID_TIMING_NBR || !full ==> behind == old(behind)
    {
      hide SclDelay32, SdaDelay32, SdaDelayLow, SdaDelayHigh, SclDelayLow, ClampToZero, FirstDelays;
      ghost var was, nbr := Contents(), validTimingNbr;
      prevPresc, full := prevPresc0, false;
      var scldel := 0;
      while scldel < SCLDEL_MAX
        invariant scldel <= SCLDEL_MAX && Valid() && behind == old(behind)
        invariant Tried(was, Contents(), c, t, presc, prevPresc0, prevPresc)
        invariant if prevPresc == prevPresc0 then validTimingNbr == nbr else validTimingNbr < VALID_TIMING_NBR
        invariant prevPresc == prevPresc0 ==> NoneBelow(c, t, presc, scldel)
      {
        var tscldel := SclDelay32(t, presc, scldel);
        if tscldel >= tscldelMin {
          prevPresc, full := TrySdaDel(c, t, presc, scldel, prevPresc0, prevPresc, tsdadelMin, tsdadelMax, was);
          if full {
            return;
          }
        }
        scldel := scldel + 1;
      }
      if prevPresc == prevPresc0 {
        NothingFound(c, t, presc);
      }
    }

    /** The SDADEL loop, for one prescaler and one SCLDEL; `full` when the pass is over. */
    method TrySdaDel(c: Charac, t: nat, presc: nat, scldel: nat, ghost prevPresc0: nat, before: nat,
                     tsdadelMin: nat, tsdadelMax: nat, ghost was: seq<Timing>)
      returns (prevPresc: nat, full: bool)
      requires Valid() && validTimingNbr <= VALID_TIMING_NBR
      requires presc < PRESC_MAX && scldel < SCLDEL_MAX && prevPresc0 != presc && SclDelOk(c, t, presc, scldel)
      requires tsdadelMin == ClampToZero(SdaDelayLow(c, t)) && tsdadelMax == ClampToZero(SdaDelayHigh(c, t))
      requires Tried(was, Contents(), c, t, presc, prevPresc0, before)
      requires before == prevPresc0 ==> NoneBelow(c, t, presc, scldel)
      requires before != prevPresc0 ==> validTimingNbr < VALID_TIMING_NBR
      modifies this, validTiming
      ensures Valid() && Tried(was, Contents(), c, t, presc, prevPresc0, prevPresc)
      ensures prevPresc == prevPresc0 ==>
        NoneBelow(c, t, presc, scldel + 1) && validTimingNbr == old(validTimingNbr) && !full
      ensures prevPresc != prevPresc0 ==> (full <==> validTimingNbr >= VALID_TIMING_NBR)
      ensures old(validTimingNbr) < VALID_TIMING_NBR || !full ==> behind == old(behind)
    {
      hide SclDelay32, SdaDelay32, SdaDelayLow, SdaDelayHigh, SclDelayLow, ClampToZero, FirstDelays, SclDelOk;
      ghost var nbr := validTimingNbr;
      prevPresc, full := before, false;
      var sdadel := 0;
      while sdadel < SDADEL_MAX
        invariant sdadel <= SDADEL_MAX && Valid() && behind == old(behind)
        invariant Tried(was, Contents(), c, t, presc, prevPresc0, prevPresc)
        invariant if prevPresc == prevPresc0 then validTimingNbr == nbr else validTimingNbr < VALID_TIMING_NBR
        invariant prevPresc == prevPresc0 ==> NoneBelow(c, t, presc, scldel)
        invariant prevPresc == prevPresc0 ==> LeastSdaDel(c, t, presc, 0) >= sdadel
      {
        var tsdadel := SdaDelay32(t, presc, sdadel);
        if tsdadel >= tsdadelMin && tsdadel <= tsdadelMax {
          if presc != prevPresc {
            FirstFound(c, t, presc, scldel, sdadel);
            Append(presc, scldel, sdadel);
            prevPresc := presc;
            if validTimingNbr >= VALID_TIMING_NBR {
              full := true;
              return;
            }
          }
        }
        sdadel := sdadel + 1;
      }
    }

    /** Second pass: the index of the best entry, whose SCLL and SCLH fields it leaves in the table. */
    method ComputeSclLSclH(f: nat, c: Charac) returns (ret: nat)
      requires Valid() && validTimingNbr <= VALID_TIMING_NBR && 2 <= f < U32 && IsSpeed(c)
      modifies validTiming
      ensures Valid()
      ensures var o := Scan(old(Contents()), c, ClockPeriod(f), validTimingNbr);
              ret == o.idx && Contents() == o.tab
    {
      hide BestPair, TargetPeriod, ClockPeriod, Scan;
      ghost var was := Contents();
      ret := NO_CONFIG;
      var ti2cclk := ClockPeriod(f);
      var prevError := TargetPeriod(c);

      var count := 0;
      ScanStart(was, c, ti2cclk);
      while count < validTimingNbr
        invariant count <= validTimingNbr && Valid()
        invariant Outcome(prevError, ret, Contents()) == Scan(was, c, ti2cclk, count)
      {
        prevError, ret := TryPairs(c, ti2cclk, count, prevError, ret, Scan(was, c, ti2cclk, count));
        ScanNext(was, c, ti2cclk, count);
        count := count + 1;
      }
    }

    /** The two inner loops of the second pass: all pairs for one table entry. */
    method TryPairs(c: Charac, t: nat, count: nat, prevError0: nat, ret0: nat, ghost o: Outcome)
      returns (prevError: nat, ret: nat)
      requires IsSpeed(c) && Valid() && count < validTimingNbr <= VALID_TIMING_NBR && Contents() == o.tab
      requires prevError0 == o.err && ret0 == o.idx
      modifies validTiming
      ensures Valid() && Searched(o, c, t, count, PAIRS, prevError, ret)
    {
      hide SclPhase32, BestPair, Mul32;
      prevError, ret := prevError0, ret0;
      BestPairStart(c, t, o.tab[count].presc, o.err);
      ghost var k := 0;
      var scll := 0;
      while scll < SCLL_MAX
        invariant scll <= SCLL_MAX && k == scll * SCLH_MAX && Valid()
        invariant Searched(o, c, t, count, k, prevError, ret)
      {
        var low := SclPhase32(c, t, validTiming[count].presc, scll);
        if low > c.lsclMin && t < (low - ANALOG_FILTER_MIN - Mul32(c.dnf, t)) / 4 {
          prevError, ret := TryHighPeriods(c, t, count, scll, prevError, ret, o);
        } else {
          BestPairSkipsRow(c, t, o.tab[count].presc, o.err, scll, SCLH_MAX);
        }
        k := k + SCLH_MAX;
        scll := scll + 1;
      }
    }

    /** The innermost loop of the second pass: all SCLH values for one table entry and one SCLL. */
    method TryHighPeriods(c: Charac, t: nat, count: nat, scll: nat, prevError0: nat, ret0: nat, ghost o: Outcome)
      returns (prevError: nat, ret: nat)
      requires IsSpeed(c) && Valid() && scll < SCLL_MAX
      requires Searched(o, c, t, count, scll * SCLH_MAX, prevError0, ret0)
      requires LowOk(c, t, o.tab[count].presc, scll)
      modifies validTiming
      ensures Valid() && Searched(o, c, t, count, (scll + 1) * SCLH_MAX, prevError, ret)
    {
      hide SclPhase32, Period32, LowOk, TargetPeriod, ClkMin, ClkMax;
      prevError, ret := prevError0, ret0;
      var p := validTiming[count].presc;
      ghost var k := scll * SCLH_MAX;
      var sclh := 0;
      while sclh < SCLH_MAX
        invariant sclh <= SCLH_MAX && k == scll * SCLH_MAX + sclh && Valid()
        invariant Searched(o, c, t, count, k, prevError, ret)
      {
        PairNumber(scll, sclh);
        var high := SclPhase32(c, t, p, sclh);
        var tscl := Period32(c, t, p, scll, sclh);
        if tscl >= ClkMin(c) && tscl <= ClkMax(c) && high >= c.hsclMin && t < high {
          var error := tscl as int - TargetPeriod(c);
          if error < 0 {
            error := -error;
          }
          assert PairOk(c, t, p, k) && error == PairError(c, t, p, k);
          if error < prevError {
            prevError := error;
            validTiming[count] := validTiming[count].(scll := scll);
            validTiming[count] := validTiming[count].(sclh := sclh);
            ret := count;
          }
        }
        k := k + 1;
        sclh := sclh + 1;
      }
    }

    /** Entry `count` has been tried with its first k pairs, starting from the state o. */
    ghost predicate Searched(o: Outcome, c: Charac, t: nat, count: nat, k: nat, prevError: nat, ret: nat)
      requires Valid() && IsSpeed(c)
      reads this, validTiming
    {
      && count < validTimingNbr == |o.tab| <= VALID_TIMING_NBR
      && var b := BestPair(c, t, o.tab[count].presc, o.err, k);
      && prevError == b.err
      && ret == (if b.pair == PAIRS then o.idx else count)
      && Contents() == o.tab[count := SetPair(o.tab[count], b)]
    }

    /** The 32-bit timing register word for a clock and a bus frequency in Hz, 0 when there is none. */
    method GetTimingWord(f: nat, freq: nat) returns (ret: nat)
      requires Valid() && validTimingNbr < VALID_TIMING_NBR
      requires f < U32 && f != 1   // at 1 Hz the signed delay arithmetic overflows
      modifies this, validTiming
      ensures Valid()
      ensures (ret, Contents()) == GetTiming(old(Contents()), f, freq)
    {
      hide AfterFirstPass, Scan, ClockPeriod, Pack;
      ret := 0;
      if f != 0 && freq != 0 {
        var speed := 0;
        while speed < |SPEEDS|
          invariant speed <= |SPEEDS| && ret == 0
          invariant Valid() && Contents() == old(Contents()) && validTimingNbr == old(validTimingNbr)
          invariant forall s :: 0 <= s < speed ==> !InBand(freq, SPEEDS[s])
        {
          if freq >= SPEEDS[speed].freqMin && freq <= SPEEDS[speed].freqMax {
            ComputePrescSclDelSdaDel(f, SPEEDS[speed]);
            var idx := ComputeSclLSclH(f, SPEEDS[speed]);
            ScanIndex(AfterFirstPass(old(Contents()), SPEEDS[speed], ClockPeriod(f)), SPEEDS[speed],
                      ClockPeriod(f), validTimingNbr);
            if idx < VALID_TIMING_NBR {
              ret := Pack(validTiming[idx]);
            }
            break;
          }
          speed := speed + 1;
        }
        assert SPEEDS[0] == STANDARD && SPEEDS[1] == FAST && SPEEDS[2] == FAST_PLUS;
      }
    }
  }

  ghost predicate Tried(was: seq<Timing>, now: seq<Timing>, c: Charac, t: nat, p: nat, prevPresc0: nat, prevPresc: nat) {
    if prevPresc == prevPresc0 then now == was
    else prevPresc == p && now == was + FirstDelays(c, t, p) && FirstDelays(c, t, p) != []
  }

  /** A table that had n entries has one more slot, or is full and as it was. */
  predicate Room(n: nat, nbr: nat) { nbr < VALID_TIMING_NBR || nbr == n == VALID_TIMING_NBR }

  /** No admissible pair of delays has SCLDEL below n. */
  ghost predicate NoneBelow(c: Charac, t: nat, p: nat, n: nat) {
    LeastSclDel(c, t, p, 0) < n ==> LeastSdaDel(c, t, p, 0) == SDADEL_MAX
  }

  lemma FirstFound(c: Charac, t: nat, p: nat, l: nat, a: nat)
    requires l < SCLDEL_MAX && a < SDADEL_MAX && SclDelOk(c, t, p, l) && SdaDelOk(c, t, p, a)
    requires NoneBelow(c, t, p, l) && LeastSdaDel(c, t, p, 0) >= a
    ensures FirstDelays(c, t, p) == [Timing(p, l, a, 0, 0)]
  {
    assert LeastSdaDel(c, t, p, 0) == a;
    assert LeastSclDel(c, t, p, 0) == l;
  }

  lemma NothingFound(c: Charac, t: nat, p: nat)
    requires NoneBelow(c, t, p, SCLDEL_MAX)
    ensures FirstDelays(c, t, p) == []
  {
  }

  lemma CandidatesStep(was: seq<Timing>, c: Charac, t: nat, p: nat)
    ensures was + Candidates(c, t, p) + FirstDelays(c, t, p) == was + Candidates(c, t, p + 1)
  {
  }

  lemma RoomLeft(was: seq<Timing>, c: Charac, t: nat)
    requires |was| <= VALID_TIMING_NBR && Room(|was|, |was| + |Candidates(c, t, PRESC_MAX)|)
    ensures AfterFirstPass(was, c, t) == was + Candidates(c, t, PRESC_MAX)
  {
  }

  lemma FullTable(was: seq<Timing>, c: Charac, t: nat, n: nat)
    requires n <= PRESC_MAX && |was| <= VALID_TIMING_NBR
    requires |was| + |Candidates(c, t, n)| == if |was| == VALID_TIMING_NBR then VALID_TIMING_NBR + 1 else VALID_TIMING_NBR
    ensures AfterFirstPass(was, c, t) == was + Candidates(c, t, n)
  {
    CandidatesPrefix(c, t, n, PRESC_MAX);
  }

  lemma {:induction false} CandidatesPrefix(c: Charac, t: nat, m: nat, n: nat)
    requires m <= n
    ensures Candidates(c, t, m) <= Candidates(c, t, n)
    decreases n
  {
    if m < n {
      CandidatesPrefix(c, t, m, n - 1);
    }
  }

  lemma ScanStart(tab: seq<Timing>, c: Charac, t: nat)
    requires IsSpeed(c)
    ensures Scan(tab, c, t, 0) == Outcome(TargetPeriod(c), NO_CONFIG, tab)
  {
  }

  lemma ScanNext(tab: seq<Timing>, c: Charac, t: nat, n: nat)
    requires IsSpeed(c) && n < |tab|
    ensures var o := Scan(tab, c, t, n);
            var b := BestPair(c, t, o.tab[n].presc, o.err, PAIRS);
            Scan(tab, c, t, n + 1)
            == Outcome(b.err, if b.pair == PAIRS then o.idx else n, o.tab[n := SetPair(o.tab[n], b)])
  {
    hide BestPair;
  }

  lemma BestPairStart(c: Charac, t: nat, p: nat, bound: nat)
    requires IsSpeed(c)
    ensures BestPair(c, t, p, bound, 0) == Best(bound, PAIRS)
  {
  }

  lemma PairNumber(l: nat, h: nat)
    requires h < SCLH_MAX
    ensures (l * SCLH_MAX + h) / SCLH_MAX == l && (l * SCLH_MAX + h) % SCLH_MAX == h
  {
  }

  /** A row of pairs whose low period is out of bounds leaves the best pair as it was. */
  lemma {:induction false} BestPairSkipsRow(c: Charac, t: nat, p: nat, bound: nat, l: nat, n: nat)
    requires IsSpeed(c) && !LowOk(c, t, p, l) && n <= SCLH_MAX
    ensures BestPair(c, t, p, bound, l * SCLH_MAX + n) == BestPair(c, t, p, bound, l * SCLH_MAX)
  {
    if n > 0 {
      BestPairSkipsRow(c, t, p, bound, l, n - 1);
      var k := l * SCLH_MAX + n - 1;
      assert k / SCLH_MAX == l;
      assert !PairOk(c, t, p, k);
    }
  }

  lemma {:induction false} ScanIndex(tab: seq<Timing>, c: Charac, t: nat, n: nat)
    requires IsSpeed(c) && n <= |tab|
    ensures var idx := Scan(tab, c, t, n).idx; idx < n || idx == NO_CONFIG
  {
    if n > 0 {
      ScanIndex(tab, c, t, n - 1);
    }
  }
}
