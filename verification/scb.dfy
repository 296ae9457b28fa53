/** The cache maintenance functions of cachel1_armv7.h, register write by register write, proved to make
    the state changes of DCache and DCacheRanges. */
module Scb {
  import opened Arithmetic
  import opened DCache
  import opened DCacheRanges
  import opened Words

  /** The 32-bit two's complement reading of a word. */
  function ToInt32(w: int): int {
    var u := w % U32;
    if u < 0x8000_0000 then u else u - U32
  }

  // ---- the sequence of slots still to visit ----

  /** What has been visited, then what the given number of ways of this set still give. */
  ghost predicate WaysLeft(visited: seq<Loc>, index: nat, ways: nat, all: seq<Loc>) {
    visited + SweepWays(index, ways) == all
  }

  ghost predicate SetsLeft(visited: seq<Loc>, sets: nat, ways: nat, all: seq<Loc>) {
    visited + Sweep(sets, ways) == all
  }

  lemma WaysStep(visited: seq<Loc>, index: nat, ways: nat, all: seq<Loc>)
    requires WaysLeft(visited, index, ways + 1, all)
    ensures WaysLeft(visited + [Loc(index, ways)], index, ways, all)
  {
  }

  lemma WaysEnd(visited: seq<Loc>, index: nat, all: seq<Loc>)
    requires WaysLeft(visited, index, 0, all)
    ensures visited == all
  {
  }

  lemma SetsStep(visited: seq<Loc>, sets: nat, ways: nat, all: seq<Loc>)
    requires SetsLeft(visited, sets + 1, ways, all)
    ensures SetsLeft(visited + SweepWays(sets, ways), sets, ways, all)
  {
    hide SweepWays;
    assert (visited + SweepWays(sets, ways)) + Sweep(sets, ways) == visited + (SweepWays(sets, ways) + Sweep(sets, ways));
  }

  lemma WaysStart(visited: seq<Loc>, index: nat, ways: nat)
    ensures WaysLeft(visited, index, ways, visited + SweepWays(index, ways))
  {
  }

  lemma SetsStart(was: Sys, op: Op, sets: nat, ways: nat)
    ensures SetsLeft([], sets, ways, Sweep(sets, ways)) && ApplyEach(was, op, []) == was
  {
  }

  lemma SetsEnd(visited: seq<Loc>, ways: nat, all: seq<Loc>)
    requires SetsLeft(visited, 0, ways, all)
    ensures visited == all
  {
  }

  lemma SnocApply(was: Sys, op: Op, visited: seq<Loc>, k: Loc)
    ensures ApplyEach(was, op, visited + [k]) == Apply(ApplyEach(was, op, visited), op, k)
  {
    assert (visited + [k])[..|visited + [k]| - 1] == visited;
  }

  lemma AllKeepsShape(s: Sys, op: Op)
    requires s.WellFormed()
    ensures var t := All(s, op); t.WellFormed() && t.enabled == s.enabled && t.sets == s.sets && t.ways == s.ways
  {
    AllDone(s, op);
    ApplyEachDone(s, op, Sweep(s.sets, s.ways));
  }

  // ---- the sequence of lines still to operate on ----

  lemma LinesStep(was: Sys, op: Op, addr: nat, size: nat, n: nat)
    requires n < LineCount(addr, size)
    ensures ApplyLines(was, op, LinesOf(addr, size)[..n + 1]) ==
            ApplyLine(ApplyLines(was, op, LinesOf(addr, size)[..n]), op, (addr + LINE_SIZE * n) % U32 / LINE_SIZE)
  {
    ByteLine(addr, LINE_SIZE * n);
    var ns := LinesOf(addr, size);
    assert ns[..n + 1][..n] == ns[..n];
    assert LineOfByte(addr, LINE_SIZE * n) == ns[n];
  }

  /** The byte counter after the next subtraction, whether or not it overflowed before the first. */
  lemma CounterStep(counter: int, total: nat, n: nat)
    requires LINE_SIZE * n < total < 0x8000_0000 + LINE_SIZE
    requires counter == if n == 0 then ToInt32(total) else total - LINE_SIZE * n
    ensures ToInt32(counter - LINE_SIZE) == total - LINE_SIZE * (n + 1)
  {
  }

  lemma NextAddress(a: nat)
    ensures (a % U32 + LINE_SIZE) % U32 == (a + LINE_SIZE) % U32
  {
    DivMod(a + LINE_SIZE, a / U32 + (a % U32 + LINE_SIZE) / U32, (a % U32 + LINE_SIZE) % U32, U32);
  }

  lemma MoreLines(addr: nat, size: nat, n: nat)
    ensures LINE_SIZE * n < size + addr % LINE_SIZE <==> n < LineCount(addr, size)
  {
  }

  function LocalLines(addrs: seq<nat>): seq<nat> { seq(|addrs|, i requires 0 <= i < |addrs| => addrs[i] / LINE_SIZE) }

  lemma {:induction false} LinesKeepShape(s: Sys, op: Op, ns: seq<nat>)
    requires s.WellFormed()
    ensures var t := ApplyLines(s, op, ns); t.WellFormed() && t.enabled == s.enabled && t.sets == s.sets && t.ways == s.ways
  {
    if ns != [] {
      LinesKeepShape(s, op, ns[..|ns| - 1]);
    }
  }

  /** Cleaning some lines before the sweep of a disable, as builds without optimisation do for their local
      variables, changes nothing in the outcome. */
  lemma LocalsCleaned(s: Sys, ns: seq<nat>)
    requires Inv(s)
    ensures All(ApplyLines(s.(enabled := false), CleanInvalidate, ns), CleanInvalidate) == DCache.DisableDCache(s)
  {
    var on := AsIfEnabled(s, ns);
    DisabledAlike(s, on);
    hide All, ApplyLines, Inv;
  }

  /** Operations by line on the disabled cache are those on the cache as it was. */
  lemma {:induction false} AsIfEnabled(s: Sys, ns: seq<nat>) returns (on: Sys)
    requires Inv(s)
    ensures Inv(on) && on.enabled == s.enabled && on.View() == s.View() && on.sets == s.sets && on.ways == s.ways
    ensures ApplyLines(s.(enabled := false), CleanInvalidate, ns) == on.(enabled := false)
  {
    hide Inv, Sys.View, ApplyLine;
    if ns == [] {
      on := s;
    } else {
      var before := AsIfEnabled(s, ns[..|ns| - 1]);
      on := LineAsIfEnabled(before, ns[|ns| - 1]);
    }
  }

  lemma LineAsIfEnabled(s: Sys, n: nat) returns (on: Sys)
    requires Inv(s)
    ensures Inv(on) && on.enabled == s.enabled && on.View() == s.View() && on.sets == s.sets && on.ways == s.ways
    ensures ApplyLine(s.(enabled := false), CleanInvalidate, n) == on.(enabled := false)
  {
    var off := s.(enabled := false);
    if k :| off.Holds(k, n) && ApplyLine(off, CleanInvalidate, n) == Apply(off, CleanInvalidate, k) {
      on := Apply(s, CleanInvalidate, k);
      assert Apply(off, CleanInvalidate, k) == on.(enabled := false);
      if s.enabled {
        ApplyKeepsView(s, CleanInvalidate, k);
      }
    } else {
      on := s;
    }
  }

  lemma DisabledAlike(s: Sys, t: Sys)
    requires Inv(s) && Inv(t) && s.View() == t.View() && s.sets == t.sets && s.ways == t.ways
    ensures DCache.DisableDCache(s) == DCache.DisableDCache(t)
  {
    DisableKeepsView(s);
    DisableKeepsView(t);
    AllKeepsShape(s.(enabled := false), CleanInvalidate);
    AllKeepsShape(t.(enabled := false), CleanInvalidate);
    hide All, Sys.View, Inv;
  }

  class Core {
    const optimised: bool  // whether the build defines __OPTIMIZE__
    const locals: seq<nat> // the addresses SCB_DisableDCache then cleans: one, or three with the IAR compiler
    var dcEnabled: bool    // the DC bit of CCR
    ghost var sys: Sys
    const numSets: nat     // CCSIDR_SETS, one less than the number of sets
    const numWays: nat     // CCSIDR_WAYS, one less than the number of ways

    ghost predicate Valid()
      reads this
    {
      sys.WellFormed() && sys.sets == numSets + 1 && sys.ways == numWays + 1 && sys.enabled == dcEnabled
    }

    /** A core out of reset: disabled, its cache holding anything. */
    constructor (numSets: nat, numWays: nat, optimised: bool, locals: seq<nat>, ghost sys: Sys)
      requires sys.WellFormed() && sys.sets == numSets + 1 && sys.ways == numWays + 1 && !sys.enabled
      ensures Valid() && this.sys == sys
    {
      this.numSets, this.numWays := numSets, numWays;
      this.optimised, this.locals := optimised, locals;
      this.sys, dcEnabled := sys, false;
    }

    /** A write to DCISW, DCCSW or DCCISW. */
    method WriteSetWay(op: Op, index: nat, way: nat)
      modifies this`sys
      ensures sys == Apply(old(sys), op, Loc(index, way))
    {
      sys := Apply(sys, op, Loc(index, way));
    }

    /** A write to DCIMVAC, DCCMVAC or DCCIMVAC; the low five address bits are ignored. */
    method WriteAddress(op: Op, addr: nat)
      modifies this`sys
      ensures sys == ApplyLine(old(sys), op, addr / LINE_SIZE)
    {
      sys := ApplyLine(sys, op, addr / LINE_SIZE);
    }

    /** The inner do-while loop: one set, its ways downwards. */
    method AllWays(op: Op, index: nat, ghost was: Sys, ghost before: seq<Loc>)
      requires sys == ApplyEach(was, op, before)
      modifies this`sys
      ensures sys == ApplyEach(was, op, before + SweepWays(index, numWays + 1))
    {
      hide Apply, ApplyEach, SweepWays, WaysLeft;
      ghost var all := before + SweepWays(index, numWays + 1);
      ghost var visited := before;
      var ways := numWays;
      WaysStart(before, index, numWays + 1);
      while true
        invariant 0 <= ways <= numWays
        invariant WaysLeft(visited, index, ways + 1, all)
        invariant sys == ApplyEach(was, op, visited)
        decreases ways
      {
        WriteSetWay(op, index, ways);
        SnocApply(was, op, visited, Loc(index, ways));
        WaysStep(visited, index, ways, all);
        visited := visited + [Loc(index, ways)];
        if ways == 0 {
          break;
        }
        ways := ways - 1;
      }
      WaysEnd(visited, index, all);
    }

    /** The outer do-while loop: the sets downwards. */
    method AllSetsAndWays(op: Op)
      requires Valid()
      modifies this`sys
      ensures Valid() && sys == All(old(sys), op)
    {
      hide ApplyEach, Sweep, SweepWays, SetsLeft;
      ghost var was, visited, all := sys, [], Sweep(numSets + 1, numWays + 1);
      var sets := numSets;
      SetsStart(was, op, numSets + 1, numWays + 1);
      while true
        invariant 0 <= sets <= numSets
        invariant SetsLeft(visited, sets + 1, numWays + 1, all)
        invariant sys == ApplyEach(was, op, visited)
        decreases sets
      {
        AllWays(op, sets, was, visited);
        SetsStep(visited, sets, numWays + 1, all);
        visited := visited + SweepWays(sets, numWays + 1);
        if sets == 0 {
          break;
        }
        sets := sets - 1;
      }
      SetsEnd(visited, numWays + 1, all);
      AllKeepsShape(was, op);
    }

    method EnableDCache()
      requires Valid()
      modifies this
      ensures Valid() && sys == DCache.EnableDCache(old(sys)) && dcEnabled
    {
      if dcEnabled {
        return;
      }
      AllSetsAndWays(Invalidate);
      dcEnabled := true;
      sys := sys.(enabled := true);
    }

    method DisableDCache()
      requires Valid()
      modifies this
      ensures Valid() && !dcEnabled
      ensures optimised || Inv(old(sys)) ==> sys == DCache.DisableDCache(old(sys))
      ensures !optimised ==>
        sys == All(ApplyLines(old(sys).(enabled := false), CleanInvalidate, LocalLines(locals)), CleanInvalidate)
    {
      hide All, Inv;
      ghost var was := sys;
      dcEnabled := false;
      sys := sys.(enabled := false);
      if !optimised {
        CleanLocals();
        LinesKeepShape(was.(enabled := false), CleanInvalidate, LocalLines(locals));
        if Inv(was) {
          LocalsCleaned(was, LocalLines(locals));
        }
      }
      AllSetsAndWays(CleanInvalidate);
    }

    /** One write for each address. */
    method CleanLocals()
      modifies this`sys
      ensures sys == ApplyLines(old(sys), CleanInvalidate, LocalLines(locals))
    {
      var i := 0;
      while i < |locals|
        invariant i <= |locals| && sys == ApplyLines(old(sys), CleanInvalidate, LocalLines(locals[..i]))
      {
        hide ApplyLine;
        WriteAddress(CleanInvalidate, locals[i]);
        assert LocalLines(locals[..i + 1])[..i] == LocalLines(locals[..i]);
        i := i + 1;
      }
      assert locals[..i] == locals;
    }

    method InvalidateDCache()
      requires Valid()
      modifies this`sys
      ensures Valid() && sys == All(old(sys), Invalidate)
    {
      AllSetsAndWays(Invalidate);
    }

    method CleanDCache()
      requires Valid()
      modifies this`sys
      ensures Valid() && sys == All(old(sys), Clean)
    {
      AllSetsAndWays(Clean);
    }

    method CleanInvalidateDCache()
      requires Valid()
      modifies this`sys
      ensures Valid() && sys == All(old(sys), CleanInvalidate)
    {
      AllSetsAndWays(CleanInvalidate);
    }

    /** The three loops by address, which differ in the register they write. The 32-bit byte counter can
        overflow before the first pass, for a size within 31 of the largest, and is then negative; the test
        follows the subtraction, which brings it back. */
    method ByAddr(op: Op, addr: nat, dsize: int)
      requires addr < U32 && -0x8000_0000 <= dsize < 0x8000_0000
      modifies this`sys
      ensures sys == if dsize > 0 then ApplyLines(old(sys), op, LinesOf(addr, dsize)) else old(sys)
    {
      if dsize > 0 {
        ghost var was, total, n: nat := sys, dsize + addr % LINE_SIZE, 0;
        var opSize := ToInt32(dsize + addr % LINE_SIZE);
        var opAddr := addr;
        while true
          invariant n < LineCount(addr, dsize) && LINE_SIZE * n < total
          invariant opAddr == (addr + LINE_SIZE * n) % U32
          invariant opSize == if n == 0 then ToInt32(total) else total - LINE_SIZE * n
          invariant sys == ApplyLines(was, op, LinesOf(addr, dsize)[..n])
          decreases LineCount(addr, dsize) - n
        {
          hide ApplyLine, ApplyLines, LinesOf, LineCount, ToInt32;
          WriteAddress(op, opAddr);
          LinesStep(was, op, addr, dsize, n);
          NextAddress(addr + LINE_SIZE * n);
          opAddr := (opAddr + LINE_SIZE) % U32;
          CounterStep(opSize, total, n);
          opSize := ToInt32(opSize - LINE_SIZE);
          n := n + 1;
          MoreLines(addr, dsize, n);
          if opSize <= 0 {
            break;
          }
        }
        assert LinesOf(addr, dsize)[..n] == LinesOf(addr, dsize);
      }
    }

    method InvalidateDCacheByAddr(addr: nat, dsize: int)
      requires addr < U32 && -0x8000_0000 <= dsize < 0x8000_0000
      modifies this`sys
      ensures sys == if dsize > 0 then ApplyLines(old(sys), Invalidate, LinesOf(addr, dsize)) else old(sys)
    {
      ByAddr(Invalidate, addr, dsize);
    }

    method CleanDCacheByAddr(addr: nat, dsize: int)
      requires addr < U32 && -0x8000_0000 <= dsize < 0x8000_0000
      modifies this`sys
      ensures sys == if dsize > 0 then ApplyLines(old(sys), Clean, LinesOf(addr, dsize)) else old(sys)
    {
      ByAddr(Clean, addr, dsize);
    }

    method CleanInvalidateDCacheByAddr(addr: nat, dsize: int)
      requires addr < U32 && -0x8000_0000 <= dsize < 0x8000_0000
      modifies this`sys
      ensures sys == if dsize > 0 then ApplyLines(old(sys), CleanInvalidate, LinesOf(addr, dsize)) else old(sys)
    {
      ByAddr(CleanInvalidate, addr, dsize);
    }
  }
}
