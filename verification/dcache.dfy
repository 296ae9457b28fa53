/** L1 data cache maintenance of cachel1_armv7.h over a model of a set-associative write-back cache:
    the state, one maintenance operation, and the sequences of operations the loops issue. */
module DCache {
  import opened Words

  type Line = s: seq<Byte> | |s| == 32 witness seq(32, _ => 0 as Byte)

  const LINE_SIZE: nat := 32
  const LINES: nat := 0x800_0000   // 32-byte lines in the 32-bit address space

  /** A cache slot, by set and way, and what it may hold. */
  datatype Loc = Loc(index: nat, way: nat)
  datatype Entry = Entry(line: nat, data: Line, dirty: bool)

  datatype Op = Invalidate | Clean | CleanInvalidate

  /** Memory, and the slots that hold a line. */
  datatype Sys = Sys(enabled: bool, sets: nat, ways: nat, slots: map<Loc, Entry>, mem: seq<Line>) {
    ghost predicate WellFormed() {
      && sets > 0 && ways > 0 && |mem| == LINES
      && forall k :: k in slots ==>
           k.index < sets && k.way < ways && slots[k].line < LINES && slots[k].line % sets == k.index
    }

    ghost predicate Holds(k: Loc, n: nat) { k in slots && slots[k].line == n }

    /** No line is held twice, and a clean copy equals memory. */
    ghost predicate Coherent() {
      && (forall k, j :: k in slots && j in slots && slots[k].line == slots[j].line ==> k == j)
      && (forall k :: k in slots && !slots[k].dirty && slots[k].line < |mem| ==> slots[k].data == mem[slots[k].line])
    }

    ghost predicate NoDirty() { forall k :: k in slots ==> !slots[k].dirty }

    /** Line n as the CPU sees it. */
    ghost function ViewLine(n: nat): Line
      requires n < |mem|
    {
      if enabled && exists k :: Holds(k, n) then (var k :| Holds(k, n); slots[k].data) else mem[n]
    }

    /** Memory as the CPU sees it. */
    ghost function View(): (v: seq<Line>)
      ensures |v| == |mem|
    {
      seq(|mem|, n requires 0 <= n < |mem| => ViewLine(n))
    }
  }

  ghost predicate Inv(s: Sys) {
    s.WellFormed() && if s.enabled then s.Coherent() else s.NoDirty()
  }

  // ---- one operation on one slot ----

  function Apply(s: Sys, op: Op, k: Loc): Sys {
    if k !in s.slots then s else
      var e := s.slots[k];
      var mem := if op != Invalidate && e.dirty && e.line < |s.mem| then s.mem[e.line := e.data] else s.mem;
      var slots := if op == Clean then s.slots[k := e.(dirty := false)] else s.slots - {k};
      s.(slots := slots, mem := mem)
  }

  function ApplyEach(s: Sys, op: Op, ks: seq<Loc>): Sys {
    if ks == [] then s else Apply(ApplyEach(s, op, ks[..|ks| - 1]), op, ks[|ks| - 1])
  }

  /** An operation by address acts on the slot that holds the line, if any. */
  ghost function ApplyLine(s: Sys, op: Op, n: nat): Sys {
    if k :| s.Holds(k, n) then Apply(s, op, k) else s
  }

  ghost function ApplyLines(s: Sys, op: Op, ns: seq<nat>): Sys {
    if ns == [] then s else ApplyLine(ApplyLines(s, op, ns[..|ns| - 1]), op, ns[|ns| - 1])
  }

  // ---- what the loops visit ----

  /** The set/way loops: sets downwards, and for each set its ways downwards. */
  function Sweep(sets: nat, ways: nat): seq<Loc> {
    if sets == 0 then [] else SweepWays(sets - 1, ways) + Sweep(sets - 1, ways)
  }
  function SweepWays(index: nat, ways: nat): seq<Loc> {
    if ways == 0 then [] else [Loc(index, ways - 1)] + SweepWays(index, ways - 1)
  }

  lemma {:induction false} SweepWaysOnce(index: nat, ways: nat, k: Loc)
    ensures multiset(SweepWays(index, ways))[k] == if k.index == index && k.way < ways then 1 else 0
  {
    if ways > 0 {
      SweepWaysCount(index, ways, k);
      hide SweepWays;
      SweepWaysOnce(index, ways - 1, k);
    }
  }

  lemma SweepWaysCount(index: nat, ways: nat, k: Loc)
    requires ways > 0
    ensures multiset(SweepWays(index, ways))[k] ==
            (if k == Loc(index, ways - 1) then 1 else 0) + multiset(SweepWays(index, ways - 1))[k]
  {
    var rest := SweepWays(index, ways - 1);
    assert SweepWays(index, ways) == [Loc(index, ways - 1)] + rest;
    hide SweepWays;
    assert multiset([Loc(index, ways - 1)] + rest)[k] == multiset([Loc(index, ways - 1)])[k] + multiset(rest)[k];
  }

  lemma SweepSplit(sets: nat, ways: nat)
    ensures multiset(Sweep(sets, ways)) ==
      if sets == 0 then multiset{} else multiset(SweepWays(sets - 1, ways)) + multiset(Sweep(sets - 1, ways))
  {
  }

  /** Every (set, way) pair is visited exactly once. */
  lemma {:induction false} SweepOnce(sets: nat, ways: nat, k: Loc)
    ensures multiset(Sweep(sets, ways))[k] == if k.index < sets && k.way < ways then 1 else 0
  {
    hide Sweep, SweepWays;
    SweepSplit(sets, ways);
    if sets > 0 {
      SweepWaysOnce(sets - 1, ways, k);
      SweepOnce(sets - 1, ways, k);
    }
  }

  lemma SweepCovers(s: Sys)
    requires s.WellFormed()
    ensures forall k :: k in s.slots ==> k in Sweep(s.sets, s.ways)
  {
    forall k | k in s.slots ensures k in Sweep(s.sets, s.ways) {
      SweepOnce(s.sets, s.ways, k);
      assert k in multiset(Sweep(s.sets, s.ways));
    }
  }

  // ---- views ----

  lemma ViewHit(s: Sys, k: Loc, n: nat)
    requires s.enabled && s.Coherent() && n < |s.mem| && s.Holds(k, n)
    ensures s.ViewLine(n) == s.slots[k].data
  {
    forall j | s.Holds(j, n) ensures j == k {
      OneHolder(s, j, k, n);
    }
  }

  lemma OneHolder(s: Sys, j: Loc, k: Loc, n: nat)
    requires s.Coherent() && s.Holds(j, n) && s.Holds(k, n)
    ensures j == k
  {
  }

  lemma ViewMiss(s: Sys, n: nat)
    requires n < |s.mem| && (!s.enabled || forall k :: !s.Holds(k, n))
    ensures s.ViewLine(n) == s.mem[n]
  {
  }

  lemma StillMissed(s: Sys, t: Sys, n: nat)
    requires forall k :: !s.Holds(k, n)
    requires forall k :: k in t.slots && t.slots[k].line == n ==> k in s.slots && s.slots[k].line == n
    ensures forall k :: !t.Holds(k, n)
  {
    forall k ensures !t.Holds(k, n) {
      assert !s.Holds(k, n);
    }
  }

  /** Cleaning a slot, with or without invalidating it, keeps the cache coherent and the view unchanged. */
  lemma ApplyKeepsView(s: Sys, op: Op, k: Loc)
    requires s.enabled && s.WellFormed() && s.Coherent() && op != Invalidate
    ensures var t := Apply(s, op, k); t.enabled && t.WellFormed() && t.Coherent() && t.View() == s.View()
  {
    ApplyKeepsCoherent(s, op, k);
    forall n | 0 <= n < |s.mem| ensures Apply(s, op, k).ViewLine(n) == s.ViewLine(n) {
      ApplyKeepsLine(s, op, k, n);
    }
  }

  lemma ApplyKeepsCoherent(s: Sys, op: Op, k: Loc)
    requires s.WellFormed() && s.Coherent() && op != Invalidate
    ensures Apply(s, op, k).WellFormed() && Apply(s, op, k).Coherent()
  {
    ApplyKeepsShape(s, op, k);
    hide Sys.WellFormed;
    ApplyKeepsCopies(s, op, k);
  }

  lemma ApplyKeepsShape(s: Sys, op: Op, k: Loc)
    requires s.WellFormed() && op != Invalidate
    ensures Apply(s, op, k).WellFormed() && (k in s.slots ==> s.slots[k].line < |s.mem|)
  {
  }

  lemma ApplyKeepsCopies(s: Sys, op: Op, k: Loc)
    requires s.Coherent() && op != Invalidate && (k in s.slots ==> s.slots[k].line < |s.mem|)
    ensures Apply(s, op, k).Coherent()
  {
  }

  lemma HeldBefore(s: Sys, op: Op, k: Loc, i: Loc, n: nat)
    ensures Apply(s, op, k).Holds(i, n) ==> s.Holds(i, n)
    ensures Apply(s, op, k).Holds(k, n) ==> op == Clean
  {
  }

  lemma ApplyKeepsLine(s: Sys, op: Op, k: Loc, n: nat)
    requires s.enabled && s.WellFormed() && s.Coherent() && op != Invalidate && n < |s.mem|
    requires Apply(s, op, k).WellFormed() && Apply(s, op, k).Coherent()
    ensures Apply(s, op, k).ViewLine(n) == s.ViewLine(n)
  {
    hide Sys.WellFormed, Sys.Coherent, Sys.ViewLine;
    var t := Apply(s, op, k);
    AfterApply(s, op, k, n);
    hide Apply;
    forall i ensures t.Holds(i, n) ==> s.Holds(i, n) {
      HeldBefore(s, op, k, i, n);
    }
    if j :| s.Holds(j, n) {
      ViewHit(s, j, n);
      if t.Holds(j, n) {
        ViewHit(t, j, n);
      } else {
        OnlyHolder(s, j, n);
        ViewMiss(t, n);
      }
    } else {
      ViewMiss(s, n);
      ViewMiss(t, n);
    }
  }

  lemma OnlyHolder(s: Sys, k: Loc, n: nat)
    requires s.Coherent() && s.Holds(k, n)
    ensures forall j :: s.Holds(j, n) ==> j == k
  {
  }

  /** A line still held keeps its data; one given up is in memory; one not held is left alone. */
  lemma AfterApply(s: Sys, op: Op, k: Loc, n: nat)
    requires s.WellFormed() && s.Coherent() && op != Invalidate && n < |s.mem|
    ensures var t := Apply(s, op, k);
      && t.enabled == s.enabled && |t.mem| == |s.mem|
      && (forall j :: s.Holds(j, n) && t.Holds(j, n) ==> t.slots[j].data == s.slots[j].data)
      && (forall j :: s.Holds(j, n) && !t.Holds(j, n) ==> t.mem[n] == s.slots[j].data)
      && ((forall j :: !s.Holds(j, n)) ==> t.mem[n] == s.mem[n])
  {
    hide Sys.WellFormed;
    if k in s.slots {
      assert s.Holds(k, s.slots[k].line);
    }
  }

  lemma {:induction false} ApplyEachKeepsView(s: Sys, op: Op, ks: seq<Loc>)
    requires s.enabled && s.WellFormed() && s.Coherent() && op != Invalidate
    ensures var t := ApplyEach(s, op, ks); t.enabled && t.WellFormed() && t.Coherent() && t.View() == s.View()
  {
    hide Apply, Sys.WellFormed, Sys.Coherent, Sys.View;
    if ks != [] {
      ApplyEachKeepsView(s, op, ks[..|ks| - 1]);
      ApplyKeepsView(ApplyEach(s, op, ks[..|ks| - 1]), op, ks[|ks| - 1]);
    }
  }

  /** The shape is kept, no slot is filled, and each visited slot is clean or gone. */
  lemma {:induction false} ApplyEachDone(s: Sys, op: Op, ks: seq<Loc>)
    ensures var t := ApplyEach(s, op, ks);
      && t.enabled == s.enabled && t.sets == s.sets && t.ways == s.ways && |t.mem| == |s.mem|
      && (forall k :: k in t.slots ==> k in s.slots && t.slots[k].line == s.slots[k].line)
      && (forall k :: k in t.slots && (!s.slots[k].dirty || k in ks) ==> !t.slots[k].dirty)
      && (op != Clean ==> forall k :: k in ks ==> k !in t.slots)
      && (op == Invalidate || s.NoDirty() ==> t.mem == s.mem)
  {
    if ks != [] {
      var last := |ks| - 1;
      ApplyEachDone(s, op, ks[..last]);
      assert ks == ks[..last] + [ks[last]];
    }
  }

  lemma {:induction false} EnabledCommutes(s: Sys, op: Op, ks: seq<Loc>, b: bool)
    ensures ApplyEach(s.(enabled := b), op, ks) == ApplyEach(s, op, ks).(enabled := b)
  {
    if ks != [] {
      EnabledCommutes(s, op, ks[..|ks| - 1], b);
    }
  }

  /** A coherent cache without dirty lines shows exactly memory. */
  lemma CleanViewIsMemory(s: Sys)
    requires s.enabled && s.WellFormed() && s.Coherent() && s.NoDirty()
    ensures s.View() == s.mem
  {
    forall n | 0 <= n < |s.mem| ensures s.ViewLine(n) == s.mem[n] {
      if k :| s.Holds(k, n) {
        ViewHit(s, k, n);
      } else {
        ViewMiss(s, n);
      }
    }
  }

  // ---- the five whole-cache functions, as state changes ----

  function All(s: Sys, op: Op): Sys { ApplyEach(s, op, Sweep(s.sets, s.ways)) }

  function EnableDCache(s: Sys): Sys { if s.enabled then s else All(s, Invalidate).(enabled := true) }
  function DisableDCache(s: Sys): Sys { All(s.(enabled := false), CleanInvalidate) }

  lemma AllDone(s: Sys, op: Op)
    requires s.WellFormed()
    ensures var t := All(s, op);
      && t.WellFormed() && t.enabled == s.enabled
      && (op != Invalidate ==> t.NoDirty())
      && (op != Clean ==> t.slots == map[])
      && (op == Invalidate || s.NoDirty() ==> t.mem == s.mem)
  {
    ApplyEachDone(s, op, Sweep(s.sets, s.ways));
    SweepCovers(s);
    hide ApplyEach, Sweep;
    var t := All(s, op);
    if op != Clean {
      forall k ensures k !in t.slots {
      }
      assert t.slots == map[];
    }
  }

  /** Enabling makes the cache coherent from any disabled state, whatever rubbish it held, and shows memory. */
  lemma EnableFromReset(s: Sys)
    requires s.WellFormed() && !s.enabled
    ensures var t := EnableDCache(s); t.enabled && Inv(t) && t.slots == map[] && t.mem == s.mem && t.View() == s.mem
  {
    AllDone(s, Invalidate);
    hide All;
    CleanViewIsMemory(EnableDCache(s));
  }

  lemma EnableKeepsView(s: Sys)
    requires Inv(s)
    ensures Inv(EnableDCache(s)) && EnableDCache(s).View() == s.View() && EnableDCache(s).enabled
  {
    if !s.enabled {
      EnableFromReset(s);
      hide EnableDCache;
      assert s.View() == s.mem;
    }
  }

  /** Disabling writes the whole view back to memory and leaves nothing in the cache. */
  lemma DisableKeepsView(s: Sys)
    requires Inv(s)
    ensures var t := DisableDCache(s);
      !t.enabled && Inv(t) && t.slots == map[] && t.mem == s.View() == t.View()
  {
    AllDone(s.(enabled := false), CleanInvalidate);
    var t := DisableDCache(s);
    if s.enabled {
      var on := All(s, CleanInvalidate);
      AllDone(s, CleanInvalidate);
      ApplyEachKeepsView(s, CleanInvalidate, Sweep(s.sets, s.ways));
      EnabledCommutes(s, CleanInvalidate, Sweep(s.sets, s.ways), false);
      CleanViewIsMemory(on);
      assert t == on.(enabled := false);
    } else {
      assert s.(enabled := false) == s;
      assert s.View() == s.mem;
    }
    hide DisableDCache, All;
    assert t.View() == t.mem;
  }

  /** After a whole-cache clean, memory equals the CPU's view everywhere, and the view is unchanged. */
  lemma CleanPublishes(s: Sys, op: Op)
    requires Inv(s) && op != Invalidate
    ensures var t := All(s, op); Inv(t) && t.mem == t.View() == s.View() && t.enabled == s.enabled && t.NoDirty()
  {
    AllDone(s, op);
    if s.enabled {
      ApplyEachKeepsView(s, op, Sweep(s.sets, s.ways));
      CleanViewIsMemory(All(s, op));
    } else {
      hide All;
      assert s.View() == s.mem && All(s, op).View() == All(s, op).mem;
    }
  }

  lemma {:induction false} CleanEachSlots(s: Sys, ks: seq<Loc>)
    ensures ApplyEach(s, Clean, ks).slots ==
            map k | k in s.slots :: if k in ks then s.slots[k].(dirty := false) else s.slots[k]
  {
    if ks != [] {
      var rest, last := ks[..|ks| - 1], ks[|ks| - 1];
      assert ks == rest + [last];
      CleanEachSlots(s, rest);
    }
  }

  /** It keeps every line where it is and only takes the dirty marks. */
  lemma CleanKeepsLines(s: Sys)
    requires s.WellFormed()
    ensures All(s, Clean).slots == map k | k in s.slots :: s.slots[k].(dirty := false)
  {
    CleanEachSlots(s, Sweep(s.sets, s.ways));
    SweepCovers(s);
  }

  /** Invalidating the whole cache shows memory, so it keeps the view exactly when memory already equals it. */
  lemma InvalidateShowsMemory(s: Sys)
    requires s.WellFormed() && (s.enabled ==> s.Coherent())
    ensures var t := All(s, Invalidate);
      Inv(t) && t.View() == t.mem == s.mem && (t.View() == s.View() <==> s.mem == s.View())
  {
    AllDone(s, Invalidate);
    hide All;
    var t := All(s, Invalidate);
    if s.enabled {
      CleanViewIsMemory(t);
    } else {
      assert t.View() == t.mem;
    }
  }

  // ---- cleaning a cache that is disabled, whose slots may hold anything ----

  ghost predicate DirtyHolder(s: Sys, k: Loc, n: nat) { s.Holds(k, n) && s.slots[k].dirty }

  /** Line n of memory after the dirty lines in some slots were written back, one slot after the other. */
  ghost function WrittenBack(s: Sys, ks: seq<Loc>, n: nat): Line
    requires n < |s.mem|
  {
    if ks == [] then s.mem[n] else
      var rest, last := ks[..|ks| - 1], ks[|ks| - 1];
      if last !in rest && DirtyHolder(s, last, n) then s.slots[last].data else WrittenBack(s, rest, n)
  }

  lemma {:induction false} ApplyEachUnvisited(s: Sys, op: Op, ks: seq<Loc>, k: Loc)
    requires k !in ks
    ensures var t := ApplyEach(s, op, ks); (k in t.slots <==> k in s.slots) && (k in s.slots ==> t.slots[k] == s.slots[k])
  {
    if ks != [] {
      ApplyEachUnvisited(s, op, ks[..|ks| - 1], k);
    }
  }

  lemma {:induction false} ApplyEachWritesBack(s: Sys, op: Op, ks: seq<Loc>, n: nat)
    requires op != Invalidate && n < |s.mem|
    ensures var t := ApplyEach(s, op, ks); |t.mem| == |s.mem| && t.mem[n] == WrittenBack(s, ks, n)
  {
    if ks != [] {
      var rest, last := ks[..|ks| - 1], ks[|ks| - 1];
      ApplyEachWritesBack(s, op, rest, n);
      ApplyEachDone(s, op, rest);
      if last !in rest {
        ApplyEachUnvisited(s, op, rest, last);
      }
    }
  }

  /** The last dirty holder visited wins. */
  lemma {:induction false} LastHolderWins(s: Sys, ks: seq<Loc>, n: nat, i: nat)
    requires n < |s.mem| && i < |ks| && DirtyHolder(s, ks[i], n) && ks[i] !in ks[..i]
    requires forall j :: i < j < |ks| ==> !DirtyHolder(s, ks[j], n)
    ensures WrittenBack(s, ks, n) == s.slots[ks[i]].data
  {
    if i < |ks| - 1 {
      var rest := ks[..|ks| - 1];
      assert rest[i] == ks[i] && rest[..i] == ks[..i];
      LastHolderWins(s, rest, n, i);
    }
  }

  lemma {:induction false} NoHolderWrites(s: Sys, ks: seq<Loc>, n: nat)
    requires n < |s.mem| && forall k :: !DirtyHolder(s, k, n)
    ensures WrittenBack(s, ks, n) == s.mem[n]
  {
    if ks != [] {
      NoHolderWrites(s, ks[..|ks| - 1], n);
    }
  }

  ghost predicate Before(k: Loc, j: Loc) { k.index > j.index || (k.index == j.index && k.way > j.way) }

  ghost predicate Ordered(ks: seq<Loc>) { forall i, j :: 0 <= i < j < |ks| ==> Before(ks[i], ks[j]) }

  ghost predicate InSet(ks: seq<Loc>, index: nat) { forall k :: k in ks ==> k.index == index }

  ghost predicate BelowSet(ks: seq<Loc>, index: nat) { forall k :: k in ks ==> k.index < index }

  lemma {:induction false} SweepWaysOrdered(index: nat, ways: nat)
    ensures var ks := SweepWays(index, ways);
      InSet(ks, index) && Ordered(ks) && forall k :: k in ks ==> k.way < ways
  {
    if ways > 0 {
      SweepWaysOrdered(index, ways - 1);
      var rest := SweepWays(index, ways - 1);
      assert forall j :: 0 <= j < |rest| ==> rest[j] in rest;
    }
  }

  /** The sweep goes down the sets, and down the ways of each. */
  lemma {:induction false} SweepOrdered(sets: nat, ways: nat)
    ensures BelowSet(Sweep(sets, ways), sets) && Ordered(Sweep(sets, ways))
  {
    if sets == 0 {
      assert Sweep(sets, ways) == [];
    } else {
      hide Sweep, SweepWays, Ordered, InSet, BelowSet;
      var below := sets - 1;
      SweepOrdered(below, ways);
      SweepWaysOrdered(below, ways);
      OrderedJoin(SweepWays(below, ways), Sweep(below, ways), below);
      SweepUnfold(below, ways);
    }
  }

  lemma SweepUnfold(below: nat, ways: nat)
    ensures Sweep(below + 1, ways) == SweepWays(below, ways) + Sweep(below, ways)
  {
  }

  lemma OrderedJoin(a: seq<Loc>, b: seq<Loc>, index: nat)
    requires InSet(a, index) && BelowSet(b, index) && Ordered(a) && Ordered(b)
    ensures BelowSet(a + b, index + 1) && Ordered(a + b)
  {
    hide Before;
    forall i, j | 0 <= i < j < |a + b| ensures Before((a + b)[i], (a + b)[j]) {
      if i < |a| <= j {
        LaterSet(a, b, index, i, j - |a|);
      }
    }
  }

  lemma LaterSet(a: seq<Loc>, b: seq<Loc>, index: nat, i: nat, j: nat)
    requires InSet(a, index) && BelowSet(b, index) && i < |a| && j < |b|
    ensures Before(a[i], b[j])
  {
    assert a[i] in a && b[j] in b;
  }

  /** Of the dirty slots that hold one line, the one with the lowest way. */
  ghost predicate LowestDirty(s: Sys, k: Loc, n: nat) {
    DirtyHolder(s, k, n) && forall j :: DirtyHolder(s, j, n) ==> k.way <= j.way
  }

  lemma {:induction false} SomeLowestDirty(s: Sys, k: Loc, n: nat) returns (j: Loc)
    requires DirtyHolder(s, k, n)
    ensures LowestDirty(s, j, n)
    decreases k.way
  {
    j := k;
    if i :| DirtyHolder(s, i, n) && i.way < k.way {
      j := SomeLowestDirty(s, i, n);
    }
  }

  /** The sweep visits the slots that may hold a line, which share a set, in the order of falling ways. */
  lemma LowestDirtyWins(s: Sys, k: Loc, n: nat)
    requires s.WellFormed() && n < |s.mem| && LowestDirty(s, k, n)
    ensures WrittenBack(s, Sweep(s.sets, s.ways), n) == s.slots[k].data
  {
    SweepCovers(s);
    SweepOrdered(s.sets, s.ways);
    hide Sweep;
    var ks := Sweep(s.sets, s.ways);
    var i :| 0 <= i < |ks| && ks[i] == k;
    forall j | i < j < |ks| ensures !DirtyHolder(s, ks[j], n) {
      assert Before(ks[i], ks[j]);
    }
    forall j | 0 <= j < i ensures ks[j] != ks[i] {
      assert Before(ks[j], ks[i]);
    }
    LastHolderWins(s, ks, n, i);
  }

  /** Every line with a dirty slot has memory's data in the dirty slot of lowest way. */
  ghost predicate DirtyEqualsMemory(s: Sys) {
    forall k, n: nat :: LowestDirty(s, k, n) && n < |s.mem| ==> s.slots[k].data == s.mem[n]
  }

  /** Cleaning a disabled cache, whatever it holds, leaves what the CPU sees unchanged if and only if its dirty
      lines, taken at their lowest way, equal memory; out of reset they need not. */
  lemma DisabledCleanExactly(s: Sys, op: Op)
    requires s.WellFormed() && !s.enabled && op != Invalidate
    ensures All(s, op).View() == s.View() <==> DirtyEqualsMemory(s)
  {
    hide Sys.View, DirtyEqualsMemory;
    var t := All(s, op);
    AllDone(s, op);
    ViewLength(s, t);
    forall n | 0 <= n < |s.mem|
      ensures s.View()[n] == s.mem[n] && t.View()[n] == WrittenBack(s, Sweep(s.sets, s.ways), n)
    {
      DisabledView(s, op, n);
    }
    hide Sweep, All, WrittenBack, Sys.WellFormed;
    if DirtyEqualsMemory(s) {
      forall n | 0 <= n < |s.mem| ensures t.View()[n] == s.View()[n] {
        WritesMemory(s, n);
      }
    } else {
      var n := WritesOther(s);
      assert t.View()[n] != s.View()[n];
    }
  }

  lemma ViewLength(s: Sys, t: Sys)
    ensures |s.View()| == |s.mem| && |t.View()| == |t.mem|
  {
  }

  lemma DisabledView(s: Sys, op: Op, n: nat)
    requires s.WellFormed() && !s.enabled && op != Invalidate && n < |s.mem|
    ensures var t := All(s, op);
      && |t.View()| == |s.View()| == |s.mem| && s.View()[n] == s.mem[n]
      && t.View()[n] == WrittenBack(s, Sweep(s.sets, s.ways), n)
  {
    AllDone(s, op);
    ApplyEachWritesBack(s, op, Sweep(s.sets, s.ways), n);
    hide Sweep, ApplyEach, WrittenBack;
  }

  lemma WritesOther(s: Sys) returns (n: nat)
    requires s.WellFormed() && !DirtyEqualsMemory(s)
    ensures n < |s.mem| && WrittenBack(s, Sweep(s.sets, s.ways), n) != s.mem[n]
  {
    hide Sweep, WrittenBack;
    var k, m: nat :| LowestDirty(s, k, m) && m < |s.mem| && s.slots[k].data != s.mem[m];
    LowestDirtyWins(s, k, m);
    n := m;
  }

  lemma WritesMemory(s: Sys, n: nat)
    requires s.WellFormed() && n < |s.mem| && DirtyEqualsMemory(s)
    ensures WrittenBack(s, Sweep(s.sets, s.ways), n) == s.mem[n]
  {
    hide Sweep, WrittenBack;
    if k :| DirtyHolder(s, k, n) {
      var j := SomeLowestDirty(s, k, n);
      LowestDirtyWins(s, j, n);
    } else {
      NoHolderWrites(s, Sweep(s.sets, s.ways), n);
    }
  }

  /** A cache out of reset: one slot, marked dirty, that happens to hold ones for a line that is zero.  Cleaning
      or disabling before the first enable puts the ones where the CPU sees them. */
  lemma ResetCacheExample() returns (s: Sys)
    ensures s.WellFormed() && !s.enabled
    ensures All(s, Clean).View() != s.View() && DisableDCache(s).View() != s.View()
  {
    var zeros, ones := seq(32, _ => 0 as Byte), seq(32, _ => 1 as Byte);
    assert ones[0] != zeros[0];
    s := Sys(false, 1, 1, map[Loc(0, 0) := Entry(0, ones, true)], seq(LINES, _ => zeros));
    assert LowestDirty(s, Loc(0, 0), 0) && s.slots[Loc(0, 0)].data != s.mem[0];
    assert s.(enabled := false) == s;
    assert !DirtyEqualsMemory(s);
    hide All, Sys.View, LowestDirty, DirtyEqualsMemory;
    DisabledCleanExactly(s, Clean);
    DisabledCleanExactly(s, CleanInvalidate);
  }
}
