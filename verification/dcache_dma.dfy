/** Receiving by DMA into cached memory: maintenance of the buffer before the transfer, device writes among CPU
    accesses, fills and evictions, an invalidate after it.  CPU and device then see one flat memory. */
module DCacheDma {
  import opened DCache
  import opened DCacheRanges
  import opened DCacheRuns
  import opened Words

  /** One step during the transfer: the CPU's side, or the device writing a line of the buffer. */
  datatype DmaEvent = Cpu(e: Event) | Device(line: nat, data: Line)

  /** During the transfer into the lines ns the cache may hold stale copies of them, but no dirty one; without
      those copies it is usable. */
  ghost predicate Receiving(s: Sys, ns: seq<nat>) {
    s.enabled && s.WellFormed() && OneHolderEach(s) && NoneDirty(s, ns) && Inv(Without(s, ns))
  }

  ghost predicate NoneDirty(s: Sys, ns: seq<nat>) {
    forall k :: k in s.slots && s.slots[k].line in ns ==> !s.slots[k].dirty
  }

  /** The CPU keeps off the buffer and leaves the cache enabled. */
  predicate Elsewhere(e: Event, ns: seq<nat>) {
    !e.CallDisable? && (e.Load? || e.Store? ==> e.line !in ns)
  }

  ghost predicate DmaNext(s: Sys, d: DmaEvent, ns: seq<nat>, s': Sys) {
    match d
    case Cpu(e) => Elsewhere(e, ns) && Next(s, e, s')
    case Device(n, data) => n in ns && n < |s.mem| && s' == s.(mem := s.mem[n := data])
  }

  /** The same step on a flat memory that CPU and device share. */
  ghost predicate FlatDmaNext(v: seq<Line>, d: DmaEvent, v': seq<Line>) {
    match d
    case Cpu(e) => FlatNext(v, e, v')
    case Device(n, data) => n < |v| && v' == v[n := data]
  }

  // ---- the stale copies take no part ----

  lemma HolderView(s: Sys, k: Loc, n: nat)
    requires s.enabled && OneHolderEach(s) && n < |s.mem| && s.Holds(k, n)
    ensures s.ViewLine(n) == s.slots[k].data
  {
    forall j | s.Holds(j, n) ensures j == k {
    }
  }

  lemma SameLine(s: Sys, ns: seq<nat>, n: nat)
    requires s.enabled && OneHolderEach(s) && n < |s.mem| && n !in ns
    ensures Without(s, ns).ViewLine(n) == s.ViewLine(n)
  {
    var w := Without(s, ns);
    if k :| s.Holds(k, n) {
      assert w.Holds(k, n);
      HolderView(s, k, n);
      HolderView(w, k, n);
    } else {
      StillMissed(s, w, n);
      ViewMiss(s, n);
      ViewMiss(w, n);
    }
  }

  ghost predicate Harmless(s: Sys, ns: seq<nat>) { s.WellFormed() && OneHolderEach(s) && NoneDirty(s, ns) }

  /** Cleaning a slot commutes with forgetting the stale copies. */
  lemma ApplyWithout(s: Sys, op: Op, k: Loc, ns: seq<nat>)
    requires Harmless(s, ns) && op != Invalidate
    ensures Without(Apply(s, op, k), ns) == Apply(Without(s, ns), op, k)
    ensures Harmless(Apply(s, op, k), ns) && Apply(s, op, k).enabled == s.enabled
  {
    ApplyKeepsShape(s, op, k);
    ApplyWithoutSlots(s, op, k, ns);
    hide Sys.WellFormed;
    assert OneHolderEach(Apply(s, op, k)) && NoneDirty(Apply(s, op, k), ns);
  }

  lemma ApplyWithoutSlots(s: Sys, op: Op, k: Loc, ns: seq<nat>)
    requires NoneDirty(s, ns) && op != Invalidate
    ensures Without(Apply(s, op, k), ns) == Apply(Without(s, ns), op, k)
  {
    assert Without(Apply(s, op, k), ns).slots == Apply(Without(s, ns), op, k).slots;
  }

  lemma {:induction false} ApplyEachWithout(s: Sys, op: Op, ks: seq<Loc>, ns: seq<nat>)
    requires Harmless(s, ns) && op != Invalidate
    ensures Without(ApplyEach(s, op, ks), ns) == ApplyEach(Without(s, ns), op, ks)
    ensures Harmless(ApplyEach(s, op, ks), ns) && ApplyEach(s, op, ks).enabled == s.enabled
  {
    hide Harmless, Apply, Without;
    if ks != [] {
      var last := |ks| - 1;
      ApplyEachWithout(s, op, ks[..last], ns);
      ApplyWithout(ApplyEach(s, op, ks[..last]), op, ks[last], ns);
    }
  }

  lemma ApplyLineWithout(s: Sys, op: Op, n: nat, ns: seq<nat>)
    requires Harmless(s, ns) && op != Invalidate
    ensures Without(ApplyLine(s, op, n), ns) == ApplyLine(Without(s, ns), op, n)
    ensures Harmless(ApplyLine(s, op, n), ns) && ApplyLine(s, op, n).enabled == s.enabled
  {
    var w := Without(s, ns);
    if k :| s.Holds(k, n) && ApplyLine(s, op, n) == Apply(s, op, k) {
      ApplyWithout(s, op, k, ns);
      if n in ns {
        assert forall j :: !w.Holds(j, n);
        assert k !in w.slots;
      } else {
        assert w.Holds(k, n);
        forall j | w.Holds(j, n) ensures j == k {
          assert s.Holds(j, n);
        }
      }
    } else {
      assert forall j :: !s.Holds(j, n);
      StillMissed(s, w, n);
    }
  }

  lemma {:induction false} ApplyLinesWithout(s: Sys, op: Op, ms: seq<nat>, ns: seq<nat>)
    requires Harmless(s, ns) && op != Invalidate
    ensures Without(ApplyLines(s, op, ms), ns) == ApplyLines(Without(s, ns), op, ms)
    ensures Harmless(ApplyLines(s, op, ms), ns) && ApplyLines(s, op, ms).enabled == s.enabled
  {
    hide Harmless, ApplyLine, Without;
    if ms != [] {
      var last := |ms| - 1;
      ApplyLinesWithout(s, op, ms[..last], ns);
      ApplyLineWithout(ApplyLines(s, op, ms[..last]), op, ms[last], ns);
    }
  }

  lemma StoreWithout(s: Sys, n: nat, offset: nat, value: Byte, s': Sys, ns: seq<nat>)
    requires s.enabled && Harmless(s, ns) && n !in ns && StoreStep(s, n, offset, value, s')
    ensures StoreStep(Without(s, ns), n, offset, value, Without(s', ns))
    ensures s'.enabled && Harmless(s', ns)
  {
    var w, w' := Without(s, ns), Without(s', ns);
    if exists k :: s.Holds(k, n) {
      var k :| s.Holds(k, n) && StoreHit(s, k, offset, value, s');
      StoreHitWithout(s, k, n, offset, value, s', ns);
      hide Harmless, StoreHit, Without;
      assert w.Holds(k, n) && StoreHit(w, k, offset, value, w');
    } else {
      StillMissed(s, w, n);
      assert w' == w.(mem := w.mem[n := Updated(w.mem[n], offset, value)]);
    }
  }

  lemma StoreHitWithout(s: Sys, k: Loc, n: nat, offset: nat, value: Byte, s': Sys, ns: seq<nat>)
    requires s.enabled && Harmless(s, ns) && n !in ns && s.Holds(k, n) && offset < LINE_SIZE
    requires StoreHit(s, k, offset, value, s')
    ensures Without(s, ns).Holds(k, n) && StoreHit(Without(s, ns), k, offset, value, Without(s', ns))
    ensures s'.enabled && Harmless(s', ns)
  {
    StoreHitKeepsShape(s, k, n, offset, value, s');
    StoreHitHarmless(s, k, n, offset, value, s', ns);
    StoreHitSlots(s, k, n, offset, value, s', ns);
    hide Updated, Sys.WellFormed, OneHolderEach, NoneDirty, StoreHit, Without;
  }

  lemma StoreHitSlots(s: Sys, k: Loc, n: nat, offset: nat, value: Byte, s': Sys, ns: seq<nat>)
    requires n !in ns && s.Holds(k, n) && offset < LINE_SIZE && StoreHit(s, k, offset, value, s')
    ensures Without(s, ns).Holds(k, n) && StoreHit(Without(s, ns), k, offset, value, Without(s', ns))
  {
    hide Updated;
    WithoutUpdated(s, k, s'.slots[k], s', ns);
  }

  /** A slot that holds no line of the buffer, updated with the same line. */
  lemma WithoutUpdated(s: Sys, k: Loc, e: Entry, s': Sys, ns: seq<nat>)
    requires e.line !in ns && s'.slots == s.slots[k := e]
    ensures Without(s', ns).slots == Without(s, ns).slots[k := e]
  {
  }

  lemma StoreHitHarmless(s: Sys, k: Loc, n: nat, offset: nat, value: Byte, s': Sys, ns: seq<nat>)
    requires OneHolderEach(s) && NoneDirty(s, ns) && n !in ns && s.Holds(k, n) && offset < LINE_SIZE
    requires StoreHit(s, k, offset, value, s')
    ensures OneHolderEach(s') && NoneDirty(s', ns)
  {
    hide Updated;
  }

  /** A step of the CPU's side is that step without the stale copies, unless it fills another one. */
  lemma CpuWithout(s: Sys, e: Event, s': Sys, ns: seq<nat>)
    requires s.enabled && Harmless(s, ns) && Elsewhere(e, ns) && Next(s, e, s')
    ensures Next(Without(s, ns), e, Without(s', ns)) || (e.Fill? && Without(s', ns) == Without(s, ns))
    ensures s'.enabled && Harmless(s', ns)
  {
    match e
    case Load(n, offset, value) => SameLine(s, ns, n);
    case Store(n, offset, value) => StoreWithout(s, n, offset, value, s', ns);
    case Fill(n, way) => FillWithout(s, n, way, s', ns);
    case Evict(at) => ApplyWithout(s, CleanInvalidate, at, ns);
    case CallEnable =>
    case CallClean => ApplyEachWithout(s, Clean, Sweep(s.sets, s.ways), ns);
    case CallCleanInvalidate => ApplyEachWithout(s, CleanInvalidate, Sweep(s.sets, s.ways), ns);
    case CallCleanByAddr(op, addr, size) => ApplyLinesWithout(s, op, LinesOf(addr, size), ns);
  }

  lemma FillWithout(s: Sys, n: nat, way: nat, s': Sys, ns: seq<nat>)
    requires Harmless(s, ns) && FillStep(s, n, way, s')
    ensures FillStep(Without(s, ns), n, way, Without(s', ns)) || Without(s', ns) == Without(s, ns)
    ensures s'.enabled && Harmless(s', ns)
  {
    var k, w, w' := Loc(n % s.sets, way), Without(s, ns), Without(s', ns);
    FillHarmless(s, n, way, s', ns);
    hide Sys.WellFormed, OneHolderEach, NoneDirty;
    if n in ns {
      assert w'.slots == w.slots;
    } else {
      StillMissed(s, w, n);
      WithoutUpdated(s, k, Entry(n, s.mem[n], false), s', ns);
      assert k !in w.slots;
      hide Without, Sys.Holds;
    }
  }

  lemma FillHarmless(s: Sys, n: nat, way: nat, s': Sys, ns: seq<nat>)
    requires Harmless(s, ns) && FillStep(s, n, way, s')
    ensures s'.enabled && Harmless(s', ns)
  {
    assert forall i :: i in s.slots ==> s.Holds(i, s.slots[i].line);
  }

  // ---- one step ----

  /** A device write behind the cache lands in the flat memory. */
  lemma DeviceLands(w: Sys, n: nat, data: Line, w': Sys)
    requires w.enabled && Inv(w) && n < |w.mem| && (forall k :: !w.Holds(k, n)) && w' == w.(mem := w.mem[n := data])
    ensures Inv(w') && w'.View() == w.View()[n := data]
  {
    assert forall k :: k in w.slots ==> w.Holds(k, w.slots[k].line);
    assert w'.Coherent();
    forall m | 0 <= m < |w.mem| ensures w'.ViewLine(m) == if m == n then data else w.ViewLine(m) {
      if k :| w.Holds(k, m) {
        assert w'.Holds(k, m);
        ViewHit(w, k, m);
        ViewHit(w', k, m);
      } else {
        StillMissed(w, w', m);
        ViewMiss(w, m);
        ViewMiss(w', m);
      }
    }
    assert w'.View() == w.View()[n := data];
  }

  /** Every step of the transfer does to what CPU and device have written what it does to a flat memory. */
  lemma DmaStepRefines(s: Sys, d: DmaEvent, ns: seq<nat>, s': Sys)
    requires Receiving(s, ns) && DmaNext(s, d, ns, s')
    ensures Receiving(s', ns) && FlatDmaNext(Without(s, ns).View(), d, Without(s', ns).View())
  {
    match d
    case Cpu(e) =>
      CpuWithout(s, e, s', ns);
      hide Sys.View, Next, Without, Inv;
      if Next(Without(s, ns), e, Without(s', ns)) {
        StepRefines(Without(s, ns), e, Without(s', ns));
      }
    case Device(n, data) =>
      hide Sys.View, Inv;
      assert forall k :: !Without(s, ns).Holds(k, n);
      DeviceLands(Without(s, ns), n, data, Without(s', ns));
  }

  // ---- the whole transfer ----

  ghost predicate DmaRun(t: seq<Sys>, ds: seq<DmaEvent>, ns: seq<nat>) {
    |t| == |ds| + 1 && forall i :: 0 <= i < |ds| ==> DmaNext(t[i], ds[i], ns, t[i + 1])
  }

  ghost predicate FlatDmaRun(v: seq<seq<Line>>, ds: seq<DmaEvent>) {
    |v| == |ds| + 1 && forall i :: 0 <= i < |ds| ==> FlatDmaNext(v[i], ds[i], v[i + 1])
  }

  ghost function Views(t: seq<Sys>, ns: seq<nat>): seq<seq<Line>> {
    seq(|t|, i requires 0 <= i < |t| => Without(t[i], ns).View())
  }

  lemma {:induction false} RunKeepsReceiving(t: seq<Sys>, ds: seq<DmaEvent>, ns: seq<nat>, n: nat)
    requires DmaRun(t, ds, ns) && Receiving(t[0], ns) && n < |t|
    ensures Receiving(t[n], ns)
  {
    hide Receiving, DmaNext, FlatDmaNext;
    if n > 0 {
      RunKeepsReceiving(t, ds, ns, n - 1);
      DmaStepRefines(t[n - 1], ds[n - 1], ns, t[n]);
    }
  }

  /** Maintenance by address before the transfer: any of the three operations leaves no dirty copy of the buffer.
      A clean keeps all the CPU had written; an invalidate drops what it had written to the buffer. */
  lemma Prepared(s: Sys, op: Op, addr: nat, size: nat)
    requires s.enabled && s.WellFormed() && s.Coherent() && addr < U32 && 0 < size < 0x8000_0000
    ensures var ns := LinesOf(addr, size);
      Receiving(ApplyLines(s, op, ns), ns)
      && (op != Invalidate ==> Without(ApplyLines(s, op, ns), ns).View() == s.View())
  {
    var ns := LinesOf(addr, size);
    if op == Invalidate {
      InvalidateLines(s, ns);
      assert Without(Without(s, ns), ns).slots == Without(s, ns).slots;
    } else {
      CleanPrepares(s, op, ns);
    }
  }

  lemma CleanPrepares(s: Sys, op: Op, ns: seq<nat>)
    requires s.enabled && s.WellFormed() && s.Coherent() && op != Invalidate
    requires forall i :: 0 <= i < |ns| ==> ns[i] < LINES
    ensures Receiving(ApplyLines(s, op, ns), ns) && Without(ApplyLines(s, op, ns), ns).View() == s.View()
  {
    var t := ApplyLines(s, op, ns);
    ApplyLinesKeepsView(s, op, ns);
    forall k | k in t.slots && t.slots[k].line in ns ensures !t.slots[k].dirty {
      ApplyLinesPublishes(s, op, ns, t.slots[k].line);
      assert t.Holds(k, t.slots[k].line);
    }
    var w := Without(t, ns);
    assert w.WellFormed() && w.Coherent();
    forall n | 0 <= n < LINES ensures w.ViewLine(n) == t.ViewLine(n) {
      WithoutView(t, w, n, ns);
      if n in ns {
        ApplyLinesPublishes(s, op, ns, n);
        PublishedLine(t, n);
      }
    }
    SameViews(w, t);
  }

  lemma SameViews(s: Sys, t: Sys)
    requires |s.mem| == |t.mem| && forall n :: 0 <= n < |s.mem| ==> s.ViewLine(n) == t.ViewLine(n)
    ensures s.View() == t.View()
  {
  }

  /** Maintain the buffer by address, let the device write it while the CPU works elsewhere, invalidate it by
      address: the cache is usable again, and the CPU sees exactly the flat memory that it and the device have
      written, whatever was filled or evicted meanwhile. */
  lemma DmaReceive(s: Sys, op: Op, addr: nat, size: nat, t: seq<Sys>, ds: seq<DmaEvent>)
    requires s.enabled && s.WellFormed() && s.Coherent() && addr < U32 && 0 < size < 0x8000_0000
    requires DmaRun(t, ds, LinesOf(addr, size)) && t[0] == ApplyLines(s, op, LinesOf(addr, size))
    ensures var ns, v := LinesOf(addr, size), Views(t, LinesOf(addr, size));
      && FlatDmaRun(v, ds) && (op != Invalidate ==> v[0] == s.View())
      && Inv(ApplyLines(t[|ds|], Invalidate, ns)) && ApplyLines(t[|ds|], Invalidate, ns).View() == v[|ds|]
  {
    var ns := LinesOf(addr, size);
    hide LinesOf, ApplyLines, Sys.View, Sys.WellFormed, Sys.Coherent, FlatDmaNext, DmaNext, Without, Inv;
    Prepared(s, op, addr, size);
    forall i | 0 <= i < |ds| ensures FlatDmaNext(Without(t[i], ns).View(), ds[i], Without(t[i + 1], ns).View()) {
      RunKeepsReceiving(t, ds, ns, i);
      DmaStepRefines(t[i], ds[i], ns, t[i + 1]);
    }
    RunKeepsReceiving(t, ds, ns, |ds|);
    InvalidateLines(t[|ds|], ns);
  }

  /** What the device last wrote to a line, or else what was there. */
  function LastWritten(ds: seq<DmaEvent>, n: nat, was: Line): Line {
    if ds == [] then was
    else match ds[|ds| - 1]
      case Device(m, data) => if m == n then data else LastWritten(ds[..|ds| - 1], n, was)
      case Cpu(_) => LastWritten(ds[..|ds| - 1], n, was)
  }

  /** So every line of the buffer then shows what the device last wrote to it. */
  lemma {:induction false} BufferShowsDevice(v: seq<seq<Line>>, ds: seq<DmaEvent>, n: nat)
    requires FlatDmaRun(v, ds) && n < |v[0]| && forall i :: 0 <= i < |ds| && ds[i].Cpu? ==> Elsewhere(ds[i].e, [n])
    ensures |v[|ds|]| == |v[0]| && v[|ds|][n] == LastWritten(ds, n, v[0][n])
  {
    if ds != [] {
      var last := |ds| - 1;
      BufferShowsDevice(v[..|ds|], ds[..last], n);
      assert FlatDmaNext(v[last], ds[last], v[|ds|]);
    }
  }

  /** End to end: after the last invalidate the CPU reads from the buffer what the device last wrote there. */
  lemma DmaDelivers(s: Sys, op: Op, addr: nat, size: nat, t: seq<Sys>, ds: seq<DmaEvent>, n: nat)
    requires s.enabled && s.WellFormed() && s.Coherent() && addr < U32 && 0 < size < 0x8000_0000
    requires DmaRun(t, ds, LinesOf(addr, size)) && t[0] == ApplyLines(s, op, LinesOf(addr, size))
    requires n in LinesOf(addr, size) && n < |t[0].mem|
    ensures n < |ApplyLines(t[|ds|], Invalidate, LinesOf(addr, size)).View()|
    ensures ApplyLines(t[|ds|], Invalidate, LinesOf(addr, size)).View()[n]
         == LastWritten(ds, n, Views(t, LinesOf(addr, size))[0][n])
  {
    var ns := LinesOf(addr, size);
    DmaReceive(s, op, addr, size, t, ds);
    forall i | 0 <= i < |ds| && ds[i].Cpu? ensures Elsewhere(ds[i].e, [n]) {
      assert DmaNext(t[i], ds[i], ns, t[i + 1]);
    }
    hide LinesOf, ApplyLines, Sys.View, Sys.WellFormed, Sys.Coherent, FlatDmaNext, DmaNext, Inv, LastWritten;
    BufferShowsDevice(Views(t, ns), ds, n);
  }

  /** Without the first step the device's data can be lost: a dirty copy evicted during the transfer overwrites it. */
  lemma UnpreparedExample() returns (s: Sys, landed: Sys, evicted: Sys, zeros: Line, ones: Line)
    ensures Inv(s) && s.enabled && zeros != ones
    ensures DmaNext(s, Device(0, ones), [0], landed) && DmaNext(landed, Cpu(Evict(Loc(0, 0))), [0], evicted)
    ensures ApplyLines(evicted, Invalidate, [0]).ViewLine(0) == zeros
  {
    zeros, ones := seq(32, _ => 0 as Byte), seq(32, _ => 1 as Byte);
    assert ones[0] != zeros[0];
    var mem := seq(LINES, _ => zeros);
    s := Sys(true, 1, 1, map[Loc(0, 0) := Entry(0, zeros, true)], mem);
    landed := s.(mem := mem[0 := ones]);
    evicted := Apply(landed, CleanInvalidate, Loc(0, 0));
    InvalidateLines(evicted, [0]);
    ViewMiss(Without(evicted, [0]), 0);
  }
}
