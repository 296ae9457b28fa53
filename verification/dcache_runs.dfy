/** Runs of the CPU, the cache hardware and the maintenance functions: the CPU sees a flat memory. */
module DCacheRuns {
  import opened DCache
  import opened DCacheRanges
  import opened Words

  /** One step: a CPU access, a hardware action, or a call of a maintenance function. */
  datatype Event =
    | Load(line: nat, offset: nat, value: Byte)
    | Store(line: nat, offset: nat, value: Byte)
    | Fill(line: nat, way: nat)
    | Evict(at: Loc)
    | CallEnable
    | CallDisable
    | CallClean
    | CallCleanInvalidate
    | CallCleanByAddr(op: Op, addr: nat, size: nat)

  function Updated(l: Line, offset: nat, value: Byte): Line
    requires offset < LINE_SIZE
  {
    l[offset := value]
  }

  /** A store that hits goes to the cache, and with write-through also to memory; one that misses goes to memory. */
  ghost predicate StoreStep(s: Sys, n: nat, offset: nat, value: Byte, s': Sys) {
    n < |s.mem| && offset < LINE_SIZE &&
    if s.enabled && exists k :: s.Holds(k, n)
    then exists k :: s.Holds(k, n) && StoreHit(s, k, offset, value, s')
    else s' == s.(mem := s.mem[n := Updated(s.mem[n], offset, value)])
  }

  ghost predicate StoreHit(s: Sys, k: Loc, offset: nat, value: Byte, s': Sys)
    requires k in s.slots && offset < LINE_SIZE
  {
    var e := s.slots[k];
    var data := Updated(e.data, offset, value);
    || s' == s.(slots := s.slots[k := Entry(e.line, data, true)])
    || (e.line < |s.mem| && s' == s.(slots := s.slots[k := Entry(e.line, data, e.dirty)], mem := s.mem[e.line := data]))
  }

  /** A line that is not held is copied from memory into an empty slot of its set. */
  ghost predicate FillStep(s: Sys, n: nat, way: nat, s': Sys) {
    && s.enabled && s.sets > 0 && way < s.ways && n < |s.mem| && (forall k :: !s.Holds(k, n))
    && Loc(n % s.sets, way) !in s.slots
    && s' == s.(slots := s.slots[Loc(n % s.sets, way) := Entry(n, s.mem[n], false)])
  }

  ghost predicate Next(s: Sys, e: Event, s': Sys) {
    match e
    case Load(n, offset, value) => n < |s.mem| && offset < LINE_SIZE && value == s.ViewLine(n)[offset] && s' == s
    case Store(n, offset, value) => StoreStep(s, n, offset, value, s')
    case Fill(n, way) => FillStep(s, n, way, s')
    case Evict(at) => s.enabled && s' == Apply(s, CleanInvalidate, at)
    case CallEnable => s' == EnableDCache(s)
    case CallDisable => s' == DisableDCache(s)
    case CallClean => s' == All(s, Clean)
    case CallCleanInvalidate => s' == All(s, CleanInvalidate)
    case CallCleanByAddr(op, addr, size) => op != Invalidate && s' == ApplyLines(s, op, LinesOf(addr, size))
  }

  /** The same event on a flat memory. */
  ghost predicate FlatNext(v: seq<Line>, e: Event, v': seq<Line>) {
    match e
    case Load(n, offset, value) => n < |v| && offset < LINE_SIZE && value == v[n][offset] && v' == v
    case Store(n, offset, value) => n < |v| && offset < LINE_SIZE && v' == v[n := Updated(v[n], offset, value)]
    case _ => v' == v
  }

  lemma StoreRefines(s: Sys, n: nat, offset: nat, value: Byte, s': Sys)
    requires Inv(s) && StoreStep(s, n, offset, value, s')
    ensures Inv(s') && FlatNext(s.View(), Store(n, offset, value), s'.View())
  {
    hide Sys.View;
    if s.enabled && exists k :: s.Holds(k, n) {
      var k :| s.Holds(k, n) && StoreHit(s, k, offset, value, s');
      StoreHitRefines(s, k, n, offset, value, s');
    } else {
      StoreMissRefines(s, n, offset, value, s');
    }
  }

  lemma StoreHitRefines(s: Sys, k: Loc, n: nat, offset: nat, value: Byte, s': Sys)
    requires s.WellFormed() && s.enabled && s.Coherent() && s.Holds(k, n) && offset < LINE_SIZE
    requires StoreHit(s, k, offset, value, s') && n < |s.mem|
    ensures Inv(s') && FlatNext(s.View(), Store(n, offset, value), s'.View())
  {
    StoreHitKeepsCoherent(s, k, n, offset, value, s');
    forall m | 0 <= m < |s.mem|
      ensures s'.ViewLine(m) == if m == n then Updated(s.ViewLine(n), offset, value) else s.ViewLine(m)
    {
      StoreHitLine(s, k, n, offset, value, s', m);
    }
    ViewStored(s, n, offset, value, s');
  }

  lemma StoreMissRefines(s: Sys, n: nat, offset: nat, value: Byte, s': Sys)
    requires Inv(s) && n < |s.mem| && offset < LINE_SIZE && (!s.enabled || forall k :: !s.Holds(k, n))
    requires s' == s.(mem := s.mem[n := Updated(s.mem[n], offset, value)])
    ensures Inv(s') && FlatNext(s.View(), Store(n, offset, value), s'.View())
  {
    assert forall k :: k in s.slots ==> s.Holds(k, s.slots[k].line);
    forall m | 0 <= m < |s.mem|
      ensures s'.ViewLine(m) == if m == n then Updated(s.ViewLine(n), offset, value) else s.ViewLine(m)
    {
      StoreMissLine(s, n, offset, value, s', m);
    }
    ViewStored(s, n, offset, value, s');
  }

  lemma ViewStored(s: Sys, n: nat, offset: nat, value: Byte, s': Sys)
    requires n < |s.mem| == |s'.mem| && offset < LINE_SIZE
    requires forall m :: 0 <= m < |s.mem| ==>
               s'.ViewLine(m) == if m == n then Updated(s.ViewLine(n), offset, value) else s.ViewLine(m)
    ensures FlatNext(s.View(), Store(n, offset, value), s'.View())
  {
    assert s'.View() == s.View()[n := Updated(s.View()[n], offset, value)];
  }

  lemma StoreHitKeepsCoherent(s: Sys, k: Loc, n: nat, offset: nat, value: Byte, s': Sys)
    requires s.WellFormed() && s.enabled && s.Coherent() && s.Holds(k, n) && offset < LINE_SIZE
    requires StoreHit(s, k, offset, value, s')
    ensures Inv(s') && s'.enabled
  {
    StoreHitKeepsShape(s, k, n, offset, value, s');
    hide Sys.WellFormed;
    StoreHitKeepsCopies(s, k, n, offset, value, s');
    hide StoreHit, Sys.Coherent;
  }

  lemma StoreHitKeepsShape(s: Sys, k: Loc, n: nat, offset: nat, value: Byte, s': Sys)
    requires s.WellFormed() && s.Holds(k, n) && offset < LINE_SIZE && StoreHit(s, k, offset, value, s')
    ensures s'.WellFormed() && s'.enabled == s.enabled && n < |s.mem|
  {
  }

  lemma StoreHitKeepsCopies(s: Sys, k: Loc, n: nat, offset: nat, value: Byte, s': Sys)
    requires s.Coherent() && s.Holds(k, n) && offset < LINE_SIZE && StoreHit(s, k, offset, value, s') && n < |s.mem|
    ensures s'.Coherent()
  {
    hide Updated;
  }

  lemma StoreHitLine(s: Sys, k: Loc, n: nat, offset: nat, value: Byte, s': Sys, m: nat)
    requires s.WellFormed() && s.enabled && s.Coherent() && s.Holds(k, n) && offset < LINE_SIZE
    requires StoreHit(s, k, offset, value, s') && s'.enabled && s'.Coherent() && m < |s.mem| && n < |s.mem|
    ensures s'.ViewLine(m) == if m == n then Updated(s.ViewLine(n), offset, value) else s.ViewLine(m)
  {
    ViewHit(s, k, n);
    if m == n {
      assert s'.Holds(k, n);
      ViewHit(s', k, n);
    } else if j :| s.Holds(j, m) {
      assert s'.Holds(j, m);
      ViewHit(s, j, m);
      ViewHit(s', j, m);
    } else {
      StillMissed(s, s', m);
      ViewMiss(s, m);
      ViewMiss(s', m);
    }
  }

  lemma StoreMissLine(s: Sys, n: nat, offset: nat, value: Byte, s': Sys, m: nat)
    requires n < |s.mem| && offset < LINE_SIZE && m < |s.mem| && (s.enabled ==> s.Coherent())
    requires !s.enabled || forall k :: !s.Holds(k, n)
    requires s' == s.(mem := s.mem[n := Updated(s.mem[n], offset, value)]) && (s'.enabled ==> s'.Coherent())
    ensures s'.ViewLine(m) == if m == n then Updated(s.ViewLine(n), offset, value) else s.ViewLine(m)
  {
    if s.enabled {
      if j :| s.Holds(j, m) {
        assert s'.Holds(j, m);
        ViewHit(s, j, m);
        ViewHit(s', j, m);
      } else {
        StillMissed(s, s', m);
        ViewMiss(s, m);
        ViewMiss(s', m);
      }
    }
  }

  lemma FillRefines(s: Sys, n: nat, way: nat, s': Sys)
    requires Inv(s) && FillStep(s, n, way, s')
    ensures Inv(s') && s'.View() == s.View()
  {
    var k := Loc(n % s.sets, way);
    assert forall i :: i in s.slots ==> s.Holds(i, s.slots[i].line);
    assert s'.Coherent();
    forall m | 0 <= m < |s.mem| ensures s'.ViewLine(m) == s.ViewLine(m) {
      if m == n {
        assert s'.Holds(k, n);
        ViewHit(s', k, n);
        ViewMiss(s, n);
      } else if j :| s.Holds(j, m) {
        assert s'.Holds(j, m);
        ViewHit(s, j, m);
        ViewHit(s', j, m);
      } else {
        StillMissed(s, s', m);
        ViewMiss(s, m);
        ViewMiss(s', m);
      }
    }
  }

  /** Every step does to the CPU's view what it does to a flat memory. */
  lemma StepRefines(s: Sys, e: Event, s': Sys)
    requires Inv(s) && Next(s, e, s')
    ensures Inv(s') && FlatNext(s.View(), e, s'.View())
  {
    match e
    case Load(n, offset, value) => assert s.View()[n] == s.ViewLine(n);
    case Store(n, offset, value) => StoreRefines(s, n, offset, value, s');
    case Fill(n, way) => FillRefines(s, n, way, s');
    case Evict(at) => ApplyKeepsView(s, CleanInvalidate, at);
    case CallEnable => EnableKeepsView(s);
    case CallDisable => DisableKeepsView(s);
    case CallClean => CleanPublishes(s, Clean);
    case CallCleanInvalidate => CleanPublishes(s, CleanInvalidate);
    case CallCleanByAddr(op, addr, size) =>
      if s.enabled {
        ApplyLinesKeepsView(s, op, LinesOf(addr, size));
      } else {
        ApplyLinesDisabled(s, op, LinesOf(addr, size));
      }
  }

  /** What writes dirty lines back to memory. */
  predicate WritesBack(e: Event) {
    e.CallClean? || e.CallCleanInvalidate? || e.CallDisable? || e.CallCleanByAddr?
  }

  /** Every write-back comes after some enable. */
  ghost predicate EnableFirst(es: seq<Event>) {
    forall i :: 0 <= i < |es| && WritesBack(es[i]) ==> CallEnable in es[..i]
  }

  /** A run starts with a usable cache, or out of reset with the cache disabled and holding anything. */
  ghost predicate Run(t: seq<Sys>, es: seq<Event>) {
    && |t| == |es| + 1
    && (Inv(t[0]) || (t[0].WellFormed() && !t[0].enabled && EnableFirst(es)))
    && forall i :: 0 <= i < |es| ==> Next(t[i], es[i], t[i + 1])
  }

  ghost predicate FlatRun(v: seq<seq<Line>>, es: seq<Event>) {
    |v| == |es| + 1 && forall i :: 0 <= i < |es| ==> FlatNext(v[i], es[i], v[i + 1])
  }

  /** Before the first enable the cache takes no part. */
  lemma ResetStep(s: Sys, e: Event, s': Sys)
    requires s.WellFormed() && !s.enabled && Next(s, e, s') && !WritesBack(e)
    ensures FlatNext(s.View(), e, s'.View())
    ensures if e == CallEnable then Inv(s') else s'.WellFormed() && !s'.enabled
  {
    match e
    case Load(n, offset, value) => assert s.View()[n] == s.ViewLine(n);
    case Store(n, offset, value) => assert s'.View() == s.View()[n := Updated(s.View()[n], offset, value)];
    case Fill(n, way) =>
    case Evict(at) =>
    case CallEnable => EnableFromReset(s);
  }

  lemma {:induction false} RunKeepsInv(t: seq<Sys>, es: seq<Event>, n: nat)
    requires Run(t, es) && n < |t|
    ensures Inv(t[n]) || (t[n].WellFormed() && !t[n].enabled && EnableFirst(es) && CallEnable !in es[..n])
  {
    if n > 0 {
      hide Inv, Sys.WellFormed, Next, Sys.View;
      RunKeepsInv(t, es, n - 1);
      assert es[..n] == es[..n - 1] + [es[n - 1]];
      if Inv(t[n - 1]) {
        StepRefines(t[n - 1], es[n - 1], t[n]);
      } else {
        ResetStep(t[n - 1], es[n - 1], t[n]);
      }
    }
  }

  /** Over every run, from reset as well, the CPU sees exactly a flat memory: the views of the states are a
      flat-memory run of the same loads and stores, with the same values loaded. */
  lemma CpuSeesFlatMemory(t: seq<Sys>, es: seq<Event>)
    requires Run(t, es)
    ensures FlatRun(seq(|t|, i requires 0 <= i < |t| => t[i].View()), es)
  {
    hide Inv, Sys.WellFormed, Next, Sys.View, FlatNext;
    forall i | 0 <= i < |es| ensures FlatNext(t[i].View(), es[i], t[i + 1].View()) {
      RunKeepsInv(t, es, i);
      if Inv(t[i]) {
        StepRefines(t[i], es[i], t[i + 1]);
      } else {
        ResetStep(t[i], es[i], t[i + 1]);
      }
    }
  }

  /** Over every run, a whole-cache clean or a disable leaves memory equal to the CPU's view everywhere. */
  lemma CleanPublishesInRun(t: seq<Sys>, es: seq<Event>, i: nat)
    requires Run(t, es) && i < |es| && es[i] in {CallClean, CallCleanInvalidate, CallDisable}
    ensures t[i + 1].mem == t[i].View()
  {
    RunKeepsInv(t, es, i);
    hide Inv;
    assert Inv(t[i]);
    match es[i]
    case CallClean => CleanPublishes(t[i], Clean);
    case CallCleanInvalidate => CleanPublishes(t[i], CleanInvalidate);
    case CallDisable => DisableKeepsView(t[i]);
  }

  /** The order matters: out of reset, a clean or a disable before the first enable can change what the CPU sees. */
  lemma CleanBeforeEnable() returns (s: Sys)
    ensures s.WellFormed() && !s.enabled
    ensures forall s' :: Next(s, CallClean, s') ==> !FlatNext(s.View(), CallClean, s'.View())
    ensures forall s' :: Next(s, CallDisable, s') ==> !FlatNext(s.View(), CallDisable, s'.View())
  {
    s := ResetCacheExample();
    hide Sys.View, Sys.WellFormed, All, DisableDCache;
  }
}
