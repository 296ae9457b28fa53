/** Cache maintenance by address: which lines the loops touch, and what that does to the view of a range. */
module DCacheRanges {
  import opened Arithmetic
  import opened DCache
  import opened Words

  /** The number of operations: one for each line that [addr, addr + size) touches. */
  function LineCount(addr: nat, size: nat): nat { (addr % LINE_SIZE + size + 31) / LINE_SIZE }

  /** The lines operated on; addresses wrap at 2^32. */
  function LinesOf(addr: nat, size: nat): (r: seq<nat>)
    ensures forall i :: 0 <= i < |r| ==> r[i] < LINES
  {
    seq(LineCount(addr, size), i => (addr / LINE_SIZE + i) % LINES)
  }

  /** Line n overlaps the range. */
  ghost predicate Overlaps(addr: nat, size: nat, n: nat) {
    exists b :: 0 <= b < size && LineOfByte(addr, b) == n
  }
  function LineOfByte(addr: nat, b: nat): nat { (addr + b) % U32 / LINE_SIZE }

  lemma ByteLine(addr: nat, b: nat)
    ensures LineOfByte(addr, b) == (addr / LINE_SIZE + (addr % LINE_SIZE + b) / LINE_SIZE) % LINES
  {
    var q, r := addr / LINE_SIZE, addr % LINE_SIZE + b;
    var n, m := q + r / LINE_SIZE, r % LINE_SIZE;
    assert addr + b == n * LINE_SIZE + m;
    var w := n / LINES;
    DivMod(addr + b, w, (n % LINES) * LINE_SIZE + m, U32);
    DivMod((n % LINES) * LINE_SIZE + m, n % LINES, m, LINE_SIZE);
  }

  /** Exactly one operation for each line that overlaps the range, and none for any other line,
      for every address and every positive 32-bit size. */
  lemma LinesExactlyOnce(addr: nat, size: nat)
    requires addr < U32 && size < 0x8000_0000
    ensures forall i, j :: 0 <= i < j < |LinesOf(addr, size)| ==> LinesOf(addr, size)[i] != LinesOf(addr, size)[j]
    ensures size > 0 ==> forall n :: n in LinesOf(addr, size) <==> Overlaps(addr, size, n)
  {
    var ns, q, r := LinesOf(addr, size), addr / LINE_SIZE, addr % LINE_SIZE;
    forall i, j | 0 <= i < j < |ns| ensures ns[i] != ns[j] {
      DistinctMod(q + i, q + j, LINES);
    }
    if size > 0 {
      forall n | n in ns ensures Overlaps(addr, size, n) {
        var i :| 0 <= i < |ns| && ns[i] == n;
        var b := if i == 0 then 0 else LINE_SIZE * i - r;
        ByteLine(addr, b);
        assert (r + b) / LINE_SIZE == i;
        assert LineOfByte(addr, b) == n;
      }
      forall n | Overlaps(addr, size, n) ensures n in ns {
        var b :| 0 <= b < size && LineOfByte(addr, b) == n;
        ByteLine(addr, b);
        assert ns[(r + b) / LINE_SIZE] == n;
      }
    }
  }

  // ---- cleaning a range ----

  lemma {:induction false} ApplyLinesKeepsView(s: Sys, op: Op, ns: seq<nat>)
    requires s.enabled && s.WellFormed() && s.Coherent() && op != Invalidate
    ensures var t := ApplyLines(s, op, ns); t.enabled && t.WellFormed() && t.Coherent() && t.View() == s.View()
  {
    hide Apply, Sys.WellFormed, Sys.Coherent, Sys.View;
    if ns != [] {
      var u := ApplyLines(s, op, ns[..|ns| - 1]);
      ApplyLinesKeepsView(s, op, ns[..|ns| - 1]);
      if k :| u.Holds(k, ns[|ns| - 1]) && ApplyLines(s, op, ns) == Apply(u, op, k) {
        ApplyKeepsView(u, op, k);
      }
    }
  }

  /** Line n is not held dirty: memory already shows it. */
  ghost predicate Published(s: Sys, n: nat) { forall k :: s.Holds(k, n) ==> !s.slots[k].dirty }

  lemma PublishedLine(s: Sys, n: nat)
    requires s.enabled && s.WellFormed() && s.Coherent() && n < LINES && Published(s, n)
    ensures s.mem[n] == s.ViewLine(n)
  {
    if k :| s.Holds(k, n) {
      ViewHit(s, k, n);
    } else {
      ViewMiss(s, n);
    }
  }

  lemma ApplyLinePublishes(s: Sys, op: Op, n: nat, m: nat)
    requires s.Coherent() && op != Invalidate && (m == n || Published(s, m))
    ensures Published(ApplyLine(s, op, n), m)
  {
    var t := ApplyLine(s, op, n);
    forall j | t.Holds(j, m) ensures !t.slots[j].dirty {
      if k :| s.Holds(k, n) && t == Apply(s, op, k) {
        HeldBefore(s, op, k, j, m);
        if m == n {
          OneHolder(s, j, k, n);
        }
      }
    }
  }

  lemma {:induction false} ApplyLinesPublishes(s: Sys, op: Op, ns: seq<nat>, n: nat)
    requires s.enabled && s.WellFormed() && s.Coherent() && op != Invalidate && n in ns
    ensures Published(ApplyLines(s, op, ns), n)
  {
    var last := |ns| - 1;
    var u := ApplyLines(s, op, ns[..last]);
    ApplyLinesKeepsView(s, op, ns[..last]);
    if n != ns[last] {
      assert n in ns[..last];
      ApplyLinesPublishes(s, op, ns[..last], n);
    }
    ApplyLinePublishes(u, op, ns[last], n);
  }

  /** Cleaning by address keeps the view and makes memory equal it on every line of the range. */
  lemma CleanRange(s: Sys, op: Op, addr: nat, size: nat)
    requires s.enabled && s.WellFormed() && s.Coherent() && op != Invalidate && addr < U32 && 0 < size < 0x8000_0000
    ensures var t := ApplyLines(s, op, LinesOf(addr, size));
      && t.enabled && t.WellFormed() && t.Coherent() && t.View() == s.View()
      && forall n :: 0 <= n < LINES && Overlaps(addr, size, n) ==> t.mem[n] == s.View()[n]
  {
    var ns := LinesOf(addr, size);
    var t := ApplyLines(s, op, ns);
    ApplyLinesKeepsView(s, op, ns);
    LinesExactlyOnce(addr, size);
    forall n | 0 <= n < LINES && Overlaps(addr, size, n) ensures t.mem[n] == s.View()[n] {
      ApplyLinesPublishes(s, op, ns, n);
      PublishedLine(t, n);
      assert t.View()[n] == t.ViewLine(n);
    }
  }

  /** On a disabled cache without dirty lines, cleaning by address leaves memory, and so the view, alone. */
  lemma {:induction false} ApplyLinesDisabled(s: Sys, op: Op, ns: seq<nat>)
    requires s.WellFormed() && !s.enabled && s.NoDirty()
    ensures var t := ApplyLines(s, op, ns);
      t.WellFormed() && !t.enabled && t.NoDirty() && t.mem == s.mem && t.View() == s.View()
  {
    if ns != [] {
      ApplyLinesDisabled(s, op, ns[..|ns| - 1]);
      var u := ApplyLines(s, op, ns[..|ns| - 1]);
      assert u.View() == u.mem;
    }
  }

  // ---- invalidating a range that a device has written ----

  ghost predicate OneHolderEach(s: Sys) {
    forall k, j :: k in s.slots && j in s.slots && s.slots[k].line == s.slots[j].line ==> k == j
  }

  /** The cache without its copies of the given lines. */
  ghost function Without(s: Sys, ns: seq<nat>): Sys {
    s.(slots := map k | k in s.slots && s.slots[k].line !in ns :: s.slots[k])
  }

  lemma InvalidateLine(s: Sys, n: nat)
    requires OneHolderEach(s)
    ensures ApplyLine(s, Invalidate, n) == Without(s, [n])
  {
    var t := ApplyLine(s, Invalidate, n);
    if k :| s.Holds(k, n) && t == Apply(s, Invalidate, k) {
      assert t.slots == Without(s, [n]).slots;
    } else {
      assert forall k :: !s.Holds(k, n);
      forall k | k in s.slots ensures s.slots[k].line != n {
        assert !s.Holds(k, n);
      }
      assert s.slots == Without(s, [n]).slots;
    }
  }

  lemma {:induction false} InvalidateLines(s: Sys, ns: seq<nat>)
    requires OneHolderEach(s)
    ensures ApplyLines(s, Invalidate, ns) == Without(s, ns)
  {
    if ns == [] {
      assert Without(s, ns).slots == s.slots;
    } else {
      var last := |ns| - 1;
      InvalidateLines(s, ns[..last]);
      InvalidateLine(Without(s, ns[..last]), ns[last]);
      assert ns == ns[..last] + [ns[last]];
      assert Without(Without(s, ns[..last]), [ns[last]]).slots == Without(s, ns).slots;
    }
  }

  /** The slots with the given lines clean. */
  ghost function CleanedSlots(s: Sys, ns: seq<nat>): map<Loc, Entry> {
    map k | k in s.slots :: if s.slots[k].line in ns then s.slots[k].(dirty := false) else s.slots[k]
  }

  lemma LineSlots(s: Sys, op: Op, n: nat)
    requires OneHolderEach(s) && op != Invalidate
    ensures var t := ApplyLine(s, op, n);
      && t.slots == (if op == Clean then CleanedSlots(s, [n]) else Without(s, [n]).slots) && OneHolderEach(t)
      && |t.mem| == |s.mem| && forall m :: 0 <= m < |s.mem| && m != n ==> t.mem[m] == s.mem[m]
  {
    var t := ApplyLine(s, op, n);
    if k :| s.Holds(k, n) && t == Apply(s, op, k) {
      assert t.slots == if op == Clean then CleanedSlots(s, [n]) else Without(s, [n]).slots;
    } else {
      forall k | k in s.slots ensures s.slots[k].line != n {
        assert !s.Holds(k, n);
      }
      assert s.slots == CleanedSlots(s, [n]) == Without(s, [n]).slots;
    }
  }

  /** Cleaning lines by address keeps every line cached and only takes their dirty marks; a clean-invalidate
      drops exactly those lines; neither writes any other line of memory. */
  lemma {:induction false} LinesSlots(s: Sys, op: Op, ns: seq<nat>)
    requires OneHolderEach(s) && op != Invalidate
    ensures var t := ApplyLines(s, op, ns);
      && t.slots == (if op == Clean then CleanedSlots(s, ns) else Without(s, ns).slots) && OneHolderEach(t)
      && |t.mem| == |s.mem| && forall m :: 0 <= m < |s.mem| && m !in ns ==> t.mem[m] == s.mem[m]
  {
    if ns == [] {
      assert s.slots == CleanedSlots(s, ns) == Without(s, ns).slots;
    } else {
      var last := |ns| - 1;
      LinesSlots(s, op, ns[..last]);
      var u := ApplyLines(s, op, ns[..last]);
      LineSlots(u, op, ns[last]);
      OneMoreLine(s, u, ns[..last], ns[last]);
      hide ApplyLine, CleanedSlots, Without, OneHolderEach;
      assert ns == ns[..last] + [ns[last]];
    }
  }

  lemma OneMoreLine(s: Sys, u: Sys, ns: seq<nat>, n: nat)
    ensures u.slots == CleanedSlots(s, ns) ==> CleanedSlots(u, [n]) == CleanedSlots(s, ns + [n])
    ensures u.slots == Without(s, ns).slots ==> Without(u, [n]).slots == Without(s, ns + [n]).slots
  {
    if u.slots == CleanedSlots(s, ns) {
      assert CleanedSlots(u, [n]) == CleanedSlots(s, ns + [n]);
    }
    if u.slots == Without(s, ns).slots {
      assert Without(u, [n]).slots == Without(s, ns + [n]).slots;
    }
  }

  /** A device writes memory on lines of a range, behind the cache; invalidating the range by address then
      shows memory on every line of the range, leaves every other line of the view as it was, and the
      cache is coherent again. */
  lemma InvalidateShowsDevice(s: Sys, mem: seq<Line>, addr: nat, size: nat)
    requires s.enabled && s.WellFormed() && s.Coherent() && addr < U32 && 0 < size < 0x8000_0000
    requires |mem| == |s.mem| && forall n :: 0 <= n < LINES && !Overlaps(addr, size, n) ==> mem[n] == s.mem[n]
    ensures var t := ApplyLines(s.(mem := mem), Invalidate, LinesOf(addr, size));
      && t.enabled && t.WellFormed() && t.Coherent() && t.mem == mem
      && forall n :: 0 <= n < LINES ==> t.View()[n] == if Overlaps(addr, size, n) then mem[n] else s.View()[n]
  {
    var ns, w := LinesOf(addr, size), s.(mem := mem);
    InvalidateLines(w, ns);
    LinesExactlyOnce(addr, size);
    var t := Without(w, ns);
    hide Overlaps, LinesOf;
    assert t.WellFormed() && t.Coherent();
    forall n | 0 <= n < LINES ensures t.ViewLine(n) == if Overlaps(addr, size, n) then mem[n] else s.ViewLine(n) {
      WithoutView(s, t, n, ns);
    }
  }

  lemma WithoutView(s: Sys, t: Sys, n: nat, ns: seq<nat>)
    requires s.enabled && s.Coherent() && t.Coherent() && t == Without(s.(mem := t.mem), ns)
    requires n < |s.mem| == |t.mem| && (n !in ns ==> t.mem[n] == s.mem[n])
    ensures t.ViewLine(n) == if n in ns then t.mem[n] else s.ViewLine(n)
  {
    if n in ns {
      assert forall k :: !t.Holds(k, n);
      ViewMiss(t, n);
    } else if k :| s.Holds(k, n) {
      assert t.Holds(k, n);
      ViewHit(s, k, n);
      ViewHit(t, k, n);
    } else {
      StillMissed(s, t, n);
      ViewMiss(s, n);
      ViewMiss(t, n);
    }
  }

  /** In a line-aligned range a line that overlaps lies inside, so no other byte shares its line. */
  lemma AlignedRange(addr: nat, size: nat, n: nat, b: nat) returns (j: nat)
    requires addr < U32 && addr % LINE_SIZE == 0 && size % LINE_SIZE == 0 && size < 0x8000_0000
    requires Overlaps(addr, size, n) && b < LINE_SIZE
    ensures j < size && (addr + j) % U32 == n * LINE_SIZE + b
  {
    var i :| 0 <= i < size && LineOfByte(addr, i) == n;
    ByteLine(addr, i);
    j := i / LINE_SIZE * LINE_SIZE + b;
    WholeLines(size, i, b);
    hide LineOfByte, Overlaps;
    LineStart(addr / LINE_SIZE + i / LINE_SIZE, n, b);
  }

  lemma WholeLines(size: nat, i: nat, b: nat)
    requires size % LINE_SIZE == 0 && i < size && b < LINE_SIZE
    ensures i / LINE_SIZE * LINE_SIZE + b < size
  {
  }

  lemma LineStart(p: nat, n: nat, b: nat)
    requires p % LINES == n && b < LINE_SIZE
    ensures (p * LINE_SIZE + b) % U32 == n * LINE_SIZE + b
  {
    DivMod(p * LINE_SIZE + b, p / LINES, n * LINE_SIZE + b, U32);
  }
}
