/** The address arithmetic of the NOR write loop in 32-bit words, for any address and size: when the
    loop stops, and when it has then programmed all the data.  Every page program is taken to succeed. */
module XspiCursor {
  import opened Arithmetic
  import opened Words

  /** current_addr and current_size. */
  datatype Cursor = Cursor(addr: nat, size: nat)

  /** The page size is a power of two, of which this is all that matters. */
  predicate IsPage(page: nat) { 0 < page < U32 && U32 % page == 0 }

  function End(addr: nat, size: nat): nat { (addr + size) % U32 }

  function First(page: nat, addr: nat, size: nat): Cursor
    requires page > 0
  {
    var rest := page - addr % page;
    Cursor(addr, if rest > size then size else rest)
  }

  /** The cursor after programming one chunk. */
  function Next(page: nat, end: nat, c: Cursor): Cursor {
    var addr := (c.addr + c.size) % U32;
    Cursor(addr, if (addr + page) % U32 > end then (end - addr) % U32 else page)
  }

  /** The cursor after n chunks. */
  function After(page: nat, end: nat, c: Cursor, n: nat): Cursor {
    if n == 0 then c else Next(page, end, After(page, end, c, n - 1))
  }

  /** The do-while loop stops after n chunks, and not before. */
  ghost predicate StopsAfter(page: nat, end: nat, c: Cursor, n: nat) {
    && n > 0 && After(page, end, c, n).addr >= end
    && forall k :: 0 < k < n ==> After(page, end, c, k).addr < end
  }

  /** The bytes in the first n chunks. */
  function Total(page: nat, end: nat, c: Cursor, n: nat): nat {
    if n == 0 then 0 else Total(page, end, c, n - 1) + After(page, end, c, n - 1).size
  }

  lemma {:induction false} AfterShift(page: nat, end: nat, c: Cursor, n: nat)
    requires n > 0
    ensures After(page, end, c, n) == After(page, end, Next(page, end, c), n - 1)
    ensures Total(page, end, c, n) == c.size + Total(page, end, Next(page, end, c), n - 1)
  {
    if n > 1 {
      AfterShift(page, end, c, n - 1);
    }
  }

  // ---- pages ----

  lemma NextPage(page: nat, addr: nat)
    requires IsPage(page) && addr < U32 && addr % page == 0
    ensures addr + page <= U32 && (addr + page) % page == 0
  {
    var q, m := addr / page, U32 / page;
    assert addr == q * page && U32 == m * page;
    if q >= m {
      ProductBound(m, page, q, page);
      assert false;
    }
    ProductBound(q + 1, page, m, page);
    assert (q + 1) * page == q * page + page;
    NextMultiple(addr, page);
  }

  lemma PageEnd(page: nat, addr: nat)
    requires IsPage(page) && addr < U32
    ensures addr + (page - addr % page) <= U32 && (addr + (page - addr % page)) % page == 0
    ensures addr - addr % page <= U32 - page && (addr < U32 - page ==> addr + (page - addr % page) <= U32 - page)
    ensures addr >= U32 - page ==> addr + (page - addr % page) == U32
  {
    var start := addr - addr % page;
    DivMod(start, addr / page, 0, page);
    NextPage(page, start);
    if start + page < U32 {
      NextPage(page, start + page);
    }
  }

  // ---- from a page start on ----

  /** From a page start below an end that is not inside the last page, the loop walks to the end. */
  lemma {:induction false} WalksToEnd(page: nat, end: nat, c: Cursor) returns (n: nat)
    requires IsPage(page) && c.addr < end <= U32 - page && c.addr % page == 0
    requires c.size == if (c.addr + page) % U32 > end then end - c.addr else page
    ensures StopsAfter(page, end, c, n)
    ensures Total(page, end, c, n) == end - c.addr
    decreases end - c.addr
  {
    WalkStep(page, end, c);
    hide StopsAfter, Next, Total, IsPage;
    if c.addr + c.size == end {
      StopsAtOnce(page, end, c);
      n := 1;
    } else {
      var m := WalksToEnd(page, end, Next(page, end, c));
      OneMore(page, end, c, m);
      n := m + 1;
    }
  }

  lemma WalkStep(page: nat, end: nat, c: Cursor)
    requires IsPage(page) && c.addr < end <= U32 - page && c.addr % page == 0
    requires c.size == if (c.addr + page) % U32 > end then end - c.addr else page
    ensures var d := Next(page, end, c);
      && 0 < c.size && d.addr == c.addr + c.size <= end
      && (d.addr < end ==> d.addr % page == 0 && d.size == if (d.addr + page) % U32 > end then end - d.addr else page)
  {
    NextPage(page, c.addr);
    DivMod(c.addr + page, 0, c.addr + page, U32);
    DivMod(c.addr + c.size, 0, c.addr + c.size, U32);
    DivMod(end - c.addr - c.size, 0, end - c.addr - c.size, U32);
  }

  /** From a page start below an end inside the last page, the loop never stops. */
  lemma {:induction false} WalksForever(page: nat, end: nat, c: Cursor, n: nat)
    requires IsPage(page) && U32 - page < end < U32 && WholePage(page, c)
    ensures WholePage(page, After(page, end, c, n)) && After(page, end, c, n).addr < end
  {
    if n > 0 {
      WalksForever(page, end, c, n - 1);
      ForeverStep(page, end, After(page, end, c, n - 1));
    } else {
      NextPage(page, c.addr);
    }
  }

  predicate WholePage(page: nat, c: Cursor)
    requires page > 0
  {
    c.addr < U32 && c.addr % page == 0 && c.size == page
  }

  lemma ForeverStep(page: nat, end: nat, d: Cursor)
    requires IsPage(page) && U32 - page < end < U32 && WholePage(page, d)
    ensures WholePage(page, Next(page, end, d)) && Next(page, end, d).addr < end
  {
    NextPage(page, d.addr);
    var a := d.addr + page;
    if a < U32 {
      NextPage(page, a);
      if a + page < U32 {
        NextPage(page, a + page);
      }
      NextOf(page, end, d, a);
    } else {
      DivMod(0, 0, 0, page);
      NextPage(page, 0);
      NextPage(page, page);
      NextOf(page, end, d, 0);
    }
  }

  lemma NextOf(page: nat, end: nat, d: Cursor, a: nat)
    requires 0 < page && end < U32 && a + page <= U32 && a < U32 && d.addr + d.size in {a, a + U32}
    ensures Next(page, end, d).addr == a
    ensures a + page <= end || a + page == U32 ==> Next(page, end, d).size == page
  {
    DivMod(d.addr + d.size, if d.addr + d.size == a then 0 else 1, a, U32);
    if a + page < U32 {
      DivMod(a + page, 0, a + page, U32);
    } else {
      DivMod(U32, 1, 0, U32);
    }
  }

  // ---- all addresses and sizes ----

  /** The end falls inside the last page of the address space and the write gets there by whole pages. */
  predicate Runaway(page: nat, addr: nat, size: nat) {
    U32 - page < End(addr, size) && (addr < U32 - page || addr + size >= U32)
  }

  /** The range passes 2^32 from below the last page: the loop sees an end below its address. */
  predicate Truncated(page: nat, addr: nat, size: nat) {
    addr + size >= U32 && addr < U32 - page
  }

  /** After the first chunk of a write that needs more and stays below 2^32. */
  lemma SecondChunkBelow(page: nat, addr: nat, size: nat)
    requires IsPage(page) && size > page - addr % page && addr + size < U32
    ensures var d, rest := Next(page, End(addr, size), First(page, addr, size)), page - addr % page;
      && d.addr == addr + rest < End(addr, size) == addr + size && d.addr % page == 0
      && d.size == (if (d.addr + page) % U32 > addr + size then addr + size - d.addr else page)
      && d.addr <= U32 - page
  {
    PageEnd(page, addr);
    var rest := page - addr % page;
    DivMod(addr + size, 0, addr + size, U32);
    DivMod(addr + rest, 0, addr + rest, U32);
    DivMod(addr + size - (addr + rest), 0, addr + size - (addr + rest), U32);
    NextPage(page, addr + rest);
  }

  /** The same for a write that passes 2^32. */
  lemma SecondChunkAbove(page: nat, addr: nat, size: nat)
    requires IsPage(page) && addr < U32 && size < U32 && size > page - addr % page && addr + size >= U32
    ensures var d, end := Next(page, End(addr, size), First(page, addr, size)), End(addr, size);
      && end == addr + size - U32
      && (Truncated(page, addr, size) ==> d.addr > end)
      && (!Truncated(page, addr, size) ==>
            d.addr == 0 < end && d.size == (if page % U32 > end then end else page))
  {
    PageEnd(page, addr);
    var rest := page - addr % page;
    DivMod(addr + size, 1, addr + size - U32, U32);
    if addr < U32 - page {
      DivMod(addr + rest, 0, addr + rest, U32);
    } else {
      DivMod(addr + rest, 1, 0, U32);
      DivMod(End(addr, size), 0, End(addr, size), U32);
    }
  }

  /** A write of at most one page. */
  lemma OneChunk(page: nat, addr: nat, size: nat)
    requires IsPage(page) && addr < U32 && size < U32 && size <= page - addr % page
    ensures StopsAfter(page, End(addr, size), First(page, addr, size), 1)
    ensures Total(page, End(addr, size), First(page, addr, size), 1) == size
    ensures !Runaway(page, addr, size) && !Truncated(page, addr, size)
  {
    var c, end := First(page, addr, size), End(addr, size);
    PageEnd(page, addr);
    assert After(page, end, c, 0) == c && Total(page, end, c, 0) == 0;
    assert After(page, end, c, 1).addr == end;
  }

  /** Joining the first chunk to the chunks that follow it. */
  lemma OneMore(page: nat, end: nat, c: Cursor, m: nat)
    requires Next(page, end, c).addr < end && StopsAfter(page, end, Next(page, end, c), m)
    ensures StopsAfter(page, end, c, m + 1)
    ensures Total(page, end, c, m + 1) == c.size + Total(page, end, Next(page, end, c), m)
  {
    AfterShift(page, end, c, m + 1);
    forall k | 0 < k < m + 1 ensures After(page, end, c, k).addr < end {
      AfterShift(page, end, c, k);
    }
  }

  /** A write that does not run away stops, and has then programmed all its bytes exactly when it is not truncated. */
  lemma Stops(page: nat, addr: nat, size: nat) returns (n: nat)
    requires IsPage(page) && addr < U32 && size < U32 && !Runaway(page, addr, size)
    ensures StopsAfter(page, End(addr, size), First(page, addr, size), n)
    ensures Total(page, End(addr, size), First(page, addr, size), n) == size <==> !Truncated(page, addr, size)
  {
    hide Next, After, Total;
    var c, end := First(page, addr, size), End(addr, size);
    if size <= page - addr % page {
      OneChunk(page, addr, size);
      n := 1;
    } else if Truncated(page, addr, size) {
      SecondChunkAbove(page, addr, size);
      StopsAtOnce(page, end, c);
      n := 1;
    } else {
      n := StopsAfterMore(page, addr, size);
    }
  }

  lemma StopsAfterMore(page: nat, addr: nat, size: nat) returns (n: nat)
    requires IsPage(page) && addr < U32 && size < U32 && size > page - addr % page
    requires !Runaway(page, addr, size) && !Truncated(page, addr, size)
    ensures StopsAfter(page, End(addr, size), First(page, addr, size), n)
    ensures Total(page, End(addr, size), First(page, addr, size), n) == size
  {
    var c, end := First(page, addr, size), End(addr, size);
    WalkStarts(page, addr, size);
    hide Next, After, Total, First, End, IsPage;
    var m := WalksToEnd(page, end, Next(page, end, c));
    OneMore(page, end, c, m);
    n := m + 1;
  }

  lemma WalkStarts(page: nat, addr: nat, size: nat)
    requires IsPage(page) && addr < U32 && size < U32 && size > page - addr % page
    requires !Runaway(page, addr, size) && !Truncated(page, addr, size)
    ensures var c, end := First(page, addr, size), End(addr, size);
      var d := Next(page, end, c);
      && d.addr < end <= U32 - page && d.addr % page == 0 && c.size + (end - d.addr) == size
      && d.size == if (d.addr + page) % U32 > end then end - d.addr else page
  {
    hide Next;
    PageEnd(page, addr);
    if addr + size < U32 {
      SecondChunkBelow(page, addr, size);
      if addr >= U32 - page {
        assert false;
      }
    } else {
      SecondChunkAbove(page, addr, size);
      DivMod(0, 0, 0, page);
    }
  }

  lemma StopsAtOnce(page: nat, end: nat, c: Cursor)
    requires Next(page, end, c).addr >= end
    ensures StopsAfter(page, end, c, 1) && Total(page, end, c, 1) == c.size
  {
    assert After(page, end, c, 0) == c && Total(page, end, c, 0) == 0;
    assert After(page, end, c, 1) == Next(page, end, c);
  }

  /** A write that runs away never stops. */
  lemma RunsForever(page: nat, addr: nat, size: nat, n: nat)
    requires IsPage(page) && addr < U32 && size < U32 && Runaway(page, addr, size)
    ensures !StopsAfter(page, End(addr, size), First(page, addr, size), n)
  {
    var c, end := First(page, addr, size), End(addr, size);
    if size <= page - addr % page {
      OneChunk(page, addr, size);
      assert false;
    } else {
      RunawaySecondChunk(page, addr, size);
      if n > 0 {
        AfterShift(page, end, c, n);
        WalksForever(page, end, Next(page, end, c), n - 1);
      }
    }
  }

  lemma RunawaySecondChunk(page: nat, addr: nat, size: nat)
    requires IsPage(page) && addr < U32 && size < U32 && Runaway(page, addr, size) && size > page - addr % page
    ensures WholePage(page, Next(page, End(addr, size), First(page, addr, size)))
  {
    hide Next;
    PageEnd(page, addr);
    var rest := page - addr % page;
    if addr + size < U32 {
      SecondChunkBelow(page, addr, size);
      NextPage(page, addr + rest);
      if addr + rest + page < U32 {
        NextPage(page, addr + rest + page);
        DivMod(addr + rest + page, 0, addr + rest + page, U32);
      } else {
        DivMod(U32, 1, 0, U32);
      }
    } else {
      SecondChunkAbove(page, addr, size);
      DivMod(0, 0, 0, page);
      NextPage(page, 0);
      NextPage(page, page);
      DivMod(page, 0, page, U32);
    }
  }

  /** For every address and size: the loop stops exactly when the write does not run away. */
  lemma StopsExactly(page: nat, addr: nat, size: nat)
    requires IsPage(page) && addr < U32 && size < U32
    ensures (exists n :: StopsAfter(page, End(addr, size), First(page, addr, size), n)) <==> !Runaway(page, addr, size)
  {
    if Runaway(page, addr, size) {
      forall n: nat ensures !StopsAfter(page, End(addr, size), First(page, addr, size), n) {
        RunsForever(page, addr, size, n);
      }
    } else {
      var n := Stops(page, addr, size);
    }
  }

  /** A range that ends at least a page below 2^32, like every range of the chip, does neither. */
  lemma InsideChip(page: nat, addr: nat, size: nat)
    requires IsPage(page) && addr + size + page <= U32
    ensures !Runaway(page, addr, size) && !Truncated(page, addr, size)
  {
  }

  /** A write of 511 bytes from half a kilobyte below 2^32, with pages of 256 bytes, never ends. */
  lemma RunawayExample(n: nat)
    ensures !StopsAfter(256, End(U32 - 512, 511), First(256, U32 - 512, 511), n)
  {
    RunsForever(256, U32 - 512, 511, n);
  }

  /** One of 768 bytes from there stops after its first page. */
  lemma TruncatedExample()
    ensures StopsAfter(256, End(U32 - 512, 768), First(256, U32 - 512, 768), 1)
    ensures Total(256, End(U32 - 512, 768), First(256, U32 - 512, 768), 1) == 256
  {
    SecondChunkAbove(256, U32 - 512, 768);
    StopsAtOnce(256, End(U32 - 512, 768), First(256, U32 - 512, 768));
  }
}
