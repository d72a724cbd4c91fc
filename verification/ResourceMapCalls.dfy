/** What one call does to the resource map as a whole: which block a request gets, and
    that the free list is settled by the pages in use and the live blocks. */
module ResourceMapCalls {
  import opened Wrappers
  import opened PagePools
  import opened ResourceMapModel
  import opened ResourceMapProof
  import opened ResourceMapRuns

  // ----- which block is handed out

  /** `b` has room for a request and the header behind it. */
  predicate HasRoom(b: Block, size: int) {
    b.size >= size + H
  }

  /** `b` is the block with the lowest address among those with room. */
  ghost predicate LowestFit(free: seq<Block>, size: int, b: Block) {
    b in free && HasRoom(b, size) && forall c :: c in free && HasRoom(c, size) ==> b.addr <= c.addr
  }

  lemma FirstFitIsLowestFit(free: seq<Block>, size: int, c: Block)
    requires Sorted(free) && c in free && HasRoom(c, size)
    ensures var i := FirstFit(free, size); i < |free| && LowestFit(free, size, free[i])
  {
    forall d | d in free && HasRoom(d, size)
      ensures FirstFit(free, size) < |free| && free[FirstFit(free, size)].addr <= d.addr
    {
      FirstFitIsLowest(free, size, d);
    }
    FirstFitIsLowest(free, size, c);
  }

  ghost function IndexOf(free: seq<Block>, b: Block): (k: nat)
    requires b in free
    ensures k < |free| && free[k] == b
  {
    var k: nat :| k < |free| && free[k] == b;
    k
  }

  /** The front of listed block `b` was given up; `after` is in order and lists the rest
      of it instead. */
  ghost predicate GivesUpFront(before: seq<Block>, after: seq<Block>, b: Block, size: int) {
    Sorted(after) && Members(after) == Members(before) - {b} + {Block(b.addr + size, b.size - size)}
  }

  lemma CarvedGivesUp(pages: set<int>, free: seq<Block>, live: set<Block>, i: nat, size: int)
    requires Shares(pages, free, live) && i < |free| && 0 <= size && size + H <= free[i].size
    ensures GivesUpFront(free, Carved(free, i, size), free[i], size)
  {
    var after := Carved(free, i, size);
    MembersOfUpdated(free, i, after[i]);
    forall j, k | 0 <= j < k < |after| ensures after[j].addr < after[k].addr {
      InOrder(pages, free, live, j, k);
    }
  }

  /** While a listed block has room for the request and a header, the request gets the
      front of the one with the lowest address; the rest of it stays listed, and
      neither the other blocks nor the pages change. */
  lemma MallocTakesLowestFit(s: Rm, live: set<Block>, size: int, arena: int, c: Block) returns (b: Block)
    requires Inv(s, live) && s.first != NULL && 0 <= size <= R && c in s.free && HasRoom(c, size)
    ensures LowestFit(s.free, size, b)
    ensures var o := Malloc(s, size, arena);
            && o.Granted? && o.ptr == b.addr && o.state.pool == s.pool && o.state.first == s.first
            && GivesUpFront(s.free, o.state.free, b, size)
  {
    var i := FirstFit(s.free, size);
    FirstFitIsLowestFit(s.free, size, c);
    b := s.free[i];
    CarvedGivesUp(s.pool.inUse, s.free, live, i, size);
    assert Malloc(s, size, arena) == Granted(s.(free := Carved(s.free, i, size)), b.addr);
  }

  lemma MallocOnNewPage(s: Rm, size: int, arena: int)
    requires s.first != NULL && s.free != [] && IsInt(size) && FirstFit(s.free, size) == |s.free|
    requires Malloc(s, size, arena).Granted?
    ensures 0 <= size <= R - W && Get(s.pool, arena).Some?
    ensures var (pool, p) := Get(s.pool, arena).value;
            var rest := Block(p + W + size, R - size);
            var free := Inserted(s.free, Above(s.free, rest.addr), rest);
            Malloc(s, size, arena) == Granted(Rm(s.first, free, pool), p + W)
  {
  }

  lemma NoFirstFit(free: seq<Block>, size: int)
    requires forall c :: c in free ==> !HasRoom(c, size)
    ensures FirstFit(free, size) == |free|
  {
    forall k | 0 <= k < |free| ensures free[k].size < size + H {
      assert !HasRoom(free[k], size);
    }
  }

  /** `after` is in order and lists `b` besides. */
  ghost predicate JoinsList(before: seq<Block>, after: seq<Block>, b: Block) {
    Sorted(after) && Members(after) == Members(before) + {b}
  }

  lemma RestJoins(pages: set<int>, free: seq<Block>, live: set<Block>, p: int, rest: Block)
    requires Shares(pages, free, live) && p !in pages && p % 8192 == 0 && p <= rest.addr < p + PAGESIZE
    ensures JoinsList(free, Inserted(free, Above(free, rest.addr), rest), rest)
  {
    MembersOfInserted(free, Above(free, rest.addr), rest);
    BaseIs(p, rest.addr);
    forall c | c in free ensures c.addr != rest.addr {
      assert c in Members(free) + live && Fits(c, pages);
    }
    InsertKeepsSorted(free, rest);
  }

  lemma PageJoins(s: Rm, live: set<Block>, size: int, arena: int)
    requires Inv(s, live) && s.first != NULL && ValidArena(arena)
    ensures s.free != []
    ensures Get(s.pool, arena).Some? && 0 <= size <= R - W ==>
              var p := Get(s.pool, arena).value.1;
              var rest := Block(p + W + size, R - size);
              JoinsList(s.free, Inserted(s.free, Above(s.free, rest.addr), rest), rest)
  {
    FreeIsNotEmpty(s, live);
    GetKeepsPool(s.pool, arena);
    if Get(s.pool, arena).Some? && 0 <= size <= R - W {
      var p := Get(s.pool, arena).value.1;
      RestJoins(s.pool.inUse, s.free, live, p, Block(p + W + size, R - size));
    }
  }

  /** When no listed block has room, the request gets the front of the page that comes
      next in the pool, and the rest of that page joins the list. */
  lemma MallocTakesNewPage(s: Rm, live: set<Block>, size: int, arena: int)
    requires Inv(s, live) && s.first != NULL && ValidArena(arena) && IsInt(size) && Malloc(s, size, arena).Granted?
    requires forall c :: c in s.free ==> !HasRoom(c, size)
    ensures Get(s.pool, arena).Some?
    ensures var (o, (pool, p)) := (Malloc(s, size, arena), Get(s.pool, arena).value);
            && o.ptr == p + W && o.state.pool == pool && o.state.first == s.first
            && JoinsList(s.free, o.state.free, Block(p + W + size, R - size))
  {
    PageJoins(s, live, size, arena);
    NoFirstFit(s.free, size);
    MallocOnNewPage(s, size, arena);
  }

  /** The first request of all is served as if a first page, one free block, had been
      there. */
  lemma MallocStartsList(s: Rm, live: set<Block>, size: int, arena: int)
    requires Inv(s, live) && s.first == NULL && ValidArena(arena)
    ensures Get(s.pool, arena).Some?
    ensures var (pool, p) := Get(s.pool, arena).value;
            Malloc(s, size, arena) == Malloc(Rm(p, [Block(p + W, R)], pool), size, arena)
  {
    FirstPage(s, live, arena);
  }

  // ----- which page goes back

  lemma ClearReleases(s: Rm)
    ensures var t := ClearEmptyPages(s);
            t.pool == s.pool || exists p :: t.pool == Release(s.pool, p) && t.pool.inUse == s.pool.inUse - {p}
  {
    var i := WholePage(s.free);
    if i < |s.free| {
      var p := Base(s.free[i].addr);
      assert ClearEmptyPages(s).pool == Release(s.pool, p);
      assert s.pool.inUse - {p} == {} ==> Release(s.pool, p).inUse == s.pool.inUse - {p};
    }
  }

  /** kma_free gives back the page of the returned block if nothing else on it is live,
      and no page otherwise. */
  lemma FreeReleasesPage(s: Rm, live: set<Block>, b: Block)
    requires Inv(s, live) && b in live
    ensures var p := Base(b.addr);
            Free(s, b).pool == if HoldsLive(live - {b}, p) then s.pool else Release(s.pool, p)
  {
    var p, t, rest := Base(b.addr), Free(s, b), live - {b};
    var before := s.(free := Coalesced(Returned(s.free, b)));
    FreeKeepsInv(s, live, b);
    CoalescedKeeps(s, live, b);
    ClearReleases(before);
    forall q | q in s.pool.inUse && q != p ensures q in t.pool.inUse {
      assert HoldsLive(rest, q);
    }
    if t.pool != s.pool {
      var q :| t.pool == Release(s.pool, q) && t.pool.inUse == s.pool.inUse - {q};
      assert q in s.pool.inUse ==> q == p;
    }
  }

  // ----- the free list is settled

  /** Neighbours in memory are neighbours on the list. */
  lemma NoNeighbours(pages: set<int>, free: seq<Block>, live: set<Block>, x: Block, y: Block)
    requires Shares(pages, free, live) && Merged(free) && x in free && y in free
    ensures !Mergeable(x, y) || x.size <= 0
  {
    var i, j := IndexOf(free, x), IndexOf(free, y);
    if Mergeable(x, y) && x.size > 0 {
      assert i < j;
      if i + 1 < j {
        InOrder(pages, free, live, i, i + 1);
      }
    }
  }

  lemma LiveApart(pages: set<int>, free: seq<Block>, live: set<Block>, x: Block, y: Block)
    requires Shares(pages, free, live) && x in live && y in free
    ensures !Overlap(x, y)
  {
    assert x in Members(free) + live && y in Members(free) && y in Members(free) + live;
  }

  /** A byte of a free block of one list, in another list's terms. */
  lemma FreeByte(pages: set<int>, f: seq<Block>, g: seq<Block>, live: set<Block>, c: Block, a: int) returns (d: Block)
    requires Shares(pages, f, live) && Shares(pages, g, live) && c in g && c.addr <= a < c.End()
    ensures d in f && d.addr <= a < d.End() && Base(d.addr) == Base(c.addr) && d.size > 0
  {
    var p := Base(c.addr);
    assert c in Members(g) + live && Fits(c, pages);
    assert p in pages && Usable(p, a);
    assert Covered(Members(f) + live, a);
    d :| d in Members(f) + live && d.addr <= a < d.End();
    assert Fits(d, pages);
    if d in live { LiveApart(pages, g, live, d, c); }
    BaseIs(p, a);
    BaseIs(Base(d.addr), a);
  }

  lemma ListedApart(pages: set<int>, free: seq<Block>, live: set<Block>, x: Block, y: Block)
    requires Shares(pages, free, live) && x in free && y in free
    ensures x == y || !Overlap(x, y)
  {
    assert x in Members(free) + live && y in Members(free) + live;
  }

  lemma OnOnePage(pages: set<int>, f: seq<Block>, g: seq<Block>, live: set<Block>, b: Block, c: Block)
    requires Shares(pages, f, live) && Shares(pages, g, live) && b in f && c in g && Overlap(b, c)
    ensures Base(b.addr) == Base(c.addr)
  {
    var a := if b.addr < c.addr then c.addr else b.addr;
    assert b in Members(f) + live && Fits(b, pages);
    assert c in Members(g) + live && Fits(c, pages);
    BaseIs(Base(b.addr), a);
    BaseIs(Base(c.addr), a);
  }

  /** A free block of one list starts no later than the blocks of the other that it
      meets, or a neighbour of it would be free too. */
  lemma StartsFirst(pages: set<int>, f: seq<Block>, g: seq<Block>, live: set<Block>, b: Block, c: Block)
    requires Shares(pages, f, live) && Shares(pages, g, live) && Merged(f) && b in f && c in g && Overlap(b, c)
    ensures b.addr <= c.addr
  {
    if c.addr < b.addr {
      var d := FreeByte(pages, f, g, live, c, b.addr - 1);
      ListedApart(pages, f, live, d, b);
      OnOnePage(pages, f, g, live, b, c);
      NoNeighbours(pages, f, live, d, b);
    }
  }

  lemma EndsLast(pages: set<int>, f: seq<Block>, g: seq<Block>, live: set<Block>, b: Block, c: Block)
    requires Shares(pages, f, live) && Shares(pages, g, live) && Merged(f) && b in f && c in g && Overlap(b, c)
    ensures c.End() <= b.End()
  {
    if b.End() < c.End() {
      var d := FreeByte(pages, f, g, live, c, b.End());
      ListedApart(pages, f, live, b, d);
      OnOnePage(pages, f, g, live, b, c);
      assert b in Members(f) + live && Fits(b, pages);
      NoNeighbours(pages, f, live, b, d);
    }
  }

  lemma FreeInBoth(pages: set<int>, f: seq<Block>, g: seq<Block>, live: set<Block>, b: Block)
    requires Shares(pages, f, live) && Shares(pages, g, live) && Merged(f) && Merged(g) && b in f
    ensures b in g
  {
    assert b in Members(f) + live && Fits(b, pages);
    var c := FreeByte(pages, g, f, live, b, b.addr);
    StartsFirst(pages, f, g, live, b, c);
    StartsFirst(pages, g, f, live, c, b);
    EndsLast(pages, f, g, live, b, c);
    EndsLast(pages, g, f, live, c, b);
    assert b == c;
  }

  /** A list in order is settled by its blocks. */
  lemma {:induction false} SortedIsSettled(f: seq<Block>, g: seq<Block>)
    requires Sorted(f) && Sorted(g) && Members(f) == Members(g)
    ensures f == g
  {
    if f == [] {
      FreeInAll(g, Members(f));
    } else if g == [] {
      FreeInAll(f, Members(g));
    } else {
      assert f[0] in Members(g) && g[0] in Members(f);
      var i, j := IndexOf(g, f[0]), IndexOf(f, g[0]);
      assert f[0] == g[0];
      MembersOfTail(f);
      MembersOfTail(g);
      SortedIsSettled(f[1..], g[1..]);
      assert f == [f[0]] + f[1..] && g == [g[0]] + g[1..];
    }
  }

  lemma PagesAreSettled(s: Rm, t: Rm, live: set<Block>, p: int)
    requires Inv(s, live) && Inv(t, live) && live != {} && p in s.pool.inUse
    ensures p in t.pool.inUse
  {
    assert HoldsLive(live, p);
    var b :| b in live && Base(b.addr) == p;
    assert b in Members(t.free) + live && Fits(b, t.pool.inUse);
  }

  /** The live blocks settle everything else but the pool's chain and counters,
      whatever calls led to them: the pages in use, the first of them, and the free
      list, which can only be the stretches between the live blocks, in order. */
  lemma FreeListIsSettled(s: Rm, t: Rm, live: set<Block>)
    requires Inv(s, live) && Inv(t, live) && (live != {} || s.pool.inUse == t.pool.inUse)
    ensures s.pool.inUse == t.pool.inUse && s.first == t.first && s.free == t.free
  {
    if live != {} {
      forall p ensures p in s.pool.inUse <==> p in t.pool.inUse {
        if p in s.pool.inUse { PagesAreSettled(s, t, live, p); }
        if p in t.pool.inUse { PagesAreSettled(t, s, live, p); }
      }
    }
    assert s.pool.inUse == t.pool.inUse;
    ListIsSettled(s.pool.inUse, s.free, t.free, live);
  }

  lemma ListIsSettled(pages: set<int>, f: seq<Block>, g: seq<Block>, live: set<Block>)
    requires Shares(pages, f, live) && Shares(pages, g, live) && Merged(f) && Merged(g)
    ensures f == g
  {
    forall b | b in f ensures b in g {
      FreeInBoth(pages, f, g, live, b);
    }
    forall b | b in g ensures b in f {
      FreeInBoth(pages, g, f, live, b);
    }
    SortedIsSettled(f, g);
  }

  /** So two runs that leave the same blocks live leave the same list on the same
      pages. */
  lemma RunsMeet(ops: seq<Op>, others: seq<Op>)
    requires Exec(ops).Some? && Exec(others).Some? && Exec(ops).value.1 == Exec(others).value.1
    requires Exec(ops).value.1 != {} && AllServable(Exec(ops).value.1)
    ensures var s, t := Exec(ops).value.0, Exec(others).value.0;
            s.pool.inUse == t.pool.inUse && s.first == t.first && s.free == t.free
  {
    RunKeepsInv(ops);
    RunKeepsInv(others);
    FreeListIsSettled(Exec(ops).value.0, Exec(others).value.0, Exec(ops).value.1);
  }
}
