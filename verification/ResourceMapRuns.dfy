/** The resource map over whole runs: every state that requests and returns can
    reach satisfies `Inv`, and the outcome of each request is known beforehand. */
module ResourceMapRuns {
  import opened Wrappers
  import opened PagePools
  import opened ResourceMapModel
  import opened ResourceMapProof

  /** The sizes the design admits: a freed block must have room for a header, and
      so must the rest of a new page. */
  predicate Servable(size: int) {
    H <= size <= R - H
  }

  /** A free block lies on some page in use. */
  lemma OnItsPage(pages: set<int>, free: seq<Block>, live: set<Block>, i: nat)
    requires Shares(pages, free, live) && i < |free|
    ensures var p := Base(free[i].addr);
            p in pages && p % 8192 == 0 && p < free[i].addr && free[i].End() <= p + W + R
  {
    assert free[i] in Members(free) + live && Fits(free[i], pages);
  }

  /** The list has the tail of each page, and nothing on lower pages follows it. */
  lemma TailIndex(pages: set<int>, free: seq<Block>, live: set<Block>, p: int) returns (k: nat)
    requires Shares(pages, free, live) && p in pages
    ensures k < |free| && Base(free[k].addr) == p
    ensures forall i :: 0 <= i < |free| && p < Base(free[i].addr) ==> k < i
  {
    assert HasTail(free, p);
    var t :| t in free && t.End() == p + W + R;
    k :| 0 <= k < |free| && free[k] == t;
    OnItsPage(pages, free, live, k);
    assert t in Members(free) + live && Fits(t, pages);
    BaseIs(p, t.addr);
    forall i | 0 <= i < |free| && p < Base(free[i].addr) ensures k < i {
      OnItsPage(pages, free, live, i);
      PagesCompare(p, t.addr, Base(free[i].addr), free[i].addr);
      assert free[k].addr < free[i].addr;
    }
  }

  /** The first block is on the lowest page. */
  lemma HeadIsOnFirst(pages: set<int>, free: seq<Block>, live: set<Block>, first: int)
    requires Shares(pages, free, live) && first in pages && forall p :: p in pages ==> first <= p
    ensures free != [] && Base(free[0].addr) == first
  {
    var k := TailIndex(pages, free, live, first);
    OnItsPage(pages, free, live, 0);
    assert first < Base(free[0].addr) ==> k < 0;
  }

  lemma FreeIsNotEmpty(s: Rm, live: set<Block>)
    requires Inv(s, live) && s.first != NULL
    ensures s.free != [] && Base(s.free[0].addr) == s.first
  {
    HeadIsOnFirst(s.pool.inUse, s.free, live, s.first);
  }

  lemma NothingWithoutPages(s: Rm, live: set<Block>)
    requires Inv(s, live) && s.first == NULL
    ensures s.free == [] && live == {}
  {
    var all := Members(s.free) + live;
    assert forall b :: b in all ==> Fits(b, s.pool.inUse);
    assert all == {} && live <= all;
    FreeInAll(s.free, all);
  }

  lemma FreeInAll(free: seq<Block>, all: set<Block>)
    requires Members(free) <= all
    ensures all == {} ==> free == []
  {
    if free != [] { assert free[0] in Members(free); }
  }

  // ----- requests

  /** No listed block has room for a request and the header behind it. */
  ghost predicate NoFit(s: Rm, size: int) {
    s.first != NULL && 0 <= size <= R && forall b :: b in s.free ==> b.size < size + H
  }

  /** What a request of any size comes to is settled by that size, the free blocks
      and the next page. It is refused exactly when its size, taken as unsigned,
      exceeds R. While pages are left, it makes new_page write past the end of a
      page exactly when the header behind it would not end there, and otherwise
      store through a NULL pointer exactly when no block fits and the next page of
      the chain lies below the first page. */
  lemma OutcomeOfRequest(s: Rm, live: set<Block>, size: int, arena: int)
    requires Inv(s, live) && ValidArena(arena) && IsInt(size)
    ensures var o := Malloc(s, size, arena);
            && (o.Refused? <==> AsUnsigned(size) > R) && (o.Refused? <==> !(0 <= size <= R))
            && (o.Exhausted? <==> NoFit(s, size) && |s.pool.inUse| == MAXPAGES)
            && (o.Spilled? <==> R - W < size <= R && |s.pool.inUse| != MAXPAGES)
            && (o.Faulted? <==> NoFit(s, size) && size <= R - W && s.pool.chain != [] && s.pool.chain[0] < s.first)
  {
    if s.first == NULL {
      OutcomeOfFirst(s, live, size, arena);
    } else if 0 <= size <= R {
      FreeIsNotEmpty(s, live);
      OutcomeOfPlace(s, live, size, arena);
    }
  }

  lemma OutcomeOfFirst(s: Rm, live: set<Block>, size: int, arena: int)
    requires Inv(s, live) && s.first == NULL && ValidArena(arena) && IsInt(size)
    ensures var o := Malloc(s, size, arena);
            && (o.Refused? <==> AsUnsigned(size) > R) && (o.Refused? <==> !(0 <= size <= R))
            && !o.Exhausted? && !o.Faulted? && (o.Spilled? <==> R - W < size <= R) && s.pool.inUse == {}
  {
    FirstPage(s, live, arena);
    NothingWithoutPages(s, live);
    NextPages(s.pool, arena);
    var (pool, p) := Get(s.pool, arena).value;
    if 0 <= size <= R {
      OutcomeOfPlace(Rm(p, [Block(p + W, R)], pool), {}, size, arena);
    }
  }

  /** The first two pages of a new pool. */
  lemma NextPages(pool: Pool, arena: int)
    requires PoolOk(pool) && pool.arena == NULL && ValidArena(arena)
    ensures Get(pool, arena).Some?
    ensures var (q, p) := Get(pool, arena).value; |q.inUse| == 1 && q.chain != [] && q.chain[0] == p + PAGESIZE
  {
    assert Slots(arena)[1..][0] == arena + PAGESIZE;
    assert {} + {arena} == {arena};
  }

  lemma OutcomeOfPlace(s: Rm, live: set<Block>, size: int, arena: int)
    requires Inv(s, live) && s.first != NULL && s.free != [] && ValidArena(arena) && 0 <= size <= R
    ensures var o := Place(s, size, arena);
            && !o.Refused? && (o.Granted? ==> size <= R - W)
            && (o.Exhausted? <==> NoFit(s, size) && |s.pool.inUse| == MAXPAGES)
            && (o.Spilled? <==> R - W < size && |s.pool.inUse| != MAXPAGES)
            && (o.Faulted? <==> NoFit(s, size) && size <= R - W && s.pool.chain != [] && s.pool.chain[0] < s.first)
  {
    var i := FirstFit(s.free, size);
    if i < |s.free| {
      assert s.free[i] in s.free;
      OnItsPage(s.pool.inUse, s.free, live, i);
    } else {
      assert forall b :: b in s.free ==> b.size < size + H;
      OutcomeOfNewPage(s, live, size, arena);
    }
  }

  lemma OutcomeOfNewPage(s: Rm, live: set<Block>, size: int, arena: int)
    requires Inv(s, live) && s.first != NULL && s.free != [] && ValidArena(arena) && 0 <= size <= R
    ensures var o := NewPage(s, size, arena);
            && !o.Refused?
            && (o.Exhausted? <==> |s.pool.inUse| == MAXPAGES)
            && (o.Spilled? <==> R - W < size && |s.pool.inUse| != MAXPAGES)
            && (o.Faulted? <==> size <= R - W && s.pool.chain != [] && s.pool.chain[0] < s.first)
    ensures |s.pool.inUse| == MAXPAGES <==> s.pool.chain == []
  {
    GetKeepsPool(s.pool, arena);
    ExhaustedMeansAllOut(s.pool, arena);
    FreeIsNotEmpty(s, live);
    if s.pool.chain != [] {
      var p := s.pool.chain[0];
      OnItsPage(s.pool.inUse, s.free, live, 0);
      if size <= R - W { PagesCompare(p, p + W + size, s.first, s.free[0].addr); }
    }
  }

  lemma FirstPage(s: Rm, live: set<Block>, arena: int)
    requires Inv(s, live) && s.first == NULL && ValidArena(arena)
    ensures Get(s.pool, arena).Some?
    ensures var (pool, p) := Get(s.pool, arena).value;
            Inv(Rm(p, [Block(p + W, R)], pool), {})
  {
    NothingWithoutPages(s, live);
    GetKeepsPool(s.pool, arena);
    var (pool, p) := Get(s.pool, arena).value;
    var free := [Block(p + W, R)];
    BaseIs(p, p + W);
    NewPageKeepsTiles({}, {}, p);
    assert {} + {p} == pool.inUse;
    assert Members(free) + {} == {} + {Block(p + W, R)};
    assert Block(p + W, R) in free;
    TailOf(free, p, Block(p + W, R));
  }

  /** kma_malloc: the block handed out was not live, and the pages stay tiled by
      the free list and the live blocks, the new one among them, if and only if its
      size is servable. */
  lemma MallocKeepsInv(s: Rm, live: set<Block>, size: int, arena: int)
    requires Inv(s, live) && ValidArena(arena) && IsInt(size)
    ensures var o := Malloc(s, size, arena);
            && (o.Granted? ==> 0 <= size <= R - W && Block(o.ptr, size) !in live
                               && (Inv(o.state, live + {Block(o.ptr, size)}) <==> Servable(size)))
            && (o.Refused? ==> Inv(o.state, live) && (s.first != NULL ==> o.state == s))
  {
    if s.first == NULL {
      NothingWithoutPages(s, live);
      FirstPage(s, live, arena);
      var (pool, p) := Get(s.pool, arena).value;
      PlaceIsExact(Rm(p, [Block(p + W, R)], pool), live, size, arena);
    } else {
      FreeIsNotEmpty(s, live);
      PlaceIsExact(s, live, size, arena);
    }
  }

  lemma PlaceIsExact(s: Rm, live: set<Block>, size: int, arena: int)
    requires Inv(s, live) && s.first != NULL && s.free != [] && ValidArena(arena) && IsInt(size)
    ensures var o := Place(s, size, arena);
            && (o.Granted? ==> 0 <= size <= R - W && Block(o.ptr, size) !in live
                               && (Inv(o.state, live + {Block(o.ptr, size)}) <==> Servable(size)))
            && (o.Refused? ==> o.state == s)
  {
    if 0 <= size <= R {
      OutcomeOfPlace(s, live, size, arena);
      if Servable(size) {
        PlaceKeepsInv(s, live, size, arena);
      } else if Place(s, size, arena).Granted? {
        PlaceBreaksInv(s, live, size, arena);
      }
    }
  }

  /** A live block holds a header, and its page has a free block beside it. */
  lemma LiveIsServable(s: Rm, live: set<Block>, b: Block)
    requires Inv(s, live) && b in live
    ensures Servable(b.size)
  {
    var all := Members(s.free) + live;
    assert b in all && Fits(b, s.pool.inUse);
    var p := Base(b.addr);
    assert HasTail(s.free, p);
    var t :| t in s.free && t.End() == p + W + R;
    assert t in Members(s.free) && t in all && Fits(t, s.pool.inUse);
    BaseIs(p, b.addr);
    assert !Overlap(b, t);
  }

  lemma PlaceBreaksInv(s: Rm, live: set<Block>, size: int, arena: int)
    requires Inv(s, live) && !Servable(size) && Place(s, size, arena).Granted?
    ensures var o := Place(s, size, arena); Block(o.ptr, size) !in live && !Inv(o.state, live + {Block(o.ptr, size)})
  {
    var o := Place(s, size, arena);
    var b := Block(o.ptr, size);
    if b in live { LiveIsServable(s, live, b); }
    if Inv(o.state, live + {b}) { LiveIsServable(o.state, live + {b}, b); }
  }

  lemma PlaceKeepsInv(s: Rm, live: set<Block>, size: int, arena: int)
    requires Inv(s, live) && s.first != NULL && s.free != [] && ValidArena(arena) && Servable(size)
    ensures var o := Place(s, size, arena);
            o.Granted? ==> Block(o.ptr, size) !in live && Inv(o.state, live + {Block(o.ptr, size)})
  {
    var i := FirstFit(s.free, size);
    if i < |s.free| {
      CarveKeepsShares(s.pool.inUse, s.free, live, i, size);
      CarveKeepsInv(s, live, i, size);
    } else {
      NewPageKeepsInv(s, live, size, arena);
    }
  }

  lemma HoldsMore(live: set<Block>, b: Block, p: int)
    ensures HoldsLive(live, p) ==> HoldsLive(live + {b}, p)
    ensures HoldsLive(live + {b}, Base(b.addr))
  {
    assert b in live + {b};
    if HoldsLive(live, p) {
      var c :| c in live && Base(c.addr) == p;
      assert c in live + {b};
    }
  }

  /** While nothing is live, the first page is one free block, so a request is
      cut from it. */
  lemma EmptyPageServes(s: Rm, live: set<Block>, size: int)
    requires Inv(s, live) && s.first != NULL && live == {} && Servable(size)
    ensures s.free == [Block(s.first + W, R)] && FirstFit(s.free, size) == 0
  {
    var p := s.first;
    var all := Members(s.free) + live;
    WholeMeansNoLive(s.pool.inUse, s.free, live, p);
    assert Block(p + W, R) in all;
    DropPageKeepsTiles(s.pool.inUse, all, Block(p + W, R));
    BaseIs(p, p + W);
    forall k | 0 <= k < |s.free| ensures s.free[k] == Block(p + W, R) {
      var c := s.free[k];
      assert c in all && Fits(c, s.pool.inUse);
      assert Base(c.addr) == p || HoldsLive(live, Base(c.addr));
    }
    if |s.free| > 1 { Positions(s.free, 0, 1); }
  }

  lemma CarveKeepsInv(s: Rm, live: set<Block>, i: nat, size: int)
    requires Inv(s, live) && s.first != NULL && Servable(size)
    requires i == FirstFit(s.free, size) && i < |s.free|
    requires Shares(s.pool.inUse, Carved(s.free, i, size), live + {Block(s.free[i].addr, size)})
    requires Merged(Carved(s.free, i, size))
    ensures Inv(s.(free := Carved(s.free, i, size)), live + {Block(s.free[i].addr, size)})
  {
    var x := Block(s.free[i].addr, size);
    forall p {:trigger HoldsLive(live + {x}, p)} | p in s.pool.inUse ensures HoldsLive(live + {x}, p) {
      HoldsMore(live, x, p);
      if live == {} {
        EmptyPageServes(s, live, size);
        BaseIs(s.first, x.addr);
        if p != s.first { assert HoldsLive(live, p); }
      } else {
        assert HoldsLive(live, p);
      }
    }
  }

  lemma NewPageKeepsInv(s: Rm, live: set<Block>, size: int, arena: int)
    requires Inv(s, live) && s.first != NULL && s.free != [] && ValidArena(arena) && Servable(size)
    requires FirstFit(s.free, size) == |s.free|
    ensures var o := NewPage(s, size, arena);
            && !o.Refused?
            && (o.Granted? ==> Block(o.ptr, size) !in live && Inv(o.state, live + {Block(o.ptr, size)}))
  {
    if NewPage(s, size, arena).Granted? {
      var p, pool := NewPageIsAbove(s, live, size, arena);
      GrownKeepsInv(s, live, size, p, pool);
    }
  }

  lemma GrownKeepsInv(s: Rm, live: set<Block>, size: int, p: int, pool: Pool)
    requires Inv(s, live) && s.first != NULL && Servable(size) && FirstFit(s.free, size) == |s.free|
    requires PoolOk(pool) && pool.inUse == s.pool.inUse + {p}
    requires p !in s.pool.inUse && p % 8192 == 0 && s.first < p
    ensures Block(p + W, size) !in live
    ensures var rest := Block(p + W + size, R - size);
            Inv(Rm(s.first, Inserted(s.free, Above(s.free, rest.addr), rest), pool), live + {Block(p + W, size)})
  {
    NewPageKeepsShares(s.pool.inUse, s.free, live, p, size);
    AllPagesHold(s, live, size, p);
  }

  lemma AllPagesHold(s: Rm, live: set<Block>, size: int, p: int)
    requires Inv(s, live) && s.first != NULL && Servable(size) && p % 8192 == 0
    requires FirstFit(s.free, size) == |s.free|
    ensures forall q {:trigger HoldsLive(live + {Block(p + W, size)}, q)} ::
              q in s.pool.inUse + {p} ==> HoldsLive(live + {Block(p + W, size)}, q)
  {
    if live == {} { EmptyPageServes(s, live, size); }
    var x := Block(p + W, size);
    BaseIs(p, p + W);
    forall q {:trigger HoldsLive(live + {x}, q)} | q in s.pool.inUse + {p} ensures HoldsLive(live + {x}, q) {
      HoldsMore(live, x, q);
      assert q == p || HoldsLive(live, q);
    }
  }

  lemma NewPageIsAbove(s: Rm, live: set<Block>, size: int, arena: int) returns (p: int, pool: Pool)
    requires Inv(s, live) && s.first != NULL && ValidArena(arena) && Servable(size)
    requires NewPage(s, size, arena).Granted?
    ensures var rest := Block(p + W + size, R - size);
            var free := Inserted(s.free, Above(s.free, rest.addr), rest);
            NewPage(s, size, arena) == Granted(Rm(s.first, free, pool), p + W)
    ensures PoolOk(pool) && pool.inUse == s.pool.inUse + {p}
    ensures p !in s.pool.inUse && p % 8192 == 0 && s.first < p
  {
    GetKeepsPool(s.pool, arena);
    FreeIsNotEmpty(s, live);
    pool, p := Get(s.pool, arena).value.0, Get(s.pool, arena).value.1;
    OnItsPage(s.pool.inUse, s.free, live, 0);
    PagesCompare(p, p + W + size, s.first, s.free[0].addr);
  }

  // ----- returns

  /** kma_free: the pages in use afterwards are exactly those that hold a live
      block, and the rest of the invariant stands. */
  lemma FreeKeepsInv(s: Rm, live: set<Block>, b: Block)
    requires Inv(s, live) && b in live
    ensures Inv(Free(s, b), live - {b})
    ensures forall p :: p in Free(s, b).pool.inUse <==> p in s.pool.inUse && HoldsLive(live - {b}, p)
    ensures forall p :: HoldsLive(live - {b}, p) ==> p in s.pool.inUse
  {
    var pages, rest := s.pool.inUse, live - {b};
    CoalescedKeeps(s, live, b);
    forall p | HoldsLive(rest, p) ensures p in pages {
      var c :| c in rest && Base(c.addr) == p;
      assert c in Members(s.free) + live && Fits(c, pages);
    }
    ClearKeepsInv(s.(free := Coalesced(Returned(s.free, b))), rest, Base(b.addr));
  }

  /** Before empty pages are cleared, only the page of the returned block can be
      without a live block. */
  lemma CoalescedKeeps(s: Rm, live: set<Block>, b: Block)
    requires Inv(s, live) && b in live
    ensures Shares(s.pool.inUse, Coalesced(Returned(s.free, b)), live - {b})
    ensures Sorted(Returned(s.free, b)) && Merged(Coalesced(Returned(s.free, b)))
    ensures Base(b.addr) in s.pool.inUse
    ensures forall p {:trigger HoldsLive(live - {b}, p)} ::
              p in s.pool.inUse && p != Base(b.addr) ==> HoldsLive(live - {b}, p)
  {
    var pages, rest := s.pool.inUse, live - {b};
    ReturnKeepsShares(pages, s.free, live, b);
    CoalesceKeepsShares(pages, Returned(s.free, b), rest);
    assert Fits(b, pages) by { assert b in Members(s.free) + live; }
    forall p {:trigger HoldsLive(rest, p)} | p in pages && p != Base(b.addr) ensures HoldsLive(rest, p) {
      HoldsUnless(live, b, p, s);
    }
  }

  lemma HoldsUnless(live: set<Block>, b: Block, p: int, s: Rm)
    requires Inv(s, live) && b in live && p in s.pool.inUse && p != Base(b.addr)
    ensures HoldsLive(live - {b}, p)
  {
    assert HoldsLive(live, p);
    var c :| c in live && Base(c.addr) == p;
    assert c in live - {b};
  }

  /** On a state where at most page `p` is without a live block, clear_empty_pages
      releases that page if it is, and nothing otherwise. */
  lemma ClearKeepsInv(s: Rm, live: set<Block>, p: int)
    requires PoolOk(s.pool) && Shares(s.pool.inUse, s.free, live) && Merged(s.free)
    requires s.first in s.pool.inUse && p in s.pool.inUse
    requires forall q :: q in s.pool.inUse ==> s.first <= q
    requires forall q {:trigger HoldsLive(live, q)} :: q in s.pool.inUse && q != p ==> HoldsLive(live, q)
    ensures Inv(ClearEmptyPages(s), live)
    ensures forall q :: q in ClearEmptyPages(s).pool.inUse <==> q in s.pool.inUse && HoldsLive(live, q)
  {
    var pages, free := s.pool.inUse, s.free;
    var i := WholePage(free);
    WholeMeansNoLive(pages, free, live, p);
    if i == |free| {
      assert forall b :: b in free ==> b.size != R;
      assert HoldsLive(live, p);
    } else {
      var b := free[i];
      var all := Members(free) + live;
      assert b in all && Fits(b, pages);
      DropPageKeepsTiles(pages, all, b);
      WholeMeansNoLive(pages, free, live, Base(b.addr));
      assert b == Block(p + W, R) && Base(b.addr) == p;
      ReleaseKeepsPool(s.pool, p);
      RemovedKeepsShares(pages, free, live, i);
      var t := ClearEmptyPages(s);
      assert t.free == free[..i] + free[i + 1..];
      FirstAfterRelease(s, live, i);
    }
  }

  lemma RemovedKeepsShares(pages: set<int>, free: seq<Block>, live: set<Block>, i: nat)
    requires Shares(pages, free, live) && Merged(free) && i < |free| && free[i].size == R
    ensures Shares(pages - {Base(free[i].addr)}, free[..i] + free[i + 1..], live)
    ensures Merged(free[..i] + free[i + 1..])
  {
    var b, after := free[i], free[..i] + free[i + 1..];
    var all := Members(free) + live;
    assert b in Members(free) && b !in live;
    DropPageKeepsTiles(pages, all, b);
    MembersOfRemoved(free, i);
    assert Members(after) + live == all - {b};
    forall q | q in pages - {Base(b.addr)} ensures HasTail(after, q) {
      assert HasTail(free, q);
      var t :| t in free && t.End() == q + W + R;
      assert t in Members(after);
      TailOf(after, q, t);
    }
    forall k | 0 <= k < |after| - 1 ensures !Mergeable(after[k], after[k + 1]) {
      if k + 1 == i {
        InOrder(pages, free, live, k, i);
        InOrder(pages, free, live, i, i + 1);
      } else if k + 1 < i {
        assert !Mergeable(free[k], free[k + 1]);
      } else {
        assert !Mergeable(free[k + 1], free[k + 2]);
      }
    }
  }

  /** The base that clear_empty_pages makes first_page is the lowest one left. */
  lemma FirstAfterRelease(s: Rm, live: set<Block>, i: nat)
    requires Shares(s.pool.inUse, s.free, live) && i < |s.free| && s.free[i].size == R && i == WholePage(s.free)
    requires s.first in s.pool.inUse && forall q :: q in s.pool.inUse ==> s.first <= q
    ensures var p := Base(s.free[i].addr);
            var first := ClearEmptyPages(s).first;
            && (first in s.pool.inUse - {p} || (first == NULL && s.pool.inUse - {p} == {}))
            && (forall q :: q in s.pool.inUse - {p} ==> first <= q)
  {
    var pages, free := s.pool.inUse, s.free;
    var p := Base(free[i].addr);
    OnItsPage(pages, free, live, i);
    if p != s.first {
      assert s.first in pages - {p};
    } else {
      assert free[i] in Members(free) + live;
      DropPageKeepsTiles(pages, Members(free) + live, free[i]);
      forall q | q in pages && q != p ensures i + 1 < |free| && Base(free[i + 1].addr) <= q {
        var k := TailIndex(pages, free, live, q);
        var j := TailIndex(pages, free, live, p);
        assert free[j] in Members(free) + live;
        assert free[j] == free[i];
        Positions(free, i, j);
      }
      if i + 1 < |free| {
        OnItsPage(pages, free, live, i + 1);
        assert free[i].addr < free[i + 1].addr && free[i + 1] in Members(free) + live;
        assert Base(free[i + 1].addr) in pages - {p};
      }
    }
  }

  // ----- runs

  datatype Op = Request(size: int, arena: int) | Return(block: Block)

  predicate AllServable(live: set<Block>) {
    forall b :: b in live ==> Servable(b.size)
  }

  /** One step of a client that may ask for any size and returns only what it holds;
      None when the program stops, and once a block of a size outside the design is
      live, after which a header may have been written over other bytes. */
  ghost function Step(s: Rm, live: set<Block>, op: Op): Option<(Rm, set<Block>)> {
    if !AllServable(live) then None
    else
      match op
      case Request(size, arena) =>
        var o := Malloc(s, size, arena);
        if !ValidArena(arena) || !IsInt(size) then None
        else if o.Granted? then Some((o.state, live + {Block(o.ptr, size)}))
        else if o.Refused? then Some((o.state, live))
        else None
      case Return(b) =>
        if b in live then Some((Free(s, b), live - {b})) else None
  }

  /** The state and the live blocks after a run, if the program has not stopped. */
  ghost function Exec(ops: seq<Op>): Option<(Rm, set<Block>)> {
    if ops == [] then Some((EMPTY, {}))
    else
      var before := Exec(ops[..|ops| - 1]);
      if before.None? then None else Step(before.value.0, before.value.1, ops[|ops| - 1])
  }

  lemma StepIsExact(s: Rm, live: set<Block>, op: Op)
    requires Inv(s, live) && Step(s, live, op).Some?
    ensures var (t, after) := Step(s, live, op).value; Inv(t, after) <==> AllServable(after)
  {
    if op.Request? {
      MallocKeepsInv(s, live, op.size, op.arena);
      var o := Malloc(s, op.size, op.arena);
      assert o.Granted? ==> Block(o.ptr, op.size) in live + {Block(o.ptr, op.size)};
    } else {
      FreeKeepsInv(s, live, op.block);
    }
  }

  /** Requests of any size: a reachable state satisfies the invariant if and only if
      every live block has a servable size. */
  lemma {:induction false} RunKeepsInv(ops: seq<Op>)
    requires Exec(ops).Some?
    ensures Inv(Exec(ops).value.0, Exec(ops).value.1) <==> AllServable(Exec(ops).value.1)
  {
    if ops == [] {
      assert Members([]) + {} == {};
    } else {
      RunKeepsInv(ops[..|ops| - 1]);
      var (s, live) := Exec(ops[..|ops| - 1]).value;
      StepIsExact(s, live, ops[|ops| - 1]);
    }
  }

  /** In every reachable state each usable byte of each page in use lies in exactly
      one block, free or live, and every block keeps inside one page. */
  lemma EveryByteHasOneOwner(ops: seq<Op>, p: int, a: int) returns (b: Block)
    requires Exec(ops).Some? && AllServable(Exec(ops).value.1)
    requires p in Exec(ops).value.0.pool.inUse && Usable(p, a)
    ensures var (s, live) := Exec(ops).value;
            && (b in s.free || b in live) && !(b in s.free && b in live)
            && b.addr <= a < b.End() && p + W <= b.addr && b.End() <= p + W + R
            && forall c :: (c in s.free || c in live) && c.addr <= a < c.End() ==> c == b
  {
    RunKeepsInv(ops);
    var (s, live) := Exec(ops).value;
    var all := Members(s.free) + live;
    assert Covered(all, a);
    b :| b in all && b.addr <= a < b.End();
    assert Fits(b, s.pool.inUse);
    assert b in s.free ==> b in Members(s.free);
    BaseIs(p, a);
    BaseIs(Base(b.addr), a);
    forall c | (c in s.free || c in live) && c.addr <= a < c.End() ensures c == b {
      assert c in all;
      assert c == b || !Overlap(b, c);
    }
  }

  /** Once a return has left nothing live, every page is back, the counters agree,
      and first_page is reset. */
  lemma AllPagesComeBack(ops: seq<Op>)
    requires Exec(ops).Some? && ops != [] && ops[|ops| - 1].Return?
    requires Exec(ops).value.1 == {}
    ensures var s := Exec(ops).value.0;
            && s.first == NULL && s.free == [] && s.pool.inUse == {}
            && s.pool.requested == s.pool.freed
  {
    RunKeepsInv(ops[..|ops| - 1]);
    var (s, live) := Exec(ops[..|ops| - 1]).value;
    var b := ops[|ops| - 1].block;
    FreeKeepsInv(s, live, b);
    var t := Free(s, b);
    assert forall p :: p in t.pool.inUse ==> HoldsLive({}, p);
    assert t.pool.inUse == {};
    NothingWithoutPages(t, {});
  }

  /** With nothing live at most the first page is in use; and it is, if and only if
      the last call was a refused request. */
  lemma EmptyPageHeld(ops: seq<Op>)
    requires Exec(ops).Some? && Exec(ops).value.1 == {}
    ensures var s := Exec(ops).value.0; s.pool.inUse == if s.first == NULL then {} else {s.first}
    ensures Exec(ops).value.0.pool.inUse == {} <==> ops == [] || ops[|ops| - 1].Return?
  {
    RunKeepsInv(ops);
    var (s, live) := Exec(ops).value;
    forall p | p in s.pool.inUse ensures p == s.first {
      assert p == s.first || HoldsLive(live, p);
    }
    if ops != [] {
      if ops[|ops| - 1].Return? {
        AllPagesComeBack(ops);
      } else {
        RefusedHoldsPage(ops);
      }
    }
  }

  lemma RefusedHoldsPage(ops: seq<Op>)
    requires Exec(ops).Some? && Exec(ops).value.1 == {} && ops != [] && ops[|ops| - 1].Request?
    ensures Exec(ops).value.0.first != NULL && Exec(ops).value.0.first in Exec(ops).value.0.pool.inUse
  {
    var before := ops[..|ops| - 1];
    RunKeepsInv(before);
    var (s, live) := Exec(before).value;
    NothingGranted(s, live, ops[|ops| - 1]);
  }

  lemma RefusedIs(s: Rm, size: int, arena: int)
    requires Malloc(s, size, arena).Refused?
    ensures s.first != NULL ==> Malloc(s, size, arena).state == s
    ensures s.first == NULL ==> Get(s.pool, arena).Some?
    ensures s.first == NULL ==>
              var (pool, p) := Get(s.pool, arena).value;
              Malloc(s, size, arena).state == Rm(p, [Block(p + W, R)], pool)
  {
  }

  lemma NothingGranted(s: Rm, live: set<Block>, op: Op)
    requires Inv(s, live) && op.Request? && Step(s, live, op).Some? && Step(s, live, op).value.1 == {}
    ensures var t := Step(s, live, op).value.0; t.first != NULL && t.first in t.pool.inUse
  {
    assert forall b: Block {:trigger live + {b}} :: b in live + {b};
    RefusedIs(s, op.size, op.arena);
    if s.first == NULL { FirstPage(s, live, op.arena); }
  }

  /** A first request of 8185 bytes is refused, and yet a page stays in use. */
  lemma RefusedExample()
    ensures var ops := [Request(8185, 8192)];
            Exec(ops).Some? && Exec(ops).value.1 == {} && Exec(ops).value.0.pool.inUse == {8192}
  {
    var ops := [Request(8185, 8192)];
    SlotsAreThePool(8192);
    assert ops[..0] == [] && Slots(8192)[0] == 8192;
    assert {} + {8192} == {8192};
  }

  /** A request of 8180 bytes is granted, but leaves four bytes for the header of the
      rest: the invariant is lost. */
  lemma UnservableExample()
    ensures var ops := [Request(8180, 8192)];
            && Exec(ops).Some? && Exec(ops).value.1 == {Block(16388, 8180)}
            && !Inv(Exec(ops).value.0, Exec(ops).value.1)
  {
    var ops := [Request(8180, 8192)];
    SlotsAreThePool(8192);
    var s := Slots(8192);
    assert ops[..0] == [] && s[0] == 8192 && s[1..][0] == 16384;
    var b := Block(16388, 8180);
    assert {} + {b} == {b} && b in {b};
    assert FirstFit([Block(8196, R)], 8180) == 1;
    assert Exec(ops).Some? && Exec(ops).value.1 == {b};
    RunKeepsInv(ops);
  }

  lemma RequestOnEmpty(arena: int, size: int)
    requires ValidArena(arena) && Servable(size)
    ensures Malloc(EMPTY, size, arena) ==
            Granted(Rm(arena, [Block(arena + W + size, R - size)],
                       Pool(arena, Slots(arena)[1..], {arena}, 1, 0)), arena + W)
  {
    SlotsAreThePool(arena);
    assert Slots(arena)[0] == arena;
    assert {} + {arena} == {arena};
  }

  // A run after which new_page faults although only one page is in use: two
  // pages, the lower one returned, then a request that needs a page.

  const ONE_PAGE := Rm(8192, [Block(16196, 184)], Pool(8192, Slots(8192)[1..], {8192}, 1, 0))

  const TWO_PAGES := Rm(8192, [Block(16196, 184), Block(24388, 184)],
                        Pool(8192, Slots(8192)[2..], {8192, 16384}, 2, 0))

  const UPPER_PAGE := Rm(16384, [Block(24388, 184)],
                         Pool(8192, [8192] + Slots(8192)[2..], {16384}, 2, 1))

  lemma SecondPage()
    ensures Malloc(ONE_PAGE, 8000, 8192) == Granted(TWO_PAGES, 16388)
  {
    SlotsAreThePool(8192);
    var s := Slots(8192);
    assert s[1..][0] == 16384 && s[1..][1..] == s[2..];
    assert {8192} + {16384} == {8192, 16384};
    assert FirstFit(ONE_PAGE.free, 8000) == 1 && Above(ONE_PAGE.free, 24388) == 1;
    assert Inserted(ONE_PAGE.free, 1, Block(24388, 184)) == TWO_PAGES.free;
  }

  lemma LowerPageReturned()
    ensures Free(TWO_PAGES, Block(8196, 8000)) == UPPER_PAGE
  {
    var f := [Block(8196, 8000), Block(16196, 184), Block(24388, 184)];
    var g := [Block(8196, 8184), Block(24388, 184)];
    assert Returned(TWO_PAGES.free, Block(8196, 8000)) == f;
    assert [Block(8196, 8184)] + f[2..] == g;
    assert Coalesced(f) == Coalesced(g);
    assert Coalesced(g[1..]) == g[1..] && [g[0]] + g[1..] == g;
    assert WholePage(g) == 0 && g[..0] + g[1..] == [Block(24388, 184)];
    assert {8192, 16384} - {8192} == {16384};
  }

  lemma TwoRequests()
    ensures var r := Request(8000, 8192); Exec([r, r]) == Some((TWO_PAGES, {Block(8196, 8000), Block(16388, 8000)}))
  {
    var r := Request(8000, 8192);
    var x, y := Block(8196, 8000), Block(16388, 8000);
    RequestOnEmpty(8192, 8000);
    assert [r][..0] == [] && {} + {x} == {x};
    assert Exec([r][..0]) == Some((EMPTY, {}));
    assert Exec([r]) == Some((ONE_PAGE, {x}));
    SecondPage();
    assert [r, r][..1] == [r] && {x} + {y} == {x, y};
  }

  lemma FaultExample()
    ensures var ops := [Request(8000, 8192), Request(8000, 8192), Return(Block(8196, 8000))];
            Exec(ops) == Some((UPPER_PAGE, {Block(16388, 8000)}))
    ensures UPPER_PAGE.pool.inUse == {16384} && Malloc(UPPER_PAGE, 8000, 8192).Faulted?
  {
    var r, b := Request(8000, 8192), Return(Block(8196, 8000));
    var x, y := Block(8196, 8000), Block(16388, 8000);
    TwoRequests();
    LowerPageReturned();
    assert [r, r, b][..2] == [r, r] && {x, y} - {x} == {y};
    assert FirstFit(UPPER_PAGE.free, 8000) == 1;
  }
}
