/** kma_bud.c as it works: page headers and block headers updated in memory, the
    nine lists of a page threaded through its free blocks.

    Every public method is proved to do to `Abs()` what the functions of
    BuddyModel say. */
module Buddies {
  import opened Wrappers
  import opened PagePools
  import opened BuddyArithmetic
  import opened BuddyModel
  import opened BuddyProof
  import opened BuddyRuns
  import opened BuddyMemory

  /** What the caller of kma_malloc sees. */
  datatype Reply = Ptr(addr: int) | NoPtr | Stop

  class Buddy {
    const pool: PagePool
    var firstPage: int
    var ph: map<int, PageHeader>
    var hdr: map<int, AllocHeader>
    ghost var pages: seq<Page>
    ghost var live: set<Req>

    ghost function Abs(): Bud
      reads this, pool
    {
      Bud(pages, pool.m)
    }

    /** Memory holds the chain and the lists. */
    ghost predicate Stored()
      reads this
    {
      ChainStored(ph, firstPage, pages) && AllStored(ph, hdr, pages)
    }

    ghost predicate Valid()
      reads this, pool
    {
      pool.Valid() && Stored() && Inv(Abs(), live)
    }

    constructor ()
      ensures Valid() && Abs() == EMPTY && live == {} && fresh(pool)
    {
      pool := new PagePool();
      firstPage, ph, hdr := NULL, map[], map[];
      pages, live := [], {};
    }

    /** free_headers.buffer_k.first_block = a */
    method SetFirst(page: int, k: nat, a: int)
      requires page in ph && |ph[page].first| == LAST + 1 && k <= LAST
      modifies this`ph
      ensures ph == WithFirst(old(ph), page, k, a)
    {
      ph := ph[page := ph[page].(first := ph[page].first[k := a])];
    }

    /** split_buffer on the list of class `k`. */
    method SplitBuffer(page: int, k: nat, ghost lists: Lists)
      requires Holds(ph, hdr, page, lists) && Spread(page, lists)
      requires 0 < k <= LAST && lists[k] != [] && lists[k - 1] == []
      modifies this`ph, this`hdr
      ensures Holds(ph, hdr, page, Split(lists, k))
      ensures Elsewhere(old(ph), old(hdr), ph, hdr, page)
    {
      assert Threads(hdr, k, lists[k]) && LinkOk(hdr, k, lists[k], 0);
      WriteHalves(page, k);
      SplitHolds(old(hdr), hdr, page, lists, k);
    }

    /** The writes of split_buffer. A block is split only while the list below is
        empty, so the walk to the end of that list is never taken. */
    method WriteHalves(page: int, k: nat)
      requires page in ph && |ph[page].first| == LAST + 1 && 0 < k <= LAST && ph[page].first[k - 1] == NULL
      requires ph[page].first[k] in hdr && hdr[ph[page].first[k]].size == Size(k)
      modifies this`ph, this`hdr
      ensures var a, s := old(ph)[page].first[k], Size(k - 1);
              && ph == WithFirst(WithFirst(old(ph), page, k, old(hdr)[a].next), page, k - 1, a)
              && hdr == old(hdr)[a + s := AllocHeader(s, NULL)][a := AllocHeader(s, a + s)]
    {
      HalfSize(k);
      var original := ph[page].first[k];
      SetFirst(page, k, hdr[original].next);
      var newSize := hdr[original].size / 2;
      var newBuffer := original + newSize;
      hdr := hdr[newBuffer := AllocHeader(newSize, NULL)];
      hdr := hdr[original := AllocHeader(newSize, newBuffer)];
      var below := Class(newSize);
      ClassOfSize(k - 1);
      if ph[page].first[below] == NULL {
        SetFirst(page, below, original);
      } else {
        assert false;
      }
    }

    /** `i` splits, from class `k` down. */
    method SplitDown(page: int, k: nat, i: nat, ghost lists: Lists) returns (ghost now: Lists)
      requires Holds(ph, hdr, page, lists) && Spread(page, lists)
      requires i <= k <= LAST && lists[k] != [] && forall m :: k - i <= m < k ==> lists[m] == []
      modifies this`ph, this`hdr
      ensures Holds(ph, hdr, page, now) && Elsewhere(old(ph), old(hdr), ph, hdr, page)
      ensures now[k - i] != [] && Take(now, k - i, k - i) == Take(lists, k, k - i)
    {
      var left, at := i, k;
      now := lists;
      while left > 0
        invariant 0 <= left <= at <= LAST && at - left == k - i
        invariant now[at] != [] && forall m :: at - left <= m < at ==> now[m] == []
        invariant Take(now, at, k - i) == Take(lists, k, k - i)
        invariant Spread(page, now) && Holds(ph, hdr, page, now)
        invariant Elsewhere(old(ph), old(hdr), ph, hdr, page)
      {
        label S:
        SplitBuffer(page, at, now);
        ElsewhereTwice(old(ph), old(hdr), old@S(ph), old@S(hdr), ph, hdr, page);
        SplitSpread(page, now, at);
        now := Split(now, at);
        left, at := left - 1, at - 1;
      }
    }

    /** The first block of a list taken off it. */
    method TakeFirst(page: int, k: nat, ghost lists: Lists) returns (a: int)
      requires Holds(ph, hdr, page, lists) && k <= LAST && lists[k] != []
      modifies this`ph
      ensures Holds(ph, hdr, page, Take(lists, k, k).0) && a == Take(lists, k, k).1
      ensures Elsewhere(old(ph), hdr, ph, hdr, page)
    {
      assert Threads(hdr, k, lists[k]) && LinkOk(hdr, k, lists[k], 0);
      a := ph[page].first[k];
      TailThreads(hdr, k, lists[k]);
      SetFirst(page, k, hdr[a].next);
    }

    /** Splits `i` times, then unlinks the first block of the list reached. */
    method TakeBlock(page: int, k: nat, i: nat, ghost lists: Lists) returns (a: int)
      requires Holds(ph, hdr, page, lists) && Spread(page, lists)
      requires i <= k <= LAST && lists[k] != [] && forall m :: k - i <= m < k ==> lists[m] == []
      modifies this`ph, this`hdr
      ensures Holds(ph, hdr, page, Take(lists, k, k - i).0) && a == Take(lists, k, k - i).1
      ensures Elsewhere(old(ph), old(hdr), ph, hdr, page)
    {
      ghost var now := SplitDown(page, k, i, lists);
      ghost var ph1, hdr1 := ph, hdr;
      a := TakeFirst(page, k - i, now);
      ElsewhereTwice(old(ph), old(hdr), ph1, hdr1, ph, hdr, page);
    }

    /** What the call that gave this reply came to. */
    ghost function Result(r: Reply): Outcome
      reads this, pool
    {
      match r
      case Ptr(a) => Granted(Abs(), a)
      case NoPtr => Refused(Abs())
      case Stop => Exhausted
    }

    /** This state and reply are the outcome `o`. */
    ghost predicate Does(o: Outcome, r: Reply)
      reads this, pool
    {
      o == Result(r) && (r.Stop? || (pool.Valid() && Stored()))
    }

    /** init_page: a page whose only block is the page itself. */
    method InitPage(arena: int) returns (p: Option<int>)
      requires pool.Valid() && ValidArena(arena)
      modifies this`ph, this`hdr, pool
      ensures Get(old(pool.m), arena).None? ==> p == None
      ensures Get(old(pool.m), arena).Some? ==>
                var (m, page) := Get(old(pool.m), arena).value;
                && pool.Valid() && pool.m == m && p == Some(page)
                && ph == old(ph)[page := PageHeader(NULL, 0, [NULL, NULL, NULL, NULL, NULL, NULL, NULL, NULL, page])]
                && hdr == old(hdr)[page := AllocHeader(PAGESIZE, NULL)]
    {
      p := pool.GetPage(arena);
      if p == None {
        return;
      }
      var page := p.value;
      ph := ph[page := PageHeader(NULL, 0, [NULL, NULL, NULL, NULL, NULL, NULL, NULL, NULL, NULL])];
      hdr := hdr[page := AllocHeader(PAGESIZE, NULL)];
      SetFirst(page, LAST, page);
      assert ph[page].first == [NULL, NULL, NULL, NULL, NULL, NULL, NULL, NULL, page];
    }

    /** The search of get_free_buffer: all pages for one class, then the next class.
        `i` counts the classes passed. */
    method Search(size: int, ghost c: nat) returns (page: int, i: nat, ghost n: nat)
      requires Stored() && Roomy(pages, pool.m.inUse) && c <= LAST && size == SearchSize(c)
      ensures page == NULL ==> Find(pages, c).None?
      ensures page != NULL ==> n < |pages| && page == pages[n].base && Find(pages, c) == Some((n, c + i))
    {
      var searchSize := size;
      page, i, n := firstPage, 0, 0;
      SearchSizes(c);
      while searchSize <= PAGESIZE
        invariant c + i <= LAST + 1 && searchSize == SearchSize(c + i)
        invariant searchSize <= PAGESIZE <==> c + i <= LAST
        invariant NoneBelow(pages, c, c + i)
        decreases LAST + 1 - c - i
      {
        SearchSizes(c + i);
        page, n := SearchPages(searchSize);
        if page != NULL {
          FindIs(pages, c, n, c + i);
          return;
        }
        NoneHere(pages, c, c + i);
        i, searchSize := i + 1, searchSize * 2;
      }
      page := NULL;
      NoneFound(pages, c);
    }

    /** The first page with a block on the list that serves `searchSize`. */
    method SearchPages(searchSize: int) returns (page: int, ghost n: nat)
      requires Stored() && Roomy(pages, pool.m.inUse)
      ensures n <= |pages| && page == BaseAt(pages, n) && (page == NULL <==> n == |pages|)
      ensures forall j :: 0 <= j < n ==> pages[j].lists[Class(searchSize)] == []
      ensures n < |pages| ==> pages[n].lists[Class(searchSize)] != []
    {
      page, n := firstPage, 0;
      while page != NULL && ph[page].first[Class(searchSize)] == NULL
        invariant n <= |pages| && page == BaseAt(pages, n)
        invariant forall j :: 0 <= j < n ==> pages[j].lists[Class(searchSize)] == []
        decreases |pages| - n
      {
        HeadIsNull(ph, hdr, pages[n], Class(searchSize));
        assert NextOk(ph, pages, n);
        page, n := ph[page].next, n + 1;
      }
      if page != NULL {
        HeadIsNull(ph, hdr, pages[n], Class(searchSize));
      }
    }

    method LastPage() returns (last: int)
      requires Stored() && Roomy(pages, pool.m.inUse) && pages != [] && pool.Valid()
      ensures last == pages[|pages| - 1].base
    {
      var page, n := firstPage, 0;
      last := NULL;
      BasesAreNotNull(pages, pool.m);
      while page != NULL
        invariant 0 <= n <= |pages| && page == BaseAt(pages, n) && (n > 0 ==> last == pages[n - 1].base)
        decreases |pages| - n
      {
        assert NextOk(ph, pages, n);
        last, page, n := page, ph[page].next, n + 1;
      }
    }

    /** Splits a new page down to a block for its header and unlinks that block. */
    method TakeHeaderBlock(page: int)
      requires page > 0 && page in ph && ph[page].first == [NULL, NULL, NULL, NULL, NULL, NULL, NULL, NULL, page]
      requires page in hdr && hdr[page] == AllocHeader(PAGESIZE, NULL)
      modifies this`ph, this`hdr
      ensures Holds(ph, hdr, page, FreshLists(page)) && Elsewhere(old(ph), old(hdr), ph, hdr, page)
    {
      WholeHolds(ph, hdr, page);
      var k, i := Class(P), 0;
      while ph[page].first[k] == NULL
        invariant Class(P) <= k <= LAST && i == k - Class(P)
        decreases LAST - k
        modifies {}
      {
        k, i := k + 1, i + 1;
      }
      var header := TakeBlock(page, k, i, Whole(page));
    }

    /** A page just taken, linked behind the last one, its header block allocated. */
    method AppendPage(page: int, last: int, ghost inUse: set<int>)
      requires pages != [] && last == pages[|pages| - 1].base && last in ph
      requires Roomy(pages, inUse) && page !in inUse && page > 0 && page % 8192 == 0
      requires page in ph && ph[page] == PageHeader(NULL, 0, [NULL, NULL, NULL, NULL, NULL, NULL, NULL, NULL, page])
      requires page in hdr && hdr[page] == AllocHeader(PAGESIZE, NULL)
      requires Stored()
      modifies this`ph, this`hdr, this`pages
      ensures Stored() && pages == old(pages) + [Page(page, 0, FreshLists(page))]
    {
      ph := ph[last := ph[last].(next := page)];
      TakeHeaderBlock(page);
      PageAppended(old(ph), old(hdr), ph, hdr, firstPage, pages, inUse, Page(page, 0, FreshLists(page)));
      pages := pages + [Page(page, 0, FreshLists(page))];
    }

    /** A page behind the last one, its header block allocated. */
    method AddPage(arena: int) returns (p: Option<int>)
      requires pool.Valid() && ValidArena(arena) && Stored() && Roomy(pages, pool.m.inUse) && pages != []
      modifies this`ph, this`hdr, this`pages, pool
      ensures Get(old(pool.m), arena).None? ==> p == None
      ensures Get(old(pool.m), arena).Some? ==>
                var (m, page) := Get(old(pool.m), arena).value;
                && pool.Valid() && pool.m == m && p == Some(page)
                && Stored() && pages == old(pages) + [Page(page, 0, FreshLists(page))]
    {
      GetKeepsPool(pool.m, arena);
      ghost var inUse := pool.m.inUse;
      var last := LastPage();
      p := InitPage(arena);
      if p == None {
        return;
      }
      PageSetAside(old(ph), old(hdr), ph, hdr, firstPage, pages, inUse, p.value);
      AppendPage(p.value, last, inUse);
    }

    /** page_header->used += 1 */
    method CountOne(page: int)
      requires page in ph
      modifies this`ph
      ensures ph == old(ph)[page := old(ph)[page].(used := old(ph)[page].used + 1)]
    {
      ph := ph[page := ph[page].(used := ph[page].used + 1)];
    }

    /** A block of class `c` cut from the list found, `i` classes up. */
    method ServeFrom(page: int, c: nat, i: nat, ghost n: nat) returns (a: int)
      requires Stored() && Roomy(pages, pool.m.inUse) && c + i <= LAST
      requires n < |pages| && page == pages[n].base
      requires pages[n].lists[c + i] != [] && forall m :: c <= m < c + i ==> pages[n].lists[m] == []
      modifies this`ph, this`hdr, this`pages
      ensures Stored() && Served(old(Abs()), n, c + i, c) == Granted(Abs(), a)
    {
      ghost var pg := pages[n];
      assert PageStored(ph, hdr, pg);
      a := TakeBlock(page, c + i, i, pg.lists);
      ghost var ph1 := ph;
      CountOne(page);
      ghost var served := Page(pg.base, pg.used + 1, Take(pg.lists, c + i, c).0);
      PageChanged(old(ph), old(hdr), ph1, ph, hdr, firstPage, pages, pool.m.inUse, n, served);
      pages := pages[n := served];
    }

    /** A new page handed out whole: its lists are cleared. */
    method TakeWholePage(page: int)
      requires Stored() && Roomy(pages, pool.m.inUse) && pages != [] && page == pages[|pages| - 1].base
      requires pages[|pages| - 1].used == 0
      modifies this`ph, this`pages
      ensures Stored() && pages == old(pages)[|old(pages)| - 1 := Page(page, 1, NO_BLOCKS)]
    {
      ghost var n := |pages| - 1;
      assert PageStored(ph, hdr, pages[n]);
      ph := ph[page := ph[page].(first := [NULL, NULL, NULL, NULL, NULL, NULL, NULL, NULL, NULL])];
      ghost var ph1 := ph;
      CountOne(page);
      NothingHeld(ph1, hdr, page);
      PageChanged(old(ph), old(hdr), ph1, ph, hdr, firstPage, pages, pool.m.inUse, n, Page(page, 1, NO_BLOCKS));
      pages := pages[n := Page(page, 1, NO_BLOCKS)];
    }

    /** The part of get_free_buffer that cuts a block from the pages there are. */
    method ServeFromPages(size: int) returns (found: Option<int>)
      requires Stored() && Roomy(pages, pool.m.inUse) && BasesNotNull(pages) && Admitted(size)
      modifies this`ph, this`hdr, this`pages
      ensures found.None? ==> Find(old(pages), Cut(size)).None? && Stored() && pages == old(pages)
      ensures found.Some? ==> Find(old(pages), Cut(size)).Some?
      ensures found.Some? ==> Stored() && Again(old(Abs()), size) == Granted(Abs(), found.value)
    {
      RequestSize(size);
      var searchSize := RoundUp(size + A);
      var page, i, n := Search(searchSize, Cut(size));
      if page == NULL {
        return None;
      }
      var a := ServeFrom(page, Class(searchSize), i, n);
      found := Some(a);
    }

    method GetFreeBuffer(size: int, arena: int) returns (r: Reply)
      requires pool.Valid() && ValidArena(arena) && Stored() && Roomy(pages, pool.m.inUse) && pages != []
      requires Admitted(size)
      modifies this`ph, this`hdr, this`pages, pool
      ensures Does(GetFree(old(Abs()), size, arena), r)
      decreases Find(pages, Cut(size)).None?, 1
    {
      BasesAreNotNull(pages, pool.m);
      var found := ServeFromPages(size);
      if found.Some? {
        return Ptr(found.value);
      }
      r := Grow(size, arena);
    }

    /** get_free_buffer once no page has a block that fits. */
    method Grow(size: int, arena: int) returns (r: Reply)
      requires pool.Valid() && ValidArena(arena) && Stored() && Roomy(pages, pool.m.inUse) && pages != []
      requires Admitted(size) && Find(pages, Cut(size)).None?
      modifies this`ph, this`hdr, this`pages, pool
      ensures Does(GetFree(old(Abs()), size, arena), r)
      decreases true, 0
    {
      GetKeepsPool(pool.m, arena);
      ghost var s := Abs();
      var added := AddPage(arena);
      if added == None {
        return Stop;
      }
      var page := added.value;
      AppendedRoomy(s.pages, s.pool.inUse, page);
      GetFreeAdds(s, size, arena, Abs(), page);
      r := ServeAdded(size, arena, page);
    }

    /** The request served from the page just added: the whole page, or a recursive call. */
    method ServeAdded(size: int, arena: int, page: int) returns (r: Reply)
      requires pool.Valid() && ValidArena(arena) && Stored() && Roomy(pages, pool.m.inUse)
      requires pages != [] && pages[|pages| - 1] == Page(page, 0, FreshLists(page))
      requires Admitted(size) && (Cut(size) < LAST ==> Find(pages, Cut(size)).Some?)
      modifies this`ph, this`hdr, this`pages, pool
      ensures Cut(size) == LAST ==>
                var whole := old(pages)[|old(pages)| - 1 := Page(page, 1, NO_BLOCKS)];
                Does(Granted(old(Abs()).(pages := whole), page + A + P), r)
      ensures Cut(size) < LAST ==> Does(GetFree(old(Abs()), size, arena), r)
      decreases false, 2
    {
      RequestSize(size);
      if RoundUp(size + A) == PAGESIZE {
        TakeWholePage(page);
        return Ptr(page + A + P);
      }
      r := GetFreeBuffer(size, arena);
    }

    /** kma_malloc, as far as the chain and the pages are concerned. The first page
        gets its header block by a call of kma_malloc itself. */
    method Serve(size: int, arena: int) returns (r: Reply)
      requires pool.Valid() && ValidArena(arena) && Stored() && Roomy(pages, pool.m.inUse) && IsInt(size)
      requires pages == [] ==> pool.m.arena == NULL
      modifies this`firstPage, this`ph, this`hdr, this`pages, pool
      ensures Does(BuddyModel.Malloc(old(Abs()), size, arena), r)
      decreases pages == [], 1
    {
      AdmittedIsTest(size);
      if AsUnsigned(size + A + P) > PAGESIZE {
        return NoPtr;
      }
      BasesAreNotNull(pages, pool.m);
      if firstPage == NULL {
        StartChain(arena);
      }
      r := GetFreeBuffer(size, arena);
    }

    /** The first page; its header is allocated by a call of kma_malloc, whose
        count is taken back. */
    method StartChain(arena: int)
      requires pool.Valid() && ValidArena(arena) && pages == [] && pool.m.arena == NULL
      modifies this`firstPage, this`ph, this`hdr, this`pages, pool
      ensures Get(old(pool.m), arena) == Some((pool.m, firstPage))
      ensures pages == [Page(firstPage, 0, FreshLists(firstPage))]
      ensures pool.Valid() && Stored() && Roomy(pages, pool.m.inUse)
      decreases true, 0
    {
      GetKeepsPool(pool.m, arena);
      OpenFirstPage(arena);
      ServeHeader(arena);
      ResetCount();
      FirstPageRoomy(firstPage, pool.m.inUse);
    }

    method ServeHeader(arena: int)
      requires pool.Valid() && ValidArena(arena) && Stored() && Roomy(pages, pool.m.inUse)
      requires pages == [Page(firstPage, 0, Whole(firstPage))]
      modifies this`firstPage, this`ph, this`hdr, this`pages, pool
      ensures pool.Valid() && Stored()
      ensures firstPage == old(firstPage) && Abs() == Bud([Page(firstPage, 1, FreshLists(firstPage))], old(pool.m))
      decreases false, 2
    {
      HeaderIsServed(firstPage, pool.m, arena);
      var header := Serve(P, arena);
    }

    method ResetCount()
      requires Stored() && |pages| == 1
      modifies this`ph, this`pages
      ensures Stored() && pages == [old(pages)[0].(used := 0)]
    {
      assert PageStored(ph, hdr, pages[0]) && NextOk(ph, pages, 0);
      ph := ph[firstPage := ph[firstPage].(used := 0)];
      pages := [pages[0].(used := 0)];
      assert NextOk(ph, pages, 0);
    }

    /** first_page = init_page() */
    method OpenFirstPage(arena: int)
      requires pool.Valid() && ValidArena(arena) && pages == [] && pool.m.arena == NULL
      modifies this`firstPage, this`ph, this`hdr, this`pages, pool
      ensures pool.Valid() && Get(old(pool.m), arena) == Some((pool.m, firstPage))
      ensures pages == [Page(firstPage, 0, Whole(firstPage))] && Stored() && Roomy(pages, pool.m.inUse)
    {
      GetKeepsPool(pool.m, arena);
      var page := InitPage(arena);
      firstPage := page.value;
      WholeHolds(ph, hdr, firstPage);
      pages := [Page(firstPage, 0, Whole(firstPage))];
      assert NextOk(ph, pages, 0);
    }

    /** kma_malloc */
    method Malloc(size: int, arena: int) returns (r: Reply)
      requires Valid() && ValidArena(arena) && IsInt(size)
      modifies this, pool
      ensures Does(BuddyModel.Malloc(old(Abs()), size, arena), r)
      ensures r.Ptr? || r.NoPtr? ==> Valid()
      ensures live == if r.Ptr? then old(live) + {Req(r.addr, size)} else old(live)
    {
      ghost var was := live;
      MallocKeepsInv(Abs(), live, size, arena);
      InvIsRoomy(Abs(), live);
      if pages == [] { NoPagesNoRequests(Abs(), live); }
      r := Serve(size, arena);
      if r.Ptr? {
        live := was + {Req(r.addr, size)};
      }
    }

    // ----- kma_free

    /** get_buddy */
    method GetBuddy(alloc: int) returns (b: int)
      requires alloc in hdr && hdr[alloc].size > 0
      ensures forall k :: hdr[alloc].size == Size(k) ==> b == BuddyOf(k, alloc)
    {
      var diff := alloc - Base(alloc);
      if diff / hdr[alloc].size % 2 == 1 {
        b := alloc - hdr[alloc].size;
      } else {
        b := alloc + hdr[alloc].size;
      }
    }

    /** The walk of kma_free along a list whose head is not above `a`: links `a`
        before the first block above it, if there is one. */
    method WalkAndLink(page: int, k: nat, a: int, ghost lists: Lists)
      requires Holds(ph, hdr, page, lists) && Spread(page, lists)
      requires k < LAST && a > 0 && Clear(lists, a, Size(k)) && lists[k] != [] && lists[k][0] <= a
      requires a in hdr && hdr[a] == AllocHeader(Size(k), NULL)
      modifies this`hdr
      ensures Holds(ph, hdr, page, lists[k := Slotted(lists[k], a)])
      ensures forall x :: x in old(hdr) && x != a && !Listed(lists, k, x) ==> x in hdr && hdr[x] == old(hdr)[x]
    {
      ghost var l := lists[k];
      assert Threads(hdr, k, l) && LinkOk(hdr, k, l, 0);
      var alloc := ph[page].first[k];
      ghost var j := 0;
      while hdr[alloc].next != NULL
        invariant hdr == old(hdr) && 0 <= j < |l| && j < Above(l, a) && alloc == l[j] && LinkOk(hdr, k, l, j)
        decreases |l| - j
      {
        assert j + 1 < |l| && LinkOk(hdr, k, l, j + 1);
        if hdr[alloc].next > a {
          assert Listed(lists, k, alloc);
          NotListed(lists, k, a, k, alloc);
          hdr := hdr[a := hdr[a].(next := hdr[alloc].next)];
          hdr := hdr[alloc := hdr[alloc].(next := a)];
          MiddleHolds(old(hdr), hdr, page, lists, k, a);
          return;
        }
        alloc, j := hdr[alloc].next, j + 1;
      }
      LastOfList(hdr, k, l, j);
      assert Slotted(l, a) == l && lists[k := l] == lists;
    }

    /** The header of a freed block. */
    method WriteFreed(page: int, k: nat, a: int, ghost lists: Lists)
      requires k < LAST && Holds(ph, hdr, page, lists) && Clear(lists, a, Size(k)) && page <= a < page + 8192
      modifies this`hdr
      ensures hdr == old(hdr)[a := AllocHeader(Size(k), NULL)]
      ensures Holds(ph, hdr, page, lists) && OffPage(old(hdr), hdr, page)
    {
      hdr := hdr[a := AllocHeader(Size(k), NULL)];
      LostHolds(old(hdr), hdr, page, lists, k, a, AllocHeader(Size(k), NULL));
    }

    /** A freed block becomes the head of its list. */
    method PutFirst(page: int, k: nat, a: int, ghost lists: Lists)
      requires k < LAST && a > 0 && Holds(ph, hdr, page, lists) && Spread(page, lists) && page <= a < page + 8192
      requires Clear(lists, a, Size(k)) && a in hdr && hdr[a] == AllocHeader(Size(k), NULL)
      modifies this`ph, this`hdr
      ensures Holds(ph, hdr, page, lists[k := [a] + lists[k]]) && Elsewhere(old(ph), old(hdr), ph, hdr, page)
    {
      hdr := hdr[a := hdr[a].(next := ph[page].first[k])];
      SetFirst(page, k, a);
      HeadHolds(old(hdr), hdr, page, lists, k, a);
    }

    /** The insertion of kma_free; `walked` when the block did not become a head. */
    method LinkFreed(page: int, k: nat, a: int, ghost lists: Lists) returns (walked: bool)
      requires k < LAST && a > 0 && Holds(ph, hdr, page, lists) && Freeable(page, lists, k, a)
      modifies this`ph, this`hdr
      ensures Holds(ph, hdr, page, Linked(lists, k, a)) && Elsewhere(old(ph), old(hdr), ph, hdr, page)
      ensures walked <==> !(lists[k] == [] || lists[k][0] > a)
    {
      OkIsSpread(page, lists);
      HeadOf(ph, hdr, page, lists, k);
      SizeIsPositive(k);
      var alloc := ph[page].first[k];
      WriteFreed(page, k, a, lists);
      label S:
      if alloc == NULL || alloc > a {
        PutFirst(page, k, a, lists);
        ElsewhereAfter(old(ph), old(hdr), old@S(hdr), ph, hdr, page);
        return false;
      }
      WalkAndLink(page, k, a, lists);
      ListedOnPage(page, lists, k);
      return true;
    }

    /** Where coalesce finds a block whose successor on its list is its buddy. */
    method FindPair(page: int, ghost lists: Lists) returns (found: bool, k: nat, alloc: int)
      requires Holds(ph, hdr, page, lists) && ListsOk(page, lists)
      ensures !found ==> MergeClass(lists, 0) == LAST
      ensures found ==> k == MergeClass(lists, 0) < LAST && alloc == lists[k][MergeAt(lists[k], k)]
    {
      k := 0;
      while k <= LAST
        invariant k <= LAST + 1
        invariant forall j :: 0 <= j < k ==> MergeAt(lists[j], j) == |lists[j]|
      {
        found, alloc := FindPairOn(page, k, lists[k]);
        if found {
          assert Listed(lists, k, alloc);
          MergeClassIs(lists, k);
          return;
        }
        k := k + 1;
      }
      MergeClassIs(lists, LAST);
      return false, k, NULL;
    }

    method FindPairOn(page: int, k: nat, ghost l: seq<int>) returns (found: bool, alloc: int)
      requires k <= LAST && page in ph && |ph[page].first| == LAST + 1 && ph[page].first[k] == At(l, 0)
      requires Threads(hdr, k, l)
      ensures !found ==> MergeAt(l, k) == |l|
      ensures found ==> MergeAt(l, k) < |l| && alloc == l[MergeAt(l, k)]
    {
      alloc := ph[page].first[k];
      ghost var j := 0;
      while alloc != NULL
        invariant 0 <= j <= |l| && alloc == At(l, j)
        invariant forall i :: 0 <= i < j && i + 1 < |l| ==> l[i + 1] != BuddyOf(k, l[i])
        decreases |l| - j
      {
        assert LinkOk(hdr, k, l, j);
        assert j + 1 < |l| ==> LinkOk(hdr, k, l, j + 1);
        SizeIsPositive(k);
        var buddy := GetBuddy(alloc);
        if hdr[alloc].next != NULL && buddy == hdr[alloc].next {
          MergeAtIs(l, k, j);
          return true, alloc;
        }
        alloc, j := hdr[alloc].next, j + 1;
      }
      assert j < |l| ==> LinkOk(hdr, k, l, j);
      MergeNowhere(l, k);
      return false, NULL;
    }

    /** The pair found by coalesce leaves the head of its list; `size` is that of
        the two blocks together. */
    method UnlinkPair(page: int, k: nat, alloc: int, ghost lists: Lists) returns (size: nat)
      requires Holds(ph, hdr, page, lists) && k == MergeClass(lists, 0) < LAST && alloc == Merged(lists)
      modifies this`ph
      ensures Holds(ph, hdr, page, Unpaired(lists)) && Elsewhere(old(ph), hdr, ph, hdr, page)
      ensures size == 2 * Size(k)
    {
      ghost var l, i := lists[k], MergeAt(lists[k], k);
      assert Threads(hdr, k, l) && LinkOk(hdr, k, l, i) && LinkOk(hdr, k, l, i + 1);
      SizeIsPositive(k);
      size := hdr[alloc].size * 2;
      SetFirst(page, k, hdr[hdr[alloc].next].next);
      UnpairedHolds(hdr, lists);
    }

    /** coalesce */
    method Coalesce(page: int, ghost lists: Lists)
      requires page > 0 && page % 8192 == 0 && Holds(ph, hdr, page, lists) && ListsOk(page, lists) && ph[page].used > 0
      modifies this`firstPage, this`ph, this`hdr, this`pages, pool
      ensures Holds(ph, hdr, page, Coalesced(lists)) && Elsewhere(old(ph), old(hdr), ph, hdr, page)
      ensures unchanged(this`firstPage, this`pages, pool)
      decreases Count(lists), 1
    {
      var found, k, alloc := FindPair(page, lists);
      if found {
        CoalescedIs(lists);
        PairIsFreeable(page, lists);
        MergePair(page, k, alloc, lists);
      }
    }

    /** The pair is taken off its list and freed as one block. */
    method MergePair(page: int, k: nat, alloc: int, ghost lists: Lists)
      requires Holds(ph, hdr, page, lists) && ph[page].used > 0
      requires k == MergeClass(lists, 0) < LAST && alloc == Merged(lists) && alloc > 0 && page == Base(alloc)
      requires Freeable(page, Unpaired(lists), k + 1, alloc) && Count(Unpaired(lists)) + 2 <= Count(lists)
      modifies this`firstPage, this`ph, this`hdr, this`pages, pool
      ensures Holds(ph, hdr, page, FreeBlock(Unpaired(lists), k + 1, alloc))
      ensures Elsewhere(old(ph), old(hdr), ph, hdr, page)
      ensures unchanged(this`firstPage, this`pages, pool)
      decreases Count(lists), 0
    {
      var size := UnlinkPair(page, k, alloc, lists);
      label S:
      TwiceSize(k);
      CountOne(page);
      KmaFree(alloc, size, Unpaired(lists), 0);
      MergedElsewhere(old(ph), old(hdr), old@S(ph), old@S(hdr), ph, hdr, page);
    }

    /** What kma_free does to the lists of the page. */
    method PutBack(page: int, ptr: int, size: int, ghost lists: Lists)
      requires -(A + P) <= size <= PAGESIZE && ptr > 0 && Freeable(page, lists, Class(size), ptr)
      requires Holds(ph, hdr, page, lists) && ph[page].used > 0
      modifies this`firstPage, this`ph, this`hdr, this`pages, pool
      ensures Holds(ph, hdr, page, FreeBlock(lists, Class(size), ptr)) && Elsewhere(old(ph), old(hdr), ph, hdr, page)
      ensures unchanged(this`firstPage, this`pages, pool)
      decreases Count(lists) + 1, 2
    {
      RoundUpIsClass(size);
      ClassSize(size);
      if RoundUp(size) != PAGESIZE {
        var k := Class(size);
        var walked := LinkFreed(page, k, ptr, lists);
        if walked {
          label S:
          LinkedKeeps(page, lists, k, ptr);
          CountUpdate(lists, k, Slotted(lists[k], ptr));
          Coalesce(page, Linked(lists, k, ptr));
          ElsewhereTwice(old(ph), old(hdr), old@S(ph), old@S(hdr), ph, hdr, page);
        }
      }
    }

    method CountDown(page: int)
      requires page in ph && ph[page].used > 0
      modifies this`ph
      ensures ph == old(ph)[page := old(ph)[page].(used := old(ph)[page].used - 1)]
    {
      ph := ph[page := ph[page].(used := ph[page].used - 1)];
    }

    /** Page `n` of the chain is `pg`. */
    ghost predicate InChain(n: nat, pg: Page)
      reads this, pool
    {
      pool.Valid() && Stored() && Roomy(pages, pool.m.inUse) && n < |pages| && pages[n] == pg
    }

    /** The page taken off the chain and given back to the pool. */
    method ReleasePage(page: int, ghost n: nat)
      requires pool.Valid() && Stored() && DistinctBases(pages) && BasesNotNull(pages)
      requires n < |pages| && page == pages[n].base && page in pool.m.inUse
      modifies this`firstPage, this`ph, this`pages, pool
      ensures pool.Valid() && Stored() && pages == Without(old(pages), n) && pool.m == Release(old(pool.m), page)
    {
      assert NextOk(ph, pages, n);
      if n > 0 { BasesDiffer(pages, 0, n); }
      if page == firstPage && ph[page].next != NULL {
        var temp := ph[page].next;
        pool.FreePage(firstPage);
        firstPage := temp;
      } else if page == firstPage {
        pool.FreePage(firstPage);
        firstPage := NULL;
      } else {
        var prev := PageBefore(page, n);
        assert NextOk(ph, pages, n - 1);
        ph := ph[prev := ph[prev].(next := ph[page].next)];
        pool.FreePage(page);
      }
      ChainWithout(old(ph), ph, hdr, old(firstPage), pages, n);
      pages := Without(pages, n);
    }

    method PageBefore(page: int, ghost n: nat) returns (prev: int)
      requires Stored() && DistinctBases(pages) && 0 < n < |pages| && page == pages[n].base
      ensures prev == pages[n - 1].base
    {
      var temp := firstPage;
      prev := NULL;
      ghost var j := 0;
      BasesDiffer(pages, 0, n);
      while temp != page
        invariant 0 <= j <= n && temp == pages[j].base && (temp == page <==> j == n)
        invariant j > 0 ==> prev == pages[j - 1].base
        decreases n - j
      {
        assert NextOk(ph, pages, j);
        prev, temp, j := temp, ph[temp].next, j + 1;
        if j < n { BasesDiffer(pages, j, n); }
      }
    }

    /** kma_free, as far as the page and the chain are concerned: the lists change as
        FreeBlock says and the count drops by one; at zero the page goes back. */
    method KmaFree(ptr: int, size: int, ghost lists: Lists, ghost n: nat)
      requires -(A + P) <= size <= PAGESIZE && ptr > 0 && Freeable(Base(ptr), lists, Class(size), ptr)
      requires Holds(ph, hdr, Base(ptr), lists) && ph[Base(ptr)].used > 0
      requires ph[Base(ptr)].used == 1 ==> InChain(n, Page(Base(ptr), 1, lists))
      modifies this`firstPage, this`ph, this`hdr, this`pages, pool
      ensures old(ph[Base(ptr)].used) > 1 ==>
                && Holds(ph, hdr, Base(ptr), FreeBlock(lists, Class(size), ptr))
                && Recounted(old(ph), old(hdr), ph, hdr, Base(ptr), old(ph[Base(ptr)].used) - 1)
                && unchanged(this`firstPage, this`pages, pool)
      ensures old(ph[Base(ptr)].used) == 1 ==>
                && pool.Valid() && Stored() && pages == Without(old(pages), n)
                && pool.m == Release(old(pool.m), Base(ptr))
      decreases Count(lists) + 1, 3
    {
      var page := Base(ptr);
      PutBack(page, ptr, size, lists);
      ghost var ph1 := ph;
      CountDown(page);
      if ph[page].used == 0 {
        ghost var pg := Page(page, 0, FreeBlock(lists, Class(size), ptr));
        PageChanged(old(ph), old(hdr), ph1, ph, hdr, firstPage, pages, pool.m.inUse, n, pg);
        SameBasesDistinct(pages, pages[n := pg]);
        pages := pages[n := pg];
        ReleasePage(page, n);
      }
    }

    /** kma_free: the caller gives back a request it holds, with its size. */
    method Free(ptr: int, size: int)
      requires Valid() && Req(ptr, size) in live
      modifies this, pool
      ensures Valid() && live == old(live) - {Req(ptr, size)}
      ensures PageOf(old(pages), Base(ptr)) < |old(pages)| && Abs() == BuddyModel.Free(old(Abs()), Req(ptr, size))
    {
      ghost var r, was := Req(ptr, size), live;
      FreeKeepsInv(Abs(), live, r);
      TakeBack(ptr, size);
      live := was - {r};
    }

    /** kma_free, as far as the chain and the pages are concerned. */
    method TakeBack(ptr: int, size: int)
      requires Valid() && Req(ptr, size) in live && PageOf(pages, Base(ptr)) < |pages|
      modifies this`firstPage, this`ph, this`hdr, this`pages, pool
      ensures pool.Valid() && Stored() && Abs() == BuddyModel.Free(old(Abs()), Req(ptr, size))
    {
      InvIsRoomy(Abs(), live);
      HolderIsFreeable(Abs(), live, Req(ptr, size));
      Return(ptr, size, PageOf(pages, Base(ptr)));
    }

    /** kma_free on page `n`, as the chain sees it. */
    method Return(ptr: int, size: int, ghost n: nat)
      requires pool.Valid() && Stored() && Roomy(pages, pool.m.inUse) && n < |pages| && n == PageOf(pages, Base(ptr))
      requires -(A + P) <= size <= PAGESIZE && ptr > 0 && Freeable(Base(ptr), pages[n].lists, Class(size), ptr)
      requires pages[n].used > 0
      modifies this`firstPage, this`ph, this`hdr, this`pages, pool
      ensures pool.Valid() && Stored() && Abs() == BuddyModel.Free(old(Abs()), Req(ptr, size))
    {
      ghost var pg := pages[n];
      ghost var after := Page(pg.base, pg.used - 1, FreeBlock(pg.lists, Class(size), ptr));
      assert PageStored(ph, hdr, pg) && pg.base == Base(ptr);
      assert pg.used == 1 ==> pg == Page(Base(ptr), 1, pg.lists);
      KmaFree(ptr, size, pg.lists, n);
      if pg.used > 1 {
        RecountedPage(old(ph), old(hdr), ph, hdr, firstPage, pages, pool.m.inUse, n, after);
        pages := pages[n := after];
      }
    }
  }
}
