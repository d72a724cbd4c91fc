/** What one call of kma_malloc or kma_free does, said of the whole allocator: which
    block is handed out, what is left of the block it is cut from, what a free lists,
    how the free bytes of all pages change, and which pages stay as they were. */
module BuddyCalls {
  import opened Wrappers
  import opened PagePools
  import opened BuddyArithmetic
  import opened BuddyModel
  import opened BuddyProof
  import opened BuddyRuns
  import opened BuddyConservation
  import opened BuddyJoins

  // ----- kma_malloc

  /** Over all pages, the smallest class from `c` up with a listed block is `k`, and
      the first page that lists one is page `i`. */
  ghost predicate SmallestFirst(pages: seq<Page>, c: nat, i: nat, k: nat) {
    && i < |pages| && c <= k <= LAST && pages[i].lists[k] != []
    && (forall j, m :: 0 <= j < |pages| && c <= m < k ==> pages[j].lists[m] == [])
    && (forall j :: 0 <= j < i ==> pages[j].lists[k] == [])
  }

  /** The first block of class `k` is gone, but for one block of each class from `c`
      up: the right halves of its splits. All other lists are as they were. */
  ghost predicate CutFrom(before: Lists, after: Lists, c: nat, k: nat)
    requires c <= k <= LAST && before[k] != []
  {
    && after[k] == before[k][1..]
    && (forall m :: c <= m < k ==> after[m] == [before[k][0] + Size(m)])
    && (forall m :: 0 <= m <= LAST && (m < c || k < m) ==> after[m] == before[m])
  }

  /** Only page `i` of the chain changed, and not its place. */
  ghost predicate OnlyPage(before: seq<Page>, after: seq<Page>, i: nat) {
    && i < |before| && |after| == |before| && after[i].base == before[i].base
    && forall j :: 0 <= j < |before| && j != i ==> after[j] == before[j]
  }

  lemma SplitCuts(lists: Lists, after: Lists, c: nat, k: nat)
    requires c < k <= LAST && lists[k] != [] && forall m :: c <= m < k ==> lists[m] == []
    requires CutFrom(Split(lists, k), after, c, k - 1)
    ensures CutFrom(lists, after, c, k)
  {
    var a, split := lists[k][0], Split(lists, k);
    assert split[k - 1] == [a, a + Size(k - 1)];
    assert after[k - 1] == [a + Size(k - 1)];
  }

  lemma {:induction false} TakeCuts(lists: Lists, k: nat, c: nat)
    requires c <= k <= LAST && lists[k] != [] && forall m :: c <= m < k ==> lists[m] == []
    ensures CutFrom(lists, Take(lists, k, c).0, c, k) && Take(lists, k, c).1 == lists[k][0]
    decreases k
  {
    if k > c {
      TakeCuts(Split(lists, k), k - 1, c);
      SplitCuts(lists, Take(lists, k, c).0, c, k);
    }
  }

  /** While some page lists a block that fits, kma_malloc hands out the first block of
      the smallest such class, on the first page that has one, and keeps all of it
      but a block of the request's own class. No other page changes. */
  lemma MallocTakesSmallest(s: Bud, size: int, arena: int, i: nat, k: nat)
    requires Admitted(size) && SmallestFirst(s.pages, Cut(size), i, k)
    ensures var o := Malloc(s, size, arena);
            && o.Granted? && o.ptr == s.pages[i].lists[k][0] && o.state.pool == s.pool
            && OnlyPage(s.pages, o.state.pages, i) && o.state.pages[i].used == s.pages[i].used + 1
            && CutFrom(s.pages[i].lists, o.state.pages[i].lists, Cut(size), k)
  {
    FindIs(s.pages, Cut(size), i, k);
    TakeCuts(s.pages[i].lists, k, Cut(size));
  }

  /** What the page header leaves of a new page: one block of each class from 128 to
      4096 bytes. */
  function Unused(p: int): Lists {
    [[], [], [p + 128], [p + 256], [p + 512], [p + 1024], [p + 2048], [p + 4096], []]
  }

  /** The class of the block of a new page from which a request of class `c` is cut. */
  function FromNew(c: nat): nat {
    if c < Class(P) then Class(P) else c
  }

  /** A page added for a request of class `c`, which got `a`: a block cut from the
      smallest one that fits, or the page itself behind two headers. */
  ghost predicate CutFromNew(pg: Page, c: nat, a: int)
    requires c <= LAST
  {
    && pg.used == 1
    && if c == LAST then a == pg.base + A + P && pg.lists == NO_BLOCKS
       else a == pg.base + Size(FromNew(c)) && CutFrom(Unused(pg.base), pg.lists, c, FromNew(c))
  }

  lemma UnusedHas(p: int, c: nat)
    requires c < LAST
    ensures FreshLists(p) == Unused(p) && Unused(p)[FromNew(c)] == [p + Size(FromNew(c))]
    ensures forall m :: c <= m < FromNew(c) ==> Unused(p)[m] == []
  {
    FreshListsAre(p);
  }

  /** No page lists a block of class `c` or above. */
  ghost predicate NothingFits(pages: seq<Page>, c: nat) {
    forall j, m :: 0 <= j < |pages| && c <= m <= LAST ==> pages[j].lists[m] == []
  }

  lemma NewPageCut(pages: seq<Page>, pool: Pool, size: int, p: int)
    requires Admitted(size) && Cut(size) < LAST && NothingFits(pages, Cut(size))
    ensures var o := Again(Bud(pages + [Page(p, 0, FreshLists(p))], pool), size);
            && o.Granted? && o.state.pool == pool && |o.state.pages| == |pages| + 1 && o.state.pages[..|pages|] == pages
            && o.state.pages[|pages|].base == p && CutFromNew(o.state.pages[|pages|], Cut(size), o.ptr)
  {
    var c, n := Cut(size), |pages|;
    var t := pages + [Page(p, 0, FreshLists(p))];
    NoneFound(pages, c);
    AgainFinds(Bud(pages, pool), p, c);
    UnusedHas(p, c);
    TakeCuts(t[n].lists, FromNew(c), c);
    assert t[..n] == pages;
  }

  /** When no page lists a block that fits, the page that comes next in the pool is
      put behind the others, none of which changes, and serves the request. */
  lemma MallocAddsPage(s: Bud, size: int, arena: int)
    requires Admitted(size) && s.pages != [] && NothingFits(s.pages, Cut(size))
    ensures var o, n := Malloc(s, size, arena), |s.pages|;
            if o.Granted? then
              && |o.state.pages| == n + 1 && o.state.pages[..n] == s.pages
              && Get(s.pool, arena) == Some((o.state.pool, o.state.pages[n].base))
              && CutFromNew(o.state.pages[n], Cut(size), o.ptr)
            else o.Exhausted? && Get(s.pool, arena).None?
  {
    NoneFound(s.pages, Cut(size));
    var got := Get(s.pool, arena);
    if got.Some? && Cut(size) < LAST {
      NewPageCut(s.pages, got.value.0, size, got.value.1);
    }
  }

  lemma MallocOnPages(s: Bud, size: int, arena: int)
    requires Admitted(size) && s.pages != []
    ensures Malloc(s, size, arena) == GetFree(s, size, arena)
  {
  }

  /** The first request of all is served as if a first page, its header allocated,
      had been there. */
  lemma MallocStartsChain(s: Bud, size: int, arena: int)
    requires Admitted(size) && s.pages == [] && Get(s.pool, arena).Some?
    ensures var (pool, p) := Get(s.pool, arena).value;
            Malloc(s, size, arena) == Malloc(Bud([Page(p, 0, Unused(p))], pool), size, arena)
  {
    var (pool, p) := Get(s.pool, arena).value;
    FreshListsAre(p);
    var pages := [Page(p, 0, FreshLists(p))];
    assert Malloc(s, size, arena) == GetFree(Bud(pages, pool), size, arena);
    MallocOnPages(Bud(pages, pool), size, arena);
  }

  // ----- the free bytes of all pages

  function TotalFree(pages: seq<Page>): int {
    if pages == [] then 0 else TotalFree(pages[..|pages| - 1]) + FreeBytes(pages[|pages| - 1].lists)
  }

  lemma TotalWith(pages: seq<Page>, pg: Page)
    ensures TotalFree(pages + [pg]) == TotalFree(pages) + FreeBytes(pg.lists)
  {
    assert (pages + [pg])[..|pages|] == pages;
  }

  lemma {:induction false} TotalAfter(pages: seq<Page>, i: nat, pg: Page)
    requires i < |pages|
    ensures TotalFree(pages[i := pg]) == TotalFree(pages) - FreeBytes(pages[i].lists) + FreeBytes(pg.lists)
  {
    var n, after := |pages| - 1, pages[i := pg];
    if i == n {
      assert after[..n] == pages[..n];
    } else {
      assert after[..n] == pages[..n][i := pg];
      TotalAfter(pages[..n], i, pg);
    }
  }

  /** All bytes of a page but the 128 of its header block. */
  const PAGE_BYTES := 8064

  /** What a request takes of the bytes that a page lists when it is new. */
  function Cost(size: int): int {
    if Cut(size) < LAST then Size(Cut(size)) else PAGE_BYTES
  }

  lemma CutConserves(before: Lists, after: Lists, c: nat, k: nat)
    requires c <= k <= LAST && before[k] != [] && forall m :: c <= m < k ==> before[m] == []
    requires CutFrom(before, after, c, k)
    ensures FreeBytes(after) + Size(c) == FreeBytes(before)
  {
    TakeCuts(before, k, c);
    assert after == Take(before, k, c).0;
    TakeConserves(before, k, c);
  }

  lemma FoundConserves(s: Bud, size: int, arena: int, i: nat, k: nat)
    requires Admitted(size) && SmallestFirst(s.pages, Cut(size), i, k) && Cut(size) < LAST
    ensures var o := Malloc(s, size, arena);
            o.Granted? && TotalFree(o.state.pages) + Cost(size) == TotalFree(s.pages) && |o.state.pages| == |s.pages|
  {
    MallocTakesSmallest(s, size, arena, i, k);
    var after := Malloc(s, size, arena).state.pages;
    CutConserves(s.pages[i].lists, after[i].lists, Cut(size), k);
    assert after == s.pages[i := after[i]];
    TotalAfter(s.pages, i, after[i]);
  }

  lemma AddedConserves(pages: seq<Page>, after: seq<Page>, size: int, a: int)
    requires |after| == |pages| + 1 && after[..|pages|] == pages
    requires Admitted(size) && CutFromNew(after[|pages|], Cut(size), a)
    ensures TotalFree(after) + Cost(size) == TotalFree(pages) + PAGE_BYTES
  {
    var c, pg := Cut(size), after[|pages|];
    if c < LAST {
      UnusedHas(pg.base, c);
      FreshConserves(pg.base);
      CutConserves(Unused(pg.base), pg.lists, c, FromNew(c));
    }
  }

  lemma AddingConserves(s: Bud, size: int, arena: int)
    requires Admitted(size) && s.pages != [] && NothingFits(s.pages, Cut(size)) && Malloc(s, size, arena).Granted?
    ensures var t := Malloc(s, size, arena).state;
            TotalFree(t.pages) + Cost(size) == TotalFree(s.pages) + PAGE_BYTES && |t.pages| == |s.pages| + 1
  {
    MallocAddsPage(s, size, arena);
    var o := Malloc(s, size, arena);
    AddedConserves(s.pages, o.state.pages, size, o.ptr);
  }

  lemma NoWholePages(s: Bud, live: set<Req>)
    requires Inv(s, live)
    ensures NothingFits(s.pages, LAST)
  {
    forall i | 0 <= i < |s.pages| ensures s.pages[i].lists[LAST] == [] {
      var pg := s.pages[i];
      assert PageOk(pg, LiveOn(live, pg.base));
      assert pg.lists[LAST] != [] ==> Listed(pg.lists, LAST, pg.lists[LAST][0]);
    }
  }

  /** The free bytes before and after a call, `n` pages later. */
  ghost predicate Balanced(before: seq<Page>, after: seq<Page>, size: int) {
    TotalFree(after) + Cost(size) == TotalFree(before) + PAGE_BYTES * (|after| - |before|)
  }

  lemma OnPagesConserves(s: Bud, live: set<Req>, size: int, arena: int)
    requires Inv(s, live) && s.pages != [] && Admitted(size) && Malloc(s, size, arena).Granted?
    ensures Balanced(s.pages, Malloc(s, size, arena).state.pages, size)
  {
    var found := Find(s.pages, Cut(size));
    if found.Some? {
      NoWholePages(s, live);
      assert SmallestFirst(s.pages, Cut(size), found.value.0, found.value.1);
      FoundConserves(s, size, arena, found.value.0, found.value.1);
    } else {
      AddingConserves(s, size, arena);
    }
  }

  lemma StartConserves(s: Bud, live: set<Req>, size: int, arena: int)
    requires Inv(s, live) && s.pages == [] && ValidArena(arena) && Admitted(size) && Malloc(s, size, arena).Granted?
    ensures Balanced(s.pages, Malloc(s, size, arena).state.pages, size)
  {
    NoPagesNoRequests(s, live);
    GetKeepsPool(s.pool, arena);
    var (pool, p) := Get(s.pool, arena).value;
    MallocStartsChain(s, size, arena);
    UnusedHas(p, 0);
    FirstPageKeepsInv(pool, p);
    OnPagesConserves(Bud([Page(p, 0, Unused(p))], pool), {}, size, arena);
    FirstPageBytes(p);
  }

  /** kma_malloc takes from the free bytes of all pages exactly one block of the
      request's class; every page it adds brings all its bytes but those of its header
      block, and a request that takes a page takes exactly these. */
  lemma MallocConserves(s: Bud, live: set<Req>, size: int, arena: int)
    requires Inv(s, live) && ValidArena(arena) && Malloc(s, size, arena).Granted?
    ensures Balanced(s.pages, Malloc(s, size, arena).state.pages, size)
  {
    MallocKeepsInv(s, live, size, arena);
    if s.pages == [] {
      StartConserves(s, live, size, arena);
    } else {
      OnPagesConserves(s, live, size, arena);
    }
  }

  lemma FirstPageBytes(p: int)
    ensures TotalFree([Page(p, 0, Unused(p))]) == PAGE_BYTES && TotalFree([]) == 0
  {
    UnusedHas(p, 0);
    FreshConserves(p);
    TotalWith([], Page(p, 0, Unused(p)));
    assert [] + [Page(p, 0, Unused(p))] == [Page(p, 0, Unused(p))];
  }

  // ----- kma_free

  /** Page `i` of the chain holds request `r`. */
  ghost predicate HolderAt(s: Bud, live: set<Req>, r: Req, i: nat) {
    Inv(s, live) && r in live && i < |s.pages| && s.pages[i].base == Base(r.ptr)
  }

  lemma HolderIndex(s: Bud, live: set<Req>, r: Req, i: nat)
    requires HolderAt(s, live, r, i)
    ensures PageOf(s.pages, Base(r.ptr)) == i && r in LiveOn(live, s.pages[i].base)
    ensures s.pages[i].used == |LiveOn(live, s.pages[i].base)| > 0
    ensures PageOk(s.pages[i], LiveOn(live, s.pages[i].base))
    ensures s.pages[i].used == 1 <==> LiveOn(live, s.pages[i].base) == {r}
  {
    PageIndex(s, live, i);
    HolderIsListed(s, live, r);
    if s.pages[i].used == 1 { LastOnPage(s, live, r); }
  }

  /** kma_free changes no page but the one that holds the request, and takes that page
      out of the chain exactly when it holds no other. */
  lemma FreeTouchesOnePage(s: Bud, live: set<Req>, r: Req, i: nat)
    requires HolderAt(s, live, r, i)
    ensures var t := Free(s, r);
            if LiveOn(live, Base(r.ptr)) == {r}
            then t.pages == Without(s.pages, i) && t.pool == Release(s.pool, s.pages[i].base)
            else t.pool == s.pool && OnlyPage(s.pages, t.pages, i) && t.pages[i].used + 1 == s.pages[i].used
  {
    HolderIndex(s, live, r, i);
  }

  lemma KeptPage(s: Bud, live: set<Req>, r: Req, i: nat)
    requires HolderAt(s, live, r, i) && LiveOn(live, Base(r.ptr)) != {r}
    ensures |Free(s, r).pages| == |s.pages| && Free(s, r).pages[i].lists == Freed(s.pages[i], r).lists
    ensures PageOk(s.pages[i], LiveOn(live, s.pages[i].base)) && r in LiveOn(live, s.pages[i].base)
    ensures s.pages[i].used > 1
  {
    HolderIndex(s, live, r, i);
  }

  /** On a page that stays, the free lists exactly one block of the class of the size,
      unless it meets a loss; then fewer bytes. */
  lemma FreeListsItsClass(s: Bud, live: set<Req>, r: Req, i: nat)
    requires HolderAt(s, live, r, i) && LiveOn(live, Base(r.ptr)) != {r}
    ensures var t, k := Free(s, r), Class(r.size);
            && |t.pages| == |s.pages| && k < LAST
            && TotalFree(t.pages) <= TotalFree(s.pages) + Size(k)
            && (TotalFree(t.pages) == TotalFree(s.pages) + Size(k) <==> NoLoss(s.pages[i].lists, k, r.ptr))
  {
    var t := Free(s, r);
    KeptPage(s, live, r, i);
    FreeTouchesOnePage(s, live, r, i);
    FreeGivesBack(s.pages[i], LiveOn(live, s.pages[i].base), r);
    assert t.pages == s.pages[i := t.pages[i]];
    TotalAfter(s.pages, i, t.pages[i]);
  }

  /** The block becomes the head of its list, or makes no pair with a block listed. */
  ghost predicate MeetsNoMerge(lists: Lists, k: nat, a: int)
    requires k < LAST
  {
    lists[k] == [] || lists[k][0] > a || NoPair(Linked(lists, k, a))
  }

  /** What a free comes to when the lists hold no pair once the block is linked. */
  lemma LinkedOnly(lists: Lists, k: nat, a: int)
    requires k < LAST && MeetsNoMerge(lists, k, a)
    ensures FreeBlock(lists, k, a) == Linked(lists, k, a)
  {
    if lists[k] != [] && lists[k][0] <= a {
      NoPairIsClass(Linked(lists, k, a));
    }
  }

  lemma LinkedLists(lists: Lists, k: nat, a: int)
    requires k < LAST && Ascending(lists[k])
    ensures forall m, b {:trigger Listed(Linked(lists, k, a), m, b)} ::
              Listed(Linked(lists, k, a), m, b) <==> Listed(lists, m, b) || (m == k && b == a && HasSlot(lists[k], a))
  {
    var l, after := lists[k], Linked(lists, k, a);
    LinkKeepsListed(lists, k, a);
    forall m, b {:trigger Listed(after, m, b)} | Listed(after, m, b)
      ensures Listed(lists, m, b) || (m == k && b == a && HasSlot(l, a))
    {
      if m == k && b != a {
        var i := Above(l, a);
        assert b in l[..i] || b in l[i..];
      }
    }
  }

  /** A freed block that meets no merge is listed at its own address in the class of
      its size if and only if it has a slot, and nothing else changes on the lists. */
  lemma FreedIsListed(s: Bud, live: set<Req>, r: Req, i: nat)
    requires HolderAt(s, live, r, i) && LiveOn(live, Base(r.ptr)) != {r}
    ensures |Free(s, r).pages| == |s.pages| && Class(r.size) < LAST
    ensures var before, after, k := s.pages[i].lists, Free(s, r).pages[i].lists, Class(r.size);
            MeetsNoMerge(before, k, r.ptr) ==>
              forall m, b {:trigger Listed(after, m, b)} ::
                Listed(after, m, b) <==> Listed(before, m, b) || (m == k && b == r.ptr && HasSlot(before[k], b))
  {
    var pg, k := s.pages[i], Class(r.size);
    KeptPage(s, live, r, i);
    FreedClassFits(pg, LiveOn(live, pg.base), r);
    assert Ascending(pg.lists[k]);
    if MeetsNoMerge(pg.lists, k, r.ptr) {
      LinkedOnly(pg.lists, k, r.ptr);
      LinkedLists(pg.lists, k, r.ptr);
    }
  }

  /** What freeing a block below a whole page comes to: it becomes the head of its list;
      or it is linked further down and no block is listed right before its buddy; or
      the first such pair of the smallest class, with the blocks before it, leaves the
      lists, and the block that the two make up is freed in its turn. */
  ghost predicate ChainOfMerges(lists: Lists, after: Lists, k: nat, a: int)
    requires k < LAST
  {
    var linked := Linked(lists, k, a);
    if MeetsNoMerge(lists, k, a) then after == linked
    else
      && MergeClass(linked, 0) < LAST
      && FreeBytes(Unpaired(linked)) + Size(MergeClass(linked, 0) + 1) == FreeBytes(linked) - Dropped(linked)
      && after == FreeBlock(Unpaired(linked), MergeClass(linked, 0) + 1, Merged(linked))
  }

  lemma FreeBlockIsChain(lists: Lists, k: nat, a: int)
    requires k < LAST
    ensures ChainOfMerges(lists, FreeBlock(lists, k, a), k, a)
  {
    var linked := Linked(lists, k, a);
    if MeetsNoMerge(lists, k, a) {
      LinkedOnly(lists, k, a);
    } else {
      NoPairIsClass(linked);
      MergeConserves(linked);
      CoalescedIs(linked);
    }
  }

  /** So it is for every kma_free on a page that stays, and for each block that a merge
      frees in turn; a block of a whole page is not listed. */
  lemma FreeIsChain(s: Bud, live: set<Req>, r: Req, i: nat)
    requires HolderAt(s, live, r, i) && LiveOn(live, Base(r.ptr)) != {r}
    ensures |Free(s, r).pages| == |s.pages| && Class(r.size) < LAST
    ensures ChainOfMerges(s.pages[i].lists, Free(s, r).pages[i].lists, Class(r.size), r.ptr)
    ensures forall lists: Lists, k, a :: 0 <= k < LAST ==> ChainOfMerges(lists, FreeBlock(lists, k, a), k, a)
    ensures forall lists: Lists, a :: FreeBlock(lists, LAST, a) == lists
  {
    var pg := s.pages[i];
    KeptPage(s, live, r, i);
    FreedClassFits(pg, LiveOn(live, pg.base), r);
    forall lists: Lists, k, a | 0 <= k < LAST ensures ChainOfMerges(lists, FreeBlock(lists, k, a), k, a) {
      FreeBlockIsChain(lists, k, a);
    }
  }

  /** On a page without two free buddies, the free leaves none if and only if its chain
      of merges skips no merge. */
  lemma FreeJoins(s: Bud, live: set<Req>, r: Req, i: nat)
    requires HolderAt(s, live, r, i) && LiveOn(live, Base(r.ptr)) != {r} && NoFreeBuddies(s.pages[i].lists)
    ensures |Free(s, r).pages| == |s.pages| && Class(r.size) < LAST
    ensures NoFreeBuddies(Free(s, r).pages[i].lists) <==> Joins(s.pages[i].lists, Class(r.size), r.ptr)
  {
    KeptPage(s, live, r, i);
    var pg := s.pages[i];
    FreedClassFits(pg, LiveOn(live, pg.base), r);
    FreeKeepsJoined(pg.base, pg.lists, Class(r.size), r.ptr);
  }
}
