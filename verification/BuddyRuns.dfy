/** The buddy allocator over whole runs. */
module BuddyRuns {
  import opened Wrappers
  import opened PagePools
  import opened BuddyArithmetic
  import opened BuddyModel
  import opened BuddyProof

  // ----- a new page

  lemma SizesDouble(k: int, m: int)
    requires 0 <= k < m <= LAST
    ensures 2 * Size(k) <= Size(m)
  {
  }

  lemma SplitAlone(lists: Lists, k: nat, a: int, rest: seq<int>)
    requires 0 < k <= LAST && lists[k] == [a] + rest && lists[k - 1] == []
    ensures Split(lists, k) == lists[k := rest][k - 1 := [a, a + Size(k - 1)]]
  {
    assert lists[k][1..] == rest;
    assert [] + [a, a + Size(k - 1)] == [a, a + Size(k - 1)];
  }

  lemma FreshListsAre(p: int)
    ensures FreshLists(p) == [[], [], [p + 128], [p + 256], [p + 512], [p + 1024], [p + 2048], [p + 4096], []]
  {
    var l8: Lists := NO_BLOCKS[LAST := [p]];
    var l7: Lists := [[], [], [], [], [], [], [], [p, p + 4096], []];
    var l6: Lists := [[], [], [], [], [], [], [p, p + 2048], [p + 4096], []];
    var l5: Lists := [[], [], [], [], [], [p, p + 1024], [p + 2048], [p + 4096], []];
    var l4: Lists := [[], [], [], [], [p, p + 512], [p + 1024], [p + 2048], [p + 4096], []];
    var l3: Lists := [[], [], [], [p, p + 256], [p + 512], [p + 1024], [p + 2048], [p + 4096], []];
    var l2: Lists := [[], [], [p, p + 128], [p + 256], [p + 512], [p + 1024], [p + 2048], [p + 4096], []];
    SplitAlone(l8, 8, p, []);
    SplitAlone(l7, 7, p, [p + 4096]);
    SplitAlone(l6, 6, p, [p + 2048]);
    SplitAlone(l5, 5, p, [p + 1024]);
    SplitAlone(l4, 4, p, [p + 512]);
    SplitAlone(l3, 3, p, [p + 256]);
    assert Split(l8, 8) == l7 && Split(l7, 7) == l6 && Split(l6, 6) == l5;
    assert Split(l5, 5) == l4 && Split(l4, 4) == l3 && Split(l3, 3) == l2;
    assert Take(l8, 8, 2) == Take(l7, 7, 2) == Take(l6, 6, 2) == Take(l5, 5, 2)
        == Take(l4, 4, 2) == Take(l3, 3, 2) == Take(l2, 2, 2);
  }

  /** After the page header took its block, a new page has one free block of each
      class from 128 to 4096 bytes. */
  lemma FreshListed(p: int, k: int, a: int)
    ensures Listed(FreshLists(p), k, a) <==> 2 <= k < LAST && a == p + Size(k)
  {
    FreshListsAre(p);
  }

  lemma FreshIsOk(p: int)
    requires p > 0 && p % 8192 == 0
    ensures PageOk(Page(p, 0, FreshLists(p)), {})
  {
    var lists := FreshLists(p);
    FreshListsAre(p);
    forall k, a {:trigger Listed(lists, k, a)} | Listed(lists, k, a) ensures InPlace(p, k, a) && k < LAST {
      FreshListed(p, k, a);
      SizesDouble(k, LAST);
    }
    forall k, a, m, b {:trigger Apart(a, Size(k), b, Size(m))}
      | Listed(lists, k, a) && Listed(lists, m, b) && (k != m || a != b)
      ensures Apart(a, Size(k), b, Size(m))
    {
      FreshListed(p, k, a);
      FreshListed(p, m, b);
      if k < m { SizesDouble(k, m); } else { SizesDouble(m, k); }
    }
  }

  // ----- one page

  lemma OneMoreRequest(base: int, live: set<Req>, r: Req)
    requires LiveOk(base, live) && Admitted(r.size)
    requires Cut(r.size) < LAST && InPlace(base, Cut(r.size), r.ptr)
    requires forall q :: q in live ==> Cut(q.size) < LAST
    requires forall q {:trigger Apart(q.ptr, Extent(q), r.ptr, Extent(r))} :: q in live ==>
               Apart(q.ptr, Extent(q), r.ptr, Extent(r))
    ensures LiveOk(base, live + {r})
  {
    forall q, o {:trigger Apart(q.ptr, Extent(q), o.ptr, Extent(o))} | q in live + {r} && o in live + {r} && q != o
      ensures Apart(q.ptr, Extent(q), o.ptr, Extent(o))
    {
      if q in live && o in live {
        assert Apart(q.ptr, Extent(q), o.ptr, Extent(o));
      } else if q in live {
        assert Apart(q.ptr, Extent(q), r.ptr, Extent(r));
      } else {
        assert Apart(o.ptr, Extent(o), r.ptr, Extent(r));
      }
    }
  }

  /** Blocks that leave the lists unlisted, and requests apart from what is handed out. */
  lemma RequestAdded(pg: Page, live: set<Req>, after: Lists, r: Req)
    requires PageOk(pg, live) && pg.lists != NO_BLOCKS && ListsOk(pg.base, after)
    requires Admitted(r.size) && Cut(r.size) < LAST && InPlace(pg.base, Cut(r.size), r.ptr)
    requires Clear(after, r.ptr, Extent(r))
    requires forall q {:trigger Clear(after, q.ptr, Extent(q))} :: q in live ==>
               Clear(after, q.ptr, Extent(q)) && Apart(q.ptr, Extent(q), r.ptr, Extent(r))
    ensures r !in live && PageOk(Page(pg.base, pg.used + 1, after), live + {r})
  {
    SizeIsPositive(Cut(r.size));
    assert r in live ==> Clear(after, r.ptr, Extent(r));
    forall q {:trigger Apart(q.ptr, Extent(q), r.ptr, Extent(r))} | q in live
      ensures Apart(q.ptr, Extent(q), r.ptr, Extent(r))
    {
      assert Clear(after, q.ptr, Extent(q));
    }
    OneMoreRequest(pg.base, live, r);
  }

  /** A request cut from a page's lists. */
  lemma ServePage(pg: Page, live: set<Req>, k: nat, size: int)
    requires PageOk(pg, live) && Admitted(size)
    requires Cut(size) <= k <= LAST && pg.lists[k] != []
    requires forall m :: Cut(size) <= m < k ==> pg.lists[m] == []
    ensures var took := Take(pg.lists, k, Cut(size));
            var r := Req(took.1, size);
            && Cut(size) < LAST && Base(r.ptr) == pg.base && r !in live
            && PageOk(Page(pg.base, pg.used + 1, took.0), live + {r})
  {
    var c := Cut(size);
    var took := Take(pg.lists, k, c);
    var after, r := took.0, Req(took.1, size);
    TakeKeeps(pg.base, pg.lists, k, c);
    SizeIsPositive(c);
    BaseIs(pg.base, r.ptr);
    forall q {:trigger Clear(after, q.ptr, Extent(q))} | q in live
      ensures Clear(after, q.ptr, Extent(q)) && Apart(q.ptr, Extent(q), r.ptr, Extent(r))
    {
      assert Clear(pg.lists, q.ptr, Extent(q));
    }
    RequestAdded(pg, live, after, r);
  }

  /** A request returned to a page that serves others too. */
  lemma FreeOnPage(pg: Page, live: set<Req>, r: Req)
    requires PageOk(pg, live) && r in live && pg.used > 1
    ensures PageOk(Freed(pg, r), live - {r})
  {
    var k, c := Class(r.size), Cut(r.size);
    assert c == LAST ==> live == {r};
    ClassIsMonotone(r.size, r.size + A);
    AlignedBelow(k, c, r.ptr - pg.base);
    assert Clear(pg.lists, r.ptr, Extent(r));
    forall m, b {:trigger Listed(pg.lists, m, b)} | Listed(pg.lists, m, b) ensures Apart(r.ptr, Size(k), b, Size(m)) {
      assert Apart(r.ptr, Extent(r), b, Size(m));
    }
    FreeBlockKeeps(pg.base, pg.lists, k, r.ptr);
    forall q | q in live - {r} ensures Clear(Freed(pg, r).lists, q.ptr, Extent(q)) && Cut(q.size) < LAST {
      assert Clear(pg.lists, q.ptr, Extent(q)) && Apart(q.ptr, Extent(q), r.ptr, Extent(r));
      assert Cut(q.size) == LAST ==> live == {q};
      SizeIsPositive(Cut(q.size));
    }
  }

  lemma ClassIsMonotone(x: int, y: int)
    requires x <= y
    ensures Class(x) <= Class(y)
  {
  }

  // ----- the chain

  lemma LiveOnWith(live: set<Req>, r: Req, base: int)
    ensures LiveOn(live + {r}, base) == if Base(r.ptr) == base then LiveOn(live, base) + {r} else LiveOn(live, base)
    ensures LiveOn(live - {r}, base) == LiveOn(live, base) - {r}
  {
  }

  lemma BasesDiffer(pages: seq<Page>, i: nat, j: nat)
    requires DistinctBases(pages) && i < |pages| && j < |pages| && i != j
    ensures pages[i].base != pages[j].base
  {
    assert !SameBase(pages, i, j) && !SameBase(pages, j, i);
  }

  lemma PageIndex(s: Bud, live: set<Req>, i: nat)
    requires Chained(s, live) && i < |s.pages|
    ensures PageOf(s.pages, s.pages[i].base) == i && s.pages[i].base in s.pool.inUse
  {
    var j := PageOf(s.pages, s.pages[i].base);
    if j < |s.pages| && j != i { BasesDiffer(s.pages, j, i); }
  }

  /** A request served from a listed page. */
  lemma ServedKeepsChain(s: Bud, live: set<Req>, i: nat, k: nat, size: int)
    requires Chained(s, live) && i < |s.pages| && Admitted(size)
    requires Cut(size) <= k <= LAST && s.pages[i].lists[k] != []
    requires forall m :: Cut(size) <= m < k ==> s.pages[i].lists[m] == []
    ensures var o := Served(s, i, k, Cut(size));
            && Req(o.ptr, size) !in live && Base(o.ptr) == s.pages[i].base
            && Chained(o.state, live + {Req(o.ptr, size)})
  {
    var pg := s.pages[i];
    var took := Take(pg.lists, k, Cut(size));
    var r := Req(took.1, size);
    var t := Served(s, i, k, Cut(size)).state;
    ServePage(pg, LiveOn(live, pg.base), k, size);
    PageIndex(s, live, i);
    forall j | 0 <= j < |t.pages| ensures PageOk(t.pages[j], LiveOn(live + {r}, t.pages[j].base)) {
      LiveOnWith(live, r, s.pages[j].base);
      if j != i { BasesDiffer(s.pages, j, i); }
    }
    SameBasesDistinct(s.pages, t.pages);
    forall p {:trigger PageOf(t.pages, p)} ensures PageOf(t.pages, p) == PageOf(s.pages, p) {
      SameBases(s.pages, t.pages, p);
    }
  }

  lemma SameBasesDistinct(pages: seq<Page>, other: seq<Page>)
    requires DistinctBases(pages)
    requires |pages| == |other| && forall i :: 0 <= i < |pages| ==> pages[i].base == other[i].base
    ensures DistinctBases(other)
  {
    forall i, j {:trigger SameBase(other, i, j)} ensures !SameBase(other, i, j) {
      assert !SameBase(pages, i, j);
    }
  }

  lemma SameBases(pages: seq<Page>, other: seq<Page>, p: int)
    requires |pages| == |other| && forall i :: 0 <= i < |pages| ==> pages[i].base == other[i].base
    ensures PageOf(pages, p) == PageOf(other, p)
  {
    var i, j := PageOf(pages, p), PageOf(other, p);
    assert i < |pages| ==> other[i].base == p;
    assert j < |other| ==> pages[j].base == p;
  }

  /** A page added to the end of the chain. */
  lemma AppendedKeepsChain(s: Bud, live: set<Req>, pool: Pool, pg: Page, more: set<Req>)
    requires Chained(s, live) && PoolOk(pool) && pool.inUse == s.pool.inUse + {pg.base} && pg.base !in s.pool.inUse
    requires PageOk(pg, more) && forall r :: r in more ==> Base(r.ptr) == pg.base
    ensures Chained(Bud(s.pages + [pg], pool), live + more)
  {
    var t := Bud(s.pages + [pg], pool);
    forall p {:trigger PageOf(t.pages, p)}
      ensures PageOf(t.pages, p) < |t.pages| <==> PageOf(s.pages, p) < |s.pages| || p == pg.base
    {
      AppendedIndex(s.pages, pg, p);
    }
    AppendedPages(s, live, pg, more);
    forall i, j {:trigger SameBase(t.pages, i, j)} ensures !SameBase(t.pages, i, j) {
      assert !SameBase(s.pages, i, j);
    }
  }

  lemma AppendedPages(s: Bud, live: set<Req>, pg: Page, more: set<Req>)
    requires Chained(s, live) && pg.base !in s.pool.inUse
    requires PageOk(pg, more) && forall r :: r in more ==> Base(r.ptr) == pg.base
    ensures forall i :: 0 <= i < |s.pages| ==> s.pages[i].base != pg.base
    ensures var pages := s.pages + [pg];
            forall i :: 0 <= i < |pages| ==> PageOk(pages[i], LiveOn(live + more, pages[i].base))
  {
    forall i | 0 <= i < |s.pages| ensures s.pages[i].base != pg.base {
      PageIndex(s, live, i);
    }
    forall i | 0 <= i < |s.pages| ensures LiveOn(live + more, s.pages[i].base) == LiveOn(live, s.pages[i].base) {
    }
    assert LiveOn(live + more, pg.base) == more;
  }

  lemma AppendedIndex(pages: seq<Page>, pg: Page, p: int)
    ensures var i := PageOf(pages, p);
            PageOf(pages + [pg], p) == if i < |pages| || p == pg.base then i else i + 1
  {
    var i, j := PageOf(pages, p), PageOf(pages + [pg], p);
    assert i < |pages| ==> (pages + [pg])[i].base == p;
    assert (pages + [pg])[|pages|] == pg;
    assert j < |pages| ==> (pages + [pg])[j] == pages[j];
  }

  // ----- the search for a block

  /** No page has a block of a class from `c` up, below `k`. */
  ghost predicate NoneBelow(pages: seq<Page>, c: nat, k: nat)
    requires k <= LAST + 1
  {
    forall j, m :: 0 <= j < |pages| && c <= m < k ==> pages[j].lists[m] == []
  }

  lemma NoneHere(pages: seq<Page>, c: nat, k: nat)
    requires c <= k <= LAST && NoneBelow(pages, c, k) && forall j :: 0 <= j < |pages| ==> pages[j].lists[k] == []
    ensures NoneBelow(pages, c, k + 1)
  {
  }

  lemma NoneFound(pages: seq<Page>, c: nat)
    requires c <= LAST && NoneBelow(pages, c, LAST + 1)
    ensures Find(pages, c).None?
  {
    var found := Find(pages, c);
    assert found.None? || found.value.1 < LAST + 1;
  }

  /** Where the search must end. */
  lemma FindIs(pages: seq<Page>, c: nat, i: nat, k: nat)
    requires c <= k <= LAST && i < |pages| && pages[i].lists[k] != [] && NoneBelow(pages, c, k)
    requires forall j :: 0 <= j < i ==> pages[j].lists[k] == []
    ensures Find(pages, c) == Some((i, k))
  {
    var found := Find(pages, c);
    if found.Some? {
      assert found.value.1 == k;
    }
  }

  // ----- kma_malloc

  /** The page added for a request smaller than a page serves it, from its block of
      the request's class or of 128 bytes; so the recursive call adds no page. */
  lemma AgainFinds(s: Bud, p: int, c: nat)
    requires c < LAST && Find(s.pages, c).None?
    ensures Find(s.pages + [Page(p, 0, FreshLists(p))], c) == Some((|s.pages|, if c < 2 then 2 else c))
  {
    FreshListsAre(p);
    var pages, m := s.pages + [Page(p, 0, FreshLists(p))], if c < 2 then 2 else c;
    assert NoneBelow(s.pages, c, LAST + 1);
    NoneAppended(s.pages, pages[|s.pages|], c, m);
    FindIs(pages, c, |s.pages|, m);
  }

  lemma NoneAppended(pages: seq<Page>, pg: Page, c: nat, m: nat)
    requires c <= m <= LAST && NoneBelow(pages, c, LAST + 1) && forall k :: c <= k < m ==> pg.lists[k] == []
    ensures NoneBelow(pages + [pg], c, m)
    ensures forall j :: 0 <= j < |pages| ==> (pages + [pg])[j].lists[m] == []
  {
  }

  lemma FreshPageKeepsChain(s: Bud, live: set<Req>, pool: Pool, p: int)
    requires Chained(s, live) && p > 0 && p % 8192 == 0
    requires PoolOk(pool) && pool.inUse == s.pool.inUse + {p} && p !in s.pool.inUse
    ensures Chained(Bud(s.pages + [Page(p, 0, FreshLists(p))], pool), live)
  {
    FreshIsOk(p);
    AppendedKeepsChain(s, live, pool, Page(p, 0, FreshLists(p)), {});
    assert live + {} == live;
  }

  /** A fresh page at the end of the chain serves the request. */
  lemma NewPageServes(t: Bud, live: set<Req>, size: int, n: nat, p: int)
    requires Chained(t, live) && |t.pages| == n + 1 && t.pages[n] == Page(p, 0, FreshLists(p))
    requires Admitted(size) && Cut(size) < LAST
    requires Find(t.pages, Cut(size)) == Some((n, if Cut(size) < 2 then 2 else Cut(size)))
    ensures var o := Again(t, size);
            && o.Granted? && Req(o.ptr, size) !in live && Base(o.ptr) == p
            && Chained(o.state, live + {Req(o.ptr, size)}) && o.state.pool == t.pool
            && |o.state.pages| == n + 1 && o.state.pages[n].used == 1 && o.state.pages[..n] == t.pages[..n]
  {
    FreshListsAre(p);
    ServedKeepsChain(t, live, n, if Cut(size) < 2 then 2 else Cut(size), size);
  }

  lemma GrownWhole(s: Bud, live: set<Req>, size: int, pool: Pool, p: int)
    requires Inv(s, live) && Admitted(size) && Cut(size) == LAST
    requires PoolOk(pool) && pool.inUse == s.pool.inUse + {p} && p !in s.pool.inUse && p > 0 && p % 8192 == 0
    ensures Req(p + A + P, size) !in live && Base(p + A + P) == p
    ensures Chained(Bud(s.pages + [Page(p, 1, NO_BLOCKS)], pool), live + {Req(p + A + P, size)})
  {
    var r := Req(p + A + P, size);
    BaseIs(p, r.ptr);
    assert Base(r.ptr) == p && r !in live;
    AppendedKeepsChain(s, live, pool, Page(p, 1, NO_BLOCKS), {r});
  }

  /** The request served from what the page header left of the new page. */
  lemma GrownSplit(s: Bud, live: set<Req>, size: int, pool: Pool, p: int)
    requires Inv(s, live) && s.pages != [] && Admitted(size) && Cut(size) < LAST && Find(s.pages, Cut(size)).None?
    requires PoolOk(pool) && pool.inUse == s.pool.inUse + {p} && p !in s.pool.inUse && p > 0 && p % 8192 == 0
    ensures var o := Again(Bud(s.pages + [Page(p, 0, FreshLists(p))], pool), size);
            && o.Granted? && Req(o.ptr, size) !in live && Base(o.ptr) == p && o.state.pool == pool
            && Chained(o.state, live + {Req(o.ptr, size)})
            && |o.state.pages| == |s.pages| + 1
            && o.state.pages[|s.pages|].used == 1 && o.state.pages[..|s.pages|] == s.pages
  {
    var t := Bud(s.pages + [Page(p, 0, FreshLists(p))], pool);
    FreshPageKeepsChain(s, live, pool, p);
    AgainFinds(s, p, Cut(size));
    NewPageServes(t, live, size, |s.pages|, p);
    assert t.pages[..|s.pages|] == s.pages;
  }

  lemma OneMoreUsed(pages: seq<Page>, after: seq<Page>)
    requires |after| == |pages| + 1 && after[..|pages|] == pages && after[|pages|].used == 1
    requires forall i :: 0 < i < |pages| ==> pages[i].used > 0
    ensures forall i :: 0 < i < |after| ==> after[i].used > 0
  {
    forall i | 0 < i < |after| ensures after[i].used > 0 {
      assert i < |pages| ==> after[i] == after[..|pages|][i];
    }
  }

  lemma GrownKeepsChain(s: Bud, live: set<Req>, size: int, pool: Pool, p: int)
    requires Inv(s, live) && s.pages != [] && Admitted(size) && Find(s.pages, Cut(size)).None?
    requires PoolOk(pool) && pool.inUse == s.pool.inUse + {p} && p !in s.pool.inUse && p > 0 && p % 8192 == 0
    ensures var o := Grown(s, size, pool, p);
            && o.Granted? && Req(o.ptr, size) !in live && Base(o.ptr) == p
            && Inv(o.state, live + {Req(o.ptr, size)}) && o.state.pool == pool
            && |o.state.pages| == |s.pages| + 1
  {
    var o := Grown(s, size, pool, p);
    if Cut(size) == LAST {
      GrownWhole(s, live, size, pool, p);
    } else {
      GrownSplit(s, live, size, pool, p);
    }
    OneMoreUsed(s.pages, o.state.pages);
  }

  /** What GetFree comes to once no page has a block that fits. */
  lemma GetFreeAdds(s: Bud, size: int, arena: int, t: Bud, p: int)
    requires Find(s.pages, Cut(size)).None? && Get(s.pool, arena) == Some((t.pool, p))
    requires t.pages == s.pages + [Page(p, 0, FreshLists(p))]
    ensures Cut(size) == LAST ==>
              var whole := t.pages[|t.pages| - 1 := Page(p, 1, NO_BLOCKS)];
              GetFree(s, size, arena) == Granted(t.(pages := whole), p + A + P)
    ensures Cut(size) < LAST ==>
              Find(t.pages, Cut(size)).Some? && GetFree(s, size, arena) == GetFree(t, size, arena)
  {
    if Cut(size) < LAST {
      AgainFinds(s, p, Cut(size));
    } else {
      assert t.pages[|t.pages| - 1 := Page(p, 1, NO_BLOCKS)] == s.pages + [Page(p, 1, NO_BLOCKS)];
    }
  }

  lemma FirstPageKeepsInv(pool: Pool, p: int)
    requires PoolOk(pool) && pool.inUse == {p} && p > 0 && p % 8192 == 0
    ensures Inv(Bud([Page(p, 0, FreshLists(p))], pool), {})
  {
    FreshIsOk(p);
    var s := Bud([Page(p, 0, FreshLists(p))], pool);
    assert LiveOn({}, p) == {};
    forall q {:trigger PageOf(s.pages, q)} ensures PageOf(s.pages, q) < |s.pages| <==> q == p {
    }
  }

  lemma GetFreeKeepsInv(s: Bud, live: set<Req>, size: int, arena: int)
    requires Inv(s, live) && s.pages != [] && ValidArena(arena) && Admitted(size)
    ensures var o := GetFree(s, size, arena);
            && !o.Refused?
            && (o.Granted? ==> Req(o.ptr, size) !in live && Inv(o.state, live + {Req(o.ptr, size)}))
            && (o.Exhausted? <==> Find(s.pages, Cut(size)).None? && |s.pool.inUse| == MAXPAGES)
  {
    var found := Find(s.pages, Cut(size));
    if found.Some? {
      ServedKeepsChain(s, live, found.value.0, found.value.1, size);
    } else {
      GetKeepsPool(s.pool, arena);
      ExhaustedMeansAllOut(s.pool, arena);
      var got := Get(s.pool, arena);
      if got.Some? {
        GrownKeepsChain(s, live, size, got.value.0, got.value.1);
      }
    }
  }

  /** kma_malloc: refused exactly when page header, block header and size exceed a
      page; otherwise a block of a page in use that overlaps no other request,
      unless every page is out and none has a block that fits. */
  lemma MallocKeepsInv(s: Bud, live: set<Req>, size: int, arena: int)
    requires Inv(s, live) && ValidArena(arena)
    ensures var o := Malloc(s, size, arena);
            && (o.Refused? <==> !Admitted(size))
            && (o.Refused? ==> o.state == s)
            && (o.Granted? ==> Req(o.ptr, size) !in live && Inv(o.state, live + {Req(o.ptr, size)}))
            && (o.Exhausted? ==> s.pages != [] && Find(s.pages, Cut(size)).None? && |s.pool.inUse| == MAXPAGES)
  {
    if Admitted(size) {
      if s.pages == [] {
        StartKeepsInv(s, live, size, arena);
      } else {
        GetFreeKeepsInv(s, live, size, arena);
      }
    }
  }

  lemma NoPagesNoRequests(s: Bud, live: set<Req>)
    requires Chained(s, live) && s.pages == []
    ensures live == {} && s.pool.inUse == {} && s.pool.arena == NULL
  {
    forall p ensures p !in s.pool.inUse {
      assert PageOf(s.pages, p) == 0;
    }
    assert live == {};
  }

  lemma StartKeepsInv(s: Bud, live: set<Req>, size: int, arena: int)
    requires Inv(s, live) && s.pages == [] && ValidArena(arena) && Admitted(size)
    ensures var o := Malloc(s, size, arena);
            o.Granted? && Req(o.ptr, size) !in live && Inv(o.state, live + {Req(o.ptr, size)})
  {
    NoPagesNoRequests(s, live);
    GetKeepsPool(s.pool, arena);
    var got := Get(s.pool, arena).value;
    FirstPageKeepsInv(got.0, got.1);
    var t := Bud([Page(got.1, 0, FreshLists(got.1))], got.0);
    GetFreeKeepsInv(t, {}, size, arena);
    assert |t.pool.inUse| == 1;
  }

  /** Over all pages the block comes from the smallest class that has one, so every
      list a block is split into was empty; a page is asked for only when no page
      has a block that fits. */
  lemma ServedFromSmallest(s: Bud, live: set<Req>, size: int, arena: int)
    requires Inv(s, live) && s.pages != [] && ValidArena(arena) && Admitted(size)
    requires GetFree(s, size, arena).Granted?
    ensures var t := GetFree(s, size, arena).state;
            if Find(s.pages, Cut(size)).Some?
            then t.pool == s.pool && |t.pages| == |s.pages|
            else t.pool.requested == s.pool.requested + 1 && |t.pages| == |s.pages| + 1
                 && forall i, k, a :: 0 <= i < |s.pages| && Cut(size) <= k ==> !Listed(s.pages[i].lists, k, a)
  {
    var found := Find(s.pages, Cut(size));
    if found.None? {
      GetKeepsPool(s.pool, arena);
      var got := Get(s.pool, arena).value;
      GrownKeepsChain(s, live, size, got.0, got.1);
    }
  }

  // ----- kma_free

  lemma HolderIsListed(s: Bud, live: set<Req>, r: Req)
    requires Chained(s, live) && r in live
    ensures var i := PageOf(s.pages, Base(r.ptr));
            && i < |s.pages| && r in LiveOn(live, s.pages[i].base)
            && s.pages[i].base in s.pool.inUse && s.pages[i].used > 0
  {
    var i := PageOf(s.pages, Base(r.ptr));
    assert Base(r.ptr) in s.pool.inUse;
    assert r in LiveOn(live, s.pages[i].base);
  }

  lemma KeptPageKeepsChain(s: Bud, live: set<Req>, r: Req)
    requires Chained(s, live) && r in live
    requires PageOf(s.pages, Base(r.ptr)) < |s.pages| && s.pages[PageOf(s.pages, Base(r.ptr))].used > 1
    ensures Chained(Free(s, r), live - {r})
  {
    var i := PageOf(s.pages, Base(r.ptr));
    var t := Free(s, r);
    HolderIsListed(s, live, r);
    FreeOnPage(s.pages[i], LiveOn(live, s.pages[i].base), r);
    forall j | 0 <= j < |t.pages| ensures PageOk(t.pages[j], LiveOn(live - {r}, t.pages[j].base)) {
      LiveOnWith(live, r, s.pages[j].base);
      if j != i {
        BasesDiffer(s.pages, i, j);
        assert LiveOn(live, s.pages[j].base) - {r} == LiveOn(live, s.pages[j].base);
      }
    }
    SameBasesDistinct(s.pages, t.pages);
    forall p {:trigger PageOf(t.pages, p)} ensures PageOf(t.pages, p) == PageOf(s.pages, p) {
      SameBases(s.pages, t.pages, p);
    }
  }

  function Without(pages: seq<Page>, i: nat): seq<Page>
    requires i < |pages|
  {
    pages[..i] + pages[i + 1..]
  }

  lemma WithoutIndex(pages: seq<Page>, i: nat, p: int)
    requires i < |pages| && DistinctBases(pages)
    ensures PageOf(Without(pages, i), p) < |pages| - 1 <==> PageOf(pages, p) < |pages| && p != pages[i].base
  {
    var rest := Without(pages, i);
    assert forall j :: 0 <= j < |rest| ==> rest[j] == pages[if j < i then j else j + 1];
    var m, n := PageOf(pages, p), PageOf(rest, p);
    if m < |pages| && m != i {
      assert rest[if m < i then m else m - 1] == pages[m];
    }
    if n < |rest| { BasesDiffer(pages, if n < i then n else n + 1, i); }
  }

  lemma WithoutDistinct(pages: seq<Page>, i: nat)
    requires i < |pages| && DistinctBases(pages)
    ensures DistinctBases(Without(pages, i))
  {
    var rest := Without(pages, i);
    forall j, k {:trigger SameBase(rest, j, k)} ensures !SameBase(rest, j, k) {
      assert !SameBase(pages, if j < i then j else j + 1, if k < i then k else k + 1);
    }
  }

  lemma LastOnPage(s: Bud, live: set<Req>, r: Req)
    requires Chained(s, live) && r in live
    requires PageOf(s.pages, Base(r.ptr)) < |s.pages| && s.pages[PageOf(s.pages, Base(r.ptr))].used == 1
    ensures LiveOn(live, Base(r.ptr)) == {r}
    ensures s.pages[PageOf(s.pages, Base(r.ptr))].base == Base(r.ptr)
  {
    HolderIsListed(s, live, r);
    var on := LiveOn(live, Base(r.ptr));
    assert |on| == 1 && r in on;
    assert |on - {r}| == 0;
    assert on == {r} + (on - {r});
  }

  lemma DroppedIsUnused(s: Bud, live: set<Req>, r: Req)
    requires Chained(s, live) && r in live
    requires PageOf(s.pages, Base(r.ptr)) < |s.pages| && s.pages[PageOf(s.pages, Base(r.ptr))].used == 1
    ensures var t := Free(s, r);
            && t.pages == Without(s.pages, PageOf(s.pages, Base(r.ptr)))
            && PoolOk(t.pool)
            && forall q {:trigger PageOf(t.pages, q)} :: q in t.pool.inUse <==> PageOf(t.pages, q) < |t.pages|
    ensures forall q :: q in live - {r} ==> Base(q.ptr) in Free(s, r).pool.inUse
  {
    var i := PageOf(s.pages, Base(r.ptr));
    var t := Free(s, r);
    LastOnPage(s, live, r);
    ReleaseKeepsPool(s.pool, s.pages[i].base);
    forall q {:trigger PageOf(t.pages, q)} ensures q in t.pool.inUse <==> PageOf(t.pages, q) < |t.pages| {
      WithoutIndex(s.pages, i, q);
    }
    forall q | q in live - {r} ensures Base(q.ptr) in t.pool.inUse {
      assert q in LiveOn(live, Base(q.ptr));
    }
  }

  lemma DroppedPageKeepsChain(s: Bud, live: set<Req>, r: Req)
    requires Chained(s, live) && r in live
    requires PageOf(s.pages, Base(r.ptr)) < |s.pages| && s.pages[PageOf(s.pages, Base(r.ptr))].used == 1
    ensures Chained(Free(s, r), live - {r})
  {
    var i := PageOf(s.pages, Base(r.ptr));
    var rest := Without(s.pages, i);
    DroppedIsUnused(s, live, r);
    WithoutDistinct(s.pages, i);
    forall j | 0 <= j < |rest| ensures PageOk(rest[j], LiveOn(live - {r}, rest[j].base)) {
      var m := if j < i then j else j + 1;
      assert rest[j] == s.pages[m];
      BasesDiffer(s.pages, m, i);
      LiveOnOther(live, r, rest[j].base);
    }
  }

  lemma LiveOnOther(live: set<Req>, r: Req, base: int)
    requires Base(r.ptr) != base
    ensures LiveOn(live - {r}, base) == LiveOn(live, base)
  {
  }

  lemma FreeKeepsChain(s: Bud, live: set<Req>, r: Req)
    requires Chained(s, live) && r in live
    ensures PageOf(s.pages, Base(r.ptr)) < |s.pages|
    ensures Chained(Free(s, r), live - {r})
    ensures Base(r.ptr) in Free(s, r).pool.inUse <==> LiveOn(live, Base(r.ptr)) != {r}
  {
    HolderIsListed(s, live, r);
    var i := PageOf(s.pages, Base(r.ptr));
    if s.pages[i].used > 1 {
      KeptPageKeepsChain(s, live, r);
      assert |LiveOn(live, Base(r.ptr))| > 1;
    } else {
      DroppedPageKeepsChain(s, live, r);
      LastOnPage(s, live, r);
      ReleaseKeepsPool(s.pool, s.pages[i].base);
    }
  }

  lemma FreeKeepsUsed(s: Bud, live: set<Req>, r: Req)
    requires Inv(s, live) && PageOf(s.pages, Base(r.ptr)) < |s.pages|
    ensures var t := Free(s, r); forall i :: 0 < i < |t.pages| ==> t.pages[i].used > 0
  {
    var n := PageOf(s.pages, Base(r.ptr));
    var pg := Freed(s.pages[n], r);
    if pg.used == 0 {
      StillUsed(s.pages, Without(s.pages, n), n);
    } else {
      var after := s.pages[n := pg];
      assert forall i :: 0 < i < |after| ==> after[i].used > 0;
    }
  }

  lemma StillUsed(pages: seq<Page>, rest: seq<Page>, n: nat)
    requires n < |pages| && rest == Without(pages, n) && forall i :: 0 < i < |pages| ==> pages[i].used > 0
    ensures forall i :: 0 < i < |rest| ==> rest[i].used > 0
  {
    forall i | 0 < i < |rest| ensures rest[i].used > 0 {
      assert rest[i] == pages[if i < n then i else i + 1];
    }
  }

  /** kma_free: every other request keeps its block; the count of the page drops by
      exactly one, whatever merges follow, and the page goes back exactly when its
      last request does. */
  lemma FreeKeepsInv(s: Bud, live: set<Req>, r: Req)
    requires Inv(s, live) && r in live
    ensures PageOf(s.pages, Base(r.ptr)) < |s.pages|
    ensures Inv(Free(s, r), live - {r})
    ensures Base(r.ptr) in Free(s, r).pool.inUse <==> LiveOn(live, Base(r.ptr)) != {r}
  {
    FreeKeepsChain(s, live, r);
    FreeKeepsUsed(s, live, r);
  }

  lemma OnlyHolderOrFirst(s: Bud, r: Req, i: nat, j: nat)
    requires Inv(s, {r}) && i < |s.pages| && j < |s.pages| && s.pages[i].base == Base(r.ptr)
    ensures j == i || (j == 0 && s.pages[0].used == 0)
  {
    if j != i {
      BasesDiffer(s.pages, i, j);
      assert LiveOn({r}, s.pages[j].base) == {};
      assert s.pages[j].used == 0;
    }
  }

  /** Freeing the last request brings every page back if and only if that request
      lies on the first page; otherwise the first page stays in use with a count of
      zero. */
  lemma AllPagesComeBack(s: Bud, live: set<Req>, r: Req)
    requires Inv(s, live) && live == {r}
    ensures s.pages != []
    ensures var t := Free(s, r);
            if Base(r.ptr) == s.pages[0].base
            then t.pages == [] && t.pool.inUse == {} && t.pool.requested == t.pool.freed
            else t.pages == [s.pages[0]] && s.pages[0].used == 0 && t.pool.inUse == {s.pages[0].base}
  {
    HolderIsListed(s, live, r);
    FreeKeepsInv(s, live, r);
    var i := PageOf(s.pages, Base(r.ptr));
    var t := Free(s, r);
    assert live - {r} == {};
    OnlyHolderOrFirst(s, r, i, |s.pages| - 1);
    if |s.pages| > 1 { OnlyHolderOrFirst(s, r, i, 1); }
    if i > 0 { OnlyHolderOrFirst(s, r, i, 0); }
    LiveOnWith(live, r, s.pages[i].base);
    assert LiveOn(live, s.pages[i].base) == {r};
    assert s.pages[i].used == 1 && t.pages == s.pages[..i] + s.pages[i + 1..];
    if i == 0 {
      NoPagesNoRequests(t, {});
    } else {
      assert |s.pages| == 2 && s.pages[..1] == [s.pages[0]] && s.pages[2..] == [];
      assert t.pages == [s.pages[0]];
      forall p ensures p in t.pool.inUse <==> p == s.pages[0].base {
        assert PageOf(t.pages, p) < |t.pages| <==> p == s.pages[0].base;
      }
    }
  }

  // ----- runs

  datatype Op = Request(size: int, arena: int) | Return(req: Req)

  ghost function Step(s: Bud, live: set<Req>, op: Op): Option<(Bud, set<Req>)> {
    match op
    case Request(size, arena) =>
      var o := Malloc(s, size, arena);
      if !ValidArena(arena) then None
      else if o.Granted? then Some((o.state, live + {Req(o.ptr, size)}))
      else if o.Refused? then Some((o.state, live))
      else None
    case Return(r) =>
      if r in live && PageOf(s.pages, Base(r.ptr)) < |s.pages| then Some((Free(s, r), live - {r})) else None
  }

  /** The state and the live requests after a run; None once the pages have run out
      or the client returned what it does not hold. */
  ghost function Exec(ops: seq<Op>): Option<(Bud, set<Req>)> {
    if ops == [] then Some((EMPTY, {}))
    else
      var before := Exec(ops[..|ops| - 1]);
      if before.None? then None else Step(before.value.0, before.value.1, ops[|ops| - 1])
  }

  /** Every reachable state satisfies the invariant. */
  lemma {:induction false} RunKeepsInv(ops: seq<Op>)
    requires Exec(ops).Some?
    ensures Inv(Exec(ops).value.0, Exec(ops).value.1)
  {
    if ops != [] {
      RunKeepsInv(ops[..|ops| - 1]);
      var (s, live) := Exec(ops[..|ops| - 1]).value;
      var op := ops[|ops| - 1];
      if op.Request? {
        MallocKeepsInv(s, live, op.size, op.arena);
      } else {
        FreeKeepsInv(s, live, op.req);
      }
    }
  }

  /** In every reachable state the bytes of two requests never overlap, lie on the
      request's page, and leave the page header alone. */
  lemma RequestsKeepApart(ops: seq<Op>, r: Req, q: Req)
    requires Exec(ops).Some? && r in Exec(ops).value.1 && q in Exec(ops).value.1 && r != q
    ensures Apart(r.ptr, r.size, q.ptr, q.size)
    ensures Base(r.ptr) in Exec(ops).value.0.pool.inUse
    ensures Base(r.ptr) + A + P <= r.ptr && r.ptr + r.size <= Base(r.ptr) + PAGESIZE
  {
    RunKeepsInv(ops);
    var (s, live) := Exec(ops).value;
    HolderIsListed(s, live, r);
    HolderIsListed(s, live, q);
    var i, j := PageOf(s.pages, Base(r.ptr)), PageOf(s.pages, Base(q.ptr));
    assert PageOk(s.pages[i], LiveOn(live, s.pages[i].base)) && PageOk(s.pages[j], LiveOn(live, s.pages[j].base));
    StaysOnPage(s.pages[i], LiveOn(live, s.pages[i].base), r);
    StaysOnPage(s.pages[j], LiveOn(live, s.pages[j].base), q);
    if i == j {
      assert Apart(r.ptr, Extent(r), q.ptr, Extent(q));
    } else {
      DifferentPagesApart(Base(r.ptr), r.ptr, Extent(r), Base(q.ptr), q.ptr, Extent(q));
    }
  }

  lemma StaysOnPage(pg: Page, live: set<Req>, r: Req)
    requires PageOk(pg, live) && r in live
    ensures pg.base + A + P <= r.ptr && r.ptr + Extent(r) <= pg.base + PAGESIZE
    ensures r.size <= Extent(r)
  {
  }

  lemma DifferentPagesApart(p: int, a: int, m: int, q: int, b: int, n: int)
    requires p % 8192 == 0 && q % 8192 == 0 && p != q
    requires p <= a && a + m <= p + 8192 && q <= b && b + n <= q + 8192
    ensures Apart(a, m, b, n)
  {
  }

  /** No listed block overlaps a request either, in any reachable state. */
  lemma FreeBlocksKeepApart(ops: seq<Op>, r: Req, i: nat, k: int, a: int)
    requires Exec(ops).Some? && r in Exec(ops).value.1
    requires i < |Exec(ops).value.0.pages| && Listed(Exec(ops).value.0.pages[i].lists, k, a)
    ensures Apart(r.ptr, r.size, a, Size(k))
    ensures InPlace(Exec(ops).value.0.pages[i].base, k, a)
  {
    RunKeepsInv(ops);
    var (s, live) := Exec(ops).value;
    HolderIsListed(s, live, r);
    var j := PageOf(s.pages, Base(r.ptr));
    var pg := s.pages[i];
    assert PageOk(pg, LiveOn(live, pg.base)) && PageOk(s.pages[j], LiveOn(live, s.pages[j].base));
    StaysOnPage(s.pages[j], LiveOn(live, s.pages[j].base), r);
    SizeIsPositive(k);
    if i == j {
      assert Clear(pg.lists, r.ptr, Extent(r));
    } else {
      BasesDiffer(s.pages, i, j);
      DifferentPagesApart(s.pages[j].base, r.ptr, Extent(r), pg.base, a, Size(k));
    }
  }

  // A run that returns all it requested and yet keeps a page: the first request
  // takes a whole page, which is added behind the first one.

  lemma TwoPagesForOneRequest()
    ensures var first, whole := Page(8192, 0, FreshLists(8192)), Page(16384, 1, NO_BLOCKS);
            var pool := Pool(8192, Slots(8192)[2..], {8192, 16384}, 2, 0);
            Malloc(EMPTY, 5000, 8192) == Granted(Bud([first, whole], pool), 16480)
  {
    SlotsAreThePool(8192);
    var s := Slots(8192);
    var one, two := Pool(8192, s[1..], {8192}, 1, 0), Pool(8192, s[2..], {8192, 16384}, 2, 0);
    assert s[0] == 8192 && s[1..][0] == 16384 && s[1..][1..] == s[2..];
    assert {} + {8192} == {8192} && {8192} + {16384} == {8192, 16384};
    assert Get(EMPTY_POOL, 8192) == Some((one, 8192)) && Get(one, 8192) == Some((two, 16384));
    NoWholeBlock(8192);
  }

  lemma NoWholeBlock(p: int)
    ensures Find([Page(p, 0, FreshLists(p))], LAST).None?
  {
    FreshListsAre(p);
  }

  lemma LeakExample()
    ensures var ops := [Request(5000, 8192), Return(Req(16480, 5000))];
            && Exec(ops).Some? && Exec(ops).value.1 == {}
            && Exec(ops).value.0.pages == [Page(8192, 0, FreshLists(8192))]
            && Exec(ops).value.0.pool.inUse == {8192}
  {
    var q, b := Request(5000, 8192), Return(Req(16480, 5000));
    var first, whole := Page(8192, 0, FreshLists(8192)), Page(16384, 1, NO_BLOCKS);
    var s := Bud([first, whole], Pool(8192, Slots(8192)[2..], {8192, 16384}, 2, 0));
    TwoPagesForOneRequest();
    assert [q][..0] == [] && {} + {b.req} == {b.req};
    assert Exec([q][..0]) == Some((EMPTY, {}));
    assert Exec([q]) == Some((s, {b.req}));
    assert [q, b][..1] == [q] && {b.req} - {b.req} == {};
    assert PageOf(s.pages, 16384) == 1;
    assert {8192, 16384} - {16384} == {8192};
    assert s.pages[..1] + s.pages[2..] == [first];
  }
}
