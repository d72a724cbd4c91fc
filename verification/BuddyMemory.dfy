/** The headers of kma_bud.c in memory, and what writing some of them leaves of
    the lists they thread. */
module BuddyMemory {
  import opened PagePools
  import opened BuddyArithmetic
  import opened BuddyModel
  import opened BuddyProof
  import opened BuddyRuns

  /** allocheaderT, without the start address that follows from its own. */
  datatype AllocHeader = AllocHeader(size: int, next: int)

  /** pageheaderT; pages are named by their base, `first` is free_headers. */
  datatype PageHeader = PageHeader(next: int, used: int, first: seq<int>)

  function At(l: seq<int>, j: nat): int {
    if j < |l| then l[j] else NULL
  }

  predicate LinkOk(hdr: map<int, AllocHeader>, k: int, l: seq<int>, j: nat)
    requires j < |l|
  {
    l[j] != NULL && l[j] in hdr && hdr[l[j]] == AllocHeader(Size(k), At(l, j + 1))
  }

  /** The headers of list `l` of class `k` are linked in order. */
  ghost predicate Threads(hdr: map<int, AllocHeader>, k: int, l: seq<int>) {
    forall j :: 0 <= j < |l| ==> LinkOk(hdr, k, l, j)
  }

  ghost predicate AllThread(hdr: map<int, AllocHeader>, lists: Lists) {
    forall k {:trigger Threads(hdr, k, lists[k])} :: 0 <= k <= LAST ==> Threads(hdr, k, lists[k])
  }

  ghost predicate Heads(first: seq<int>, lists: Lists) {
    |first| == LAST + 1 && forall k :: 0 <= k <= LAST ==> first[k] == At(lists[k], 0)
  }

  /** The page at `page` has the lists `lists`. */
  ghost predicate Holds(ph: map<int, PageHeader>, hdr: map<int, AllocHeader>, page: int, lists: Lists) {
    page in ph && Heads(ph[page].first, lists) && AllThread(hdr, lists)
  }

  function BaseAt(pages: seq<Page>, i: nat): int {
    if i < |pages| then pages[i].base else NULL
  }

  ghost predicate PageStored(ph: map<int, PageHeader>, hdr: map<int, AllocHeader>, pg: Page) {
    Holds(ph, hdr, pg.base, pg.lists) && ph[pg.base].used == pg.used
  }

  ghost predicate AllStored(ph: map<int, PageHeader>, hdr: map<int, AllocHeader>, pages: seq<Page>) {
    forall i :: 0 <= i < |pages| ==> PageStored(ph, hdr, pages[i])
  }

  predicate NextOk(ph: map<int, PageHeader>, pages: seq<Page>, i: nat)
    requires i < |pages|
  {
    pages[i].base in ph && ph[pages[i].base].next == BaseAt(pages, i + 1)
  }

  /** Following the page headers from `first` visits `pages` and ends. */
  ghost predicate ChainStored(ph: map<int, PageHeader>, first: int, pages: seq<Page>) {
    && first == BaseAt(pages, 0)
    && forall i :: 0 <= i < |pages| ==> NextOk(ph, pages, i)
  }

  /** Blocks on their page, pairwise disjoint and listed in ascending order. */
  ghost predicate Spread(base: int, lists: Lists) {
    && base > 0
    && (forall k, a {:trigger Listed(lists, k, a)} :: Listed(lists, k, a) ==> base <= a && a + Size(k) <= base + 8192)
    && (forall k, a, m, b {:trigger Apart(a, Size(k), b, Size(m))} ::
          Listed(lists, k, a) && Listed(lists, m, b) && (k != m || a != b) ==> Apart(a, Size(k), b, Size(m)))
    && (forall k :: 0 <= k <= LAST ==> Ascending(lists[k]))
  }

  lemma OkIsSpread(base: int, lists: Lists)
    requires ListsOk(base, lists) && base > 0
    ensures Spread(base, lists)
  {
  }

  function WithFirst(ph: map<int, PageHeader>, page: int, k: nat, a: int): map<int, PageHeader>
    requires page in ph && k < |ph[page].first|
  {
    ph[page := ph[page].(first := ph[page].first[k := a])]
  }

  /** Only the lists of `page` and block headers on it were written. */
  ghost predicate Elsewhere(ph0: map<int, PageHeader>, hdr0: map<int, AllocHeader>,
                            ph: map<int, PageHeader>, hdr: map<int, AllocHeader>, page: int) {
    && page in ph0 && page in ph && ph == ph0[page := ph0[page].(first := ph[page].first)]
    && OffPage(hdr0, hdr, page)
  }

  ghost predicate OffPage(hdr0: map<int, AllocHeader>, hdr: map<int, AllocHeader>, page: int) {
    forall x :: x in hdr0 && (x < page || page + 8192 <= x) ==> x in hdr && hdr[x] == hdr0[x]
  }

  lemma ElsewhereTwice(ph0: map<int, PageHeader>, hdr0: map<int, AllocHeader>,
                       ph1: map<int, PageHeader>, hdr1: map<int, AllocHeader>,
                       ph: map<int, PageHeader>, hdr: map<int, AllocHeader>, page: int)
    requires Elsewhere(ph0, hdr0, ph1, hdr1, page) && Elsewhere(ph1, hdr1, ph, hdr, page)
    ensures Elsewhere(ph0, hdr0, ph, hdr, page)
  {
  }

  lemma ThreadsKept(before: map<int, AllocHeader>, hdr: map<int, AllocHeader>, k: int, l: seq<int>)
    requires Threads(before, k, l)
    requires forall j :: 0 <= j < |l| ==> l[j] in hdr && l[j] in before && hdr[l[j]] == before[l[j]]
    ensures Threads(hdr, k, l)
  {
    forall j | 0 <= j < |l| ensures LinkOk(hdr, k, l, j) {
      assert LinkOk(before, k, l, j);
    }
  }

  lemma TailThreads(hdr: map<int, AllocHeader>, k: int, l: seq<int>)
    requires l != [] && Threads(hdr, k, l)
    ensures Threads(hdr, k, l[1..])
  {
    forall j | 0 <= j < |l| - 1 ensures LinkOk(hdr, k, l[1..], j) {
      assert LinkOk(hdr, k, l, j + 1);
    }
  }

  // ----- splitting

  lemma ClassOfSize(k: int)
    requires 0 <= k <= LAST
    ensures Class(Size(k)) == k
  {
  }

  lemma HalfSize(k: int)
    requires 0 < k <= LAST
    ensures Size(k) == 2 * Size(k - 1) && Size(k - 1) > 0
  {
  }

  lemma SplitSpread(base: int, lists: Lists, k: nat)
    requires Spread(base, lists) && 0 < k <= LAST && lists[k] != [] && lists[k - 1] == []
    ensures Spread(base, Split(lists, k))
  {
    var a, s, after := lists[k][0], Size(k - 1), Split(lists, k);
    HalfSize(k);
    assert after[k - 1] == [a, a + s];
    forall m, b {:trigger Listed(after, m, b)} | Listed(after, m, b)
      ensures (m == k - 1 && (b == a || b == a + s)) || (Listed(lists, m, b) && (m != k || b != a))
    {
      assert Ascending(lists[k]);
    }
    assert Listed(lists, k, a);
    forall m, b {:trigger Listed(lists, m, b)} | Listed(lists, m, b) && (m != k || b != a)
      ensures Apart(a, s, b, Size(m)) && Apart(a + s, s, b, Size(m))
    {
      assert Apart(a, Size(k), b, Size(m));
    }
  }

  /** The lists of classes k and k - 1 after a split. */
  lemma SplitListsThread(hdr0: map<int, AllocHeader>, hdr: map<int, AllocHeader>, base: int, lists: Lists, k: nat)
    requires Spread(base, lists) && 0 < k <= LAST && lists[k] != [] && lists[k - 1] == []
    requires Threads(hdr0, k, lists[k])
    requires var a, s := lists[k][0], Size(k - 1);
             hdr == hdr0[a + s := AllocHeader(s, NULL)][a := AllocHeader(s, a + s)]
    ensures Threads(hdr, k, Split(lists, k)[k])
    ensures Threads(hdr, k - 1, Split(lists, k)[k - 1])
  {
    var l, a, s := lists[k], lists[k][0], Size(k - 1);
    var rest, below := l[1..], Split(lists, k)[k - 1];
    HalfSize(k);
    TailThreads(hdr0, k, l);
    assert Listed(lists, k, a) && Ascending(l);
    forall j | 0 <= j < |rest| ensures rest[j] in hdr0 && rest[j] in hdr && hdr[rest[j]] == hdr0[rest[j]] {
      assert LinkOk(hdr0, k, rest, j) && Listed(lists, k, l[j + 1]);
      assert Apart(a, Size(k), l[j + 1], Size(k));
    }
    ThreadsKept(hdr0, hdr, k, rest);
    assert below == [a, a + s];
    assert LinkOk(hdr, k - 1, below, 0) && LinkOk(hdr, k - 1, below, 1);
  }

  /** Writes inside listed block `a` of class `k` leave the other lists threaded. */
  lemma OtherListKept(hdr0: map<int, AllocHeader>, hdr: map<int, AllocHeader>, base: int, lists: Lists, k: int,
                      a: int, m: int)
    requires Spread(base, lists) && 0 <= m <= LAST && m != k && Listed(lists, k, a) && Threads(hdr0, m, lists[m])
    requires forall x :: x in hdr0 && (x < a || a + Size(k) <= x) ==> x in hdr && hdr[x] == hdr0[x]
    ensures Threads(hdr, m, lists[m])
  {
    var l := lists[m];
    forall n | 0 <= n < |l| ensures l[n] in hdr0 && l[n] in hdr && hdr[l[n]] == hdr0[l[n]] {
      assert LinkOk(hdr0, m, l, n) && Listed(lists, m, l[n]);
      assert Apart(a, Size(k), l[n], Size(m));
      SizeIsPositive(m);
    }
    ThreadsKept(hdr0, hdr, m, l);
  }

  /** Memory in which only the two headers of a split block were written. */
  lemma SplitHolds(hdr0: map<int, AllocHeader>, hdr: map<int, AllocHeader>, base: int, lists: Lists, k: nat)
    requires Spread(base, lists) && 0 < k <= LAST && lists[k] != [] && lists[k - 1] == []
    requires AllThread(hdr0, lists)
    requires var a, s := lists[k][0], Size(k - 1);
             hdr == hdr0[a + s := AllocHeader(s, NULL)][a := AllocHeader(s, a + s)]
    ensures AllThread(hdr, Split(lists, k)) && OffPage(hdr0, hdr, base)
  {
    var a, after := lists[k][0], Split(lists, k);
    HalfSize(k);
    assert Listed(lists, k, a) && Threads(hdr0, k, lists[k]);
    SplitListsThread(hdr0, hdr, base, lists, k);
    forall m {:trigger Threads(hdr, m, after[m])} | 0 <= m <= LAST ensures Threads(hdr, m, after[m]) {
      assert Threads(hdr0, m, lists[m]);
      if m != k && m != k - 1 {
        OtherListKept(hdr0, hdr, base, lists, k, a, m);
      }
    }
  }

  // ----- several pages

  /** Distinct pages in use, their blocks spread over them. */
  ghost predicate Roomy(pages: seq<Page>, inUse: set<int>) {
    && (forall i :: 0 <= i < |pages| ==>
          pages[i].base in inUse && pages[i].base % 8192 == 0 && Spread(pages[i].base, pages[i].lists))
    && DistinctBases(pages)
  }

  /** Writing block headers of one page leaves the lists of another alone. */
  lemma OtherPageKept(ph0: map<int, PageHeader>, hdr0: map<int, AllocHeader>, ph: map<int, PageHeader>,
                      hdr: map<int, AllocHeader>,
                      page: int, pg: Page)
    requires OffPage(hdr0, hdr, page) && page % 8192 == 0
    requires PageStored(ph0, hdr0, pg) && Spread(pg.base, pg.lists) && pg.base % 8192 == 0 && pg.base != page
    requires pg.base in ph && ph[pg.base].first == ph0[pg.base].first && ph[pg.base].used == ph0[pg.base].used
    ensures PageStored(ph, hdr, pg)
  {
    forall k {:trigger Threads(hdr, k, pg.lists[k])} | 0 <= k <= LAST ensures Threads(hdr, k, pg.lists[k]) {
      var l := pg.lists[k];
      assert Threads(hdr0, k, l);
      forall n | 0 <= n < |l| ensures l[n] in hdr0 && l[n] in hdr && hdr[l[n]] == hdr0[l[n]] {
        assert LinkOk(hdr0, k, l, n) && Listed(pg.lists, k, l[n]);
        SizeIsPositive(k);
        NotOnPage(page, pg.base, l[n]);
      }
      ThreadsKept(hdr0, hdr, k, l);
    }
  }

  lemma NotOnPage(page: int, base: int, a: int)
    requires page % 8192 == 0 && base % 8192 == 0 && page != base && base <= a < base + 8192
    ensures a < page || page + 8192 <= a
  {
  }

  /** One page of the chain got other lists and another count. */
  lemma PageChanged(ph0: map<int, PageHeader>, hdr0: map<int, AllocHeader>, ph1: map<int, PageHeader>,
                    ph: map<int, PageHeader>, hdr: map<int, AllocHeader>, first: int,
                    pages: seq<Page>, inUse: set<int>, i: nat, pg: Page)
    requires i < |pages| && Roomy(pages, inUse) && ChainStored(ph0, first, pages) && AllStored(ph0, hdr0, pages)
    requires pg.base == pages[i].base && Elsewhere(ph0, hdr0, ph1, hdr, pg.base) && Holds(ph1, hdr, pg.base, pg.lists)
    requires ph == ph1[pg.base := ph1[pg.base].(used := pg.used)]
    ensures ChainStored(ph, first, pages[i := pg]) && AllStored(ph, hdr, pages[i := pg])
  {
    var after := pages[i := pg];
    forall j | 0 <= j < |after| ensures PageStored(ph, hdr, after[j]) {
      if j != i {
        BasesDiffer(pages, i, j);
        OtherPageKept(ph0, hdr0, ph, hdr, pg.base, pages[j]);
      }
    }
    ChangedChain(ph0, ph, first, pages, i, pg);
  }

  lemma ChangedChain(ph0: map<int, PageHeader>, ph: map<int, PageHeader>, first: int, pages: seq<Page>, i: nat,
                     pg: Page)
    requires i < |pages| && ChainStored(ph0, first, pages) && pg.base == pages[i].base
    requires forall x :: x in ph0 ==> x in ph && ph[x].next == ph0[x].next
    ensures ChainStored(ph, first, pages[i := pg])
  {
    var after := pages[i := pg];
    forall j | 0 <= j < |after| ensures NextOk(ph, after, j) {
      assert NextOk(ph0, pages, j);
      assert after[j].base == pages[j].base && BaseAt(after, j + 1) == BaseAt(pages, j + 1);
    }
  }

  /** The headers of a page not in use were written. */
  lemma PageSetAside(ph0: map<int, PageHeader>, hdr0: map<int, AllocHeader>, ph: map<int, PageHeader>,
                     hdr: map<int, AllocHeader>,
                     first: int, pages: seq<Page>, inUse: set<int>, p: int)
    requires Roomy(pages, inUse) && ChainStored(ph0, first, pages) && AllStored(ph0, hdr0, pages)
    requires p !in inUse && p % 8192 == 0 && p in ph && p in hdr && ph == ph0[p := ph[p]] && hdr == hdr0[p := hdr[p]]
    ensures ChainStored(ph, first, pages) && AllStored(ph, hdr, pages)
  {
    forall j | 0 <= j < |pages| ensures PageStored(ph, hdr, pages[j]) && NextOk(ph, pages, j) {
      assert NextOk(ph0, pages, j);
      OtherPageKept(ph0, hdr0, ph, hdr, p, pages[j]);
    }
  }

  /** A page was put behind the last one. */
  lemma PageAppended(ph0: map<int, PageHeader>, hdr0: map<int, AllocHeader>, ph: map<int, PageHeader>,
                     hdr: map<int, AllocHeader>,
                     first: int, pages: seq<Page>, inUse: set<int>, pg: Page)
    requires pages != [] && Roomy(pages, inUse) && ChainStored(ph0, first, pages) && AllStored(ph0, hdr0, pages)
    requires pg.base !in inUse && pg.base % 8192 == 0 && OffPage(hdr0, hdr, pg.base) && PageStored(ph, hdr, pg)
    requires ph[pg.base].next == NULL
    requires var last := pages[|pages| - 1].base;
             ph == ph0[last := ph0[last].(next := pg.base)][pg.base := ph[pg.base]]
    ensures ChainStored(ph, first, pages + [pg]) && AllStored(ph, hdr, pages + [pg])
  {
    var after := pages + [pg];
    assert NextOk(ph0, pages, |pages| - 1) && NextOk(ph, after, |pages|);
    forall j | 0 <= j < |pages| ensures PageStored(ph, hdr, after[j]) && NextOk(ph, after, j) {
      assert NextOk(ph0, pages, j);
      OtherPageKept(ph0, hdr0, ph, hdr, pg.base, pages[j]);
      assert after[j] == pages[j] && BaseAt(after, j + 1) == if j + 1 < |pages| then pages[j + 1].base else pg.base;
    }
  }

  // ----- a new page

  /** The lists of a page before its header is allocated: one block, the page. */
  function Whole(base: int): Lists {
    NO_BLOCKS[LAST := [base]]
  }

  lemma WholeHolds(ph: map<int, PageHeader>, hdr: map<int, AllocHeader>, base: int)
    requires base > 0 && base in ph && ph[base].first == [NULL, NULL, NULL, NULL, NULL, NULL, NULL, NULL, base]
    requires base in hdr && hdr[base] == AllocHeader(PAGESIZE, NULL)
    ensures Holds(ph, hdr, base, Whole(base)) && Spread(base, Whole(base))
  {
    assert LinkOk(hdr, LAST, [base], 0);
    forall k, a {:trigger Listed(Whole(base), k, a)} ensures Listed(Whole(base), k, a) <==> k == LAST && a == base {
    }
  }

  lemma HeadIsNull(ph: map<int, PageHeader>, hdr: map<int, AllocHeader>, pg: Page, k: nat)
    requires PageStored(ph, hdr, pg) && k <= LAST
    ensures ph[pg.base].first[k] == NULL <==> pg.lists[k] == []
  {
    assert Threads(hdr, k, pg.lists[k]);
    assert pg.lists[k] != [] ==> LinkOk(hdr, k, pg.lists[k], 0);
  }

  /** What search_size is when class `k` is searched, or when all have been. */
  function SearchSize(k: nat): int {
    if k <= LAST then Size(k) else 2 * PAGESIZE
  }

  lemma SearchSizes(k: nat)
    requires k <= LAST
    ensures SearchSize(k) <= PAGESIZE && Class(SearchSize(k)) == k
    ensures 2 * SearchSize(k) == SearchSize(k + 1)
    ensures SearchSize(k + 1) <= PAGESIZE <==> k + 1 <= LAST
  {
  }

  ghost predicate BasesNotNull(pages: seq<Page>) {
    forall i :: 0 <= i < |pages| ==> pages[i].base != NULL
  }

  lemma BasesAreNotNull(pages: seq<Page>, m: Pool)
    requires Roomy(pages, m.inUse) && PoolOk(m)
    ensures BasesNotNull(pages)
  {
    forall i | 0 <= i < |pages| ensures pages[i].base != NULL {
      InUseIsAligned(m, pages[i].base);
    }
  }

  lemma NothingHeld(ph: map<int, PageHeader>, hdr: map<int, AllocHeader>, page: int)
    requires page in ph && ph[page].first == [NULL, NULL, NULL, NULL, NULL, NULL, NULL, NULL, NULL]
    ensures Holds(ph, hdr, page, NO_BLOCKS)
  {
  }

  lemma AppendedRoomy(pages: seq<Page>, inUse: set<int>, p: int)
    requires Roomy(pages, inUse) && p > 0 && p % 8192 == 0 && p !in inUse
    ensures Roomy(pages + [Page(p, 0, FreshLists(p))], inUse + {p})
  {
    FreshIsOk(p);
    OkIsSpread(p, FreshLists(p));
    var after := pages + [Page(p, 0, FreshLists(p))];
    forall i, j {:trigger SameBase(after, i, j)} ensures !SameBase(after, i, j) {
      assert !SameBase(pages, i, j);
    }
  }

  lemma RequestSize(size: int)
    requires Admitted(size)
    ensures RoundUp(size + A) == SearchSize(Cut(size)) && Class(RoundUp(size + A)) == Cut(size)
    ensures RoundUp(size + A) == PAGESIZE <==> Cut(size) == LAST
  {
    RoundUpIsClass(size + A);
  }

  /** The call of kma_malloc for a page header, on a page that is one block. */
  lemma HeaderIsServed(page: int, m: Pool, arena: int)
    ensures Malloc(Bud([Page(page, 0, Whole(page))], m), P, arena)
              == Granted(Bud([Page(page, 1, FreshLists(page))], m), Take(Whole(page), LAST, Class(P)).1)
  {
    var pages := [Page(page, 0, Whole(page))];
    assert Cut(P) == Class(P);
    FindIs(pages, Class(P), 0, LAST);
    assert pages[0 := Page(page, 1, FreshLists(page))] == [Page(page, 1, FreshLists(page))];
  }

  lemma InvIsRoomy(s: Bud, live: set<Req>)
    requires Chained(s, live)
    ensures Roomy(s.pages, s.pool.inUse)
  {
    forall i | 0 <= i < |s.pages|
      ensures s.pages[i].base in s.pool.inUse && s.pages[i].base % 8192 == 0
      ensures Spread(s.pages[i].base, s.pages[i].lists)
    {
      var pg := s.pages[i];
      assert PageOf(s.pages, pg.base) < |s.pages|;
      assert PageOk(pg, LiveOn(live, pg.base));
      OkIsSpread(pg.base, pg.lists);
    }
  }

  lemma FirstPageRoomy(p: int, inUse: set<int>)
    requires p in inUse && p > 0 && p % 8192 == 0
    ensures Roomy([Page(p, 0, FreshLists(p))], inUse)
  {
    FreshIsOk(p);
    OkIsSpread(p, FreshLists(p));
  }

  // ----- freeing

  /** What a free needs to know of the page it puts a block on. */
  ghost predicate Freeable(page: int, lists: Lists, k: nat, a: int)
    requires k <= LAST
  {
    && page > 0 && page % 8192 == 0 && page == Base(a) && ListsOk(page, lists)
    && (k < LAST ==> a + Size(k) <= page + 8192 && Clear(lists, a, Size(k)) && (lists[k] == [] || InPlace(page, k, a)))
  }

  lemma NotListed(lists: Lists, k: nat, a: int, m: int, b: int)
    requires Clear(lists, a, Size(k)) && Listed(lists, m, b)
    ensures a != b
  {
    SizeIsPositive(k);
    SizeIsPositive(m);
    assert Apart(a, Size(k), b, Size(m));
  }

  /** Headers written at an unlisted block and at listed block `p` of class `k`
      leave the lists of other classes threaded. */
  lemma OtherClassKept(hdr0: map<int, AllocHeader>, hdr: map<int, AllocHeader>, base: int, lists: Lists, k: nat,
                       a: int, p: int, m: nat)
    requires Spread(base, lists) && m <= LAST && m != k && Clear(lists, a, Size(k)) && Threads(hdr0, m, lists[m])
    requires p == a || Listed(lists, k, p)
    requires forall x :: x in hdr0 && x != a && x != p ==> x in hdr && hdr[x] == hdr0[x]
    ensures Threads(hdr, m, lists[m])
  {
    var l := lists[m];
    forall n | 0 <= n < |l| ensures l[n] in hdr0 && l[n] in hdr && hdr[l[n]] == hdr0[l[n]] {
      assert LinkOk(hdr0, m, l, n) && Listed(lists, m, l[n]);
      NotListed(lists, k, a, m, l[n]);
      SizeIsPositive(k);
      SizeIsPositive(m);
      assert p == a || Apart(p, Size(k), l[n], Size(m));
    }
    ThreadsKept(hdr0, hdr, m, l);
  }

  /** The freed block became the head of its list. */
  lemma HeadHolds(hdr0: map<int, AllocHeader>, hdr: map<int, AllocHeader>, base: int, lists: Lists, k: nat, a: int)
    requires Spread(base, lists) && k <= LAST && Clear(lists, a, Size(k)) && AllThread(hdr0, lists) && a > 0
    requires hdr == hdr0[a := AllocHeader(Size(k), At(lists[k], 0))]
    ensures AllThread(hdr, lists[k := [a] + lists[k]])
  {
    var after := lists[k := [a] + lists[k]];
    forall m {:trigger Threads(hdr, m, after[m])} | 0 <= m <= LAST ensures Threads(hdr, m, after[m]) {
      assert Threads(hdr0, m, lists[m]);
      if m != k {
        OtherClassKept(hdr0, hdr, base, lists, k, a, a, m);
      } else {
        forall j | 0 <= j < |after[k]| ensures LinkOk(hdr, k, after[k], j) {
          if j > 0 {
            assert LinkOk(hdr0, k, lists[k], j - 1) && Listed(lists, k, lists[k][j - 1]);
            NotListed(lists, k, a, k, lists[k][j - 1]);
          }
        }
      }
    }
  }

  /** Block `a` linked behind the first `i` blocks of a list: one header of it. */
  lemma InsertedLink(hdr0: map<int, AllocHeader>, hdr: map<int, AllocHeader>, k: nat, l: seq<int>, i: nat, a: int,
                     j: nat)
    requires Threads(hdr0, k, l) && Ascending(l) && a > 0 && a !in l && 0 < i < |l| && j <= |l|
    requires hdr == hdr0[a := AllocHeader(Size(k), l[i])][l[i - 1] := AllocHeader(Size(k), a)]
    ensures LinkOk(hdr, k, l[..i] + [a] + l[i..], j)
  {
    var after := l[..i] + [a] + l[i..];
    if j < i {
      assert LinkOk(hdr0, k, l, j) && after[j] == l[j];
      assert At(after, j + 1) == if j == i - 1 then a else l[j + 1];
      assert j < i - 1 ==> l[j] < l[i - 1];
    } else if j == i {
      assert after[i] == a && At(after, i + 1) == l[i] && l[i - 1] != a;
    } else {
      assert LinkOk(hdr0, k, l, j - 1) && after[j] == l[j - 1] && At(after, j + 1) == At(l, j);
      assert l[i - 1] < l[j - 1];
    }
  }

  /** The freed block was linked inside its list. */
  lemma MiddleHolds(hdr0: map<int, AllocHeader>, hdr: map<int, AllocHeader>, base: int, lists: Lists, k: nat, a: int)
    requires Spread(base, lists) && k <= LAST && Clear(lists, a, Size(k)) && AllThread(hdr0, lists) && a > 0
    requires var i := Above(lists[k], a);
             && 0 < i < |lists[k]|
             && hdr == hdr0[a := AllocHeader(Size(k), lists[k][i])][lists[k][i - 1] := AllocHeader(Size(k), a)]
    ensures AllThread(hdr, lists[k := Slotted(lists[k], a)])
  {
    var l, i, after := lists[k], Above(lists[k], a), lists[k := Slotted(lists[k], a)];
    assert Listed(lists, k, l[i - 1]) && Threads(hdr0, k, l) && Ascending(l);
    forall j | 0 <= j < |l| ensures l[j] != a {
      assert Listed(lists, k, l[j]);
      NotListed(lists, k, a, k, l[j]);
    }
    forall j | 0 <= j < |after[k]| ensures LinkOk(hdr, k, after[k], j) {
      InsertedLink(hdr0, hdr, k, l, i, a, j);
    }
    forall m {:trigger Threads(hdr, m, after[m])} | 0 <= m <= LAST ensures Threads(hdr, m, after[m]) {
      assert Threads(hdr0, m, lists[m]);
      if m != k {
        OtherClassKept(hdr0, hdr, base, lists, k, a, l[i - 1], m);
      }
    }
  }

  /** The freed block was not linked. */
  lemma LostHolds(hdr0: map<int, AllocHeader>, hdr: map<int, AllocHeader>, base: int, lists: Lists, k: nat, a: int,
                  h: AllocHeader)
    requires k <= LAST && Clear(lists, a, Size(k)) && AllThread(hdr0, lists)
    requires hdr == hdr0[a := h]
    ensures AllThread(hdr, lists)
  {
    forall m {:trigger Threads(hdr, m, lists[m])} | 0 <= m <= LAST ensures Threads(hdr, m, lists[m]) {
      var l := lists[m];
      assert Threads(hdr0, m, l);
      forall n | 0 <= n < |l| ensures l[n] in hdr0 && l[n] in hdr && hdr[l[n]] == hdr0[l[n]] {
        assert LinkOk(hdr0, m, l, n) && Listed(lists, m, l[n]);
        NotListed(lists, k, a, m, l[n]);
      }
      ThreadsKept(hdr0, hdr, m, l);
    }
  }

  /** The merged pair, and the blocks before it, cut off the head of their list. */
  lemma UnpairedHolds(hdr: map<int, AllocHeader>, lists: Lists)
    requires AllThread(hdr, lists) && MergeClass(lists, 0) < LAST
    ensures AllThread(hdr, Unpaired(lists))
  {
    var k := MergeClass(lists, 0);
    var l, i, after := lists[k], MergeAt(lists[k], k), Unpaired(lists);
    forall m {:trigger Threads(hdr, m, after[m])} | 0 <= m <= LAST ensures Threads(hdr, m, after[m]) {
      assert Threads(hdr, m, lists[m]);
      if m == k {
        forall j | 0 <= j < |after[k]| ensures LinkOk(hdr, k, after[k], j) {
          assert LinkOk(hdr, k, l, i + 2 + j);
        }
      }
    }
  }

  lemma MergeAtIs(l: seq<int>, k: nat, i: nat)
    requires i + 1 < |l| && l[i + 1] == BuddyOf(k, l[i])
    requires forall j :: 0 <= j < i ==> l[j + 1] != BuddyOf(k, l[j])
    ensures MergeAt(l, k) == i
  {
    var m := MergeAt(l, k);
    assert m >= i;
  }

  lemma MergeNowhere(l: seq<int>, k: nat)
    requires forall j :: 0 <= j < |l| - 1 ==> l[j + 1] != BuddyOf(k, l[j])
    ensures MergeAt(l, k) == |l|
  {
  }

  lemma MergeClassIs(lists: Lists, k: nat)
    requires k <= LAST && (k < LAST ==> MergeAt(lists[k], k) < |lists[k]|)
    requires forall j :: 0 <= j < k ==> MergeAt(lists[j], j) == |lists[j]|
    ensures MergeClass(lists, 0) == k
  {
  }

  lemma LastOfList(hdr: map<int, AllocHeader>, k: int, l: seq<int>, j: nat)
    requires Threads(hdr, k, l) && j < |l| && LinkOk(hdr, k, l, j)
    ensures hdr[l[j]].next == NULL <==> j == |l| - 1
  {
    if j < |l| - 1 {
      assert LinkOk(hdr, k, l, j + 1);
    }
  }

  lemma PairIsFreeable(page: int, lists: Lists)
    requires ListsOk(page, lists) && page > 0 && page % 8192 == 0 && MergeClass(lists, 0) < LAST
    ensures Merged(lists) > 0 && Base(Merged(lists)) == page
    ensures Freeable(page, Unpaired(lists), MergeClass(lists, 0) + 1, Merged(lists))
    ensures Count(Unpaired(lists)) + 2 <= Count(lists)
  {
    MergeMakesBlock(page, lists);
    PairIsBuddies(page, lists);
    SizeIsPositive(MergeClass(lists, 0) + 1);
    OffsetIs(page, Merged(lists));
  }

  lemma TwiceSize(k: nat)
    requires k < LAST
    ensures 2 * Size(k) <= PAGESIZE && Class(2 * Size(k)) == k + 1
  {
  }

  lemma ClassSize(size: int)
    requires size <= PAGESIZE
    ensures Size(Class(size)) == PAGESIZE <==> Class(size) == LAST
  {
  }

  /** `page` has the count `used`; otherwise only its lists were written. */
  ghost predicate Recounted(ph0: map<int, PageHeader>, hdr0: map<int, AllocHeader>,
                            ph: map<int, PageHeader>, hdr: map<int, AllocHeader>, page: int, used: int) {
    && page in ph0 && page in ph && ph == ph0[page := PageHeader(ph0[page].next, used, ph[page].first)]
    && OffPage(hdr0, hdr, page)
  }

  /** The free inside coalesce takes back the count it was given. */
  lemma MergedElsewhere(ph0: map<int, PageHeader>, hdr0: map<int, AllocHeader>,
                        ph1: map<int, PageHeader>, hdr1: map<int, AllocHeader>,
                        ph: map<int, PageHeader>, hdr: map<int, AllocHeader>, page: int)
    requires Elsewhere(ph0, hdr0, ph1, hdr1, page)
    requires Recounted(ph1[page := ph1[page].(used := ph1[page].used + 1)], hdr1, ph, hdr, page, ph1[page].used)
    ensures Elsewhere(ph0, hdr0, ph, hdr, page)
  {
  }

  /** The chain without its page `n`: the page before it, if any, names the next. */
  lemma ChainWithout(ph0: map<int, PageHeader>, ph: map<int, PageHeader>, hdr: map<int, AllocHeader>, first: int,
                     pages: seq<Page>, n: nat)
    requires n < |pages| && DistinctBases(pages) && ChainStored(ph0, first, pages) && AllStored(ph0, hdr, pages)
    requires ph == if n == 0 then ph0
                   else ph0[pages[n - 1].base := ph0[pages[n - 1].base].(next := BaseAt(pages, n + 1))]
    ensures ChainStored(ph, if n == 0 then BaseAt(pages, 1) else first, Without(pages, n))
    ensures AllStored(ph, hdr, Without(pages, n))
  {
    var rest := Without(pages, n);
    forall j | 0 <= j < |rest| ensures NextOk(ph, rest, j) && PageStored(ph, hdr, rest[j]) {
      var i := if j < n then j else j + 1;
      assert rest[j] == pages[i] && PageStored(ph0, hdr, pages[i]) && NextOk(ph0, pages, i);
      if i != n - 1 && n > 0 { BasesDiffer(pages, i, n - 1); }
      assert BaseAt(rest, j + 1) == if j + 1 == n then BaseAt(pages, n + 1) else BaseAt(pages, i + 1);
    }
  }

  lemma RecountedPage(ph0: map<int, PageHeader>, hdr0: map<int, AllocHeader>, ph: map<int, PageHeader>,
                      hdr: map<int, AllocHeader>,
                      first: int, pages: seq<Page>, inUse: set<int>, i: nat, pg: Page)
    requires i < |pages| && Roomy(pages, inUse) && ChainStored(ph0, first, pages) && AllStored(ph0, hdr0, pages)
    requires pg.base == pages[i].base && Recounted(ph0, hdr0, ph, hdr, pg.base, pg.used)
    requires Holds(ph, hdr, pg.base, pg.lists)
    ensures ChainStored(ph, first, pages[i := pg]) && AllStored(ph, hdr, pages[i := pg])
  {
    var ph1 := ph0[pg.base := ph0[pg.base].(first := ph[pg.base].first)];
    assert Holds(ph1, hdr, pg.base, pg.lists);
    PageChanged(ph0, hdr0, ph1, ph, hdr, first, pages, inUse, i, pg);
  }

  /** The request's page can take its block back. */
  lemma HolderIsFreeable(s: Bud, live: set<Req>, r: Req)
    requires Chained(s, live) && r in live
    ensures var i := PageOf(s.pages, Base(r.ptr));
            && i < |s.pages| && s.pages[i].used > 0
            && -(A + P) <= r.size <= PAGESIZE && r.ptr > 0
            && Freeable(Base(r.ptr), s.pages[i].lists, Class(r.size), r.ptr)
  {
    HolderIsListed(s, live, r);
    var pg := s.pages[PageOf(s.pages, Base(r.ptr))];
    OnPageIsFreeable(pg, LiveOn(live, pg.base), r);
  }

  lemma OnPageIsFreeable(pg: Page, live: set<Req>, r: Req)
    requires PageOk(pg, live) && r in live && Base(r.ptr) == pg.base
    ensures -(A + P) <= r.size <= PAGESIZE && r.ptr > 0 && Freeable(pg.base, pg.lists, Class(r.size), r.ptr)
  {
    ClassIsMonotone(r.size, r.size + A);
    SizeIsPositive(Class(r.size));
    if Cut(r.size) < LAST {
      AlignedBelow(Class(r.size), Cut(r.size), r.ptr - pg.base);
      assert Clear(pg.lists, r.ptr, Extent(r));
    }
  }

  lemma HeadOf(ph: map<int, PageHeader>, hdr: map<int, AllocHeader>, page: int, lists: Lists, k: nat)
    requires k <= LAST && Holds(ph, hdr, page, lists)
    ensures ph[page].first[k] == At(lists[k], 0)
    ensures ph[page].first[k] == NULL <==> lists[k] == []
  {
    assert Threads(hdr, k, lists[k]);
    assert lists[k] != [] ==> LinkOk(hdr, k, lists[k], 0);
  }

  lemma ElsewhereAfter(ph0: map<int, PageHeader>, hdr0: map<int, AllocHeader>, hdr1: map<int, AllocHeader>,
                       ph: map<int, PageHeader>, hdr: map<int, AllocHeader>, page: int)
    requires OffPage(hdr0, hdr1, page) && Elsewhere(ph0, hdr1, ph, hdr, page)
    ensures Elsewhere(ph0, hdr0, ph, hdr, page)
  {
  }

  lemma ListedOnPage(page: int, lists: Lists, k: nat)
    requires Spread(page, lists) && k <= LAST
    ensures forall x {:trigger Listed(lists, k, x)} :: Listed(lists, k, x) ==> page <= x < page + 8192
  {
    SizeIsPositive(k);
  }
}
