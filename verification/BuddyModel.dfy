/** The buddy allocator of kma_bud.c on values: a chain of pages, each with nine
    free lists and a count of the requests it serves. */
module BuddyModel {
  import opened Wrappers
  import opened PagePools
  import opened BuddyArithmetic

  const A := 12     // sizeof(allocheaderT) with 32-bit pointers
  const P := 84     // sizeof(pageheaderT)

  /** Nine lists of block addresses, one a class. */
  type Lists = s: seq<seq<int>> | |s| == LAST + 1 witness [[], [], [], [], [], [], [], [], []]

  const NO_BLOCKS: Lists := [[], [], [], [], [], [], [], [], []]

  datatype Page = Page(base: int, used: int, lists: Lists)

  /** The chain starts at first_page. */
  datatype Bud = Bud(pages: seq<Page>, pool: Pool)

  const EMPTY := Bud([], EMPTY_POOL)

  /** A request being served: what kma_malloc returned, and for which size. */
  datatype Req = Req(ptr: int, size: int)

  datatype Outcome = Granted(state: Bud, ptr: int) | Refused(state: Bud) | Exhausted

  /** The class a request is cut from: its size plus the block header. */
  function Cut(size: int): nat {
    Class(size + A)
  }

  // ----- splitting

  /** split_buffer: the first block of class `k` is replaced by its halves, put
      at the end of the list below. */
  function Split(lists: Lists, k: nat): Lists
    requires 0 < k <= LAST && lists[k] != []
  {
    var a := lists[k][0];
    lists[k := lists[k][1..]][k - 1 := lists[k - 1] + [a, a + Size(k - 1)]]
  }

  /** The lists and the block got by splitting down from class `k` to class `c`
      and unlinking the first block there. */
  function Take(lists: Lists, k: nat, c: nat): (Lists, int)
    requires c <= k <= LAST && lists[k] != []
    decreases k
  {
    if k == c then (lists[k := lists[k][1..]], lists[k][0])
    else Take(Split(lists, k), k - 1, c)
  }

  /** init_page, followed by the allocation of the page header. */
  function FreshLists(base: int): Lists {
    Take(NO_BLOCKS[LAST := [base]], LAST, Class(P)).0
  }

  // ----- searching

  /** The first page with a block of class `k`. */
  function PageWith(pages: seq<Page>, k: nat): (i: nat)
    requires k <= LAST
    ensures i <= |pages|
    ensures forall j :: 0 <= j < i ==> pages[j].lists[k] == []
    ensures i < |pages| ==> pages[i].lists[k] != []
  {
    if pages == [] || pages[0].lists[k] != [] then 0 else PageWith(pages[1..], k) + 1
  }

  /** Smallest class first, then first page: where get_free_buffer finds a block. */
  function Find(pages: seq<Page>, c: nat): (r: Option<(nat, nat)>)
    requires c <= LAST
    ensures r.None? ==> forall i, k :: 0 <= i < |pages| && c <= k <= LAST ==> pages[i].lists[k] == []
    ensures r.Some? ==>
              var (i, k) := r.value;
              && i < |pages| && c <= k <= LAST && pages[i].lists[k] != []
              && (forall j, m :: 0 <= j < |pages| && c <= m < k ==> pages[j].lists[m] == [])
              && (forall j :: 0 <= j < i ==> pages[j].lists[k] == [])
    decreases LAST - c
  {
    var i := PageWith(pages, c);
    if i < |pages| then Some((i, c))
    else if c == LAST then None
    else Find(pages, c + 1)
  }

  // ----- kma_malloc

  /** The size test of kma_malloc, done on unsigned numbers, lets sizes from -96 to
      -1 through; see AdmittedIsTest. */
  predicate Admitted(size: int) {
    0 <= size + A + P <= PAGESIZE
  }

  lemma AdmittedIsTest(size: int)
    requires IsInt(size)
    ensures Admitted(size) <==> AsUnsigned(size + A + P) <= PAGESIZE
  {
  }

  function Malloc(s: Bud, size: int, arena: int): Outcome {
    if !Admitted(size) then Refused(s)
    else if s.pages == [] then
      var got := Get(s.pool, arena);
      if got.None? then Exhausted
      else GetFree(Bud([Page(got.value.1, 0, FreshLists(got.value.1))], got.value.0), size, arena)
    else GetFree(s, size, arena)
  }

  function GetFree(s: Bud, size: int, arena: int): Outcome {
    var found := Find(s.pages, Cut(size));
    if found.Some? then Served(s, found.value.0, found.value.1, Cut(size))
    else
      var got := Get(s.pool, arena);
      if got.None? then Exhausted else Grown(s, size, got.value.0, got.value.1)
  }

  /** What a request comes to when page `p` had to be added for it. */
  function Grown(s: Bud, size: int, pool: Pool, p: int): Outcome {
    if Cut(size) == LAST then
      Granted(Bud(s.pages + [Page(p, 1, NO_BLOCKS)], pool), p + A + P)
    else
      Again(Bud(s.pages + [Page(p, 0, FreshLists(p))], pool), size)
  }

  /** The recursive call after a page was added; see AgainFinds. */
  function Again(s: Bud, size: int): Outcome {
    var found := Find(s.pages, Cut(size));
    if found.Some? then Served(s, found.value.0, found.value.1, Cut(size)) else Exhausted
  }

  function Served(s: Bud, i: nat, k: nat, c: nat): Outcome
    requires i < |s.pages| && c <= k <= LAST && s.pages[i].lists[k] != []
  {
    var pg := s.pages[i];
    var took := Take(pg.lists, k, c);
    Granted(s.(pages := s.pages[i := Page(pg.base, pg.used + 1, took.0)]), took.1)
  }

  // ----- kma_free

  function Above(l: seq<int>, a: int): (i: nat)
    ensures i <= |l|
    ensures forall j :: 0 <= j < i ==> l[j] <= a
    ensures i < |l| ==> l[i] > a
  {
    if l == [] || l[0] > a then 0 else Above(l[1..], a) + 1
  }

  /** A block above the last one of its list is not linked. */
  function Slotted(l: seq<int>, a: int): (r: seq<int>)
    ensures |r| <= |l| + 1
  {
    var i := Above(l, a);
    if i < |l| then l[..i] + [a] + l[i..] else l
  }

  function Count(lists: Lists): nat {
    |lists[0]| + |lists[1]| + |lists[2]| + |lists[3]| + |lists[4]| + |lists[5]| + |lists[6]| + |lists[7]| + |lists[8]|
  }

  /** The first block of the list whose successor is its buddy. */
  function MergeAt(l: seq<int>, k: nat): (i: nat)
    ensures i <= |l|
    ensures forall j {:trigger BuddyOf(k, l[j])} :: 0 <= j < i && j + 1 < |l| ==> l[j + 1] != BuddyOf(k, l[j])
    ensures i < |l| ==> i + 1 < |l| && l[i + 1] == BuddyOf(k, l[i])
  {
    if |l| < 2 then |l|
    else if l[1] == BuddyOf(k, l[0]) then 0
    else MergeAt(l[1..], k) + 1
  }

  /** The smallest class from `k` up with such a block, below a whole page. */
  function MergeClass(lists: Lists, k: nat): (m: nat)
    requires k <= LAST
    ensures k <= m <= LAST
    ensures forall j :: k <= j < m ==> MergeAt(lists[j], j) == |lists[j]|
    ensures m < LAST ==> MergeAt(lists[m], m) < |lists[m]|
    decreases lists, LAST - k
  {
    if k == LAST || MergeAt(lists[k], k) < |lists[k]| then k else MergeClass(lists, k + 1)
  }

  lemma CountUpdate(lists: Lists, k: nat, l: seq<int>)
    requires k <= LAST
    ensures Count(lists[k := l]) == Count(lists) - |lists[k]| + |l|
  {
  }

  /** The lists after block `a` of class `k` is freed: kma_free without the count.
      Coalescing runs only when the block did not become the head of its list. */
  function FreeBlock(lists: Lists, k: nat, a: int): Lists
    requires k <= LAST
    decreases Count(lists) + 1, 1
  {
    if k == LAST then lists
    else if lists[k] == [] || lists[k][0] > a then lists[k := [a] + lists[k]]
    else
      CountUpdate(lists, k, Slotted(lists[k], a));
      Coalesced(lists[k := Slotted(lists[k], a)])
  }

  /** coalesce: one merge and the free of the merged block. `prev` stays NULL in
      the code, so the blocks before the merged pair are dropped with it. */
  function Coalesced(lists: Lists): Lists
    decreases Count(lists), 0
  {
    var k := MergeClass(lists, 0);
    if k == LAST then lists
    else
      var i := MergeAt(lists[k], k);
      CountUpdate(lists, k, lists[k][i + 2..]);
      FreeBlock(lists[k := lists[k][i + 2..]], k + 1, lists[k][i])
  }

  function PageOf(pages: seq<Page>, base: int): (i: nat)
    ensures i <= |pages|
    ensures forall j :: 0 <= j < i ==> pages[j].base != base
    ensures i < |pages| ==> pages[i].base == base
  {
    if pages == [] || pages[0].base == base then 0 else PageOf(pages[1..], base) + 1
  }

  /** The class is that of the size alone, without the block header. */
  function Freed(pg: Page, r: Req): Page
  {
    Page(pg.base, pg.used - 1, FreeBlock(pg.lists, Class(r.size), r.ptr))
  }

  /** kma_free: the page goes back when its last request does. */
  function Free(s: Bud, r: Req): Bud
    requires PageOf(s.pages, Base(r.ptr)) < |s.pages|
  {
    var i := PageOf(s.pages, Base(r.ptr));
    var pg := Freed(s.pages[i], r);
    if pg.used == 0 then Bud(s.pages[..i] + s.pages[i + 1..], Release(s.pool, pg.base))
    else s.(pages := s.pages[i := pg])
  }

  // ----- the invariant

  predicate Listed(lists: Lists, k: int, a: int) {
    0 <= k <= LAST && a in lists[k]
  }

  predicate Apart(a: int, m: int, b: int, n: int) {
    a + m <= b || b + n <= a
  }

  /** A block of class `k` lies on its page, off the block of the page header,
      aligned to its own size. */
  predicate InPlace(base: int, k: int, a: int) {
    && base + Size(Class(P)) <= a && a + Size(k) <= base + 8192
    && Aligned(k, a - base)
  }

  ghost predicate Ascending(l: seq<int>) {
    forall i, j :: 0 <= i < j < |l| ==> l[i] < l[j]
  }

  /** The listed blocks are in place and pairwise disjoint, the lists ascend, and
      no block is a whole page. */
  ghost predicate ListsOk(base: int, lists: Lists) {
    && (forall k, a {:trigger Listed(lists, k, a)} :: Listed(lists, k, a) ==> InPlace(base, k, a) && k < LAST)
    && (forall k, a, m, b {:trigger Apart(a, Size(k), b, Size(m))} ::
          Listed(lists, k, a) && Listed(lists, m, b) && (k != m || a != b) ==> Apart(a, Size(k), b, Size(m)))
    && (forall k :: 0 <= k <= LAST ==> Ascending(lists[k]))
  }

  /** The bytes a request owns: its block, or its own bytes if it has the page. */
  function Extent(r: Req): int {
    if Cut(r.size) == LAST then r.size else Size(Cut(r.size))
  }

  /** [a, a + n) meets no listed block. */
  ghost predicate Clear(lists: Lists, a: int, n: int) {
    forall k, b {:trigger Listed(lists, k, b)} :: Listed(lists, k, b) ==> Apart(a, n, b, Size(k))
  }

  ghost predicate LiveOk(base: int, live: set<Req>) {
    && (forall r :: r in live ==>
          && Admitted(r.size)
          && if Cut(r.size) == LAST then r.ptr == base + A + P && live == {r} else InPlace(base, Cut(r.size), r.ptr))
    && (forall r, q {:trigger Apart(r.ptr, Extent(r), q.ptr, Extent(q))} ::
          r in live && q in live && r != q ==> Apart(r.ptr, Extent(r), q.ptr, Extent(q)))
  }

  /** A page whose requests are `live`. */
  ghost predicate PageOk(pg: Page, live: set<Req>) {
    && pg.base > 0 && pg.base % 8192 == 0
    && pg.used == |live|
    && ListsOk(pg.base, pg.lists)
    && LiveOk(pg.base, live)
    && (forall r :: r in live && Cut(r.size) == LAST ==> pg.lists == NO_BLOCKS)
    && (forall r {:trigger Clear(pg.lists, r.ptr, Extent(r))} :: r in live ==> Clear(pg.lists, r.ptr, Extent(r)))
  }

  ghost function LiveOn(live: set<Req>, base: int): set<Req> {
    set r | r in live && Base(r.ptr) == base
  }

  predicate SameBase(pages: seq<Page>, i: int, j: int) {
    0 <= i < j < |pages| && pages[i].base == pages[j].base
  }

  ghost predicate DistinctBases(pages: seq<Page>) {
    forall i, j {:trigger SameBase(pages, i, j)} :: !SameBase(pages, i, j)
  }

  /** Chain, pool and requests agree, page by page. */
  ghost predicate Chained(s: Bud, live: set<Req>) {
    && PoolOk(s.pool)
    && (forall p {:trigger PageOf(s.pages, p)} :: p in s.pool.inUse <==> PageOf(s.pages, p) < |s.pages|)
    && DistinctBases(s.pages)
    && (forall r :: r in live ==> Base(r.ptr) in s.pool.inUse)
    && (forall i :: 0 <= i < |s.pages| ==> PageOk(s.pages[i], LiveOn(live, s.pages[i].base)))
  }

  /** Only the first page may serve no request. */
  ghost predicate Inv(s: Bud, live: set<Req>) {
    Chained(s, live) && forall i :: 0 < i < |s.pages| ==> s.pages[i].used > 0
  }
}
