/** The page allocator of kma_page.c: a pool of MAXPAGES aligned pages, handed
    out and taken back through a LIFO chain threaded through the first word of
    every free page.

    `Pool` is the value the class `PagePool` stands for; `Get` and `Release`
    say what get_page and free_page do to it. */
module PagePools {
  import opened Wrappers

  const PAGESIZE := 8192
  const MAXPAGES := 4096
  const NULL := 0

  /** `arena` is the address of the pool, or NULL while there is none; `chain`
      lists the free pages in the order in which they will be handed out. */
  datatype Pool = Pool(arena: int, chain: seq<int>, inUse: set<int>, requested: nat, freed: nat)

  const EMPTY_POOL := Pool(NULL, [], {}, 0, 0)

  /** What posix_memalign can return on success. */
  predicate ValidArena(arena: int) {
    arena > 0 && arena % 8192 == 0
  }

  /** The values of a C int with 32 bits. */
  predicate IsInt(x: int) {
    -0x8000_0000 <= x < 0x8000_0000
  }

  /** Its conversion to a 32-bit size_t. */
  function AsUnsigned(x: int): int {
    x % 0x1_0000_0000
  }

  /** BASEADDR: the page an address lies on. */
  function Base(a: int): int {
    a - a % 8192
  }

  lemma BaseIs(p: int, a: int)
    requires p % 8192 == 0 && p <= a < p + PAGESIZE
    ensures Base(a) == p
  {
  }

  predicate IsSlot(arena: int, a: int) {
    arena <= a < arena + MAXPAGES * PAGESIZE && (a - arena) % 8192 == 0
  }

  function Slots(arena: int): seq<int> {
    seq(MAXPAGES, i => arena + i * PAGESIZE)
  }

  predicate Differ(s: seq<int>, i: int, j: int) {
    0 <= i < j < |s| ==> s[i] != s[j]
  }

  ghost predicate NoRepeats(s: seq<int>) {
    forall i, j {:trigger Differ(s, i, j)} :: Differ(s, i, j)
  }

  ghost predicate PoolOk(p: Pool) {
    && p.requested == p.freed + |p.inUse|
    && (p.arena == NULL <==> p.inUse == {})
    && (p.arena == NULL ==> p.chain == [])
    && (p.arena != NULL ==>
          && ValidArena(p.arena)
          && NoRepeats(p.chain)
          && (forall a :: a in p.chain ==> a !in p.inUse)
          && (forall a {:trigger IsSlot(p.arena, a)} :: IsSlot(p.arena, a) <==> a in p.chain || a in p.inUse))
  }

  function Filled(p: Pool, arena: int): Pool {
    if p.arena == NULL then p.(arena := arena, chain := Slots(arena)) else p
  }

  /** get_page: None is the call of error(), which ends the program. */
  function Get(p: Pool, arena: int): Option<(Pool, int)> {
    var q := Filled(p, arena);
    if q.chain == [] then None
    else Some((q.(chain := q.chain[1..], inUse := q.inUse + {q.chain[0]}, requested := q.requested + 1), q.chain[0]))
  }

  /** free_page: returning the last page in use drops the whole pool. */
  function Release(p: Pool, a: int): Pool {
    var rest := p.inUse - {a};
    if rest == {} then Pool(NULL, [], {}, p.requested, p.freed + 1)
    else p.(chain := [a] + p.chain, inUse := rest, freed := p.freed + 1)
  }

  lemma NoRepeatsInTail(s: seq<int>)
    requires s != [] && NoRepeats(s)
    ensures NoRepeats(s[1..]) && s[0] !in s[1..]
  {
    forall i, j {:trigger Differ(s[1..], i, j)} ensures Differ(s[1..], i, j) {
      assert Differ(s, i + 1, j + 1);
    }
    forall k | 1 <= k < |s| ensures s[0] != s[k] {
      assert Differ(s, 0, k);
    }
  }

  lemma NoRepeatsWith(a: int, s: seq<int>)
    requires NoRepeats(s) && a !in s
    ensures NoRepeats([a] + s)
  {
    forall i, j {:trigger Differ([a] + s, i, j)} ensures Differ([a] + s, i, j) {
      assert Differ(s, i - 1, j - 1);
    }
  }

  lemma SlotsAreThePool(arena: int)
    ensures |Slots(arena)| == MAXPAGES && NoRepeats(Slots(arena))
    ensures forall a :: IsSlot(arena, a) <==> a in Slots(arena)
  {
    forall a | IsSlot(arena, a) ensures a in Slots(arena) {
      assert Slots(arena)[(a - arena) / PAGESIZE] == a;
    }
    forall i, j {:trigger Differ(Slots(arena), i, j)} ensures Differ(Slots(arena), i, j) {
    }
  }

  /** A handed-out page is aligned, was not in use, and comes out of a pool that
      stays a partition of its slots into chain and pages in use. */
  lemma GetKeepsPool(p: Pool, arena: int)
    requires PoolOk(p) && ValidArena(arena)
    ensures Get(p, arena).None? <==> p.arena != NULL && p.chain == []
    ensures Get(p, arena).Some? ==>
              var (q, a) := Get(p, arena).value;
              && PoolOk(q) && q.inUse == p.inUse + {a}
              && a !in p.inUse && a > 0 && a % 8192 == 0
  {
    SlotsAreThePool(arena);
    if Get(p, arena).Some? {
      var f := Filled(p, arena);
      var (q, a) := Get(p, arena).value;
      assert NoRepeats(f.chain);
      NoRepeatsInTail(f.chain);
      assert f.chain == [a] + q.chain;
      assert IsSlot(f.arena, a);
    }
  }

  lemma InUseIsAligned(p: Pool, a: int)
    requires PoolOk(p) && a in p.inUse
    ensures a > 0 && a % 8192 == 0
  {
    assert IsSlot(p.arena, a);
  }

  lemma ReleaseKeepsPool(p: Pool, a: int)
    requires PoolOk(p) && a in p.inUse
    ensures PoolOk(Release(p, a)) && Release(p, a).inUse == p.inUse - {a}
    ensures Release(p, a).arena == NULL <==> p.inUse == {a}
  {
    var q := Release(p, a);
    if p.inUse - {a} != {} {
      NoRepeatsWith(a, p.chain);
      assert forall x :: x in q.chain <==> x == a || x in p.chain;
    }
  }

  /** The program stops for want of pages exactly when all MAXPAGES are out. */
  lemma ExhaustedMeansAllOut(p: Pool, arena: int)
    requires PoolOk(p) && ValidArena(arena)
    ensures Get(p, arena).None? <==> |p.inUse| == MAXPAGES
  {
    SlotsAreThePool(p.arena);
    if p.arena != NULL {
      var slots := set a | a in Slots(p.arena);
      var free := set a | a in p.chain;
      forall a ensures a in slots <==> a in free || a in p.inUse {
        assert IsSlot(p.arena, a) <==> a in p.chain || a in p.inUse;
      }
      assert slots == free + p.inUse;
      DistinctCount(Slots(p.arena));
      DistinctCount(p.chain);
      assert |slots| == |free| + |p.inUse|;
    }
  }

  lemma {:induction false} DistinctCount(s: seq<int>)
    requires NoRepeats(s)
    ensures |set a | a in s| == |s|
  {
    if s != [] {
      NoRepeatsInTail(s);
      DistinctCount(s[1..]);
      assert (set a | a in s) == {s[0]} + (set a | a in s[1..]);
    }
  }

  /** A page that goes back is the next one handed out. */
  lemma ReleasedPageComesNext(p: Pool, a: int, arena: int)
    requires PoolOk(p) && a in p.inUse && p.inUse != {a}
    ensures Get(Release(p, a), arena) == Some((p.(requested := p.requested + 1, freed := p.freed + 1), a))
  {
    var q := Release(p, a);
    assert p.inUse - {a} != {} by {
      assert p.inUse == {a} + (p.inUse - {a});
    }
    assert q.chain[1..] == p.chain;
    assert q.inUse + {a} == p.inUse;
  }

  /** A pool after `n` pages were asked for and none returned. */
  function Drawn(p: Pool, arena: int, n: nat): Option<Pool> {
    if n == 0 then Some(p)
    else
      var before := Drawn(p, arena, n - 1);
      if before.None? || Get(before.value, arena).None? then None else Some(Get(before.value, arena).value.0)
  }

  lemma {:induction false} DrawnChain(p: Pool, arena: int, n: nat)
    requires p.arena == NULL && ValidArena(arena) && 0 < n <= MAXPAGES
    ensures Drawn(p, arena, n).Some?
    ensures var q := Drawn(p, arena, n).value;
            && q.arena == arena && |q.chain| == MAXPAGES - n
            && forall i :: 0 <= i < |q.chain| ==> q.chain[i] == arena + (n + i) * PAGESIZE
  {
    if n > 1 {
      DrawnChain(p, arena, n - 1);
    } else {
      assert Drawn(p, arena, 0) == Some(p);
    }
  }

  /** A new pool hands out its pages in ascending order, all MAXPAGES of them. */
  lemma PagesAscend(p: Pool, arena: int, n: nat)
    requires p.arena == NULL && ValidArena(arena) && n < MAXPAGES
    ensures Drawn(p, arena, n).Some?
    ensures var got := Get(Drawn(p, arena, n).value, arena); got.Some? && got.value.1 == arena + n * PAGESIZE
  {
    if n > 0 { DrawnChain(p, arena, n); }
  }

  /** The globals of kma_page.c. `word` holds the first machine word of every
      page: the link of the chain while the page is free, the client's while it
      is in use. */
  class PagePool {
    var pool: int
    var nextFree: int
    var word: map<int, int>
    var numRequested: nat
    var numFreed: nat
    var numInUse: nat
    ghost var m: Pool

    ghost predicate Valid()
      reads this
    {
      && PoolOk(m)
      && pool == m.arena
      && numRequested == m.requested && numFreed == m.freed && numInUse == |m.inUse|
      && Threaded(word, nextFree, m.chain)
    }

    constructor ()
      ensures Valid() && m == EMPTY_POOL
    {
      pool, nextFree, word := NULL, NULL, map[];
      numRequested, numFreed, numInUse := 0, 0, 0;
      m := EMPTY_POOL;
    }

    method GetPage(arena: int) returns (page: Option<int>)
      requires Valid() && ValidArena(arena)
      modifies this
      ensures Get(old(m), arena).None? ==> page == None
      ensures Get(old(m), arena).Some? ==>
                && Valid() && page == Some(Get(old(m), arena).value.1)
                && m == Get(old(m), arena).value.0
      ensures forall a :: a in old(m).inUse ==>
                (a in word <==> a in old(word)) && (a in word ==> word[a] == old(word)[a])
    {
      GetKeepsPool(m, arena);
      numRequested := numRequested + 1;
      numInUse := numInUse + 1;
      if pool == NULL {
        InitPages(arena);
      }
      if nextFree == NULL {
        return None;
      }
      var res := nextFree;
      nextFree := word[nextFree];
      m := Get(old(m), arena).value.0;
      return Some(res);
    }

    method FreePage(a: int)
      requires Valid() && a in m.inUse
      modifies this
      ensures Valid() && m == Release(old(m), a)
      ensures forall b :: b != a ==> (b in word <==> b in old(word)) && (b in word ==> word[b] == old(word)[b])
    {
      ReleaseKeepsPool(m, a);
      assert a !in m.chain && IsSlot(m.arena, a);
      numFreed := numFreed + 1;
      numInUse := numInUse - 1;
      word := word[a := nextFree];
      nextFree := a;
      m := Release(m, a);
      if numInUse == 0 {
        pool := NULL;
        nextFree := NULL;
      }
    }

    method InitPages(arena: int)
      requires m.arena == NULL && ValidArena(arena) && nextFree == NULL && pool == NULL
      modifies this`pool, this`nextFree, this`word
      ensures pool == arena && Threaded(word, nextFree, Slots(arena))
      ensures nextFree == arena && LinkedUp(word, arena)
    {
      pool := arena;
      nextFree := pool;
      var i := 0;
      while i < MAXPAGES - 1
        invariant 0 <= i <= MAXPAGES - 1 && pool == nextFree == arena
        invariant forall j :: 0 <= j < i ==>
                    arena + j * PAGESIZE in word && word[arena + j * PAGESIZE] == arena + j * PAGESIZE + PAGESIZE
      {
        var ptr := pool + i * PAGESIZE;
        word := word[ptr := ptr + PAGESIZE];
        i := i + 1;
      }
      word := word[pool + (MAXPAGES - 1) * PAGESIZE := NULL];
      SlotsLinkUp(word, arena);
    }
  }

  /** The first word of every slot is the address of the slot above it, and NULL in the
      highest one. */
  ghost predicate LinkedUp(word: map<int, int>, arena: int) {
    forall a {:trigger IsSlot(arena, a)} :: IsSlot(arena, a) ==> LinksUp(word, arena, a)
  }

  predicate LinksUp(word: map<int, int>, arena: int, a: int) {
    a in word && word[a] == if a + PAGESIZE < arena + MAXPAGES * PAGESIZE then a + PAGESIZE else NULL
  }

  lemma SlotsLinkUp(word: map<int, int>, arena: int)
    requires Threaded(word, arena, Slots(arena))
    ensures LinkedUp(word, arena)
  {
    var s := Slots(arena);
    forall a {:trigger IsSlot(arena, a)} | IsSlot(arena, a) ensures LinksUp(word, arena, a) {
      var i := (a - arena) / PAGESIZE;
      assert s[i] == a && word[s[i]] == NextIn(s, i + 1);
    }
  }

  /** `chain` is what following the links from `first` visits before NULL. */
  ghost predicate Threaded(word: map<int, int>, first: int, chain: seq<int>) {
    && first == NextIn(chain, 0)
    && forall i :: 0 <= i < |chain| ==> chain[i] != NULL && chain[i] in word && word[chain[i]] == NextIn(chain, i + 1)
  }

  ghost function NextIn(chain: seq<int>, i: nat): int {
    if i < |chain| then chain[i] else NULL
  }
}
