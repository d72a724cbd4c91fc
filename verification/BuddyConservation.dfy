/** Which free bytes kma_bud.c keeps. Splitting loses none. Freeing loses some in
    two places, and exactly there: a block above the last one of its list is not
    linked, and a merge drops the blocks listed before the merged pair. */
module BuddyConservation {
  import opened BuddyArithmetic
  import opened BuddyModel
  import opened BuddyProof
  import opened BuddyRuns

  /** The bytes of the listed blocks. */
  function FreeBytes(lists: Lists): nat {
    32 * |lists[0]| + 64 * |lists[1]| + 128 * |lists[2]| + 256 * |lists[3]| + 512 * |lists[4]|
    + 1024 * |lists[5]| + 2048 * |lists[6]| + 4096 * |lists[7]| + 8192 * |lists[8]|
  }

  lemma BytesAfter(lists: Lists, k: nat, l: seq<int>)
    requires k <= LAST
    ensures FreeBytes(lists[k := l]) == FreeBytes(lists) + Size(k) * (|l| - |lists[k]|)
  {
  }

  lemma SplitConserves(lists: Lists, k: nat)
    requires 0 < k <= LAST && lists[k] != []
    ensures FreeBytes(Split(lists, k)) == FreeBytes(lists)
  {
    var rest := lists[k := lists[k][1..]];
    BytesAfter(lists, k, lists[k][1..]);
    BytesAfter(rest, k - 1, Split(lists, k)[k - 1]);
    SizesDouble(k - 1, k);
  }

  /** Every byte of a split block that is not handed out is listed again. */
  lemma {:induction false} TakeConserves(lists: Lists, k: nat, c: nat)
    requires c <= k <= LAST && lists[k] != []
    ensures FreeBytes(Take(lists, k, c).0) + Size(c) == FreeBytes(lists)
    decreases k
  {
    if k == c {
      BytesAfter(lists, k, lists[k][1..]);
    } else {
      SplitConserves(lists, k);
      TakeConserves(Split(lists, k), k - 1, c);
    }
  }

  /** A new page lists all its bytes but the block of its header. */
  lemma FreshConserves(p: int)
    ensures FreeBytes(FreshLists(p)) == 8192 - Size(Class(P))
  {
    TakeConserves(NO_BLOCKS[LAST := [p]], LAST, Class(P));
  }

  /** A freed block finds a place on its list. */
  predicate HasSlot(l: seq<int>, a: int) {
    l == [] || l[|l| - 1] > a
  }

  lemma SlottedWith(l: seq<int>, a: int)
    requires Ascending(l) && l != [] && l[0] <= a
    ensures |Slotted(l, a)| == |l| + if HasSlot(l, a) then 1 else 0
    ensures forall b :: b in l ==> b in Slotted(l, a)
    ensures HasSlot(l, a) ==> a in Slotted(l, a)
  {
    var i, after := Above(l, a), Slotted(l, a);
    assert i < |l| <==> l[|l| - 1] > a;
    if i < |l| {
      assert after[i] == a;
      forall b | b in l ensures b in after {
        var j: nat :| j < |l| && l[j] == b;
        assert after[if j < i then j else j + 1] == b;
      }
    }
  }

  lemma LinkKeepsListed(lists: Lists, k: nat, a: int)
    requires k < LAST && Ascending(lists[k])
    ensures forall m, b {:trigger Listed(lists, m, b)} :: Listed(lists, m, b) ==> Listed(Linked(lists, k, a), m, b)
    ensures HasSlot(lists[k], a) ==> Listed(Linked(lists, k, a), k, a)
  {
    var l, after := lists[k], Linked(lists, k, a);
    if l == [] || l[0] > a {
      assert after[k] == [a] + l;
    } else {
      SlottedWith(l, a);
    }
    forall m, b {:trigger Listed(lists, m, b)} | Listed(lists, m, b) ensures Listed(after, m, b) {
      assert m != k ==> after[m] == lists[m];
    }
  }

  /** The freed block is listed exactly when it has a slot, and the others stay. */
  lemma LinkConserves(lists: Lists, k: nat, a: int)
    requires k < LAST && Ascending(lists[k])
    ensures FreeBytes(Linked(lists, k, a)) == FreeBytes(lists) + if HasSlot(lists[k], a) then Size(k) else 0
    ensures forall m, b {:trigger Listed(lists, m, b)} :: Listed(lists, m, b) ==> Listed(Linked(lists, k, a), m, b)
    ensures HasSlot(lists[k], a) ==> Listed(Linked(lists, k, a), k, a)
  {
    LinkKeepsListed(lists, k, a);
    BytesAfter(lists, k, Linked(lists, k, a)[k]);
    if lists[k] != [] && lists[k][0] <= a {
      SlottedWith(lists[k], a);
    }
  }

  /** The bytes of the blocks listed before the pair that coalesce merges. */
  function Dropped(lists: Lists): int
    requires MergeClass(lists, 0) < LAST
  {
    var k := MergeClass(lists, 0);
    Size(k) * MergeAt(lists[k], k)
  }

  /** A merge loses those bytes, and no others. */
  lemma MergeConserves(lists: Lists)
    requires MergeClass(lists, 0) < LAST
    ensures FreeBytes(Unpaired(lists)) + Size(MergeClass(lists, 0) + 1) == FreeBytes(lists) - Dropped(lists)
    ensures Dropped(lists) >= 0
    ensures Dropped(lists) == 0 <==> MergeAt(lists[MergeClass(lists, 0)], MergeClass(lists, 0)) == 0
  {
    var k := MergeClass(lists, 0);
    SizeIsPositive(k);
    BytesAfter(lists, k, Unpaired(lists)[k]);
    SizesDouble(k, k + 1);
    Distribute(Size(k), MergeAt(lists[k], k));
  }

  lemma Distribute(s: int, i: nat)
    requires s > 0
    ensures s * -(i + 2) == -(s * i) - 2 * s
    ensures s * i >= 0 && (s * i == 0 <==> i == 0)
  {
    assert i > 0 ==> s * i >= s;
  }

  /** Every block a free links has a slot, and every pair it merges heads its list. */
  predicate NoLoss(lists: Lists, k: nat, a: int)
    requires k <= LAST
    decreases Count(lists) + 1, 1
  {
    if k == LAST then false
    else if lists[k] == [] || lists[k][0] > a then true
    else
      CountUpdate(lists, k, Slotted(lists[k], a));
      HasSlot(lists[k], a) && MergesAtHead(Linked(lists, k, a))
  }

  predicate MergesAtHead(lists: Lists)
    decreases Count(lists), 0
  {
    var k := MergeClass(lists, 0);
    k == LAST ||
    (CountUpdate(lists, k, Unpaired(lists)[k]);
     MergeAt(lists[k], k) == 0 && NoLoss(Unpaired(lists), k + 1, lists[k][0]))
  }

  /** A free lists at most the bytes it was given, and all of them exactly when it
      comes past neither of the two places. */
  lemma {:induction false} FreeConserves(base: int, lists: Lists, k: nat, a: int)
    requires ListsOk(base, lists) && base > 0 && base % 8192 == 0
    requires k <= LAST && (k < LAST ==> InPlace(base, k, a) && Clear(lists, a, Size(k)))
    ensures FreeBytes(FreeBlock(lists, k, a)) <= FreeBytes(lists) + Size(k)
    ensures FreeBytes(FreeBlock(lists, k, a)) == FreeBytes(lists) + Size(k) <==> NoLoss(lists, k, a)
    decreases Count(lists) + 1, 1
  {
    SizeIsPositive(k);
    if k < LAST {
      LinkConserves(lists, k, a);
      LinkedKeeps(base, lists, k, a);
      CountUpdate(lists, k, Slotted(lists[k], a));
      if lists[k] != [] && lists[k][0] <= a {
        MergingConserves(base, Linked(lists, k, a));
      }
    }
  }

  lemma {:induction false} MergingConserves(base: int, lists: Lists)
    requires ListsOk(base, lists) && base > 0 && base % 8192 == 0
    ensures FreeBytes(Coalesced(lists)) <= FreeBytes(lists)
    ensures FreeBytes(Coalesced(lists)) == FreeBytes(lists) <==> MergesAtHead(lists)
    decreases Count(lists), 0
  {
    var k := MergeClass(lists, 0);
    if k < LAST {
      MergeMakesBlock(base, lists);
      MergeConserves(lists);
      FreeConserves(base, Unpaired(lists), k + 1, lists[k][MergeAt(lists[k], k)]);
    }
  }

  // ----- the bytes a request held

  /** The header costs a request one class exactly when it does not fit beside it. */
  lemma HeaderCosts(size: int)
    requires Admitted(size) && Cut(size) < LAST
    ensures Class(size) == Cut(size) <==> size + A <= Size(Class(size))
    ensures Class(size) == Cut(size) || Size(Cut(size)) == 2 * Size(Class(size))
  {
  }

  lemma SharedPageIsCut(pg: Page, live: set<Req>, r: Req)
    requires PageOk(pg, live) && r in live && pg.used > 1
    ensures Cut(r.size) < LAST && Extent(r) == Size(Cut(r.size)) && InPlace(pg.base, Cut(r.size), r.ptr)
    ensures Clear(pg.lists, r.ptr, Size(Cut(r.size)))
  {
    assert Cut(r.size) == LAST ==> |live| == 1;
    assert Clear(pg.lists, r.ptr, Extent(r));
  }

  lemma FreedClassFits(pg: Page, live: set<Req>, r: Req)
    requires PageOk(pg, live) && r in live && pg.used > 1
    ensures Class(r.size) < LAST && Size(Class(r.size)) <= Extent(r)
    ensures InPlace(pg.base, Class(r.size), r.ptr) && Clear(pg.lists, r.ptr, Size(Class(r.size)))
  {
    SharedPageIsCut(pg, live, r);
    ClassIsMonotone(r.size, r.size + A);
    AlignedBelow(Class(r.size), Cut(r.size), r.ptr - pg.base);
  }

  /** kma_free lists at most a block of the class of the size, and all of it if and
      only if it meets no loss; so it gives back all the bytes the request held if and
      only if, besides, the block is freed at the class it was cut from. */
  lemma FreeGivesBack(pg: Page, live: set<Req>, r: Req)
    requires PageOk(pg, live) && r in live && pg.used > 1
    ensures var k := Class(r.size);
            && k < LAST && Size(k) <= Extent(r)
            && FreeBytes(Freed(pg, r).lists) <= FreeBytes(pg.lists) + Size(k)
            && (FreeBytes(Freed(pg, r).lists) == FreeBytes(pg.lists) + Size(k) <==> NoLoss(pg.lists, k, r.ptr))
            && (Size(k) == Extent(r) <==> r.size + A <= Size(k))
    ensures FreeBytes(Freed(pg, r).lists) == FreeBytes(pg.lists) + Extent(r)
            <==> r.size + A <= Size(Class(r.size)) && NoLoss(pg.lists, Class(r.size), r.ptr)
  {
    SharedPageIsCut(pg, live, r);
    FreedClassFits(pg, live, r);
    HeaderCosts(r.size);
    SizeIsPositive(Class(r.size));
    FreeConserves(pg.base, pg.lists, Class(r.size), r.ptr);
  }

  /** 32 bytes are cut from a block of 64 and freed as one of 32. */
  lemma HalfLostExample()
    ensures var r := Req(8320, 32);
            Extent(r) == 64 && FreeBytes(Freed(Page(8192, 2, NO_BLOCKS), r).lists) == 32
  {
  }

  /** A block freed above the only block listed is lost. */
  lemma LostAboveExample()
    ensures FreeBlock(NO_BLOCKS[0 := [8320]], 0, 8384) == NO_BLOCKS[0 := [8320]]
  {
    var lists: Lists := NO_BLOCKS[0 := [8320]];
    assert lists[0 := Slotted(lists[0], 8384)] == lists;
    MergesNowhere(lists);
  }

  lemma MergesNowhere(lists: Lists)
    requires forall k :: 0 <= k <= LAST ==> |lists[k]| < 2
    ensures Coalesced(lists) == lists
  {
    assert MergeClass(lists, 0) == LAST;
  }

  lemma BuddiesOf8384()
    ensures BuddyOf(0, 8352) == 8320 && BuddyOf(0, 8384) == 8416
  {
    assert 8352 % 8192 / 32 % 2 == 1 && 8384 % 8192 / 32 % 2 == 0;
  }

  lemma PairAt1()
    ensures MergeAt([8352, 8384, 8416], 0) == 1
  {
    BuddiesOf8384();
    assert [8352, 8384, 8416][1..] == [8384, 8416];
    assert MergeAt([8384, 8416], 0) == 0;
  }

  /** Freeing the 32 bytes at 8384 merges them with those at 8416; the block at
      8352, listed before the pair, is lost. */
  lemma LostBeforePairExample()
    ensures FreeBlock(NO_BLOCKS[0 := [8352, 8416]], 0, 8384) == NO_BLOCKS[1 := [8384]]
  {
    var lists: Lists := NO_BLOCKS[0 := [8352, 8416]];
    assert [8352, 8416][1..] == [8416];
    assert Above([8352, 8416], 8384) == 1 && Slotted(lists[0], 8384) == [8352, 8384, 8416];
    var linked: Lists := NO_BLOCKS[0 := [8352, 8384, 8416]];
    assert lists[0 := [8352, 8384, 8416]] == linked;
    PairAt1();
    PairIsFreed(linked);
  }

  lemma PairIsFreed(linked: Lists)
    requires linked == NO_BLOCKS[0 := [8352, 8384, 8416]] && MergeAt(linked[0], 0) == 1
    ensures Coalesced(linked) == NO_BLOCKS[1 := [8384]]
  {
    assert MergeClass(linked, 0) == 0;
    assert linked[0][3..] == [] && linked[0 := []] == NO_BLOCKS;
    assert [8384] + [] == [8384];
    assert FreeBlock(NO_BLOCKS, 1, 8384) == NO_BLOCKS[1 := [8384]];
  }
}
