/** When kma_bud.c joins two free buddies. coalesce is not called after a block has
    become the head of its list, so a free can leave a block and its buddy both
    listed; it does so exactly when some free in the chain of merges puts a block
    right before its buddy at the head of a list. */
module BuddyJoins {
  import opened BuddyArithmetic
  import opened BuddyModel
  import opened BuddyProof

  /** No list holds a block right before its buddy. */
  ghost predicate NoPair(lists: Lists) {
    forall k :: 0 <= k < LAST ==> MergeAt(lists[k], k) == |lists[k]|
  }

  /** No block is free together with its buddy. */
  ghost predicate NoFreeBuddies(lists: Lists) {
    forall k, a {:trigger Listed(lists, k, a)} :: k < LAST && Listed(lists, k, a) ==> !Listed(lists, k, BuddyOf(k, a))
  }

  lemma PairAt(l: seq<int>, k: nat, i: nat)
    requires MergeAt(l, k) == |l| && i + 1 < |l|
    ensures l[i + 1] != BuddyOf(k, l[i])
  {
    assert BuddyOf(k, l[i]) == BuddyOf(k, l[i]);
  }

  lemma PairNowhere(l: seq<int>, k: nat)
    requires forall i :: 0 <= i < |l| - 1 ==> l[i + 1] != BuddyOf(k, l[i])
    ensures MergeAt(l, k) == |l|
  {
  }

  /** A list behind some of its blocks has no pair that it did not have before. */
  lemma NoPairBehind(l: seq<int>, k: nat, i: nat)
    requires MergeAt(l, k) == |l| && i <= |l|
    ensures MergeAt(l[i..], k) == |l[i..]|
  {
    var rest := l[i..];
    forall j | 0 <= j < |rest| - 1 ensures rest[j + 1] != BuddyOf(k, rest[j]) {
      PairAt(l, k, i + j);
    }
    PairNowhere(rest, k);
  }

  lemma NoPairInFront(l: seq<int>, k: nat, a: int)
    requires MergeAt(l, k) == |l|
    ensures MergeAt([a] + l, k) == |l| + 1 <==> l == [] || l[0] != BuddyOf(k, a)
  {
    var m := [a] + l;
    if l == [] || l[0] != BuddyOf(k, a) {
      forall j | 0 <= j < |m| - 1 ensures m[j + 1] != BuddyOf(k, m[j]) {
        if j > 0 { PairAt(l, k, j - 1); }
      }
      PairNowhere(m, k);
    }
  }

  /** After a block is linked, the blocks behind the first pair hold no pair. */
  lemma NoPairBehindSlot(l: seq<int>, k: nat, a: int)
    requires MergeAt(l, k) == |l| && MergeAt(Slotted(l, a), k) < |Slotted(l, a)|
    ensures var m, i := Slotted(l, a), MergeAt(Slotted(l, a), k); MergeAt(m[i + 2..], k) == |m[i + 2..]|
  {
    var p, m, i := Above(l, a), Slotted(l, a), MergeAt(Slotted(l, a), k);
    forall j: nat | j < |m| - 1 && (j + 1 < p || j > p) ensures m[j + 1] != BuddyOf(k, m[j]) {
      if j + 1 < p { PairAt(l, k, j); } else if j > 0 { PairAt(l, k, j - 1); }
    }
    assert p <= i + 1 && i <= p;
    assert m[i + 2..] == l[i + 1..];
    NoPairBehind(l, k, i + 1);
  }

  /** At each step of a free: a block put at the head of a list is not put right
      before its buddy. */
  predicate Joins(lists: Lists, k: nat, a: int)
    requires k <= LAST
    decreases Count(lists) + 1
  {
    if k == LAST then true
    else if lists[k] == [] || lists[k][0] > a then lists[k] == [] || lists[k][0] != BuddyOf(k, a)
    else
      var linked := Linked(lists, k, a);
      CountUpdate(lists, k, Slotted(lists[k], a));
      if MergeClass(linked, 0) == LAST then true
      else
        CountUpdate(linked, MergeClass(linked, 0), Unpaired(linked)[MergeClass(linked, 0)]);
        Joins(Unpaired(linked), MergeClass(linked, 0) + 1, Merged(linked))
  }

  lemma NoPairIsClass(lists: Lists)
    ensures NoPair(lists) <==> MergeClass(lists, 0) == LAST
  {
    var m := MergeClass(lists, 0);
    assert m == LAST || MergeAt(lists[m], m) < |lists[m]|;
  }

  lemma NoPairWith(lists: Lists, k: nat, l: seq<int>)
    requires k < LAST && NoPair(lists)
    ensures NoPair(lists[k := l]) <==> MergeAt(l, k) == |l|
  {
    var after := lists[k := l];
    forall j | 0 <= j < LAST && j != k ensures MergeAt(after[j], j) == |after[j]| {
      assert after[j] == lists[j];
    }
    assert after[k] == l;
  }

  lemma FirstPairIs(lists: Lists, n: nat, k: nat)
    requires n <= k < LAST && MergeAt(lists[k], k) < |lists[k]|
    requires forall j :: n <= j < k ==> MergeAt(lists[j], j) == |lists[j]|
    ensures MergeClass(lists, n) == k
  {
    var m := MergeClass(lists, n);
    assert m <= k;
  }

  /** The one class in which a freed block can make a pair. */
  lemma PairWhereLinked(lists: Lists, k: nat, l: seq<int>)
    requires k < LAST && NoPair(lists)
    ensures MergeClass(lists[k := l], 0) == if MergeAt(l, k) == |l| then LAST else k
  {
    var linked := lists[k := l];
    if MergeAt(l, k) == |l| {
      NoPairWith(lists, k, l);
      NoPairIsClass(linked);
    } else {
      FirstPairIs(linked, 0, k);
    }
  }

  /** The lists once the pair that a freed block made is taken off. */
  function WithoutPair(lists: Lists, k: nat, a: int): Lists
    requires k < LAST && MergeAt(Slotted(lists[k], a), k) < |Slotted(lists[k], a)|
  {
    var l := Slotted(lists[k], a);
    lists[k := l[MergeAt(l, k) + 2..]]
  }

  lemma PairTakenOff(lists: Lists, k: nat, a: int)
    requires k < LAST && NoPair(lists) && MergeAt(Slotted(lists[k], a), k) < |Slotted(lists[k], a)|
    ensures NoPair(WithoutPair(lists, k, a)) && Count(WithoutPair(lists, k, a)) < Count(lists)
  {
    var l := Slotted(lists[k], a);
    NoPairBehindSlot(lists[k], k, a);
    NoPairWith(lists, k, l[MergeAt(l, k) + 2..]);
    CountUpdate(lists, k, l[MergeAt(l, k) + 2..]);
  }

  lemma UnpairedIs(lists: Lists, k: nat, a: int)
    requires k < LAST && NoPair(lists) && MergeAt(Slotted(lists[k], a), k) < |Slotted(lists[k], a)|
    ensures var linked := lists[k := Slotted(lists[k], a)];
            MergeClass(linked, 0) == k && Unpaired(linked) == WithoutPair(lists, k, a)
  {
    PairWhereLinked(lists, k, Slotted(lists[k], a));
  }

  /** A free leaves no pair behind if and only if it never skips a merge. */
  lemma {:induction false} FreeJoinsBuddies(lists: Lists, k: nat, a: int)
    requires k <= LAST && NoPair(lists)
    ensures NoPair(FreeBlock(lists, k, a)) <==> Joins(lists, k, a)
    decreases Count(lists) + 1, 1
  {
    if k < LAST {
      if lists[k] == [] || lists[k][0] > a {
        NoPairInFront(lists[k], k, a);
        NoPairWith(lists, k, [a] + lists[k]);
      } else {
        WalkJoinsBuddies(lists, k, a);
      }
    }
  }

  lemma {:induction false} WalkJoinsBuddies(lists: Lists, k: nat, a: int)
    requires k < LAST && NoPair(lists) && lists[k] != [] && lists[k][0] <= a
    ensures NoPair(FreeBlock(lists, k, a)) <==> Joins(lists, k, a)
    decreases Count(lists) + 1, 0
  {
    var l := Slotted(lists[k], a);
    var linked := lists[k := l];
    assert FreeBlock(lists, k, a) == Coalesced(linked) && Linked(lists, k, a) == linked;
    PairWhereLinked(lists, k, l);
    if MergeAt(l, k) < |l| {
      UnpairedIs(lists, k, a);
      PairTakenOff(lists, k, a);
      CoalescedIs(linked);
      FreeJoinsBuddies(WithoutPair(lists, k, a), k + 1, Merged(linked));
    } else {
      NoPairIsClass(linked);
    }
  }

  // ----- in terms of the blocks that are free

  /** Two listed buddies are neighbours on their list. */
  lemma BuddiesAreNeighbours(base: int, lists: Lists, k: nat, i: nat, j: nat)
    requires ListsOk(base, lists) && k < LAST && i < |lists[k]| && j < |lists[k]|
    requires lists[k][j] == lists[k][i] + Size(k)
    ensures j == i + 1
  {
    var l := lists[k];
    SizeIsPositive(k);
    assert Ascending(l);
    if i + 1 < |l| {
      assert Listed(lists, k, l[i]) && Listed(lists, k, l[i + 1]);
      assert Apart(l[i], Size(k), l[i + 1], Size(k));
    }
  }

  lemma PairIsFree(lists: Lists, k: nat)
    requires k < LAST && NoFreeBuddies(lists)
    ensures MergeAt(lists[k], k) == |lists[k]|
  {
    var l, i := lists[k], MergeAt(lists[k], k);
    assert i < |l| ==> l[i + 1] in l;
    assert i < |l| ==> Listed(lists, k, l[i]);
  }

  lemma FreeBuddiesPair(base: int, lists: Lists, k: nat, a: int)
    requires ListsOk(base, lists) && base > 0 && base % 8192 == 0 && NoPair(lists)
    requires k < LAST && Listed(lists, k, a)
    ensures !Listed(lists, k, BuddyOf(k, a))
  {
    var l, b := lists[k], BuddyOf(k, a);
    var i: nat :| i < |l| && l[i] == a;
    OffsetIs(base, a);
    BuddyIsInvolution(k, a);
    if Listed(lists, k, b) {
      var j: nat :| j < |l| && l[j] == b;
      if b > a {
        BuddiesAreNeighbours(base, lists, k, i, j);
        PairAt(l, k, i);
      } else {
        BuddiesAreNeighbours(base, lists, k, j, i);
        PairAt(l, k, j);
      }
    }
  }

  /** On lists in order, no pair means that no block is free together with its buddy. */
  lemma NoPairMeansJoined(base: int, lists: Lists)
    requires ListsOk(base, lists) && base > 0 && base % 8192 == 0
    ensures NoPair(lists) <==> NoFreeBuddies(lists)
  {
    if NoPair(lists) {
      forall k, a {:trigger Listed(lists, k, a)} | k < LAST && Listed(lists, k, a)
        ensures !Listed(lists, k, BuddyOf(k, a))
      {
        FreeBuddiesPair(base, lists, k, a);
      }
    }
    if NoFreeBuddies(lists) {
      forall k | 0 <= k < LAST ensures MergeAt(lists[k], k) == |lists[k]| {
        PairIsFree(lists, k);
      }
    }
  }

  /** Where every two free buddies had been joined, a free leaves it so if and only
      if it never skips a merge. */
  lemma FreeKeepsJoined(base: int, lists: Lists, k: nat, a: int)
    requires ListsOk(base, lists) && base > 0 && base % 8192 == 0 && NoFreeBuddies(lists)
    requires k <= LAST && (k < LAST ==> InPlace(base, k, a) && Clear(lists, a, Size(k)))
    ensures NoFreeBuddies(FreeBlock(lists, k, a)) <==> Joins(lists, k, a)
  {
    FreeBlockKeeps(base, lists, k, a);
    NoPairMeansJoined(base, lists);
    NoPairMeansJoined(base, FreeBlock(lists, k, a));
    FreeJoinsBuddies(lists, k, a);
  }

  /** Splitting never leaves a pair: of every two halves the left one is used. */
  lemma {:induction false} TakeKeepsNoPair(lists: Lists, k: nat, c: nat)
    requires c <= k <= LAST && lists[k] != [] && forall m :: c <= m < k ==> lists[m] == []
    requires forall m :: 0 <= m < LAST && m != k ==> MergeAt(lists[m], m) == |lists[m]|
    requires MergeAt(lists[k][1..], k) == |lists[k]| - 1
    ensures NoPair(Take(lists, k, c).0)
    decreases k
  {
    var rest := lists[k := lists[k][1..]];
    if k > c {
      var a, after := lists[k][0], Split(lists, k);
      assert after[k - 1] == [a, a + Size(k - 1)];
      assert after[k - 1][1..] == [a + Size(k - 1)];
      forall m | 0 <= m < LAST && m != k - 1 ensures MergeAt(after[m], m) == |after[m]| {
        assert after[m] == rest[m];
      }
      TakeKeepsNoPair(after, k - 1, c);
    }
  }

  /** So kma_malloc keeps all free buddies joined. */
  lemma MallocKeepsJoined(base: int, lists: Lists, k: nat, c: nat)
    requires ListsOk(base, lists) && base > 0 && base % 8192 == 0 && NoFreeBuddies(lists)
    requires c <= k <= LAST && lists[k] != [] && forall m :: c <= m < k ==> lists[m] == []
    ensures NoFreeBuddies(Take(lists, k, c).0)
  {
    NoPairMeansJoined(base, lists);
    assert Listed(lists, k, lists[k][0]);
    TakeFromJoined(lists, k, c);
    TakeIsOk(base, lists, k, c);
    NoPairMeansJoined(base, Take(lists, k, c).0);
  }

  lemma TakeFromJoined(lists: Lists, k: nat, c: nat)
    requires NoPair(lists) && c <= k < LAST && lists[k] != []
    requires forall m :: c <= m < k ==> lists[m] == []
    ensures NoPair(Take(lists, k, c).0)
  {
    NoPairBehind(lists[k], k, 1);
    TakeKeepsNoPair(lists, k, c);
  }

  lemma TakeIsOk(base: int, lists: Lists, k: nat, c: nat)
    requires ListsOk(base, lists) && base > 0 && base % 8192 == 0
    requires c <= k <= LAST && lists[k] != [] && forall m :: c <= m < k ==> lists[m] == []
    ensures ListsOk(base, Take(lists, k, c).0)
  {
    TakeKeeps(base, lists, k, c);
  }

  lemma HeadBeforeBuddy()
    ensures BuddyOf(0, 8320) == 8352
  {
    assert 8320 % 8192 / 32 % 2 == 0;
  }

  /** A block freed right before its only listed buddy: both stay listed. */
  lemma SkippedMergeExample()
    ensures BuddyOf(0, 8320) == 8352
    ensures FreeBlock(NO_BLOCKS[0 := [8352]], 0, 8320) == NO_BLOCKS[0 := [8320, 8352]]
  {
    HeadBeforeBuddy();
    assert [8320] + [8352] == [8320, 8352];
  }
}
