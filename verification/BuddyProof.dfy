/** What splitting, freeing and merging keep on one page: listed blocks stay in
    place, disjoint and ascending, and never reach into bytes that were neither
    free nor being freed. */
module BuddyProof {
  import opened BuddyArithmetic
  import opened BuddyModel

  /** The later lists are free only where the earlier ones were. */
  ghost predicate Within(after: Lists, before: Lists) {
    forall a, n {:trigger Clear(after, a, n)} :: Clear(before, a, n) ==> Clear(after, a, n)
  }

  lemma OffsetIs(base: int, a: int)
    requires base % 8192 == 0 && base <= a < base + 8192
    ensures a % 8192 == a - base
  {
  }

  lemma SizeIsPositive(k: int)
    ensures 32 <= Size(k) <= 8192
  {
  }

  /** A block clear of both halves is clear of the whole. */
  lemma ApartFromBoth(a: int, s: int, b: int, n: int)
    requires s > 0 && n > 0 && Apart(a, s, b, n) && Apart(a + s, s, b, n)
    ensures Apart(a, 2 * s, b, n)
  {
  }

  /** Removing blocks keeps everything. */
  lemma SublistsKeep(base: int, before: Lists, after: Lists)
    requires ListsOk(base, before)
    requires forall k, a {:trigger Listed(after, k, a)} :: Listed(after, k, a) ==> Listed(before, k, a)
    requires forall k :: 0 <= k <= LAST ==> Ascending(after[k])
    ensures ListsOk(base, after) && Within(after, before)
  {
  }

  /** So does adding a block clear of the others. */
  lemma AdditionKeeps(base: int, before: Lists, after: Lists, k: nat, a: int)
    requires ListsOk(base, before) && k < LAST && InPlace(base, k, a) && Clear(before, a, Size(k))
    requires forall m, b {:trigger Listed(after, m, b)} :: Listed(after, m, b) ==>
               Listed(before, m, b) || (m == k && b == a)
    requires forall m :: 0 <= m <= LAST ==> Ascending(after[m])
    ensures ListsOk(base, after)
    ensures forall b, n {:trigger Clear(after, b, n)} :: Clear(before, b, n) && Apart(b, n, a, Size(k)) ==>
              Clear(after, b, n)
  {
    forall m, b, j, c {:trigger Apart(b, Size(m), c, Size(j))} |
      Listed(after, m, b) && Listed(after, j, c) && (m != j || b != c)
      ensures Apart(b, Size(m), c, Size(j))
    {
      if Listed(before, m, b) && Listed(before, j, c) {
        assert Apart(b, Size(m), c, Size(j));
      } else if Listed(before, m, b) {
        assert Apart(a, Size(k), b, Size(m));
      } else if Listed(before, j, c) {
        assert Apart(a, Size(k), c, Size(j));
      }
    }
  }

  // ----- splitting

  lemma DropFirstKeeps(base: int, lists: Lists, k: nat)
    requires ListsOk(base, lists) && k <= LAST && lists[k] != []
    ensures var a, after := lists[k][0], lists[k := lists[k][1..]];
            && k < LAST && InPlace(base, k, a) && Clear(after, a, Size(k))
            && ListsOk(base, after) && Within(after, lists)
            && forall b, n {:trigger Clear(lists, b, n)} :: Clear(lists, b, n) ==> Apart(b, n, a, Size(k))
  {
    var a, after := lists[k][0], lists[k := lists[k][1..]];
    assert Listed(lists, k, a);
    forall m, b {:trigger Listed(after, m, b)} | Listed(after, m, b)
      ensures Listed(lists, m, b) && Apart(a, Size(k), b, Size(m))
    {
      assert Ascending(lists[k]);
      assert m == k ==> b != a;
      assert Listed(lists, m, b);
    }
    SublistsKeep(base, lists, after);
  }

  lemma HalvesInPlace(base: int, k: nat, a: int)
    requires base > 0 && base % 8192 == 0 && 0 < k <= LAST && InPlace(base, k, a)
    ensures Size(k) == 2 * Size(k - 1) && Size(k - 1) > 0
    ensures InPlace(base, k - 1, a) && InPlace(base, k - 1, a + Size(k - 1))
    ensures BuddyOf(k - 1, a) == a + Size(k - 1)
  {
    Halves(k, a - base);
    OffsetIs(base, a);
    HalvesAreBuddies(k, a);
  }

  /** A split of the first block of class `k` into an empty list below: the list
      then holds the two halves, which are buddies. */
  lemma SplitKeeps(base: int, lists: Lists, k: nat)
    requires ListsOk(base, lists) && base > 0 && base % 8192 == 0
    requires 0 < k <= LAST && lists[k] != [] && lists[k - 1] == []
    ensures k < LAST && ListsOk(base, Split(lists, k)) && Within(Split(lists, k), lists)
    ensures Split(lists, k)[k - 1] == [lists[k][0], BuddyOf(k - 1, lists[k][0])]
  {
    DropFirstKeeps(base, lists, k);
    var a, rest := lists[k][0], lists[k := lists[k][1..]];
    var s := Size(k - 1);
    HalvesInPlace(base, k, a);
    var one, two := rest[k - 1 := [a]], Split(lists, k);
    forall m, b {:trigger Listed(rest, m, b)} | Listed(rest, m, b)
      ensures Apart(a, s, b, Size(m)) && Apart(a + s, s, b, Size(m))
    {
      assert Apart(a, Size(k), b, Size(m));
    }
    AdditionKeeps(base, rest, one, k - 1, a);
    assert [] + [a, a + s] == [a, a + s];
    assert two[k - 1] == [a, a + s];
    forall m, b {:trigger Listed(one, m, b)} | Listed(one, m, b) ensures Apart(a + s, s, b, Size(m)) {
      assert Listed(rest, m, b) || (m == k - 1 && b == a);
    }
    AdditionKeeps(base, one, two, k - 1, a + s);
    forall b, n {:trigger Clear(two, b, n)} | Clear(lists, b, n) ensures Clear(two, b, n) {
      assert Apart(b, n, a, Size(k));
      assert Clear(rest, b, n) && Clear(one, b, n);
    }
  }

  /** Splitting down to class `c` hands out a block of that class, in place, clear
      of every block still listed, and part of what was free. */
  lemma {:induction false} TakeKeeps(base: int, lists: Lists, k: nat, c: nat)
    requires ListsOk(base, lists) && base > 0 && base % 8192 == 0
    requires c <= k <= LAST && lists[k] != [] && forall m :: c <= m < k ==> lists[m] == []
    ensures var took := Take(lists, k, c);
            && ListsOk(base, took.0) && Within(took.0, lists)
            && c < LAST && InPlace(base, c, took.1) && Clear(took.0, took.1, Size(c))
    ensures forall b, n {:trigger Clear(lists, b, n)} :: Clear(lists, b, n) ==>
              Apart(b, n, Take(lists, k, c).1, Size(c))
    decreases k
  {
    if k == c {
      DropFirstKeeps(base, lists, k);
    } else {
      SplitKeeps(base, lists, k);
      TakeKeeps(base, Split(lists, k), k - 1, c);
      forall b, n {:trigger Clear(lists, b, n)} | Clear(lists, b, n) ensures Apart(b, n, Take(lists, k, c).1, Size(c)) {
        assert Clear(Split(lists, k), b, n);
      }
    }
  }

  // ----- freeing and merging

  lemma InsertAscending(l: seq<int>, a: int)
    requires Ascending(l) && a !in l
    ensures Ascending(Slotted(l, a))
    ensures l == [] || l[0] > a ==> Ascending([a] + l)
    ensures forall b :: b in Slotted(l, a) ==> b in l || b == a
  {
    var i := Above(l, a);
    forall j | 0 <= j < |l| ensures if j < i then l[j] < a else l[j] > a {
      assert l[j] in l;
    }
    if i < |l| {
      assert forall b :: b in Slotted(l, a) <==> b in l[..i] || b == a || b in l[i..];
    }
  }

  /** The lists after the first step of a free, before any merge. */
  function Linked(lists: Lists, k: nat, a: int): Lists
    requires k < LAST
  {
    if lists[k] == [] || lists[k][0] > a then lists[k := [a] + lists[k]]
    else lists[k := Slotted(lists[k], a)]
  }

  lemma LinkedKeeps(base: int, lists: Lists, k: nat, a: int)
    requires ListsOk(base, lists) && k < LAST && InPlace(base, k, a) && Clear(lists, a, Size(k))
    ensures ListsOk(base, Linked(lists, k, a))
    ensures forall b, n {:trigger Clear(Linked(lists, k, a), b, n)} ::
              Clear(lists, b, n) && Apart(b, n, a, Size(k)) ==> Clear(Linked(lists, k, a), b, n)
  {
    assert a !in lists[k] by { assert Listed(lists, k, a) ==> Apart(a, Size(k), a, Size(k)); }
    InsertAscending(lists[k], a);
    AdditionKeeps(base, lists, Linked(lists, k, a), k, a);
  }

  /** The pair found by coalesce, off its list together with the blocks before it. */
  function Unpaired(lists: Lists): Lists
    requires MergeClass(lists, 0) < LAST
  {
    var k := MergeClass(lists, 0);
    lists[k := lists[k][MergeAt(lists[k], k) + 2..]]
  }

  /** The block that coalesce frees. */
  function Merged(lists: Lists): int
    requires MergeClass(lists, 0) < LAST
  {
    var k := MergeClass(lists, 0);
    lists[k][MergeAt(lists[k], k)]
  }

  lemma CoalescedIs(lists: Lists)
    requires MergeClass(lists, 0) < LAST
    ensures Coalesced(lists) == FreeBlock(Unpaired(lists), MergeClass(lists, 0) + 1, Merged(lists))
  {
  }

  lemma BuddyAbove(base: int, k: nat, a: int, b: int)
    requires base > 0 && base % 8192 == 0 && k < LAST && InPlace(base, k, a) && InPlace(base, k, b)
    requires b == BuddyOf(k, a) && a < b
    ensures b == a + Size(k) && Size(k + 1) == 2 * Size(k) && InPlace(base, k + 1, a)
  {
    SizeIsPositive(k);
    OffsetIs(base, a);
    RightBuddy(k, a);
  }

  /** The pair is a left half and its right buddy. */
  lemma PairIsBuddies(base: int, lists: Lists)
    requires ListsOk(base, lists) && base > 0 && base % 8192 == 0 && MergeClass(lists, 0) < LAST
    ensures var k := MergeClass(lists, 0);
            var i := MergeAt(lists[k], k);
            var a := lists[k][i];
            && lists[k][i + 1] == a + Size(k) && Listed(lists, k, a) && Listed(lists, k, a + Size(k))
            && Size(k + 1) == 2 * Size(k) && InPlace(base, k + 1, a)
  {
    var k := MergeClass(lists, 0);
    var l := lists[k];
    var i := MergeAt(l, k);
    assert Listed(lists, k, l[i]) && Listed(lists, k, l[i + 1]);
    assert Ascending(l) && l[i] < l[i + 1];
    BuddyAbove(base, k, l[i], l[i + 1]);
  }

  lemma AscendingFrom(l: seq<int>, i: nat)
    requires Ascending(l) && i <= |l|
    ensures Ascending(l[i..])
  {
  }

  /** What is listed once blocks `i` and `i + 1` of a list, and those before them, are off it. */
  lemma ListedBehind(lists: Lists, k: nat, i: nat, m: int, b: int)
    requires k < LAST && i + 1 < |lists[k]| && Ascending(lists[k]) && Listed(lists[k := lists[k][i + 2..]], m, b)
    ensures Listed(lists, m, b) && (m != k || (b != lists[k][i] && b != lists[k][i + 1]))
  {
    var l := lists[k];
    if m == k {
      var j :| i + 2 <= j < |l| && l[j] == b;
      assert l[i] < l[i + 1] < b;
    }
  }

  /** Two adjacent blocks taken off a list, with those before them. */
  lemma TwoTakenOff(base: int, lists: Lists, k: nat, i: nat)
    requires ListsOk(base, lists) && k < LAST && i + 1 < |lists[k]|
    requires lists[k][i + 1] == lists[k][i] + Size(k) && Size(k + 1) == 2 * Size(k)
    ensures var a, after := lists[k][i], lists[k := lists[k][i + 2..]];
            && ListsOk(base, after) && Within(after, lists) && Clear(after, a, Size(k + 1))
            && forall b, n {:trigger Clear(lists, b, n)} :: n > 0 && Clear(lists, b, n) ==> Apart(b, n, a, Size(k + 1))
  {
    var a, s, after := lists[k][i], Size(k), lists[k := lists[k][i + 2..]];
    SizeIsPositive(k);
    assert Listed(lists, k, a) && Listed(lists, k, a + s) && Ascending(lists[k]);
    forall m, b {:trigger Listed(after, m, b)} | Listed(after, m, b)
      ensures Listed(lists, m, b) && Apart(a, 2 * s, b, Size(m))
    {
      ListedBehind(lists, k, i, m, b);
      assert Apart(a, s, b, Size(m)) && Apart(a + s, s, b, Size(m));
      SizeIsPositive(m);
      ApartFromBoth(a, s, b, Size(m));
    }
    AscendingFrom(lists[k], i + 2);
    SublistsKeep(base, lists, after);
    forall b, n {:trigger Clear(lists, b, n)} | n > 0 && Clear(lists, b, n) ensures Apart(b, n, a, 2 * s) {
      assert Apart(b, n, a, s) && Apart(b, n, a + s, s);
    }
  }

  /** What a merge frees is an aligned block of the next class, clear of all blocks
      left on the lists and made of blocks that were on them. */
  lemma MergeMakesBlock(base: int, lists: Lists)
    requires ListsOk(base, lists) && base > 0 && base % 8192 == 0 && MergeClass(lists, 0) < LAST
    ensures var k := MergeClass(lists, 0);
            var a := lists[k][MergeAt(lists[k], k)];
            && ListsOk(base, Unpaired(lists)) && Within(Unpaired(lists), lists)
            && InPlace(base, k + 1, a) && Clear(Unpaired(lists), a, Size(k + 1))
            && forall b, n {:trigger Clear(lists, b, n)} :: n > 0 && Clear(lists, b, n) ==> Apart(b, n, a, Size(k + 1))
    ensures Count(Unpaired(lists)) + 2 <= Count(lists)
  {
    PairIsBuddies(base, lists);
    var k := MergeClass(lists, 0);
    var i := MergeAt(lists[k], k);
    TwoTakenOff(base, lists, k, i);
    CountUpdate(lists, k, lists[k][i + 2..]);
  }

  /** kma_free and coalesce keep the lists in order and never list a byte that was
      neither free nor freed, whatever chain of merges the free sets off. */
  lemma {:induction false} FreeBlockKeeps(base: int, lists: Lists, k: nat, a: int)
    requires ListsOk(base, lists) && base > 0 && base % 8192 == 0
    requires k <= LAST && (k < LAST ==> InPlace(base, k, a) && Clear(lists, a, Size(k)))
    ensures ListsOk(base, FreeBlock(lists, k, a))
    ensures forall b, n {:trigger Clear(FreeBlock(lists, k, a), b, n)} ::
              n > 0 && Clear(lists, b, n) && Apart(b, n, a, Size(k)) ==> Clear(FreeBlock(lists, k, a), b, n)
    ensures Count(FreeBlock(lists, k, a)) <= Count(lists) + 1
    decreases Count(lists) + 1, 1
  {
    if k < LAST {
      LinkedKeeps(base, lists, k, a);
      CountUpdate(lists, k, [a] + lists[k]);
      CountUpdate(lists, k, Slotted(lists[k], a));
      if lists[k] != [] && lists[k][0] <= a {
        CoalescedKeeps(base, Linked(lists, k, a));
      }
    }
  }

  lemma {:induction false} CoalescedKeeps(base: int, lists: Lists)
    requires ListsOk(base, lists) && base > 0 && base % 8192 == 0
    ensures ListsOk(base, Coalesced(lists))
    ensures forall b, n {:trigger Clear(Coalesced(lists), b, n)} :: n > 0 && Clear(lists, b, n) ==>
              Clear(Coalesced(lists), b, n)
    ensures Count(Coalesced(lists)) <= Count(lists)
    ensures MergeClass(lists, 0) < LAST ==> Count(Coalesced(lists)) < Count(lists)
    decreases Count(lists), 0
  {
    var k := MergeClass(lists, 0);
    if k < LAST {
      MergeMakesBlock(base, lists);
      FreeBlockKeeps(base, Unpaired(lists), k + 1, lists[k][MergeAt(lists[k], k)]);
    }
  }
}
