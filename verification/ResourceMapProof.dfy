/** What the resource map keeps: the tiling of the pages, the order of the free
    list, and the match between pages in use and live blocks. */
module ResourceMapProof {
  import opened PagePools
  import opened ResourceMapModel

  /** Addresses on different pages compare as their pages do. */
  lemma PagesCompare(p: int, a: int, q: int, b: int)
    requires p % 8192 == 0 && q % 8192 == 0 && p != q
    requires p <= a < p + PAGESIZE && q <= b < q + PAGESIZE
    ensures a < b <==> p < q
  {
  }

  // ----- the tiling under splitting, merging, and pages coming and going

  lemma SplitKeepsTiles(pages: set<int>, blocks: set<Block>, b: Block, size: int)
    requires Tiles(pages, blocks) && b in blocks
    requires H <= size && size + H <= b.size
    ensures Tiles(pages, blocks - {b} + {Block(b.addr, size), Block(b.addr + size, b.size - size)})
  {
    var x, y := Block(b.addr, size), Block(b.addr + size, b.size - size);
    var after := blocks - {b} + {x, y};
    assert Base(y.addr) == Base(b.addr);
    forall p, a | p in pages && Usable(p, a) ensures Covered(after, a) {
      assert Covered(blocks, a);
      var c :| c in blocks && c.addr <= a < c.End();
      var d := if c != b then c else if a < y.addr then x else y;
      assert d in after && d.addr <= a < d.End();
    }
    forall c | c in blocks && c != b ensures !Overlap(c, x) && !Overlap(c, y) && !Overlap(x, c) && !Overlap(y, c) {
      assert !Overlap(c, b);
    }
  }

  lemma MergeKeepsTiles(pages: set<int>, blocks: set<Block>, x: Block, y: Block)
    requires Tiles(pages, blocks) && x in blocks && y in blocks && x != y && Mergeable(x, y)
    ensures Tiles(pages, blocks - {x, y} + {Block(x.addr, x.size + y.size)})
    ensures Block(x.addr, x.size + y.size) !in blocks
  {
    var m := Block(x.addr, x.size + y.size);
    var after := blocks - {x, y} + {m};
    assert Overlap(m, x) && Overlap(m, y);
    forall p, a | p in pages && Usable(p, a) ensures Covered(after, a) {
      assert Covered(blocks, a);
      var c :| c in blocks && c.addr <= a < c.End();
      var d := if c == x || c == y then m else c;
      assert d in after && d.addr <= a < d.End();
    }
    forall c | c in blocks && c != x && c != y ensures !Overlap(c, m) && !Overlap(m, c) {
      assert !Overlap(c, x) && !Overlap(c, y);
    }
  }

  lemma NewPageKeepsTiles(pages: set<int>, blocks: set<Block>, p: int)
    requires Tiles(pages, blocks) && p !in pages && p > 0 && p % 8192 == 0
    ensures Tiles(pages + {p}, blocks + {Block(p + W, R)})
    ensures forall b :: b in blocks ==> Base(b.addr) != p
  {
    var b := Block(p + W, R);
    var all := blocks + {b};
    BaseIs(p, b.addr);
    forall c | c in blocks ensures !Overlap(b, c) && !Overlap(c, b) && Base(c.addr) != p {
      assert Fits(c, pages);
      PagesCompare(p, b.addr, Base(c.addr), c.addr);
    }
    forall q, a | q in pages + {p} && Usable(q, a) ensures Covered(all, a) {
      if q == p {
        assert b in all;
      } else {
        assert Covered(blocks, a);
        var c :| c in blocks && c.addr <= a < c.End();
        assert c in all;
      }
    }
  }

  lemma DropPageKeepsTiles(pages: set<int>, blocks: set<Block>, b: Block)
    requires Tiles(pages, blocks) && b in blocks && b.size == R
    ensures Tiles(pages - {Base(b.addr)}, blocks - {b})
    ensures b.addr == Base(b.addr) + W
    ensures forall c :: c in blocks && c != b ==> Base(c.addr) != Base(b.addr)
  {
    var p := Base(b.addr);
    assert Fits(b, pages);
    forall c | c in blocks && c != b ensures Base(c.addr) != p {
      assert !Overlap(b, c) && Fits(c, pages);
    }
    forall q, a | q in pages - {p} && Usable(q, a) ensures Covered(blocks - {b}, a) {
      assert Covered(blocks, a);
      var c :| c in blocks && c.addr <= a < c.End();
      assert Fits(c, pages);
      assert c in blocks - {b};
    }
  }

  // ----- the free list

  lemma Positions(free: seq<Block>, i: nat, j: nat)
    requires Sorted(free) && i < |free| && j < |free| && free[i] == free[j]
    ensures i == j
  {
  }

  lemma MembersOfInserted(free: seq<Block>, i: nat, b: Block)
    requires i <= |free|
    ensures Members(Inserted(free, i, b)) == Members(free) + {b}
  {
    var after := Inserted(free, i, b);
    forall c | c in Members(free) + {b} ensures c in after {
      if c in free {
        var k :| 0 <= k < |free| && free[k] == c;
        assert after[if k < i then k else k + 1] == c;
      } else {
        assert after[i] == c;
      }
    }
    forall c | c in after ensures c in Members(free) + {b} {
      var k :| 0 <= k < |after| && after[k] == c;
      if k != i { assert c == free[if k < i then k else k - 1]; }
    }
  }

  lemma MembersOfUpdated(free: seq<Block>, i: nat, b: Block)
    requires Sorted(free) && i < |free|
    ensures Members(free[i := b]) == Members(free) - {free[i]} + {b}
  {
    var after := free[i := b];
    forall c | c in Members(free) - {free[i]} + {b} ensures c in after {
      if c == b {
        assert after[i] == c;
      } else {
        var k :| 0 <= k < |free| && free[k] == c;
        assert after[k] == c;
      }
    }
    forall c | c in after ensures c in Members(free) - {free[i]} + {b} {
      var k: nat :| k < |after| && after[k] == c;
      if k != i && free[k] == free[i] { Positions(free, k, i); }
    }
  }

  lemma MembersOfRemoved(free: seq<Block>, i: nat)
    requires Sorted(free) && i < |free|
    ensures Members(free[..i] + free[i + 1..]) == Members(free) - {free[i]}
    ensures Sorted(free[..i] + free[i + 1..])
  {
    var after := free[..i] + free[i + 1..];
    forall k | 0 <= k < |after| ensures after[k] == free[if k < i then k else k + 1] {
    }
    forall c | c in Members(free) - {free[i]} ensures c in after {
      var k :| 0 <= k < |free| && free[k] == c;
      assert after[if k < i then k else k - 1] == c;
    }
    forall c | c in after ensures c in Members(free) - {free[i]} {
      var k: nat :| k < |after| && after[k] == c;
      var j: nat := if k < i then k else k + 1;
      if free[j] == free[i] { Positions(free, j, i); }
    }
  }

  lemma InsertKeepsSorted(free: seq<Block>, b: Block)
    requires Sorted(free) && forall c :: c in free ==> c.addr != b.addr
    ensures Sorted(Inserted(free, Above(free, b.addr), b))
  {
    var i := Above(free, b.addr);
    forall j | 0 <= j < |free| ensures if j < i then free[j].addr < b.addr else free[j].addr > b.addr {
      assert free[j] in free;
    }
  }

  lemma TailOf(free: seq<Block>, p: int, b: Block)
    requires b in free && b.End() == p + W + R
    ensures HasTail(free, p)
  {
  }

  /** First fit takes the lowest block with room for a header behind the request. */
  lemma FirstFitIsLowest(free: seq<Block>, size: int, b: Block)
    requires Sorted(free) && b in free && b.size >= size + H
    ensures var i := FirstFit(free, size); i < |free| && free[i].addr <= b.addr
  {
    var k :| 0 <= k < |free| && free[k] == b;
    assert FirstFit(free, size) <= k;
  }

  lemma CarveKeepsTail(free: seq<Block>, i: nat, size: int, p: int)
    requires i < |free| && HasTail(free, p)
    ensures HasTail(Carved(free, i, size), p)
  {
    var t :| t in free && t.End() == p + W + R;
    var k :| 0 <= k < |free| && free[k] == t;
    TailOf(Carved(free, i, size), p, Carved(free, i, size)[k]);
  }

  lemma InsertKeepsTail(free: seq<Block>, i: nat, b: Block, p: int)
    requires i <= |free| && HasTail(free, p)
    ensures HasTail(Inserted(free, i, b), p)
  {
    var t :| t in free && t.End() == p + W + R;
    MembersOfInserted(free, i, b);
    assert t in Members(Inserted(free, i, b));
    TailOf(Inserted(free, i, b), p, t);
  }

  /** Neighbours in the list are neighbours in memory: the first ends before the
      second starts. */
  lemma InOrder(pages: set<int>, free: seq<Block>, live: set<Block>, i: nat, j: nat)
    requires Sorted(free) && Tiles(pages, Members(free) + live) && i < j < |free|
    ensures free[i].End() <= free[j].addr
  {
    var all := Members(free) + live;
    assert free[i].addr < free[j].addr;
    assert free[i] in all && free[j] in all && !Overlap(free[i], free[j]) && Fits(free[j], pages);
  }

  lemma CarveKeepsOrder(pages: set<int>, free: seq<Block>, live: set<Block>, i: nat, size: int)
    requires Sorted(free) && Tiles(pages, Members(free) + live)
    requires i < |free| && H <= size && size + H <= free[i].size
    ensures Sorted(Carved(free, i, size))
    ensures Merged(free) ==> Merged(Carved(free, i, size))
  {
    var after := Carved(free, i, size);
    forall j, k | 0 <= j < k < |after| ensures after[j].addr < after[k].addr {
      InOrder(pages, free, live, j, k);
    }
    if Merged(free) {
      var b := free[i];
      assert b in Members(free) + live && Fits(b, pages);
      forall k | 0 <= k < |after| - 1 ensures !Mergeable(after[k], after[k + 1]) {
        assert !Mergeable(free[k], free[k + 1]);
        if k + 1 == i { InOrder(pages, free, live, k, i); }
      }
    }
  }

  lemma CarveKeepsShares(pages: set<int>, free: seq<Block>, live: set<Block>, i: nat, size: int)
    requires Shares(pages, free, live) && i < |free| && H <= size && size + H <= free[i].size
    ensures Block(free[i].addr, size) !in live
    ensures Shares(pages, Carved(free, i, size), live + {Block(free[i].addr, size)})
    ensures Merged(free) ==> Merged(Carved(free, i, size))
  {
    var b := free[i];
    var x, y := Block(b.addr, size), Block(b.addr + size, b.size - size);
    var after := Carved(free, i, size);
    var all := Members(free) + live;
    assert b in free && b in all;
    SplitKeepsTiles(pages, all, b, size);
    assert Overlap(x, b) && Overlap(y, b);
    assert x !in all && y !in all;
    CarveKeepsOrder(pages, free, live, i, size);
    MembersOfUpdated(free, i, y);
    assert Members(after) + (live + {x}) == all - {b} + {x, y};
    forall p | p in pages ensures HasTail(after, p) {
      assert HasTail(free, p);
      CarveKeepsTail(free, i, size, p);
    }
  }

  lemma InsertPageKeepsMerged(free: seq<Block>, i: nat, rest: Block)
    requires i <= |free| && Merged(free)
    requires forall b :: b in free ==> Base(b.addr) != Base(rest.addr)
    ensures Merged(Inserted(free, i, rest))
  {
    var after := Inserted(free, i, rest);
    forall k | 0 <= k < |after| - 1 ensures !Mergeable(after[k], after[k + 1]) {
      if k + 1 < i {
        assert !Mergeable(free[k], free[k + 1]);
      } else if k > i {
        assert !Mergeable(free[k - 1], free[k]);
      } else if k == i {
        assert free[k] in free;
      } else {
        assert free[k] in free;
      }
    }
  }

  lemma CarvedPageKeepsTiles(pages: set<int>, blocks: set<Block>, p: int, size: int)
    requires Tiles(pages, blocks) && p !in pages && p > 0 && p % 8192 == 0
    requires H <= size <= R - H
    ensures var x, rest := Block(p + W, size), Block(p + W + size, R - size);
            && Tiles(pages + {p}, blocks + {x, rest})
            && x !in blocks && rest !in blocks && Base(rest.addr) == p
    ensures forall b :: b in blocks ==> Base(b.addr) != p
  {
    var x, rest := Block(p + W, size), Block(p + W + size, R - size);
    var whole := Block(p + W, R);
    NewPageKeepsTiles(pages, blocks, p);
    BaseIs(p, x.addr);
    BaseIs(p, rest.addr);
    BaseIs(p, whole.addr);
    SplitKeepsTiles(pages + {p}, blocks + {whole}, whole, size);
    assert blocks + {whole} - {whole} + {x, rest} == blocks + {x, rest};
  }

  lemma InsertPageKeepsTails(pages: set<int>, free: seq<Block>, i: nat, rest: Block, p: int)
    requires i <= |free| && rest.End() == p + W + R
    requires forall q {:trigger HasTail(free, q)} :: q in pages ==> HasTail(free, q)
    ensures forall q :: q in pages + {p} ==> HasTail(Inserted(free, i, rest), q)
  {
    MembersOfInserted(free, i, rest);
    assert rest in Members(Inserted(free, i, rest));
    TailOf(Inserted(free, i, rest), p, rest);
    forall q | q in pages ensures HasTail(Inserted(free, i, rest), q) {
      assert HasTail(free, q);
      InsertKeepsTail(free, i, rest, q);
    }
  }

  /** A new page takes its place in the list unless it lies below the first block. */
  lemma NewPageKeepsShares(pages: set<int>, free: seq<Block>, live: set<Block>, p: int, size: int)
    requires Shares(pages, free, live) && p !in pages && p > 0 && p % 8192 == 0
    requires H <= size <= R - H
    ensures Block(p + W, size) !in live
    ensures var rest := Block(p + W + size, R - size);
            var after := Inserted(free, Above(free, rest.addr), rest);
            && Shares(pages + {p}, after, live + {Block(p + W, size)})
            && (Merged(free) ==> Merged(after))
  {
    var x, rest := Block(p + W, size), Block(p + W + size, R - size);
    var i := Above(free, rest.addr);
    var after := Inserted(free, i, rest);
    var all := Members(free) + live;
    CarvedPageKeepsTiles(pages, all, p, size);
    assert forall b :: b in free ==> b in all;
    InsertKeepsSorted(free, rest);
    MembersOfInserted(free, i, rest);
    assert Members(after) + (live + {x}) == all + {x, rest};
    assert Members(after) !! live + {x};
    InsertPageKeepsTails(pages, free, i, rest, p);
    if Merged(free) { InsertPageKeepsMerged(free, i, rest); }
  }

  /** The tail of a live block's page is a free block above it. */
  lemma TailIsAbove(pages: set<int>, free: seq<Block>, live: set<Block>, b: Block) returns (k: nat)
    requires Shares(pages, free, live) && b in live
    ensures k < |free| && b.addr < free[k].addr < Base(b.addr) + PAGESIZE
  {
    var p := Base(b.addr);
    assert b in Members(free) + live && Fits(b, pages);
    assert HasTail(free, p);
    var t :| t in free && t.End() == p + W + R;
    assert t in Members(free) && b !in Members(free);
    assert t in Members(free) + live && Fits(t, pages) && !Overlap(t, b);
    k :| 0 <= k < |free| && free[k] == t;
  }

  /** So the insert-before search never falls off the list or crosses to another page. */
  lemma ReturnFindsItsPage(pages: set<int>, free: seq<Block>, live: set<Block>, b: Block)
    requires Shares(pages, free, live) && b in live
    ensures Above(free, b.addr) < |free|
    ensures Base(free[Above(free, b.addr)].addr) == Base(b.addr)
  {
    var k := TailIsAbove(pages, free, live, b);
    var i := Above(free, b.addr);
    assert i <= k;
    if i < k {
      assert free[i].addr < free[k].addr;
    }
    assert b in Members(free) + live && Fits(b, pages);
    BaseIs(Base(b.addr), free[i].addr);
  }

  /** Giving a live block back relinks exactly that block. */
  lemma ReturnKeepsShares(pages: set<int>, free: seq<Block>, live: set<Block>, b: Block)
    requires Shares(pages, free, live) && b in live
    ensures Shares(pages, Returned(free, b), live - {b})
    ensures Members(Returned(free, b)) == Members(free) + {b}
  {
    ReturnFindsItsPage(pages, free, live, b);
    var all := Members(free) + live;
    var i := Above(free, b.addr);
    var after := Returned(free, b);
    assert b in all && Fits(b, pages);
    forall c | c in free ensures c.addr != b.addr {
      assert c in all && !Overlap(c, b) && Fits(c, pages);
    }
    InsertKeepsSorted(free, b);
    MembersOfInserted(free, i, b);
    assert Members(after) + (live - {b}) == all;
    forall q | q in pages ensures HasTail(after, q) {
      assert HasTail(free, q);
      InsertKeepsTail(free, i, b, q);
    }
  }

  /** The first two blocks of a list become one. */
  function JoinedHead(free: seq<Block>): seq<Block>
    requires |free| >= 2
  {
    [Block(free[0].addr, free[0].size + free[1].size)] + free[2..]
  }

  ghost predicate Apportions(pages: set<int>, free: seq<Block>, live: set<Block>) {
    Sorted(free) && Members(free) !! live && Tiles(pages, Members(free) + live)
  }

  lemma MembersOfTail(free: seq<Block>)
    requires free != [] && Sorted(free)
    ensures Members(free) == {free[0]} + Members(free[1..]) && free[0] !in free[1..]
    ensures Sorted(free[1..])
  {
    MembersOfRemoved(free, 0);
    assert free[..0] + free[1..] == free[1..];
    assert free[0] in free;
  }

  lemma JoinKeepsApportions(pages: set<int>, free: seq<Block>, live: set<Block>)
    requires |free| >= 2 && Apportions(pages, free, live) && Mergeable(free[0], free[1])
    ensures Apportions(pages, JoinedHead(free), live)
    ensures forall p :: p in pages && HasTail(free, p) ==> HasTail(JoinedHead(free), p)
  {
    var x, y, rest := free[0], free[1], free[2..];
    var all := Members(free) + live;
    var m := Block(x.addr, x.size + y.size);
    MembersOfTail(free);
    MembersOfTail(free[1..]);
    assert free[1..][1..] == rest;
    MergeKeepsTiles(pages, all, x, y);
    assert Members(JoinedHead(free)) == {m} + Members(rest);
    assert Members(JoinedHead(free)) + live == all - {x, y} + {m};
    forall p | p in pages && HasTail(free, p) ensures HasTail(JoinedHead(free), p) {
      var t :| t in free && t.End() == p + W + R;
      assert Fits(x, pages) && Fits(y, pages);
      assert t in Members(free);
      var u := if t == y then m else t;
      assert u in Members(JoinedHead(free));
      TailOf(JoinedHead(free), p, u);
    }
  }

  lemma HeadKeepsTail(x: Block, d: seq<Block>, free: seq<Block>, p: int)
    requires free != [] && free[0] == x && HasTail(free, p)
    requires HasTail(free[1..], p) ==> HasTail(d, p)
    ensures HasTail([x] + d, p)
  {
    var t :| t in free && t.End() == p + W + R;
    if t == x {
      TailOf([x] + d, p, x);
    } else {
      assert t in free[1..];
      TailOf(free[1..], p, t);
      var u :| u in d && u.End() == p + W + R;
      TailOf([x] + d, p, u);
    }
  }

  /** Coalescing moves no byte between free and live, keeps order and tails, and
      leaves no two adjacent free blocks of one page. */
  lemma {:induction false} CoalesceKeepsShares(pages: set<int>, free: seq<Block>, live: set<Block>)
    requires Apportions(pages, free, live)
    ensures Apportions(pages, Coalesced(free), live) && Merged(Coalesced(free))
    ensures |Coalesced(free)| <= |free|
    ensures free != [] ==> Coalesced(free) != [] && Coalesced(free)[0].addr == free[0].addr
    ensures forall p :: p in pages && HasTail(free, p) ==> HasTail(Coalesced(free), p)
    decreases |free|
  {
    if |free| < 2 {
    } else if Mergeable(free[0], free[1]) {
      JoinKeepsApportions(pages, free, live);
      CoalesceKeepsShares(pages, JoinedHead(free), live);
    } else {
      var x, tail := free[0], free[1..];
      MembersOfTail(free);
      assert Members(tail) + (live + {x}) == Members(free) + live;
      CoalesceKeepsShares(pages, tail, live + {x});
      var d := Coalesced(tail);
      assert Members([x] + d) == {x} + Members(d);
      assert Members([x] + d) + live == Members(d) + (live + {x});
      assert forall k :: 0 < k < |d| ==> d[0].addr < d[k].addr;
      forall p | p in pages && HasTail(free, p) ensures HasTail([x] + d, p) {
        HeadKeepsTail(x, d, free, p);
      }
    }
  }

  /** On a merged list a page is one block of size R exactly when nothing on it
      is live. */
  lemma WholeMeansNoLive(pages: set<int>, free: seq<Block>, live: set<Block>, p: int)
    requires Shares(pages, free, live) && Merged(free) && p in pages
    ensures Block(p + W, R) in free <==> !HoldsLive(live, p)
  {
    var all := Members(free) + live;
    if Block(p + W, R) in free {
      DropPageKeepsTiles(pages, all, Block(p + W, R));
    } else if !HoldsLive(live, p) {
      var f := FreeAt(pages, free, live, p, p + W);
      assert f.addr == p + W by { assert Fits(f, pages); }
      if f.End() < p + W + R {
        var g := FreeAt(pages, free, live, p, f.End());
        assert f in all && g in all && f != g && !Overlap(f, g);
        assert g.addr == f.End() && Mergeable(f, g);
        var i :| 0 <= i < |free| && free[i] == f;
        var j :| 0 <= j < |free| && free[j] == g;
        assert i < j;
        InOrder(pages, free, live, i, i + 1);
      }
    }
  }

  lemma FreeAt(pages: set<int>, free: seq<Block>, live: set<Block>, p: int, a: int) returns (f: Block)
    requires Shares(pages, free, live) && p in pages && Usable(p, a) && !HoldsLive(live, p)
    ensures f in free && f.addr <= a < f.End() && Base(f.addr) == p
  {
    var all := Members(free) + live;
    assert Covered(all, a);
    f :| f in all && f.addr <= a < f.End();
    assert Fits(f, pages);
    BaseIs(p, a);
    BaseIs(Base(f.addr), a);
  }
}
