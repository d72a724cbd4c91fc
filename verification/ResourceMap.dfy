/** kma_rm.c as it works: block headers relinked in memory, the head of the list
    in the first word of the first page, pages taken from and given to the pool.

    Every public method is proved to do to `Abs()` what the functions of
    ResourceMapModel say. */
module ResourceMaps {
  import opened Wrappers
  import opened PagePools
  import opened ResourceMapModel
  import opened ResourceMapProof
  import opened ResourceMapRuns

  /** blockheaderT; `next` is an address or NULL. */
  datatype Header = Header(size: int, next: int)

  /** What the caller of kma_malloc sees: an address, NULL, a fault, a header
      written into the next page, or the end of the program. */
  datatype Reply = Ptr(addr: int) | NoPtr | Fault | Spill | Stop

  function HeadAt(free: seq<Block>, i: nat): int {
    if i < |free| then free[i].addr else NULL
  }

  function Before(free: seq<Block>, i: nat): int {
    if 0 < i <= |free| then free[i - 1].addr else NULL
  }

  predicate LinkOk(hdr: map<int, Header>, free: seq<Block>, i: nat)
    requires i < |free|
  {
    && free[i].addr != NULL && free[i].addr in hdr
    && hdr[free[i].addr] == Header(free[i].size, HeadAt(free, i + 1))
  }

  /** Following the headers from `first` visits the blocks of `free` and ends. */
  ghost predicate Linked(hdr: map<int, Header>, first: int, free: seq<Block>) {
    && first == HeadAt(free, 0)
    && forall i :: 0 <= i < |free| ==> LinkOk(hdr, free, i)
  }

  lemma PlaceIs(s: Rm, size: int, arena: int)
    requires 0 <= size <= R
    ensures var i := FirstFit(s.free, size);
            Place(s, size, arena) == if i < |s.free| then Granted(s.(free := Carved(s.free, i, size)), s.free[i].addr)
                                     else ResourceMapModel.NewPage(s, size, arena)
  {
  }

  lemma ListedIsNotNull(hdr: map<int, Header>, first: int, free: seq<Block>, i: nat)
    requires Linked(hdr, first, free)
    ensures HeadAt(free, i) == NULL <==> i >= |free|
  {
    if i < |free| {
      assert LinkOk(hdr, free, i);
    }
  }

  class ResourceMap {
    const pages: PagePool
    var firstPage: int
    var word: map<int, int>       // the first word of each page in use
    var hdr: map<int, Header>
    ghost var free: seq<Block>
    ghost var live: set<Block>

    ghost function Abs(): Rm
      reads this, pages
    {
      Rm(firstPage, free, pages.m)
    }

    /** FIRST_PAGE_BLOCK heads the list. */
    ghost predicate Holds()
      reads this
    {
      firstPage != NULL && firstPage in word && Linked(hdr, word[firstPage], free)
    }

    /** The first word of every page but the first names the page. */
    ghost predicate Named(inUse: set<int>)
      reads this
    {
      firstPage in inUse && forall p :: p in inUse && p != firstPage ==> p in word && word[p] == p
    }

    ghost predicate Stored()
      reads this, pages
    {
      && pages.Valid()
      && (firstPage == NULL ==> free == [])
      && (firstPage != NULL ==> Holds() && Named(pages.m.inUse))
    }

    ghost predicate Valid()
      reads this, pages
    {
      Stored() && Inv(Abs(), live)
    }

    /** Only the first word of the first page was written. */
    twostate predicate OnlyFirstWord()
      reads this
    {
      firstPage == old(firstPage) && firstPage in word && word == old(word)[firstPage := word[firstPage]]
    }

    constructor ()
      ensures Valid() && Abs() == EMPTY && live == {} && fresh(pages)
    {
      pages := new PagePool();
      firstPage, word, hdr := NULL, map[], map[];
      free, live := [], {};
      new;
      assert Members([]) + {} == {};
    }

    /** kma_malloc */
    method Malloc(size: int, arena: int) returns (r: Reply)
      requires Valid() && ValidArena(arena) && IsInt(size)
      modifies this, pages
      ensures Does(ResourceMapModel.Malloc(old(Abs()), size, arena), r)
      ensures r.NoPtr? || (r.Ptr? && Servable(size)) ==> Valid()
      ensures r.Ptr? && !Servable(size) ==> Stored() && !Inv(Abs(), live)
      ensures live == if r.Ptr? then old(live) + {Block(r.addr, size)} else old(live)
    {
      ghost var s, was := Abs(), live;
      MallocKeepsInv(s, live, size, arena);
      if firstPage != NULL {
        FreeIsNotEmpty(s, live);
        SharesSpaced(pages.m.inUse, free, live);
      }
      r := Serve(size, arena);
      if r.Ptr? {
        live := was + {Block(r.addr, size)};
      }
    }

    /** kma_malloc, as far as the list and the pages are concerned. */
    method Serve(size: int, arena: int) returns (r: Reply)
      requires Stored() && ValidArena(arena) && IsInt(size)
      requires if firstPage == NULL then pages.m.arena == NULL else free != [] && Spaced(free, pages.m.inUse)
      modifies this`firstPage, this`word, this`hdr, this`free, pages
      ensures Does(ResourceMapModel.Malloc(old(Abs()), size, arena), r)
    {
      if firstPage == NULL {
        OpenFirstPage(arena);
      }
      if AsUnsigned(size) > R {
        return NoPtr;
      }
      r := FindFirstFit(size, arena);
    }

    method OpenFirstPage(arena: int)
      requires Stored() && ValidArena(arena) && firstPage == NULL && pages.m.arena == NULL
      modifies this`firstPage, this`word, this`hdr, this`free, pages
      ensures Stored() && Get(old(pages.m), arena) == Some((pages.m, firstPage))
      ensures free == [Block(firstPage + W, R)] && firstPage != NULL && Spaced(free, pages.m.inUse)
    {
      GetKeepsPool(pages.m, arena);
      var got := pages.GetPage(arena);
      firstPage := got.value;
      var header := firstPage + W;
      BaseIs(firstPage, header);
      hdr := hdr[header := Header(R, NULL)];
      SetFirstBlock(header);
      free := [Block(header, R)];
    }

    /** kma_free: the caller gives back a block it holds, with its size. */
    method Free(ptr: int, size: int)
      requires Valid() && Block(ptr, size) in live
      modifies this, pages
      ensures Valid() && live == old(live) - {Block(ptr, size)}
      ensures Abs() == ResourceMapModel.Free(old(Abs()), Block(ptr, size))
    {
      ghost var s, b, was := Abs(), Block(ptr, size), live;
      FreeKeepsInv(s, live, b);
      ReadyToFree(s, live, b);
      TakeBack(ptr, size);
      live := was - {b};
    }

    /** kma_free, as far as the list and the pages are concerned. */
    method TakeBack(ptr: int, size: int)
      requires Stored() && firstPage != NULL && ptr != NULL && Above(free, ptr) < |free|
      requires Sorted(free) && forall k :: 0 <= k < |free| ==> free[k].addr != ptr
      requires var returned := Returned(free, Block(ptr, size));
               && Sorted(returned) && Sorted(Coalesced(returned))
               && Clearable(Coalesced(returned), firstPage, pages.m.inUse)
      modifies this`firstPage, this`word, this`hdr, this`free, pages
      ensures Stored() && Abs() == ResourceMapModel.Free(old(Abs()), Block(ptr, size))
    {
      LinkFreed(ptr, size);
      Coalesce();
      ClearEmptyPages();
    }

    /** FIRST_PAGE_BLOCK = a */
    method SetFirstBlock(a: int)
      modifies this`word
      ensures word == old(word)[firstPage := a]
    {
      word := word[firstPage := a];
    }

    method UpdateMallocHeaders(size: int, current: int, previous: int, ghost i: nat)
      requires Holds() && Apart(free)
      requires i < |free| && 0 <= size && size + H <= free[i].size
      requires current == free[i].addr && previous == Before(free, i)
      modifies this`word, this`hdr, this`free
      ensures Holds() && OnlyFirstWord() && free == Carved(old(free), i, size)
    {
      ghost var was := free;
      assert LinkOk(hdr, free, i);
      var newNext := hdr[current].next;
      var newSize := hdr[current].size - size;
      var newBlock := current + size;
      hdr := hdr[newBlock := Header(newSize, newNext)];
      free := Carved(free, i, size);
      if previous == NULL {
        SetFirstBlock(newBlock);
      } else {
        assert LinkOk(old(hdr), was, i - 1);
        hdr := hdr[previous := hdr[previous].(next := newBlock)];
      }
      CarvedIsLinked(old(hdr), hdr, was, i, size);
    }

    method FindFirstFit(size: int, arena: int) returns (r: Reply)
      requires Stored() && firstPage != NULL && free != [] && Spaced(free, pages.m.inUse)
      requires ValidArena(arena) && 0 <= size <= R
      modifies this`word, this`hdr, this`free, pages
      ensures Does(Place(old(Abs()), size, arena), r)
    {
      var current, previous, i := SearchFit(size);
      PlaceIs(Abs(), size, arena);
      if current != NULL {
        CutFit(size, current, previous, i);
        r := Ptr(current);
      } else {
        r := NewPage(size, arena);
      }
    }

    method CutFit(size: int, current: int, previous: int, ghost i: nat)
      requires Stored() && firstPage != NULL && Apart(free) && 0 <= size
      requires i == FirstFit(free, size) < |free| && current == free[i].addr && previous == Before(free, i)
      modifies this`word, this`hdr, this`free
      ensures Stored() && Abs() == old(Abs()).(free := Carved(old(free), i, size))
    {
      UpdateMallocHeaders(size, current, previous, i);
    }

    /** The walk of find_first_fit. */
    method SearchFit(size: int) returns (current: int, previous: int, ghost i: nat)
      requires Holds() && 0 <= size <= R && forall k :: 0 <= k < |free| ==> 0 <= free[k].size <= R
      ensures i == FirstFit(free, size) && current == HeadAt(free, i) && previous == Before(free, i)
      ensures current == NULL <==> i == |free|
    {
      i := 0;
      current := word[firstPage];
      previous := NULL;
      while current != NULL
        invariant i <= |free| && current == HeadAt(free, i) && previous == Before(free, i)
        invariant forall j :: 0 <= j < i ==> free[j].size < size + H
        decreases |free| - i
      {
        assert LinkOk(hdr, free, i);
        // The difference is compared with sizeof as an unsigned number.
        if AsUnsigned(hdr[current].size - size) < H {
          previous := current;
          current := hdr[current].next;
        } else if size < hdr[current].size {
          break;
        } else {
          previous := current;
          current := hdr[current].next;
        }
        i := i + 1;
      }
      assert i < |free| ==> LinkOk(hdr, free, i);
    }

    /** What the call that gave this reply came to. */
    ghost function Result(r: Reply): Outcome
      reads this, pages
    {
      match r
      case Ptr(a) => Granted(Abs(), a)
      case NoPtr => Refused(Abs())
      case Fault => Faulted
      case Spill => Spilled
      case Stop => Exhausted
    }

    /** This state and reply are the outcome `o`. */
    ghost predicate Does(o: Outcome, r: Reply)
      reads this, pages
    {
      o == Result(r) && (r.Ptr? || r.NoPtr? ==> Stored())
    }

    method NewPage(size: int, arena: int) returns (r: Reply)
      requires Stored() && firstPage != NULL && free != [] && Spaced(free, pages.m.inUse)
      requires ValidArena(arena) && 0 <= size <= R
      modifies this`word, this`hdr, this`free, pages
      ensures Does(ResourceMapModel.NewPage(old(Abs()), size, arena), r)
    {
      GetKeepsPool(pages.m, arena);
      ghost var inUse := pages.m.inUse;
      var got := pages.GetPage(arena);
      if got == None {
        return Stop;
      }
      var page := got.value;
      word := word[page := page];
      if W + size + H > PAGESIZE {
        return Spill;
      }
      var linked := OpenPage(page, size, inUse);
      if !linked {
        return Fault;
      }
      r := Ptr(page + W);
    }

    /** The rest of a page just taken, whose header ends on the page, is put on the list. */
    method OpenPage(page: int, size: int, ghost inUse: set<int>) returns (linked: bool)
      requires Holds() && free != [] && Spaced(free, inUse)
      requires page !in inUse && page % 8192 == 0 && page > 0 && 0 <= size <= R - W
      modifies this`hdr, this`free
      ensures var i := Above(old(free), page + W + size);
              && (linked <==> i > 0)
              && (linked ==> Holds() && free == Inserted(old(free), i, Block(page + W + size, R - size)))
    {
      var header := page + W + size;
      HeaderIsApart(free, inUse, page, header);
      hdr := hdr[header := Header(R - size, NULL)];
      OtherHeadersLinked(old(hdr), hdr, free, header);
      ghost var i;
      linked, i := LinkNewPage(header);
    }

    /** The walk of new_page: to the first block above the header, or the last block. */
    method SearchLink(header: int) returns (current: int, previous: int, ghost i: nat)
      requires Holds() && free != []
      ensures i < |free| && current == free[i].addr && previous == Before(free, i)
      ensures forall j :: 0 <= j < i ==> free[j].addr <= header
      ensures current > header || i == |free| - 1
      ensures LinkOk(hdr, free, i) && (previous == NULL <==> i == 0) && (i > 0 ==> LinkOk(hdr, free, i - 1))
    {
      i := 0;
      assert LinkOk(hdr, free, 0);
      current := word[firstPage];
      previous := NULL;
      while current <= header && hdr[current].next != NULL
        invariant i < |free| && current == free[i].addr && previous == Before(free, i) && LinkOk(hdr, free, i)
        invariant i > 0 ==> LinkOk(hdr, free, i - 1)
        invariant forall j :: 0 <= j < i ==> free[j].addr <= header
        decreases |free| - i
      {
        assert LinkOk(hdr, free, i + 1);
        previous := current;
        current := hdr[current].next;
        i := i + 1;
      }
      ListedIsNotNull(hdr, word[firstPage], free, i + 1);
    }

    /** The header of a new page's rest, put before the first block above it or
        behind the last block; not linked is the store through NULL. */
    method LinkNewPage(header: int) returns (linked: bool, ghost i: nat)
      requires header != NULL && header in hdr && hdr[header].next == NULL
      requires Sorted(free) && free != [] && forall k :: 0 <= k < |free| ==> free[k].addr != header
      requires Holds()
      modifies this`hdr, this`free
      ensures i <= |old(free)| && (i < |old(free)| ==> header < old(free)[i].addr)
      ensures forall j :: 0 <= j < i ==> old(free)[j].addr <= header
      ensures linked <==> i > 0
      ensures linked ==> free == Inserted(old(free), i, Block(header, old(hdr[header].size)))
      ensures linked ==> Holds()
    {
      ghost var b := Block(header, hdr[header].size);
      var current, previous;
      current, previous, i := SearchLink(header);
      if current > header {
        if previous == NULL {
          return false, i;
        }
        hdr := hdr[previous := hdr[previous].(next := header)];
        hdr := hdr[header := hdr[header].(next := current)];
      } else {
        hdr := hdr[current := hdr[current].(next := header)];
        i := i + 1;
      }
      InsertedIsLinked(old(hdr), hdr, free, i, b);
      free := Inserted(free, i, b);
      return true, i;
    }

    /** The first listed block above `ptr` and its predecessor. */
    method SearchAbove(ptr: int) returns (current: int, previous: int)
      requires Holds() && Above(free, ptr) < |free|
      ensures current == free[Above(free, ptr)].addr && previous == Before(free, Above(free, ptr))
      ensures previous == NULL <==> Above(free, ptr) == 0
    {
      ghost var i := 0;
      assert LinkOk(hdr, free, 0);
      current := word[firstPage];
      previous := NULL;
      while current != NULL && current <= ptr
        invariant i <= Above(free, ptr) < |free| && current == free[i].addr != NULL && previous == Before(free, i)
        decreases |free| - i
      {
        assert i < Above(free, ptr) && LinkOk(hdr, free, i) && LinkOk(hdr, free, i + 1);
        previous := current;
        current := hdr[current].next;
        i := i + 1;
      }
      assert i == Above(free, ptr);
      assert i > 0 ==> LinkOk(hdr, free, i - 1);
    }

    /** The given block linked before the first block above it. */
    method LinkFreed(ptr: int, size: int)
      requires Holds() && Sorted(free) && Above(free, ptr) < |free|
      requires ptr != NULL && forall k :: 0 <= k < |free| ==> free[k].addr != ptr
      modifies this`word, this`hdr, this`free
      ensures Holds() && OnlyFirstWord() && free == Returned(old(free), Block(ptr, size))
    {
      var current, previous := SearchAbove(ptr);
      LinkBefore(ptr, size, current, previous, Above(free, ptr));
    }

    method LinkBefore(ptr: int, size: int, current: int, previous: int, ghost i: nat)
      requires Holds() && Sorted(free) && i < |free| && current == free[i].addr
      requires previous == Before(free, i) && (previous == NULL <==> i == 0)
      requires ptr != NULL && forall k :: 0 <= k < |free| ==> free[k].addr != ptr
      modifies this`word, this`hdr, this`free
      ensures Holds() && OnlyFirstWord() && free == Inserted(old(free), i, Block(ptr, size))
    {
      ghost var before, was, b := hdr, free, Block(ptr, size);
      hdr := hdr[ptr := Header(size, current)];
      if previous == NULL {
        SetFirstBlock(ptr);
      } else {
        assert LinkOk(before, was, i - 1);
        hdr := hdr[previous := hdr[previous].(next := ptr)];
      }
      InsertedIsLinked(before, hdr, was, i, b);
      free := Inserted(was, i, b);
    }

    /** coalesce */
    method Coalesce()
      requires Holds() && Sorted(free)
      modifies this`hdr, this`free
      ensures Holds() && free == Coalesced(old(free))
    {
      ghost var i := 0;
      assert free[0..] == free;
      var current := word[firstPage];
      while current != NULL
        invariant i <= |free| && current == HeadAt(free, i) && Sorted(free)
        invariant Holds()
        invariant Coalesced(old(free)) == CoalescedFrom(free, i)
        decreases |free| - i
      {
        var joined := JoinNext(current, i);
        if !joined {
          AdvanceCoalesced(free, i);
          assert LinkOk(hdr, free, i);
          current := hdr[current].next;
          i := i + 1;
        }
      }
      ListedIsNotNull(hdr, word[firstPage], free, i);
      assert CoalescedFrom(free, i) == free;
    }

    /** The block at `current` is joined with the next one if that starts where it
        ends, on the same page. */
    method JoinNext(current: int, ghost i: nat) returns (joined: bool)
      requires Holds() && Sorted(free) && current != NULL && current == HeadAt(free, i)
      modifies this`hdr, this`free
      ensures Holds() && i < |old(free)|
      ensures joined <==> i + 1 < |old(free)| && Mergeable(old(free)[i], old(free)[i + 1])
      ensures free == if joined then JoinedAt(old(free), i) else old(free)
      ensures Sorted(free) && CoalescedFrom(free, i) == CoalescedFrom(old(free), i)
    {
      ghost var before, was := hdr, free;
      ListedIsNotNull(hdr, word[firstPage], free, i + 1);
      assert LinkOk(hdr, free, i) && (i + 1 < |free| ==> LinkOk(hdr, free, i + 1));
      var next := hdr[current].next;
      joined := next != NULL && Base(current) == Base(next) && next - (current + hdr[current].size) == 0;
      if joined {
        hdr := hdr[current := hdr[current].(size := hdr[current].size + hdr[next].size)];
        hdr := hdr[current := hdr[current].(next := hdr[next].next)];
        JoinedIsLinked(before, hdr, was, i);
        JoinedCoalesces(was, i);
        free := JoinedAt(was, i);
      }
    }

    method ClearEmptyPages()
      requires Stored() && firstPage != NULL && Sorted(free) && Clearable(free, firstPage, pages.m.inUse)
      modifies this`firstPage, this`word, this`hdr, this`free, pages
      ensures Stored() && Abs() == ResourceMapModel.ClearEmptyPages(old(Abs()))
    {
      ghost var was, i, w := free, 0, WholePage(free);
      var current := word[firstPage];
      var previous := NULL;
      while current != NULL
        invariant i <= |was| && current == HeadAt(was, i) && previous == Before(was, i)
        invariant forall k :: i <= k < |was| ==> LinkOk(hdr, was, k)
        invariant Stored()
        invariant i <= w ==> Abs() == old(Abs())
        invariant w < i ==> Abs() == ResourceMapModel.ClearEmptyPages(old(Abs()))
        decreases |was| - i
      {
        assert LinkOk(hdr, was, i) && (i + 1 < |was| ==> LinkOk(hdr, was, i + 1));
        if hdr[current].size == R {
          var last := ReleasePage(current, previous, i);
          if last {
            return;
          }
          assert LinkOk(hdr, was, i);
        }
        previous := current;
        current := hdr[current].next;
        i := i + 1;
      }
      assert i == |was| by { assert i < |was| ==> LinkOk(hdr, was, i); }
    }

    /** What clear_empty_pages does with a block of size R. */
    method ReleasePage(current: int, previous: int, ghost i: nat) returns (last: bool)
      requires Stored() && firstPage != NULL && Sorted(free) && Clearable(free, firstPage, pages.m.inUse)
      requires i < |free| && free[i].size == R && current == free[i].addr && previous == Before(free, i)
      modifies this`firstPage, this`word, this`hdr, this`free, pages
      ensures Stored() && Abs() == ResourceMapModel.ClearEmptyPages(old(Abs()))
      ensures last <==> firstPage == NULL
      ensures forall k :: i <= k < |old(free)| ==> LinkOk(hdr, old(free), k)
    {
      assert LinkOk(hdr, free, i) && (i > 0 ==> LinkOk(hdr, free, i - 1));
      assert i == WholePage(free);
      var page := Base(current);
      assert page in pages.m.inUse;
      if page != firstPage && previous != NULL {
        ReleaseOther(current, previous, i);
        last := false;
      } else if page != firstPage && previous == NULL {
        // The first block is always on the first page.
        assert false;
      } else {
        last := ReleaseFirst(current);
      }
    }

    method ReleaseOther(current: int, previous: int, ghost i: nat)
      requires Stored() && firstPage != NULL && Sorted(free) && 0 < i < |free|
      requires current == free[i].addr && previous == free[i - 1].addr
      requires Base(current) in pages.m.inUse && Base(current) != firstPage
      modifies this`hdr, this`free, pages
      ensures Stored() && free == old(free)[..i] + old(free)[i + 1..]
      ensures pages.m == Release(old(pages.m), Base(current))
      ensures forall k :: i <= k < |old(free)| ==> LinkOk(hdr, old(free), k)
    {
      ghost var was, inUse := free, pages.m.inUse;
      assert LinkOk(hdr, free, i) && LinkOk(hdr, free, i - 1);
      ReleaseKeepsPool(pages.m, Base(current));
      hdr := hdr[previous := hdr[previous].(next := hdr[current].next)];
      pages.FreePage(word[Base(current)]);
      free := free[..i] + free[i + 1..];
      RemovedIsLinked(old(hdr), hdr, was, i);
    }

    method ReleaseFirst(current: int) returns (last: bool)
      requires Stored() && firstPage != NULL && Clearable(free, firstPage, pages.m.inUse)
      requires free[0].size == R && current == free[0].addr
      modifies this`firstPage, this`word, this`free, pages
      ensures Stored() && free == old(free)[1..]
      ensures pages.m == Release(old(pages.m), old(firstPage))
      ensures last <==> |old(free)| == 1
      ensures firstPage == if last then NULL else Base(old(free)[1].addr)
    {
      assert LinkOk(hdr, free, 0) && (1 < |free| ==> LinkOk(hdr, free, 1));
      ReleaseKeepsPool(pages.m, firstPage);
      if hdr[current].next != NULL {
        var temp := firstPage;
        var next := hdr[current].next;
        assert Base(next) in pages.m.inUse && Base(next) != firstPage;
        InUseIsAligned(pages.m, Base(next));
        firstPage := word[Base(next)];
        SetFirstBlock(next);
        pages.FreePage(temp);
        last := false;
      } else {
        pages.FreePage(firstPage);
        firstPage := NULL;
        last := true;
      }
      free := free[1..];
      forall k | 0 <= k < |free| ensures LinkOk(hdr, free, k) {
        assert LinkOk(old(hdr), old(free), k + 1);
      }
    }
  }

  /** Memory in which only the predecessor of block `i` was written. */
  lemma RemovedIsLinked(before: map<int, Header>, hdr: map<int, Header>, free: seq<Block>, i: nat)
    requires Sorted(free) && 0 < i < |free|
    requires forall k :: 0 <= k < |free| ==> LinkOk(before, free, k)
    requires hdr == before[free[i - 1].addr := Header(free[i - 1].size, HeadAt(free, i + 1))]
    ensures Linked(hdr, HeadAt(free, 0), free[..i] + free[i + 1..])
    ensures forall k :: i <= k < |free| ==> LinkOk(hdr, free, k)
  {
    var after := free[..i] + free[i + 1..];
    forall k | 0 <= k < |free| && k != i - 1 ensures LinkOk(hdr, free, k) {
      assert LinkOk(before, free, k);
      assert if k < i - 1 then free[k].addr < free[i - 1].addr else free[i - 1].addr < free[k].addr;
    }
    assert LinkOk(before, free, i - 1);
    forall k | 0 <= k < |after| ensures LinkOk(hdr, after, k) {
      if k < i - 1 {
        assert LinkOk(hdr, free, k);
      } else if k >= i {
        assert after[k] == free[k + 1] && LinkOk(hdr, free, k + 1);
        assert k + 1 < |after| ==> after[k + 1] == free[k + 2];
      }
    }
  }

  lemma ReadyToFree(s: Rm, live: set<Block>, b: Block)
    requires Inv(s, live) && b in live
    ensures s.first != NULL && b.addr != NULL && Above(s.free, b.addr) < |s.free|
    ensures Sorted(s.free) && forall k :: 0 <= k < |s.free| ==> s.free[k].addr != b.addr
    ensures Sorted(Returned(s.free, b)) && Sorted(Coalesced(Returned(s.free, b)))
    ensures Clearable(Coalesced(Returned(s.free, b)), s.first, s.pool.inUse)
  {
    var pages := s.pool.inUse;
    var all := Members(s.free) + live;
    ReturnFindsItsPage(pages, s.free, live, b);
    assert b in all && Fits(b, pages);
    forall k | 0 <= k < |s.free| ensures s.free[k].addr != b.addr {
      assert s.free[k] in Members(s.free) && s.free[k] in all && !Overlap(s.free[k], b) && Fits(s.free[k], pages);
    }
    CoalescedKeeps(s, live, b);
    var free := Coalesced(Returned(s.free, b));
    HeadIsOnFirst(pages, free, live - {b}, s.first);
    forall i | 0 <= i < |free| ensures Base(free[i].addr) in pages {
      OnItsPage(pages, free, live - {b}, i);
    }
    forall i, j | 0 <= i < |free| && 0 <= j < |free| && i != j && free[i].size == R
      ensures free[j].size != R && Base(free[i].addr) != Base(free[j].addr)
    {
      WholeIsAlone(pages, free, live - {b}, Base(b.addr), i, j);
    }
  }

  lemma WholeIsAlone(pages: set<int>, free: seq<Block>, live: set<Block>, p: int, i: nat, j: nat)
    requires Shares(pages, free, live) && Merged(free)
    requires forall q {:trigger HoldsLive(live, q)} :: q in pages && q != p ==> HoldsLive(live, q)
    requires i < |free| && j < |free| && i != j && free[i].size == R
    ensures free[j].size != R && Base(free[i].addr) != Base(free[j].addr)
  {
    var all := Members(free) + live;
    assert free[i] in all && free[j] in all;
    if free[i] == free[j] { Positions(free, i, j); }
    DropPageKeepsTiles(pages, all, free[i]);
    OnItsPage(pages, free, live, i);
    OnItsPage(pages, free, live, j);
    WholeMeansNoLive(pages, free, live, Base(free[i].addr));
    if free[j].size == R {
      DropPageKeepsTiles(pages, all, free[j]);
      WholeMeansNoLive(pages, free, live, Base(free[j].addr));
    }
  }

  /** At most one block spans its page, and if that is the first page it is the
      first block. */
  ghost predicate Clearable(free: seq<Block>, first: int, pages: set<int>) {
    && free != [] && Base(free[0].addr) == first
    && (forall i :: 0 <= i < |free| ==> Base(free[i].addr) in pages)
    && (forall i, j :: 0 <= i < j < |free| && free[i].size == R ==>
          free[j].size != R && Base(free[i].addr) != Base(free[j].addr))
    && (forall i :: 0 < i < |free| && free[i].size == R ==> Base(free[i].addr) != first)
  }

  /** Blocks `i` and `i + 1` joined. */
  function JoinedAt(free: seq<Block>, i: nat): seq<Block>
    requires i + 1 < |free|
  {
    free[..i] + [Block(free[i].addr, free[i].size + free[i + 1].size)] + free[i + 2..]
  }

  /** The list once coalesce is through with the blocks behind the first `i`. */
  function CoalescedFrom(free: seq<Block>, i: nat): seq<Block>
    requires i <= |free|
  {
    free[..i] + Coalesced(free[i..])
  }

  /** Memory in which only the header of block `i` was written. */
  lemma JoinedIsLinked(before: map<int, Header>, hdr: map<int, Header>, free: seq<Block>, i: nat)
    requires i + 1 < |free| && Sorted(free)
    requires forall k :: 0 <= k < |free| ==> LinkOk(before, free, k)
    requires hdr == before[free[i].addr := Header(free[i].size + free[i + 1].size, HeadAt(free, i + 2))]
    ensures Linked(hdr, HeadAt(free, 0), JoinedAt(free, i))
  {
    var after := JoinedAt(free, i);
    forall k | 0 <= k < |after| ensures LinkOk(hdr, after, k) {
      JoinedLink(before, hdr, free, i, k);
    }
  }

  lemma JoinedLink(before: map<int, Header>, hdr: map<int, Header>, free: seq<Block>, i: nat, k: nat)
    requires i + 1 < |free| && Sorted(free) && k + 1 < |free|
    requires forall n :: 0 <= n < |free| ==> LinkOk(before, free, n)
    requires hdr == before[free[i].addr := Header(free[i].size + free[i + 1].size, HeadAt(free, i + 2))]
    ensures LinkOk(hdr, JoinedAt(free, i), k)
  {
    var after := JoinedAt(free, i);
    if k <= i {
      assert LinkOk(before, free, k) && after[k].addr == free[k].addr;
      assert HeadAt(after, k + 1) == if k < i then free[k + 1].addr else HeadAt(free, i + 2);
      assert k < i ==> after[k] == free[k] && free[k].addr < free[i].addr;
    } else {
      assert LinkOk(before, free, k + 1) && after[k] == free[k + 1];
      assert HeadAt(after, k + 1) == HeadAt(free, k + 2) && free[i].addr < free[k + 1].addr;
    }
  }

  lemma JoinedCoalesces(free: seq<Block>, i: nat)
    requires i + 1 < |free| && Sorted(free) && Mergeable(free[i], free[i + 1])
    ensures CoalescedFrom(JoinedAt(free, i), i) == CoalescedFrom(free, i) && Sorted(JoinedAt(free, i))
  {
    var rest, after := free[i..], JoinedAt(free, i);
    assert rest[0] == free[i] && rest[1] == free[i + 1] && rest[2..] == free[i + 2..];
    assert after[i..] == [after[i]] + free[i + 2..] && after[..i] == free[..i];
  }

  lemma AdvanceCoalesced(free: seq<Block>, i: nat)
    requires i < |free| && (i + 1 < |free| ==> !Mergeable(free[i], free[i + 1]))
    ensures CoalescedFrom(free, i) == CoalescedFrom(free, i + 1)
  {
    var rest := free[i..];
    assert rest[0] == free[i] && rest[1..] == free[i + 1..];
    assert i + 1 < |free| ==> rest[1] == free[i + 1];
    assert Coalesced(rest) == [free[i]] + Coalesced(free[i + 1..]);
    assert free[..i + 1] == free[..i] + [free[i]];
  }

  lemma OtherHeadersLinked(before: map<int, Header>, hdr: map<int, Header>, free: seq<Block>, header: int)
    requires Linked(before, HeadAt(free, 0), free) && forall k :: 0 <= k < |free| ==> free[k].addr != header
    requires forall a :: a in before && a != header ==> a in hdr && hdr[a] == before[a]
    ensures Linked(hdr, HeadAt(free, 0), free)
  {
    forall k | 0 <= k < |free| ensures LinkOk(hdr, free, k) {
      assert LinkOk(before, free, k);
    }
  }

  /** Free blocks in order and apart. */
  ghost predicate Apart(free: seq<Block>) {
    && (forall i :: 0 <= i < |free| ==> free[i].addr > 0 && H <= free[i].size <= R)
    && (forall i, j :: 0 <= i < j < |free| ==> free[i].End() <= free[j].addr)
  }

  /** They lie on pages in use. */
  ghost predicate Spaced(free: seq<Block>, pages: set<int>) {
    Apart(free) && forall i :: 0 <= i < |free| ==> Base(free[i].addr) in pages
  }

  lemma SharesSpaced(pages: set<int>, free: seq<Block>, live: set<Block>)
    requires Shares(pages, free, live)
    ensures Spaced(free, pages)
  {
    forall i | 0 <= i < |free| ensures free[i].addr > 0 && H <= free[i].size <= R && Base(free[i].addr) in pages {
      OnItsPage(pages, free, live, i);
      assert free[i] in Members(free) + live && Fits(free[i], pages);
    }
    forall i, j | 0 <= i < j < |free| ensures free[i].End() <= free[j].addr {
      InOrder(pages, free, live, i, j);
    }
  }

  lemma HeaderIsApart(free: seq<Block>, pages: set<int>, page: int, header: int)
    requires Spaced(free, pages) && page !in pages && page % 8192 == 0 && page <= header < page + PAGESIZE
    ensures forall k :: 0 <= k < |free| ==> free[k].addr != header
    ensures Sorted(free)
  {
    BaseIs(page, header);
  }

  /** Memory in which only the carved block's rest and its predecessor were written. */
  lemma CarvedIsLinked(before: map<int, Header>, hdr: map<int, Header>, free: seq<Block>, i: nat, size: int)
    requires Apart(free) && i < |free| && 0 <= size && size + H <= free[i].size
    requires forall k :: 0 <= k < |free| ==> LinkOk(before, free, k)
    requires var rest := Carved(free, i, size)[i];
             && rest.addr in hdr && hdr[rest.addr] == Header(rest.size, HeadAt(free, i + 1))
             && (i > 0 ==> free[i - 1].addr in hdr && hdr[free[i - 1].addr] == Header(free[i - 1].size, rest.addr))
             && forall a :: a in before && a != rest.addr && a != Before(free, i) ==> a in hdr && hdr[a] == before[a]
    ensures Linked(hdr, HeadAt(Carved(free, i, size), 0), Carved(free, i, size))
  {
    var after := Carved(free, i, size);
    forall k | 0 <= k < |after| ensures LinkOk(hdr, after, k) {
      assert LinkOk(before, free, k);
      if k < i {
        assert free[k].End() <= free[i].addr;
      } else if i < k {
        assert free[i].End() <= free[k].addr;
      }
      if 0 < i && k < i - 1 {
        assert free[k].End() <= free[i - 1].addr;
      } else if 0 < i && i - 1 < k {
        assert free[i - 1].End() <= free[k].addr;
      }
    }
  }

  /** Memory in which only block `i - 1` and the new header were written. */
  lemma InsertedIsLinked(before: map<int, Header>, hdr: map<int, Header>, free: seq<Block>, i: nat, b: Block)
    requires Sorted(free) && i <= |free| && b.addr != NULL
    requires forall k :: 0 <= k < |free| ==> LinkOk(before, free, k) && free[k].addr != b.addr
    requires forall a :: a in before && a != b.addr && a != Before(free, i) ==> a in hdr && hdr[a] == before[a]
    requires i > 0 ==> free[i - 1].addr in hdr && hdr[free[i - 1].addr] == Header(free[i - 1].size, b.addr)
    requires b.addr in hdr && hdr[b.addr] == Header(b.size, HeadAt(free, i))
    ensures Linked(hdr, HeadAt(Inserted(free, i, b), 0), Inserted(free, i, b))
  {
    var after := Inserted(free, i, b);
    forall k | 0 <= k < |free| && k != i - 1 ensures free[k].addr != Before(free, i) {
      assert LinkOk(before, free, k);
      if 0 < i {
        assert if k < i - 1 then free[k].addr < free[i - 1].addr else free[i - 1].addr < free[k].addr;
      }
    }
    forall k | 0 <= k < |after| ensures LinkOk(hdr, after, k) {
      if k < i {
        assert after[k] == free[k] && LinkOk(before, free, k);
      } else if k > i {
        assert after[k] == free[k - 1] && LinkOk(before, free, k - 1);
        assert k + 1 < |after| ==> after[k + 1] == free[k];
      }
    }
  }
}
