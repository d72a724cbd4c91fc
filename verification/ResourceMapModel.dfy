/** The resource-map allocator of kma_rm.c on values: one list of free blocks,
    sorted by address, over all pages in use.

    A page at `p` starts with one machine word; its usable bytes are
    [p + W, p + W + R). The client's live blocks appear only in the invariant:
    the program keeps no record of them. */
module ResourceMapModel {
  import opened Wrappers
  import opened PagePools

  const H := 8                  // sizeof(blockheaderT) with 32-bit pointers
  const W := 4                  // sizeof(void*)
  const R := PAGESIZE - H       // REAL_PAGE_SIZE

  datatype Block = Block(addr: int, size: int) {
    function End(): int { addr + size }
  }

  /** `first` is the base of first_page, or NULL. */
  datatype Rm = Rm(first: int, free: seq<Block>, pool: Pool)

  const EMPTY := Rm(NULL, [], EMPTY_POOL)

  /** Faulted is the store through the NULL `previous_block` in new_page; Spilled
      the write of a header across the end of a new page; Exhausted the call of
      error() in the page allocator. */
  datatype Outcome = Granted(state: Rm, ptr: int) | Refused(state: Rm) | Faulted | Spilled | Exhausted

  // ----- what the operations do

  /** The first block that leaves room for a header behind the request; a block
      of exactly the requested size is passed over. */
  function FirstFit(free: seq<Block>, size: int): (i: nat)
    ensures i <= |free|
    ensures forall j :: 0 <= j < i ==> free[j].size < size + H
    ensures i < |free| ==> free[i].size >= size + H
  {
    if free == [] || free[0].size >= size + H then 0
    else FirstFit(free[1..], size) + 1
  }

  /** The first block above address `a`. */
  function Above(free: seq<Block>, a: int): (i: nat)
    ensures i <= |free|
    ensures forall j :: 0 <= j < i ==> free[j].addr <= a
    ensures i < |free| ==> free[i].addr > a
  {
    if free == [] || free[0].addr > a then 0 else Above(free[1..], a) + 1
  }

  function Inserted(free: seq<Block>, i: nat, b: Block): seq<Block>
    requires i <= |free|
  {
    free[..i] + [b] + free[i..]
  }

  function Malloc(s: Rm, size: int, arena: int): Outcome
  {
    if s.first == NULL then
      match Get(s.pool, arena)
      case None => Exhausted
      case Some((pool, p)) => Place(Rm(p, [Block(p + W, R)], pool), size, arena)
    else
      Place(s, size, arena)
  }

  function Place(s: Rm, size: int, arena: int): Outcome
  {
    if AsUnsigned(size) > R then Refused(s)
    else
      var i := FirstFit(s.free, size);
      if i < |s.free| then Granted(s.(free := Carved(s.free, i, size)), s.free[i].addr)
      else NewPage(s, size, arena)
  }

  /** The front of block `i` is given up. */
  function Carved(free: seq<Block>, i: nat, size: int): seq<Block>
    requires i < |free|
  {
    free[i := Block(free[i].addr + size, free[i].size - size)]
  }

  /** The rest of the new page is linked before the first block above it, or
      behind the last block; on an empty list it would not be linked at all. */
  function NewPage(s: Rm, size: int, arena: int): Outcome
  {
    match Get(s.pool, arena)
    case None => Exhausted
    case Some((pool, p)) =>
      var rest := Block(p + W + size, R - size);
      var i := Above(s.free, rest.addr);
      if rest.addr + H > p + PAGESIZE then Spilled
      else if s.free == [] then Granted(Rm(s.first, [], pool), p + W)
      else if i == 0 then Faulted
      else Granted(Rm(s.first, Inserted(s.free, i, rest), pool), p + W)
  }

  function Free(s: Rm, b: Block): Rm {
    ClearEmptyPages(s.(free := Coalesced(Returned(s.free, b))))
  }

  /** A block above every listed block is not linked at all. */
  function Returned(free: seq<Block>, b: Block): seq<Block> {
    var i := Above(free, b.addr);
    if i < |free| then Inserted(free, i, b) else free
  }

  predicate Mergeable(x: Block, y: Block) {
    Base(x.addr) == Base(y.addr) && y.addr == x.End()
  }

  function Coalesced(free: seq<Block>): seq<Block>
    decreases |free|
  {
    if |free| < 2 then free
    else if Mergeable(free[0], free[1]) then
      Coalesced([Block(free[0].addr, free[0].size + free[1].size)] + free[2..])
    else
      [free[0]] + Coalesced(free[1..])
  }

  /** The first block that spans its page. */
  function WholePage(free: seq<Block>): (i: nat)
    ensures i <= |free|
    ensures forall j :: 0 <= j < i ==> free[j].size != R
    ensures i < |free| ==> free[i].size == R
  {
    if free == [] || free[0].size == R then 0 else WholePage(free[1..]) + 1
  }

  function ClearEmptyPages(s: Rm): Rm {
    var i := WholePage(s.free);
    if i == |s.free| then s
    else
      var p := Base(s.free[i].addr);
      var first := if p != s.first then s.first
                   else if i + 1 < |s.free| then Base(s.free[i + 1].addr)
                   else NULL;
      Rm(first, s.free[..i] + s.free[i + 1..], Release(s.pool, p))
  }

  // ----- the invariant

  predicate Overlap(x: Block, y: Block) {
    x.addr < y.End() && y.addr < x.End()
  }

  /** `b` is large enough for a header and lies inside one page in use. */
  predicate Fits(b: Block, pages: set<int>) {
    var p := Base(b.addr);
    H <= b.size && p in pages && p + W <= b.addr && b.End() <= p + W + R
  }

  predicate Usable(p: int, a: int) {
    p + W <= a < p + W + R
  }

  ghost predicate Covered(blocks: set<Block>, a: int) {
    exists b :: b in blocks && b.addr <= a < b.End()
  }

  /** The blocks tile the usable bytes of the pages: each lies inside a page, no
      two overlap, and every usable byte is in one of them. */
  ghost predicate Tiles(pages: set<int>, blocks: set<Block>) {
    && (forall p :: p in pages ==> p % 8192 == 0 && p > 0)
    && (forall b :: b in blocks ==> Fits(b, pages))
    && (forall x, y {:trigger Overlap(x, y)} :: x in blocks && y in blocks && x != y ==> !Overlap(x, y))
    && (forall p, a :: p in pages && Usable(p, a) ==> Covered(blocks, a))
  }

  ghost predicate Sorted(free: seq<Block>) {
    forall i, j :: 0 <= i < j < |free| ==> free[i].addr < free[j].addr
  }

  ghost predicate Merged(free: seq<Block>) {
    forall i :: 0 <= i < |free| - 1 ==> !Mergeable(free[i], free[i + 1])
  }

  ghost function Members(free: seq<Block>): set<Block> {
    set b | b in free
  }

  /** A free block ends exactly where the usable bytes of page `p` end. */
  ghost predicate HasTail(free: seq<Block>, p: int) {
    exists b :: b in free && b.End() == p + W + R
  }

  ghost predicate HoldsLive(live: set<Block>, p: int) {
    exists b :: b in live && Base(b.addr) == p
  }

  /** The free list and the live blocks share out the pages. */
  ghost predicate Shares(pages: set<int>, free: seq<Block>, live: set<Block>) {
    && Sorted(free)
    && Members(free) !! live
    && Tiles(pages, Members(free) + live)
    && forall p {:trigger HasTail(free, p)} :: p in pages ==> HasTail(free, p)
  }

  ghost predicate Inv(s: Rm, live: set<Block>) {
    && PoolOk(s.pool)
    && Shares(s.pool.inUse, s.free, live)
    && Merged(s.free)
    && (s.first in s.pool.inUse || (s.first == NULL && s.pool.inUse == {}))
    && (forall p :: p in s.pool.inUse ==> s.first <= p)
    // A page without a live block is the only page, left by a refused first request.
    && (forall p {:trigger HoldsLive(live, p)} ::
          p in s.pool.inUse ==> HoldsLive(live, p) || (live == {} && p == s.first))
  }
}
