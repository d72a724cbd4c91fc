/** The arithmetic of kma_bud.c: rounding to a power of two, the nine block
    classes, and the address of a block's buddy. Class `k` holds blocks of
    32 * 2^k bytes. */
module BuddyArithmetic {
  const LAST := 8   // the class of a whole page

  function Size(k: int): int {
    if k <= 0 then 32 else if k == 1 then 64 else if k == 2 then 128
    else if k == 3 then 256 else if k == 4 then 512 else if k == 5 then 1024
    else if k == 6 then 2048 else if k == 7 then 4096 else 8192
  }

  /** get_required_buffer: which list serves a size. */
  function Class(size: int): (k: nat)
    ensures k <= LAST
    ensures size <= 8192 ==> size <= Size(k)
    ensures k > 0 ==> Size(k - 1) < size
  {
    if size <= 32 then 0 else if size <= 64 then 1 else if size <= 128 then 2
    else if size <= 256 then 3 else if size <= 512 then 4 else if size <= 1024 then 5
    else if size <= 2048 then 6 else if size <= 4096 then 7 else 8
  }

  /** round_up behind its first decrement; the last comparison is signed. */
  function RoundUpBits(x: bv32): bv32 {
    var x := x | (x >> 1);
    var x := x | (x >> 2);
    var x := x | (x >> 4);
    var x := x | (x >> 8);
    var x := x | (x >> 16);
    var x := x + 1;
    if x < 32 || x >= 0x8000_0000 then 32 else x
  }

  /** round_up; a negative number has the bits of its two's complement. */
  function RoundUp(x: int): int
    requires -0x8000_0000 < x < 0x8000_0000
  {
    RoundUpBits((if x > 0 then x - 1 else x - 1 + 0x1_0000_0000) as bv32) as int
  }

  /** The result is the least power of two that is above x - 1 and at least 32. */
  lemma RoundUpIsLeastPower(y: bv32, p: bv32)
    requires y < 0x4000_0000
    ensures var r := RoundUpBits(y); r & (r - 1) == 0 && r > y && r >= 32
    ensures p & (p - 1) == 0 && p > y && p >= 32 ==> p >= RoundUpBits(y)
  {
    var r := RoundUpBits(y);
    assert r & (r - 1) == 0 && (r == 32 || r >> 1 <= y);
    assert p & (p - 1) == 0 && 32 <= p < r ==> p <= r >> 1;
  }

  // ----- numbers and their bits

  lemma ShiftDoubles(h: bv32)
    requires h < 0x8000_0000
    ensures (h << 1) as int == 2 * (h as int) && ((h << 1) | 1 as bv32) as int == 2 * (h as int) + 1
  {
  }

  lemma TopBit(b: bv32)
    ensures b < 0x8000_0000 <==> (b as int) < 0x8000_0000
  {
    if b < 0x8000_0000 { ShiftDoubles(b); }
  }

  /** Every 32-bit number has its bits. */
  lemma {:induction false} BitsOf(x: nat) returns (b: bv32)
    requires x < 0x1_0000_0000
    ensures b as int == x
  {
    if x == 0 {
      b := 0;
    } else {
      var h := BitsOf(x / 2);
      TopBit(h);
      ShiftDoubles(h);
      b := if x % 2 == 1 then (h << 1) | 1 else h << 1;
    }
  }

  lemma ThereAndBack(x: nat)
    requires x < 0x1_0000_0000
    ensures (x as bv32) as int == x
  {
    var b := BitsOf(x);
    assert (b as int) as bv32 == b;
  }

  /** Bits and numbers compare alike with the powers of two up to a page. */
  lemma SmallPowers(b: bv32)
    ensures b < 32 <==> (b as int) < 32
    ensures b < 64 <==> (b as int) < 64
    ensures b < 128 <==> (b as int) < 128
    ensures b < 256 <==> (b as int) < 256
    ensures b < 512 <==> (b as int) < 512
  {
  }

  lemma LargePowers(b: bv32)
    ensures b < 1024 <==> (b as int) < 1024
    ensures b < 2048 <==> (b as int) < 2048
  {
  }

  lemma Below4096(b: bv32)
    ensures b < 4096 <==> (b as int) < 4096
  {
  }

  lemma Below8192(b: bv32)
    ensures b < 8192 <==> (b as int) < 8192
  {
  }

  /** Between two powers of two rounding gives the upper one. */
  lemma RoundUpBetween(b: bv32)
    ensures b < 32 || b >= 0x8000_0000 ==> RoundUpBits(b) == 32
    ensures 32 <= b < 64 ==> RoundUpBits(b) == 64
    ensures 64 <= b < 128 ==> RoundUpBits(b) == 128
    ensures 128 <= b < 256 ==> RoundUpBits(b) == 256
    ensures 256 <= b < 512 ==> RoundUpBits(b) == 512
    ensures 512 <= b < 1024 ==> RoundUpBits(b) == 1024
    ensures 1024 <= b < 2048 ==> RoundUpBits(b) == 2048
    ensures 2048 <= b < 4096 ==> RoundUpBits(b) == 4096
    ensures 4096 <= b < 8192 ==> RoundUpBits(b) == 8192
  {
  }

  /** Up to a page, rounding picks the class that get_required_buffer picks. */
  lemma RoundUpIsClass(x: int)
    requires -0x8000_0000 < x <= 8192
    ensures RoundUp(x) == Size(Class(x))
  {
    var y := if x > 0 then x - 1 else x - 1 + 0x1_0000_0000;
    var b := y as bv32;
    ThereAndBack(y);
    TopBit(b);
    SmallPowers(b);
    LargePowers(b);
    Below4096(b);
    Below8192(b);
    RoundUpBetween(b);
  }

  /** `off` is a multiple of the size of class `k`. */
  predicate Aligned(k: int, off: int) {
    off % Size(k) == 0
  }

  /** get_buddy, by the parity of the block's index on its page. */
  function BuddyOf(k: int, a: int): int {
    if a % 8192 / Size(k) % 2 == 1 then a - Size(k) else a + Size(k)
  }

  lemma Multiple(s: int, q: int)
    requires s > 0
    ensures s * q % s == 0 && s * q / s == q
  {
    var d, r := s * q / s, s * q % s;
    assert s * q == s * d + r;
    assert s * (q - d) == r;
    assert q - d >= 1 ==> s * (q - d) >= s;
    assert q - d <= -1 ==> s * (q - d) <= -s;
  }

  lemma EvenMultiple(s: int, q: int)
    requires s > 0
    ensures s * (2 * q) % s == 0 && s * (2 * q) / s % 2 == 0
  {
    Multiple(s, 2 * q);
  }

  lemma OddMultiple(s: int, q: int)
    requires s > 0
    ensures s * (2 * q + 1) % s == 0 && s * (2 * q + 1) / s % 2 == 1
  {
    Multiple(s, 2 * q + 1);
  }

  /** Halves of a block of class `k` at offset `off`: one even, one odd. */
  lemma Halves(k: int, off: int)
    requires 0 < k <= LAST && Aligned(k, off)
    ensures Size(k) == 2 * Size(k - 1)
    ensures Aligned(k - 1, off) && Aligned(k - 1, off + Size(k - 1))
    ensures off / Size(k - 1) % 2 == 0 && (off + Size(k - 1)) / Size(k - 1) % 2 == 1
  {
    var s, q := Size(k - 1), off / Size(k);
    assert off == s * (2 * q) && off + s == s * (2 * q + 1);
    EvenMultiple(s, q);
    OddMultiple(s, q);
  }

  /** A block with an even index is the left half of an aligned block. */
  lemma EvenIsAligned(k: int, off: int)
    requires 0 <= k < LAST && Aligned(k, off)
    ensures off / Size(k) % 2 == 0 <==> Aligned(k + 1, off)
  {
    var s, q := Size(k), off / Size(k);
    assert off == s * q && Size(k + 1) == 2 * s;
    if q % 2 == 0 {
      assert off == 2 * s * (q / 2);
      Multiple(2 * s, q / 2);
    } else {
      if Aligned(k + 1, off) { Halves(k + 1, off); }
    }
  }

  /** Any other block is the right half of one. */
  lemma OddIsRightHalf(k: int, off: int)
    requires 0 <= k < LAST && Aligned(k, off) && !Aligned(k + 1, off) && off >= 0
    ensures Aligned(k + 1, off - Size(k)) && off >= Size(k)
  {
    var s, q := Size(k), off / Size(k);
    EvenIsAligned(k, off);
    assert off - s == 2 * s * ((q - 1) / 2);
    Multiple(2 * s, (q - 1) / 2);
  }

  lemma AlignedBelow(j: int, k: int, off: int)
    requires 0 <= j <= k <= LAST && Aligned(k, off)
    ensures Aligned(j, off) && Size(j) <= Size(k)
    decreases k - j
  {
    if j < k {
      Halves(k, off);
      AlignedBelow(j, k - 1, off);
    }
  }

  /** An aligned block that starts on a page ends on it. */
  lemma EndsOnPage(k: int, off: int)
    requires 0 <= k <= LAST && Aligned(k, off) && 0 <= off < 8192
    ensures off + Size(k) <= 8192
  {
    var s, q, n := Size(k), off / Size(k), 8192 / Size(k);
    assert off == s * q;
    assert s * n == 8192 by { SizeDividesPage(k); }
    assert q >= n ==> s * q >= s * n;
    assert s * (q + 1) <= s * n;
  }

  lemma SizeDividesPage(k: int)
    ensures Size(k) * (8192 / Size(k)) == 8192
  {
  }

  lemma OnSamePage(a: int, s: int)
    requires a >= 0 && s >= 0 && a % 8192 + s < 8192
    ensures (a + s) % 8192 == a % 8192 + s && (a + s) / 8192 == a / 8192
  {
  }

  /** The halves made by a split are each other's buddies. */
  lemma HalvesAreBuddies(k: int, a: int)
    requires 0 < k <= LAST && a >= 0 && Aligned(k, a % 8192)
    ensures BuddyOf(k - 1, a) == a + Size(k - 1) && BuddyOf(k - 1, a + Size(k - 1)) == a
    ensures (a + Size(k - 1)) % 8192 == a % 8192 + Size(k - 1) && (a + Size(k - 1)) / 8192 == a / 8192
    ensures Aligned(k - 1, a % 8192) && Aligned(k - 1, (a + Size(k - 1)) % 8192)
  {
    Halves(k, a % 8192);
    EndsOnPage(k, a % 8192);
    OnSamePage(a, Size(k - 1));
  }

  /** A block whose buddy is to its right is the left half of an aligned block:
      merging the two restores the parent. */
  lemma RightBuddy(k: int, a: int)
    requires 0 <= k < LAST && a >= 0 && Aligned(k, a % 8192)
    ensures BuddyOf(k, a) > a <==> Aligned(k + 1, a % 8192)
    ensures Size(k + 1) == 2 * Size(k)
  {
    EvenIsAligned(k, a % 8192);
  }

  lemma BackOnPage(a: int, s: int)
    requires a >= 0 && 0 <= s <= a % 8192
    ensures (a - s) % 8192 == a % 8192 - s && a >= s
  {
  }

  lemma RightHalf(k: int, a: int)
    requires 0 <= k < LAST && a >= 0 && Aligned(k, a % 8192) && !Aligned(k + 1, a % 8192)
    ensures BuddyOf(k, a) == a - Size(k) && a >= Size(k)
    ensures Aligned(k + 1, (a - Size(k)) % 8192)
  {
    RightBuddy(k, a);
    OddIsRightHalf(k, a % 8192);
    BackOnPage(a, Size(k));
  }

  /** Merging undoes splitting: a block and its buddy are the halves of one block of
      the next class, aligned to its own size. */
  lemma MergeRestoresParent(k: int, a: int)
    requires 0 <= k < LAST && a >= 0 && Aligned(k, a % 8192)
    ensures var left := if BuddyOf(k, a) < a then BuddyOf(k, a) else a;
            && left >= 0 && Aligned(k + 1, left % 8192) && Size(k + 1) == 2 * Size(k)
            && {a, BuddyOf(k, a)} == {left, left + Size(k)}
  {
    RightBuddy(k, a);
    if !Aligned(k + 1, a % 8192) { RightHalf(k, a); }
  }

  /** Below a whole page the buddy relation is symmetric, stays on the page and
      keeps the alignment. */
  lemma BuddyIsInvolution(k: int, a: int)
    requires 0 <= k < LAST && a >= 0 && Aligned(k, a % 8192)
    ensures Aligned(k, BuddyOf(k, a) % 8192) && BuddyOf(k, BuddyOf(k, a)) == a
    ensures BuddyOf(k, a) / 8192 == a / 8192
  {
    if Aligned(k + 1, a % 8192) {
      HalvesAreBuddies(k + 1, a);
    } else {
      RightHalf(k, a);
      HalvesAreBuddies(k + 1, a - Size(k));
    }
  }
}
