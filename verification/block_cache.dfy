/** Address arithmetic of the loader's read cache: the cache size openFile chooses and the
    block base `pos & ~(cacheSize - 1)`, for any cache size. */
module BlockCache {
  import opened Basics

  /** Bitwise conjunction of two unsigned words. */
  function BitAnd(a: nat, b: nat): (r: nat)
    ensures r <= a && r <= b
  {
    if a == 0 || b == 0 then 0
    else 2 * BitAnd(a / 2, b / 2) + (if a % 2 == 1 && b % 2 == 1 then 1 else 0)
  }

  /** `pos & ~(cacheSize - 1)`: clearing the bits of a mask subtracts the bits that were set. */
  function BasePos(pos: nat, cacheSize: nat): (base: nat)
    requires cacheSize > 0
    ensures base <= pos < base + cacheSize
  {
    pos - BitAnd(pos, cacheSize - 1)
  }

  /** `std::min(32768, std::max(file_size / 20, 8192)) & ~0x1FFF` */
  function CacheSizeFor(fileSize: nat): nat {
    var n := if fileSize / 20 > 8192 then fileSize / 20 else 8192;
    var m := if n < 32768 then n else 32768;
    m - m % 0x2000
  }

  /** Four sizes are possible, and one of them is not a power of two. */
  lemma CacheSizes(fileSize: nat)
    ensures CacheSizeFor(fileSize) in {8192, 16384, 24576, 32768}
    ensures CacheSizeFor(fileSize) == 24576 <==> 491520 <= fileSize < 655360
  {
  }

  function Pow2(k: nat): (r: nat)
    ensures r > 0
  {
    if k == 0 then 1 else 2 * Pow2(k - 1)
  }

  /** The word `c` followed by `k` one bits. */
  function Mask(c: nat, k: nat): nat {
    if k == 0 then c else 2 * Mask(c, k - 1) + 1
  }

  function Whole(a: nat, m: nat): nat
    requires m > 0
  {
    a / m
  }

  /** A mask whose k low bits are all set splits off the remainder by 2^k. */
  lemma {:induction false} BitAndMask(a: nat, c: nat, k: nat)
    ensures BitAnd(a, Mask(c, k)) == Pow2(k) * BitAnd(Whole(a, Pow2(k)), c) + a % Pow2(k)
  {
    if k == 0 {
    } else {
      var m := Pow2(k - 1);
      BitAndMask(a / 2, c, k - 1);
      HalfDivMod(a, m);
      Double(m, BitAnd(Whole(a, Pow2(k)), c));
      BitAndOdd(a, Mask(c, k - 1));
    }
  }

  lemma Double(m: nat, x: nat)
    ensures 2 * (m * x) == (2 * m) * x
  {
  }

  lemma BitAndOdd(a: nat, b: nat)
    ensures BitAnd(a, 2 * b + 1) == 2 * BitAnd(a / 2, b) + a % 2
  {
  }

  lemma HalfDivMod(a: nat, m: nat)
    requires m > 0
    ensures a / 2 / m == a / (2 * m)
    ensures a % (2 * m) == 2 * ((a / 2) % m) + a % 2
  {
    var q, r := a / 2 / m, (a / 2) % m;
    assert a == 2 * (m * q + r) + a % 2;
    assert a == q * (2 * m) + (2 * r + a % 2);
    DivMod(a, 2 * m, q, 2 * r + a % 2);
  }

  /** For a power of two the base is the multiple of the size below the position. */
  lemma PowerOfTwoBase(pos: nat, k: nat)
    ensures BasePos(pos, Pow2(k)) == pos - pos % Pow2(k)
  {
    MaskOfOnes(k);
    BitAndMask(pos, 0, k);
    assert BitAnd(Whole(pos, Pow2(k)), 0) == 0;
  }

  lemma {:induction k} MaskOfOnes(k: nat)
    ensures Mask(0, k) == Pow2(k) - 1
  {
  }

  /** For 24576 = 3 * 2^13 the mask keeps bit 13, so bases are 0 or 8192 above a multiple of 32768
      and the two blocks of such a pair share two thirds of their bytes. */
  lemma OddSizeBase(pos: nat)
    ensures BasePos(pos, 24576) == pos - pos % 8192 - (if (pos / 8192) % 4 >= 2 then 16384 else 0)
    ensures BasePos(pos, 24576) % 32768 in {0, 8192}
  {
    OddMask();
    BitAndMask(pos, 2, 13);
    BitAndTwo(pos / 8192);
    OddRemainder(pos);
  }

  lemma OddMask()
    ensures Pow2(13) == 8192 && Mask(2, 13) == 24575
  {
    assert Mask(2, 3) == 23 && Pow2(3) == 8;
    assert Mask(2, 6) == 191 && Pow2(6) == 64;
    assert Mask(2, 9) == 1535 && Pow2(9) == 512;
  }

  lemma OddRemainder(pos: nat)
    ensures var base := pos - pos % 8192 - (if (pos / 8192) % 4 >= 2 then 16384 else 0);
            base % 32768 in {0, 8192}
  {
    var x := pos / 8192;
    assert pos == 8192 * x + pos % 8192;
    assert x == 4 * (x / 4) + x % 4;
  }

  lemma BitAndTwo(x: nat)
    ensures BitAnd(x, 2) == if x % 4 >= 2 then 2 else 0
  {
    assert x / 2 == 0 || BitAnd(x / 2, 1) == 2 * BitAnd(x / 2 / 2, 0) + (x / 2) % 2;
  }
}
