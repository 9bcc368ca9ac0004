/** The bitmaps of index nodes as the unsigned words they are: bit_count is the number of bits, and the index of a
    child the number of bits below its own (src/vm/seq.c). */
module HashBitmap {
  import opened Arithmetic
  import opened HashTrie

  // ---------------------------------------------------------------- bit_count

  lemma DivLess(x: nat, b: nat)
    requires b >= 2 && x > 0
    ensures x / b < x
  {
    var q := x / b;
    assert x == q * b + x % b;
    MulGrows(2, b, q);
    assert 2 * q <= q * b;
  }

  lemma DivTwice(x: nat, b: nat)
    requires b >= 2 && x > 0
    ensures x / b / b < x
  {
    DivLess(x, b);
    if x / b > 0 { DivLess(x / b, b); }
  }

  function Times(x: nat, m: nat): (r: nat)
    ensures r == x * m
  {
    MulGrows(0, x, m);
    x * m
  }

  /** The word under a mask that keeps the lower of each two digits to the base `b`: x & 0x55555555 for base 2,
      x & 0x33333333 for base 4, x & 0x0f0f0f0f for base 16, and so on. */
  function Low(x: nat, b: nat): nat
    requires b >= 2
    decreases x
  {
    if x == 0 then 0
    else
      DivTwice(x, b);
      x % b + Times(Low(x / b / b, b), b * b)
  }

  /** One line of bit_count: the two digits of each pair are added, in the place of the pair. */
  function Fold(x: nat, b: nat): nat
    requires b >= 2
  {
    Low(x, b) + Low(x / b, b)
  }

  /** bit_count: pairs of bits, then of two, four, eight and sixteen bits. */
  function BitCount(x: nat): nat {
    Fold(Fold(Fold(Fold(Fold(x, 2), 4), 16), 256), 0x1_0000)
  }

  function DigitSum(x: nat, b: nat): nat
    requires b >= 2
    decreases x
  {
    if x == 0 then 0
    else
      DivLess(x, b);
      x % b + DigitSum(x / b, b)
  }

  /** The lowest pair, and the pairs above it. */
  lemma FoldStep(x: nat, b: nat, bb: nat, y: nat, h: nat, d: nat, e: nat)
    requires b >= 2 && bb == b * b && y == x / b && h == y / b && d == x % b && e == y % b
    ensures Fold(x, b) == d + e + Fold(h, b) * bb && x == d + e * b + h * bb && d + e < bb
  {
    TwoDigits(x, b, bb, y, h, d, e);
    LowPair(x, y, b, bb, d, e, h);
    PairFits(d, e, b, bb);
  }

  lemma LowPair(x: nat, y: nat, b: nat, bb: nat, d: nat, e: nat, h: nat)
    requires b >= 2 && bb == b * b && y == x / b && h == y / b && d == x % b && e == y % b
    ensures Fold(x, b) == d + e + Fold(h, b) * bb
  {
    LowStep(x, b, bb, h, d);
    LowStep(y, b, bb, h / b, e);
    Gather(Low(h, b), Low(h / b, b), bb, Fold(h, b));
  }

  lemma Gather(p: nat, q: nat, m: nat, sum: nat)
    requires sum == p + q
    ensures p * m + q * m == sum * m
  {
    MulDistributes(p, q, m);
  }

  lemma PairFits(p: nat, q: nat, b: nat, bb: nat)
    requires p < b && q < b && b >= 2 && bb == b * b
    ensures p + q < bb
  {
    MulGrows(2, b, b);
  }

  lemma LowStep(x: nat, b: nat, bb: nat, h: nat, d: nat)
    requires b >= 2 && bb == b * b && h == x / b / b && d == x % b
    ensures Low(x, b) == d + Low(h, b) * bb
  {
    if x == 0 {
      DivUnique(0, b, 0, 0);
    }
  }

  lemma TwoDigits(x: nat, b: nat, bb: nat, y: nat, h: nat, d: nat, e: nat)
    requires b >= 2 && bb == b * b && y == x / b && h == y / b && d == x % b && e == y % b
    ensures x == d + e * b + h * bb
  {
    assert x == y * b + d && y == h * b + e;
    MulDistributes(h * b, e, b);
    assert h * b * b == h * bb;
  }

  lemma DigitStep(x: nat, b: nat, low: nat, high: nat)
    requires b >= 2 && low < b && x == low + high * b
    ensures DigitSum(x, b) == low + DigitSum(high, b)
  {
    DivUnique(x, b, high, low);
  }

  /** Adding pairs of digits keeps the sum of the digits. */
  lemma {:induction false} FoldKeeps(x: nat, b: nat, bb: nat)
    requires b >= 2 && bb >= 2 && bb == b * b
    ensures DigitSum(Fold(x, b), bb) == DigitSum(x, b)
    decreases x
  {
    if x > 0 {
      DivTwice(x, b);
      FoldKeeps(x / b / b, b, bb);
      PairKeeps(x, b, bb, x / b, x / b / b, x % b, x / b % b);
    } else {
      DivUnique(0, b, 0, 0);
    }
  }

  lemma PairKeeps(x: nat, b: nat, bb: nat, y: nat, h: nat, d: nat, e: nat)
    requires b >= 2 && bb >= 2 && bb == b * b && x > 0
    requires y == x / b && h == y / b && d == x % b && e == y % b
    requires DigitSum(Fold(h, b), bb) == DigitSum(h, b)
    ensures DigitSum(Fold(x, b), bb) == DigitSum(x, b)
  {
    FoldStep(x, b, bb, y, h, d, e);
    DigitStep(Fold(x, b), bb, d + e, Fold(h, b));
    TwoSummed(x, b, y, h, d, e);
  }

  lemma TwoSummed(x: nat, b: nat, y: nat, h: nat, d: nat, e: nat)
    requires b >= 2 && x > 0 && y == x / b && h == y / b && d == x % b && e == y % b
    ensures DigitSum(x, b) == d + e + DigitSum(h, b)
  {
    if y == 0 { DivUnique(0, b, 0, 0); }
  }

  lemma {:induction false} FoldLess(x: nat, b: nat)
    requires b >= 2
    ensures Fold(x, b) <= x
    decreases x
  {
    if x > 0 {
      var y, d := x / b, x % b;
      var h, e := y / b, y % b;
      DivTwice(x, b);
      FoldStep(x, b, b * b, y, h, d, e);
      FoldLess(h, b);
      MulGrows(Fold(h, b), h, b * b);
      MulGrows(1, b, e);
    }
  }

  // ---------------------------------------------------------------- the set of bits

  /** The positions of the bits that are set, counted from `from`. */
  function BitsFrom(x: nat, from: nat): set<nat> {
    if x == 0 then {} else (if x % 2 == 1 then {from} else {}) + BitsFrom(x / 2, from + 1)
  }

  function Bits(x: nat): set<nat> {
    BitsFrom(x, 0)
  }

  lemma {:induction false} BitsAbove(x: nat, from: nat)
    ensures forall k | k in BitsFrom(x, from) :: from <= k
  {
    if x > 0 { BitsAbove(x / 2, from + 1); }
  }

  lemma {:induction false} DigitsAreBits(x: nat, from: nat)
    ensures DigitSum(x, 2) == |BitsFrom(x, from)|
  {
    if x > 0 {
      var rest := BitsFrom(x / 2, from + 1);
      DigitsAreBits(x / 2, from + 1);
      BitsAbove(x / 2, from + 1);
      if x % 2 == 1 {
        assert from !in rest && BitsFrom(x, from) == rest + {from};
      } else {
        assert BitsFrom(x, from) == rest;
      }
    }
  }

  /** bit_count counts the bits that are set, in any word of 32 bits. */
  lemma BitCountCounts(x: nat)
    requires x < 0x1_0000_0000
    ensures BitCount(x) == |Bits(x)|
  {
    var x1 := Fold(x, 2);
    var x2 := Fold(x1, 4);
    var x3 := Fold(x2, 16);
    var x4 := Fold(x3, 256);
    FoldKeeps(x, 2, 4);
    FoldKeeps(x1, 4, 16);
    FoldKeeps(x2, 16, 256);
    FoldKeeps(x3, 256, 0x1_0000);
    FoldKeeps(x4, 0x1_0000, 0x1_0000_0000);
    FoldLess(x, 2);
    FoldLess(x1, 4);
    FoldLess(x2, 16);
    FoldLess(x3, 256);
    FoldLess(x4, 0x1_0000);
    OneDigit(BitCount(x), 0x1_0000_0000);
    DigitsAreBits(x, 0);
  }

  lemma OneDigit(x: nat, b: nat)
    requires b >= 2 && x < b
    ensures DigitSum(x, b) == x
  {
    DivUnique(x, b, 0, x);
  }

  // ---------------------------------------------------------------- bits and indices

  /** (bitmap & bit) != 0, for the bit of the slice `k` */
  predicate TestBit(x: nat, k: nat) {
    x / Pow2(k) % 2 == 1
  }

  lemma {:induction false} TestFrom(x: nat, k: nat, from: nat)
    ensures from + k in BitsFrom(x, from) <==> TestBit(x, k)
    decreases k
  {
    BitsAbove(x / 2, from + 1);
    if k > 0 {
      HalfTest(x, k);
      TestFrom(x / 2, k - 1, from + 1);
      assert from + 1 + (k - 1) == from + k;
    }
  }

  /** Quotient and remainder by 2 * p, by way of the half of x. */
  lemma Halved(x: nat, p: nat, h: nat, q: nat, r: nat)
    requires p > 0 && h == x / 2 && q == h / p && r == h % p
    ensures x / (2 * p) == q && x % (2 * p) == 2 * r + x % 2
  {
    assert h == q * p + r;
    MulTwice(q, p);
    DivUnique(x, 2 * p, q, 2 * r + x % 2);
  }

  lemma MulTwice(q: nat, p: nat)
    ensures q * (2 * p) == 2 * (q * p)
  {
  }

  lemma HalfTest(x: nat, k: nat)
    requires k > 0
    ensures x / Pow2(k) == x / 2 / Pow2(k - 1)
  {
    var p := Pow2(k - 1);
    Halved(x, p, x / 2, x / 2 / p, x / 2 % p);
  }

  /** The test of a bitmap asks whether the slice has a child. */
  lemma TestBitIs(x: nat, k: nat)
    ensures k in Bits(x) <==> TestBit(x, k)
  {
    TestFrom(x, k, 0);
  }

  /** bitmap & (bit - 1), for the bit of the slice `k` */
  function BelowBit(x: nat, k: nat): nat {
    x % Pow2(k)
  }

  lemma {:induction false} MaskedFrom(x: nat, k: nat, from: nat)
    ensures BitsFrom(BelowBit(x, k), from) == set j | j in BitsFrom(x, from) && j < from + k
    decreases k
  {
    BitsAbove(x, from);
    if k == 0 {
      assert BelowBit(x, 0) == 0;
    } else {
      HalfMask(x, k);
      MaskedFrom(x / 2, k - 1, from + 1);
    }
  }

  lemma HalfMask(x: nat, k: nat)
    requires k > 0
    ensures BelowBit(x, k) % 2 == x % 2 && BelowBit(x, k) / 2 == BelowBit(x / 2, k - 1)
  {
    var p := Pow2(k - 1);
    Halved(x, p, x / 2, x / 2 / p, x / 2 % p);
    EvenOdd(BelowBit(x, k), BelowBit(x / 2, k - 1), x % 2);
  }

  lemma EvenOdd(y: nat, r: nat, b: nat)
    requires y == 2 * r + b && b < 2
    ensures y % 2 == b && y / 2 == r
  {
  }

  lemma ModLess(x: nat, m: nat)
    requires m > 0
    ensures x % m <= x
  {
    assert x == x / m * m + x % m;
    MulGrows(0, x / m, m);
  }

  lemma MaskedBits(x: nat, k: nat, y: nat)
    requires y == BelowBit(x, k)
    ensures Bits(y) == Below(Bits(x), k) && y <= x
  {
    MaskedFrom(x, k, 0);
    ModLess(x, Pow2(k));
    assert Below(Bits(x), k) == set j | j in BitsFrom(x, 0) && j < 0 + k;
  }

  lemma CountsBelow(x: nat, y: nat, k: nat)
    requires y <= x < 0x1_0000_0000 && Bits(y) == Below(Bits(x), k)
    ensures BitCount(y) == IndexOf(Bits(x), k)
  {
    BitCountCounts(y);
  }

  /** idx_node_index: bit_count(bitmap & (bit - 1)) is the number of children before that of the slice. */
  lemma IndexCounts(x: nat, k: nat)
    requires x < 0x1_0000_0000
    ensures BitCount(BelowBit(x, k)) == IndexOf(Bits(x), k)
  {
    MaskedBits(x, k, BelowBit(x, k));
    CountsBelow(x, BelowBit(x, k), k);
  }

  // ---------------------------------------------------------------- slices of a hash

  lemma DivDiv(h: int, p: nat)
    requires p > 0
    ensures h / p / 32 == h / (32 * p)
  {
    var q, r := h / p, h % p;
    var high, low := q / 32, q % 32;
    assert h == q * p + r && q == high * 32 + low;
    MulDistributes(high * 32, low, p);
    assert high * 32 * p == high * (32 * p);
    MulGrows(0, low, p);
    MulGrows(low, 31, p);
    DivUnique(h, 32 * p, high, low * p + r);
  }

  lemma {:induction false} ShiftIs(h: int, level: nat)
    ensures ShiftRight(h, level) == h / Pow2(5 * level)
  {
    if level > 0 {
      ShiftIs(h, level - 1);
      var n := 5 * (level - 1);
      assert Pow2(n + 5) == 2 * Pow2(n + 4) == 4 * Pow2(n + 3) == 8 * Pow2(n + 2) == 16 * Pow2(n + 1) == 32 * Pow2(n);
      DivDiv(h, Pow2(n));
    }
  }

  /** MASK: (hash >> shift) & 0x1f, with the sign shifted in. */
  lemma MaskIs(h: int, level: nat)
    ensures Mask(h, level) == h / Pow2(5 * level) % 32
  {
    ShiftIs(h, level);
  }
}
