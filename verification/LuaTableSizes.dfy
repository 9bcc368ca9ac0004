/** How a rehash counts integer keys and picks the size of the array part (lua/ltable.c). */
module LuaTableSizes {
  import opened Arithmetic

  const MAXBITS: nat := 26

  /** The array part never has more than 2^MAXBITS slots. */
  const MAXASIZE: nat := 0x400_0000

  lemma {:induction false} Pow2Grows(i: nat, j: nat)
    requires i <= j
    ensures Pow2(i) <= Pow2(j) && (i < j ==> 2 * Pow2(i) <= Pow2(j))
    decreases j - i
  {
    if i < j { Pow2Grows(i + 1, j); }
  }

  lemma MaxASize()
    ensures Pow2(MAXBITS) == MAXASIZE
  {
    assert Pow2(8) == 256 by { assert Pow2(4) == 16; }
    assert Pow2(16) == 65536 by { assert Pow2(12) == 4096; }
    assert Pow2(20) == 1048576;
    assert Pow2(24) == 16777216;
  }

  /** ceillog2: the slice (2^(r-1), 2^r] that `x` lies in. */
  function CeilLog2(x: nat): (r: nat)
    requires x >= 1
    ensures Pow2(r) / 2 < x <= Pow2(r)
  {
    if x == 1 then 0 else CeilLog2((x + 1) / 2) + 1
  }

  lemma CeilLog2Least(x: nat, b: nat)
    requires x >= 1
    ensures x <= Pow2(b) <==> CeilLog2(x) <= b
  {
    if CeilLog2(x) <= b { Pow2Grows(CeilLog2(x), b); } else { Pow2Grows(b + 1, CeilLog2(x)); }
  }

  /** Two slices do not overlap. */
  lemma SliceUnique(x: int, b: nat, c: nat)
    requires Pow2(b) / 2 < x <= Pow2(b) && Pow2(c) / 2 < x <= Pow2(c)
    ensures b == c
  {
    if b < c { Pow2Grows(b, c); } else if c < b { Pow2Grows(c, b); }
  }

  // ---------------------------------------------------------------- counting

  /** The members of `ks` in (lo, hi]. */
  function Between(ks: set<int>, lo: int, hi: int): (r: set<int>) {
    set k | k in ks && lo < k <= hi
  }

  /** How many of the keys 1..n are present. */
  function Count(ks: set<int>, n: int): nat {
    |Between(ks, 0, n)|
  }

  /** What nums[b] counts: the keys in (2^(b-1), 2^b]. */
  function Slice(ks: set<int>, b: nat): nat {
    |Between(ks, Pow2(b) / 2, Pow2(b))|
  }

  lemma BetweenSplit(ks: set<int>, lo: int, mid: int, hi: int)
    requires lo <= mid <= hi
    ensures |Between(ks, lo, hi)| == |Between(ks, lo, mid)| + |Between(ks, mid, hi)|
  {
    assert Between(ks, lo, hi) == Between(ks, lo, mid) + Between(ks, mid, hi);
    assert Between(ks, lo, mid) !! Between(ks, mid, hi);
  }

  lemma {:induction false} BetweenBound(ks: set<int>, lo: int, hi: int)
    requires lo <= hi
    ensures |Between(ks, lo, hi)| <= hi - lo
    decreases hi - lo
  {
    if lo == hi {
      assert Between(ks, lo, hi) == {};
    } else {
      BetweenBound(ks, lo, hi - 1);
      BetweenSplit(ks, lo, hi - 1, hi);
      assert Between(ks, hi - 1, hi) <= {hi};
      assert |Between(ks, hi - 1, hi)| <= |{hi}| by { SubsetSize(Between(ks, hi - 1, hi), {hi}); }
    }
  }

  lemma {:induction false} SubsetSize<T>(a: set<T>, b: set<T>)
    requires a <= b
    ensures |a| <= |b|
    decreases a
  {
    if a != {} {
      var x :| x in a;
      SubsetSize(a - {x}, b - {x});
    }
  }

  lemma CountMonotone(ks: set<int>, m: int, n: int)
    requires 0 <= m <= n
    ensures Count(ks, m) <= Count(ks, n) <= |ks|
  {
    BetweenSplit(ks, 0, m, n);
    SubsetSize(Between(ks, 0, n), ks);
  }

  // ---------------------------------------------------------------- the optimal array size

  /** More than half of the slots 1..n would be in use. */
  predicate HalfUsed(ks: set<int>, n: nat) {
    Count(ks, n) > n / 2
  }

  /** `n` is the largest power of two of which more than half would be in use, or 0. */
  ghost predicate Optimal(ks: set<int>, n: nat) {
    && (n == 0 || (HalfUsed(ks, n) && exists b :: n == Pow2(b)))
    && forall b | Pow2(b) > n :: !HalfUsed(ks, Pow2(b))
  }

  /** There is only one such size. */
  lemma OptimalUnique(ks: set<int>, m: nat, n: nat)
    requires Optimal(ks, m) && Optimal(ks, n)
    ensures m == n
  {
  }

  /** Once every key is counted, no larger array can be half used. */
  lemma EarlyExit(ks: set<int>, i: nat)
    requires Count(ks, Pow2(i)) == |ks|
    ensures forall b | b > i :: !HalfUsed(ks, Pow2(b))
  {
    forall b | b > i ensures !HalfUsed(ks, Pow2(b)) {
      Pow2Grows(i, b);
      CountMonotone(ks, Pow2(i), Pow2(b));
      BetweenBound(ks, 0, Pow2(i));
    }
  }

  /** A size of which half exceeds the number of keys cannot be half used. */
  lemma TooLarge(ks: set<int>, i: nat)
    requires Pow2(i) / 2 >= |ks|
    ensures forall b | b >= i :: !HalfUsed(ks, Pow2(b))
  {
    forall b | b >= i ensures !HalfUsed(ks, Pow2(b)) {
      Pow2Grows(i, b);
      CountMonotone(ks, 0, Pow2(b));
    }
  }

  /** The keys in 1..2^(i-1). */
  function Before(ks: set<int>, i: nat): nat {
    if i == 0 then 0 else Count(ks, Pow2(i - 1))
  }

  lemma BeforeNext(ks: set<int>, i: nat)
    ensures Before(ks, i + 1) == Before(ks, i) + Slice(ks, i)
    ensures Slice(ks, i) == 0 ==> !HalfUsed(ks, Pow2(i))
  {
    if i == 0 {
      assert Between(ks, 0, 1) == Between(ks, Pow2(0) / 2, Pow2(0));
    } else {
      assert Pow2(i) / 2 == Pow2(i - 1);
      BetweenSplit(ks, 0, Pow2(i - 1), Pow2(i));
      BetweenBound(ks, 0, Pow2(i - 1));
    }
  }

  /** computesizes picks the optimal size and returns exactly how many keys lie in 1..n; its early
      exit and its skipping of empty slices lose no better size. */
  method ComputeSizes(nums: array<nat>, narray: nat, ghost ks: set<int>) returns (n: nat, na: nat)
    requires nums.Length == MAXBITS + 1 && narray == |ks|
    requires forall k | k in ks :: 1 <= k <= MAXASIZE
    requires forall b | 0 <= b <= MAXBITS :: nums[b] == Slice(ks, b)
    ensures Optimal(ks, n) && na == Count(ks, n) && n <= MAXASIZE
  {
    MaxASize();
    assert ks == Between(ks, 0, MAXASIZE);
    BetweenBound(ks, 0, MAXASIZE);
    var i, twotoi, a := 0, 1, 0;
    n, na := 0, 0;
    assert Between(ks, 0, 0) == {};
    while twotoi / 2 < narray
      invariant twotoi == Pow2(i) && a == Before(ks, i)
      invariant n == 0 || (HalfUsed(ks, n) && exists b :: 0 <= b < i && n == Pow2(b))
      invariant forall b | 0 <= b < i && Pow2(b) > n :: !HalfUsed(ks, Pow2(b))
      invariant na == Count(ks, n) && n <= MAXASIZE
      decreases narray - twotoi / 2
    {
      assert i <= MAXBITS by { if i > MAXBITS { Pow2Grows(MAXBITS + 1, i); } }
      BeforeNext(ks, i);
      if nums[i] > 0 {
        a := a + nums[i];
        if a > twotoi / 2 {
          n := twotoi;
          na := a;
          Pow2Grows(i, MAXBITS);
        }
      }
      assert HalfUsed(ks, Pow2(i)) ==> n == Pow2(i);
      forall b | 0 <= b <= i && Pow2(b) > n ensures !HalfUsed(ks, Pow2(b)) {
        if b < i && n == Pow2(i) { Pow2Grows(b, i); }
      }
      if a == narray {
        EarlyExit(ks, i);
        return;
      }
      i, twotoi := i + 1, twotoi * 2;
    }
    TooLarge(ks, i);
  }
}
