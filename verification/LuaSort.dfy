/** table.sort (lua/ltablib.c): quicksort in place, with sentinels and recursion on the smaller half. */
module LuaSort {
  import opened Arithmetic

  // ---------------------------------------------------------------- orders

  /** A valid order function: asymmetric, and incomparability is transitive. */
  ghost predicate StrictWeak<T(!new)>(less: (T, T) -> bool) {
    && (forall x, y :: less(x, y) ==> !less(y, x))
    && (forall x, y, z :: less(x, z) ==> less(x, y) || less(y, z))
  }

  predicate Leq<T>(less: (T, T) -> bool, x: T, y: T) {
    !less(y, x)
  }

  lemma LeqTrans<T(!new)>(less: (T, T) -> bool, x: T, y: T, z: T)
    requires StrictWeak(less) && Leq(less, x, y) && Leq(less, y, z)
    ensures Leq(less, x, z)
  {
  }

  // ---------------------------------------------------------------- permutations of a range

  ghost predicate Permuted<T>(s: seq<T>, t: seq<T>, l: nat, u: int) {
    && |s| == |t| && l <= u + 1 <= |s|
    && s[..l] == t[..l] && s[u + 1..] == t[u + 1..] && multiset(s[l..u + 1]) == multiset(t[l..u + 1])
  }

  lemma PermutedTrans<T>(r: seq<T>, s: seq<T>, t: seq<T>, l: nat, u: int)
    requires Permuted(r, s, l, u) && Permuted(s, t, l, u)
    ensures Permuted(r, t, l, u)
  {
  }

  /** A permutation of a part is a permutation of the whole. */
  lemma PermutedWiden<T>(s: seq<T>, t: seq<T>, l: nat, u: int, lo: nat, hi: int)
    requires Permuted(s, t, l, u) && lo <= l && u <= hi < |s|
    ensures Permuted(s, t, lo, hi)
  {
    assert s[lo..hi + 1] == s[..l][lo..] + s[l..u + 1] + s[u + 1..][..hi - u];
    assert t[lo..hi + 1] == t[..l][lo..] + t[l..u + 1] + t[u + 1..][..hi - u];
    assert s[..lo] == s[..l][..lo] && t[..lo] == t[..l][..lo];
    assert s[hi + 1..] == s[u + 1..][hi - u..] && t[hi + 1..] == t[u + 1..][hi - u..];
  }

  /** Every element of the range was somewhere in the range before. */
  lemma ComesFrom<T>(s: seq<T>, t: seq<T>, l: nat, u: int, k: nat) returns (m: nat)
    requires Permuted(s, t, l, u) && l <= k <= u
    ensures l <= m <= u && t[k] == s[m]
  {
    assert t[l..u + 1][k - l] == t[k];
    assert t[k] in multiset(t[l..u + 1]);
    assert t[k] in s[l..u + 1];
    var i :| 0 <= i < |s[l..u + 1]| && s[l..u + 1][i] == t[k];
    m := l + i;
  }

  lemma Outside<T>(s: seq<T>, t: seq<T>, l: nat, u: int, k: nat)
    requires Permuted(s, t, l, u) && k < |s| && (k < l || k > u)
    ensures t[k] == s[k]
  {
    if k < l {
      assert s[..l][k] == t[..l][k];
    } else {
      assert s[u + 1..][k - u - 1] == t[u + 1..][k - u - 1];
    }
  }

  function Swapped<T>(s: seq<T>, i: nat, j: nat): (r: seq<T>)
    requires i < |s| && j < |s|
  {
    s[i := s[j]][j := s[i]]
  }

  lemma SwapPermutes<T>(s: seq<T>, i: nat, j: nat, l: nat, u: nat)
    requires l <= i <= u < |s| && l <= j <= u
    ensures Permuted(s, Swapped(s, i, j), l, u)
  {
    var t := Swapped(s, i, j);
    var a, b := s[l..u + 1], t[l..u + 1];
    assert b == a[i - l := a[j - l]][j - l := a[i - l]];
    assert multiset(b) == multiset(a);
  }

  /** set2 with the two elements just read: exchanges them. */
  method Set2<T>(a: array<T>, i: nat, j: nat)
    requires i < a.Length && j < a.Length
    modifies a
    ensures a[..] == Swapped(old(a[..]), i, j)
  {
    a[i], a[j] := a[j], a[i];
  }

  // ---------------------------------------------------------------- one round of quicksort

  /** Orders a[l], a[i] and a[u], of which the outer two are in order already. */
  method OrderThree<T(!new)>(less: (T, T) -> bool, a: array<T>, l: nat, i: nat, u: nat)
    requires StrictWeak(less) && l < i < u < a.Length && Leq(less, a[l], a[u])
    modifies a
    ensures Permuted(old(a[..]), a[..], l, u)
    ensures Leq(less, a[l], a[i]) && Leq(less, a[i], a[u])
  {
    ghost var s := a[..];
    if less(a[i], a[l]) {
      SwapPermutes(s, i, l, l, u);
      Set2(a, i, l);
      assert a[l] == s[i] && a[i] == s[l] && a[u] == s[u];
    } else if less(a[u], a[i]) {
      SwapPermutes(s, i, u, l, u);
      Set2(a, i, u);
      assert a[l] == s[l] && a[i] == s[u] && a[u] == s[i];
    }
  }

  /** a[l..i] <= P <= a[j..u]: what the two scans have put where it belongs. */
  ghost predicate Split<T>(less: (T, T) -> bool, s: seq<T>, pivot: T, l: nat, i: nat, j: nat, u: nat)
    requires u < |s|
  {
    && (forall k | l <= k <= i && k <= u :: Leq(less, s[k], pivot))
    && (forall k | j <= k <= u :: Leq(less, pivot, s[k]))
  }

  /** The scan upwards: stops at an element not below the pivot, at the latest where the pivot lies. */
  method ScanUp<T(!new)>(less: (T, T) -> bool, a: array<T>, pivot: T, i0: nat, u: nat) returns (i: nat, ok: bool)
    requires StrictWeak(less) && 0 < u < a.Length && i0 < u - 1 && a[u - 1] == pivot
    ensures ok && i0 < i <= u - 1 && Leq(less, pivot, a[i])
    ensures forall k | i0 < k < i :: less(a[k], pivot)
  {
    i := i0 + 1;
    while less(a[i], pivot)
      invariant i0 < i <= u - 1
      invariant forall k | i0 < k < i :: less(a[k], pivot)
      decreases u - i
    {
      if i > u { return i, false; }
      i := i + 1;
    }
    ok := true;
  }

  /** The scan downwards: stops at an element not above the pivot, at the latest at the lower end. */
  method ScanDown<T(!new)>(less: (T, T) -> bool, a: array<T>, pivot: T, j0: nat, l: nat) returns (j: nat, ok: bool)
    requires StrictWeak(less) && l < j0 <= a.Length && Leq(less, a[l], pivot)
    ensures ok && l <= j < j0 && Leq(less, a[j], pivot)
    ensures forall k | j < k < j0 :: less(pivot, a[k])
  {
    j := j0 - 1;
    while less(pivot, a[j])
      invariant l <= j < j0
      invariant forall k | j < k < j0 :: less(pivot, a[k])
      decreases j
    {
      if j < l { return j, false; }
      j := j - 1;
    }
    ok := true;
  }

  lemma SplitSwapped<T(!new)>(less: (T, T) -> bool, s: seq<T>, pivot: T, l: nat, i: nat, j: nat, u: nat)
    requires StrictWeak(less) && l < i <= j < u - 1 < u < |s|
    requires Split(less, s, pivot, l, i - 1, j + 1, u) && Leq(less, pivot, s[i]) && Leq(less, s[j], pivot)
    ensures Split(less, Swapped(s, i, j), pivot, l, i, j, u)
  {
  }

  /** What both scans have passed lies on its side of the pivot. */
  lemma ScansPass<T(!new)>(less: (T, T) -> bool, s: seq<T>, pivot: T, l: nat, i0: nat, i: nat, j: nat, j0: nat, u: nat)
    requires StrictWeak(less) && l <= i0 < i < u < |s| && l <= j < j0 <= u
    requires Split(less, s, pivot, l, i0, j0, u)
    requires forall k | i0 < k < i :: less(s[k], pivot)
    requires forall k | j < k < j0 :: less(pivot, s[k])
    ensures Split(less, s, pivot, l, i - 1, j + 1, u)
  {
  }

  /** The scans from both ends, exchanging what lies on the wrong side, and then the pivot to its place. */
  method Partition<T(!new)>(less: (T, T) -> bool, a: array<T>, l: nat, u: nat) returns (i: nat, ok: bool)
    requires StrictWeak(less) && l + 2 < u < a.Length
    requires Leq(less, a[l], a[u - 1]) && Leq(less, a[u - 1], a[u])
    modifies a
    ensures ok && l < i < u && Permuted(old(a[..]), a[..], l, u)
    ensures Split(less, a[..], a[i], l, i, i, u)
  {
    ghost var s0 := a[..];
    var pivot := a[u - 1];
    var j: nat;
    i, j := l, u - 1;
    while true
      invariant l <= i < u - 1 && l < j <= u - 1 && a[u - 1] == pivot
      invariant Permuted(s0, a[..], l, u)
      invariant Split(less, a[..], pivot, l, i, j, u)
      decreases j
    {
      ghost var i0, j0 := i, j;
      i, ok := ScanUp(less, a, pivot, i, u);
      if !ok { return; }
      j, ok := ScanDown(less, a, pivot, j, l);
      if !ok { return; }
      ScansPass(less, a[..], pivot, l, i0, i, j, j0, u);
      if j < i { break; }
      Exchange(less, a, s0, pivot, l, i, j, u);
    }
    PlacePivot(less, a, s0, pivot, l, i, j, u);
  }

  /** One exchange of the partition. */
  method Exchange<T(!new)>(less: (T, T) -> bool, a: array<T>, ghost s0: seq<T>, ghost pivot: T, ghost l: nat, i: nat,
                    j: nat, ghost u: nat)
    requires StrictWeak(less) && l < i <= j < u - 1 < u < a.Length && a[u - 1] == pivot
    requires Permuted(s0, a[..], l, u) && Split(less, a[..], pivot, l, i - 1, j + 1, u)
    requires Leq(less, pivot, a[i]) && Leq(less, a[j], pivot)
    modifies a
    ensures Permuted(s0, a[..], l, u) && Split(less, a[..], pivot, l, i, j, u) && a[u - 1] == pivot
  {
    ghost var s := a[..];
    SplitSwapped(less, s, pivot, l, i, j, u);
    SwapPermutes(s, i, j, l, u);
    PermutedTrans(s0, s, Swapped(s, i, j), l, u);
    Set2(a, i, j);
    assert a[u - 1] == s[u - 1];
  }

  /** The pivot changes places with the first element not below it. */
  method PlacePivot<T(!new)>(less: (T, T) -> bool, a: array<T>, ghost s0: seq<T>, ghost pivot: T, ghost l: nat,
                      i: nat, ghost j: nat, u: nat)
    requires StrictWeak(less) && l < i <= u - 1 < u < a.Length && j < i && a[u - 1] == pivot
    requires Permuted(s0, a[..], l, u) && Split(less, a[..], pivot, l, i - 1, j + 1, u)
    modifies a
    ensures Permuted(s0, a[..], l, u) && Split(less, a[..], a[i], l, i, i, u)
  {
    ghost var s := a[..];
    SwapPermutes(s, u - 1, i, l, u);
    PermutedTrans(s0, s, Swapped(s, u - 1, i), l, u);
    PivotPlaced(less, s, pivot, l, i, j, u);
    Set2(a, u - 1, i);
  }

  lemma PivotPlaced<T(!new)>(less: (T, T) -> bool, s: seq<T>, pivot: T, l: nat, i: nat, j: nat, u: nat)
    requires StrictWeak(less) && l < i <= u - 1 < u < |s| && j < i && s[u - 1] == pivot
    requires Split(less, s, pivot, l, i - 1, j + 1, u)
    ensures var t := Swapped(s, u - 1, i); t[i] == pivot && Split(less, t, pivot, l, i, i, u)
  {
    var t := Swapped(s, u - 1, i);
    forall k | l <= k <= u ensures t[k] == if k == i then pivot else if k == u - 1 then s[i] else s[k] {}
  }

  // ---------------------------------------------------------------- the sort

  ghost predicate SortedRange<T>(less: (T, T) -> bool, s: seq<T>, lo: nat, hi: int)
    requires hi < |s|
  {
    forall p, q | lo <= p < q <= hi :: Leq(less, s[p], s[q])
  }

  /** In order as far as every pair goes that does not lie inside [l, u]. */
  ghost predicate Framed<T>(less: (T, T) -> bool, s: seq<T>, lo: nat, hi: int, l: nat, u: int)
    requires hi < |s|
  {
    forall p, q | lo <= p < q <= hi && !(l <= p && q <= u) :: Leq(less, s[p], s[q])
  }

  /** Permuting [l, u] leaves what lies around it in order. */
  lemma FramedPermuted<T(!new)>(less: (T, T) -> bool, s: seq<T>, t: seq<T>, lo: nat, hi: int, l: nat, u: int)
    requires hi < |s| && lo <= l && u <= hi && Framed(less, s, lo, hi, l, u) && Permuted(s, t, l, u)
    ensures Framed(less, t, lo, hi, l, u)
  {
    forall p, q | lo <= p < q <= hi && !(l <= p && q <= u) ensures Leq(less, t[p], t[q]) {
      var p2, q2 := p, q;
      if l <= p <= u { p2 := ComesFrom(s, t, l, u, p); } else { Outside(s, t, l, u, p); }
      if l <= q <= u { q2 := ComesFrom(s, t, l, u, q); } else { Outside(s, t, l, u, q); }
      assert Leq(less, s[p2], s[q2]);
    }
  }

  /** Around a pivot in its place, only the two halves remain to be sorted; and once one of them is, only
      the other. */
  lemma Narrowed<T(!new)>(less: (T, T) -> bool, s: seq<T>, lo: nat, hi: int, l: nat, i: nat, u: nat, left: bool)
    requires StrictWeak(less) && lo <= l < i < u <= hi < |s|
    requires Framed(less, s, lo, hi, l, u) && Split(less, s, s[i], l, i, i, u)
    requires if left then SortedRange(less, s, l, i - 1) else SortedRange(less, s, i + 1, u)
    ensures if left then Framed(less, s, lo, hi, i + 1, u) else Framed(less, s, lo, hi, l, i - 1)
  {
    var l2, u2 := if left then i + 1 else l, if left then u as int else i - 1;
    forall p, q | lo <= p < q <= hi && !(l2 <= p && q <= u2) ensures Leq(less, s[p], s[q]) {
      if l <= p <= i <= q <= u { LeqTrans(less, s[p], s[i], s[q]); }
    }
  }

  /** Sorting one half keeps the pivot in its place between the two. */
  lemma SplitPermuted<T(!new)>(less: (T, T) -> bool, s: seq<T>, t: seq<T>, l: nat, i: nat, u: nat, j: nat, k: int)
    requires l < i < u < |s| && Split(less, s, s[i], l, i, i, u) && Permuted(s, t, j, k)
    requires (j == l && k == i - 1) || (j == i + 1 && k == u)
    ensures t[i] == s[i] && Split(less, t, t[i], l, i, i, u)
  {
    Outside(s, t, j, k, i);
    forall x | l <= x <= u ensures (x <= i ==> Leq(less, t[x], s[i])) && (x >= i ==> Leq(less, s[i], t[x])) {
      var y := x;
      if j <= x <= k { y := ComesFrom(s, t, j, k, x); } else { Outside(s, t, j, k, x); }
    }
  }

  /** Puts the outer two elements of the range in order. */
  method OrderEnds<T(!new)>(less: (T, T) -> bool, a: array<T>, l: nat, u: nat)
    requires StrictWeak(less) && l < u < a.Length
    modifies a
    ensures Permuted(old(a[..]), a[..], l, u) && Leq(less, a[l], a[u])
  {
    ghost var s := a[..];
    if less(a[u], a[l]) {
      SwapPermutes(s, l, u, l, u);
      Set2(a, l, u);
      assert a[l] == s[u] && a[u] == s[l];
    }
  }

  /** Moves the middle element, the pivot, beside the upper end and partitions. */
  method PivotAndSplit<T(!new)>(less: (T, T) -> bool, a: array<T>, l: nat, mid: nat, u: nat) returns (i: nat, ok: bool)
    requires StrictWeak(less) && l < mid < u < a.Length && l + 2 < u
    requires Leq(less, a[l], a[mid]) && Leq(less, a[mid], a[u])
    modifies a
    ensures ok && Permuted(old(a[..]), a[..], l, u)
    ensures l < i < u && Split(less, a[..], a[i], l, i, i, u)
  {
    ghost var s := a[..];
    SwapPermutes(s, mid, u - 1, l, u);
    Set2(a, mid, u - 1);
    ghost var t := a[..];
    assert t[l] == s[l] && t[u - 1] == s[mid] && t[u] == s[u];
    i, ok := Partition(less, a, l, u);
    PermutedTrans(s, t, a[..], l, u);
  }

  /** The start of a round: orders three elements, which settles ranges of up to three, and partitions. */
  method Round<T(!new)>(less: (T, T) -> bool, a: array<T>, l: nat, u: nat) returns (done: bool, i: nat, ok: bool)
    requires StrictWeak(less) && l < u < a.Length
    modifies a
    ensures ok && Permuted(old(a[..]), a[..], l, u)
    ensures done ==> SortedRange(less, a[..], l, u)
    ensures !done ==> l < i < u && Split(less, a[..], a[i], l, i, i, u)
  {
    ghost var s0 := a[..];
    done, i, ok := true, l, true;
    OrderEnds(less, a, l, u);
    ghost var s1 := a[..];
    if u - l == 1 { return; }
    i := (l + u) / 2;
    OrderThree(less, a, l, i, u);
    ghost var s2 := a[..];
    PermutedTrans(s0, s1, s2, l, u);
    if u - l == 2 {
      LeqTrans(less, s2[l], s2[i], s2[u]);
      return;
    }
    done := false;
    i, ok := PivotAndSplit(less, a, l, i, u);
    PermutedTrans(s0, s2, a[..], l, u);
  }

  lemma FramedSorted<T>(less: (T, T) -> bool, s: seq<T>, lo: nat, hi: int, l: nat, u: int)
    requires hi < |s| && lo <= l && u <= hi && Framed(less, s, lo, hi, l, u) && SortedRange(less, s, l, u)
    ensures SortedRange(less, s, lo, hi)
  {
  }

  /** Halving: one level more of recursion on at most half of the other elements. */
  lemma DepthBound(depth: nat, half: nat, n: nat)
    requires Pow2(depth) <= half + 1 && 2 * half + 1 <= n
    ensures Pow2(depth + 1) <= n + 1
  {
  }

  /** auxsort: sorts the range by any valid order function, never reports an invalid one, and never has
      more than log2 (n + 1) calls of itself below it. */
  method AuxSort<T(!new)>(less: (T, T) -> bool, a: array<T>, l0: nat, u0: int) returns (ok: bool, ghost depth: nat)
    requires StrictWeak(less) && l0 <= u0 + 1 <= a.Length
    modifies a
    ensures ok && Permuted(old(a[..]), a[..], l0, u0) && SortedRange(less, a[..], l0, u0)
    ensures Pow2(depth) <= u0 - l0 + 2
    decreases u0 - l0 + 1
  {
    ghost var s0 := a[..];
    var l, u := l0, u0;
    ok, depth := true, 0;
    while l < u
      invariant ok && l0 <= l <= u + 1 && u <= u0
      invariant Permuted(s0, a[..], l0, u0) && Framed(less, a[..], l0, u0, l, u)
      invariant Pow2(depth) <= u0 - l0 + 2
      decreases u - l + 1
    {
      ghost var s1 := a[..];
      var done: bool, i: nat;
      done, i, ok := Round(less, a, l, u);
      ghost var s2 := a[..];
      Step(less, s0, s1, s2, l0, u0, l, u, l, u);
      if done {
        FramedSorted(less, s2, l0, u0, l, u);
        return;
      }
      var j: nat, k: int;
      ghost var l1, u1, left := l, u, i - l < u - i;
      if i - l < u - i {
        j, k, l := l, i - 1, i + 1;
      } else {
        j, k, u := i + 1, u, i - 1;
      }
      ghost var d: nat;
      ok, d := AuxSort(less, a, j, k);
      Step(less, s0, s2, a[..], l0, u0, l1, u1, j, k);
      SplitPermuted(less, s2, a[..], l1, i, u1, j, k);
      Narrowed(less, a[..], l0, u0, l1, i, u1, left);
      DepthBound(d, k - j + 1, u1 - l1 + 1);
      if d + 1 > depth { depth := d + 1; }
    }
  }

  /** A change inside [j, k] within [l, u] keeps what the loop of auxsort relies on. */
  lemma Step<T(!new)>(less: (T, T) -> bool, s0: seq<T>, s: seq<T>, t: seq<T>, lo: nat, hi: int, l: nat, u: int,
               j: nat, k: int)
    requires hi < |s0| && lo <= l <= j && k <= u <= hi && Permuted(s0, s, lo, hi) && Permuted(s, t, j, k)
    requires Framed(less, s, lo, hi, l, u)
    ensures Permuted(s0, t, lo, hi) && Framed(less, t, lo, hi, l, u)
  {
    PermutedWiden(s, t, j, k, lo, hi);
    PermutedTrans(s0, s, t, lo, hi);
    PermutedWiden(s, t, j, k, l, u);
    FramedPermuted(less, s, t, lo, hi, l, u);
  }

  /** sort: the whole array. */
  method Sort<T(!new)>(less: (T, T) -> bool, a: array<T>) returns (ok: bool)
    requires StrictWeak(less)
    modifies a
    ensures ok && multiset(a[..]) == multiset(old(a[..]))
    ensures forall p, q | 0 <= p < q < a.Length :: Leq(less, a[p], a[q])
  {
    ghost var s := a[..];
    ghost var depth: nat;
    ok, depth := AuxSort(less, a, 0, a.Length - 1);
    assert s[0..a.Length] == s && a[..][0..a.Length] == a[..];
    assert forall p, q | 0 <= p < q < a.Length :: Leq(less, a[..][p], a[..][q]);
  }
}
