/** Facts about multiplication and division by a variable that the solver does not find by itself. */
module Arithmetic {
  lemma MulGrows(d: int, e: int, m: nat)
    requires d <= e
    ensures d * m <= e * m
  {
    assert (e - d) * m >= 0;
  }

  lemma MulDistributes(d: int, e: int, m: int)
    ensures (d - e) * m == d * m - e * m
    ensures (d + e) * m == d * m + e * m
  {
  }

  lemma DivUnique(a: int, m: nat, q: int, r: nat)
    requires m > 0 && r < m && a == q * m + r
    ensures a / m == q && a % m == r
  {
    var p := a / m;
    assert a == p * m + a % m;
    if p > q {
      MulGrows(q + 1, p, m);
      MulDistributes(q, 1, m);
    } else if p < q {
      MulGrows(p + 1, q, m);
      MulDistributes(p, 1, m);
    }
  }

  /** The remainder by 32 * b, digit by digit. */
  lemma ModTimes32(a: nat, b: nat)
    requires b > 0
    ensures a % (32 * b) == a / b % 32 * b + a % b
  {
    var q, r := a / b, a % b;
    var high, low := q / 32, q % 32;
    assert q == high * 32 + low;
    MulDistributes(high * 32, low, b);
    assert high * 32 * b == high * (32 * b);
    MulGrows(0, low, b);
    MulGrows(low, 31, b);
    DivUnique(a, 32 * b, high, low * b + r);
  }

  function Pow2(n: nat): (r: nat)
    ensures r > 0
  {
    if n == 0 then 1 else 2 * Pow2(n - 1)
  }
}
