/** Quotients and remainders of variable divisors. */
module Division {
  lemma NoMultipleBetween(d: int, m: int)
    requires m > 0
    ensures !(0 < d * m < m)
    ensures -m < d * m < m ==> d == 0
  {
    if d >= 1 { assert d * m == (d - 1) * m + m; assert (d - 1) * m >= 0; }
    if d <= -1 { assert d * m == (d + 1) * m - m; assert (-d - 1) * m >= 0; assert (d + 1) * m == -((-d - 1) * m); }
  }

  /** A number is divided in only one way. */
  lemma RemainderIs(x: nat, q: nat, m: nat, r: nat)
    requires m > 0 && x == q * m + r && r < m
    ensures x % m == r && x / m == q
  {
    var d: int := x / m - q;
    assert d * m == x / m * m - q * m == r - x % m;
    NoMultipleBetween(d, m);
  }
}
