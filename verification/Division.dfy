/** Facts about integer division that the solver does not find by itself. */
module Division {

  lemma AtLeastOnce(q: int, k: int)
    requires q > 0
    ensures k >= 1 ==> q * k >= q
    ensures k <= -1 ==> q * k <= -q
  {
    if k >= 1 {
      assert q * (k - 1) >= 0;
    } else if k <= -1 {
      assert q * (-k - 1) >= 0;
    }
  }

  lemma DivisionIsUnique(x: int, q: int, d: int, r: int)
    requires q > 0 && x == q * d + r && 0 <= r < q
    ensures x / q == d && x % q == r
  {
    var d', r' := x / q, x % q;
    assert x == q * d' + r';
    assert q * (d - d') == r' - r;
    AtLeastOnce(q, d - d');
    assert d == d';
  }

  lemma AddMultiple(x: int, q: int, k: int)
    requires q > 0
    ensures (q * k + x) / q == k + x / q && (q * k + x) % q == x % q
  {
    assert x == q * (x / q) + x % q;
    assert q * (k + x / q) == q * k + q * (x / q);
    DivisionIsUnique(q * k + x, q, k + x / q, x % q);
  }

  lemma DivisionMonotone(x: int, y: int, q: int)
    requires q > 0 && x <= y
    ensures x / q * q <= y / q * q
  {
    var d, e := x / q, y / q;
    assert x == q * d + x % q && y == q * e + y % q;
    assert q * (d - e) == x - y - x % q + y % q;
    AtLeastOnce(q, d - e);
    assert d <= e;
    assert (e - d) * q >= 0;
  }
}
