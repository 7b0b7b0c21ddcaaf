/** Quotients and remainders, which the kernel's rings and the backend's numbers share. */
module Division {

  lemma Multiples(a: int, b: int, m: nat)
    requires a <= b
    ensures a * m <= b * m
  {
    assert b * m == a * m + (b - a) * m;
  }

  lemma QuotientIs(v: int, m: nat, q: int, r: int)
    requires m > 0 && v == q * m + r && 0 <= r < m
    ensures v / m == q && v % m == r
  {
    var q', r' := v / m, v % m;
    assert v == q' * m + r';
    if q < q' { Multiples(q + 1, q', m); }
    if q' < q { Multiples(q' + 1, q, m); }
  }
}
