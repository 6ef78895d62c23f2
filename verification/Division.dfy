/** Division with remainder by a variable divisor. */
module Division {

  /** A quotient and a remainder below the divisor are the quotient and the remainder. */
  lemma Quotient(size: nat, q: nat, d: nat)
    requires d < size
    ensures (size * q + d) / size == q && (size * q + d) % size == d
  {
    var a := size * q + d;
    AtLeastOnce(size, a / size - q);
    assert size * (a / size - q) == size * (a / size) - size * q;
  }

  lemma AtLeastOnce(size: nat, e: int)
    ensures e >= 1 ==> size * e >= size
    ensures e <= -1 ==> size * e + size <= 0
  {
    if e >= 1 { assert size * e == size + size * (e - 1); }
    if e <= -1 { assert size * e == size * (e + 1) - size; }
  }

  /** Adding multiples of the divisor keeps the remainder. */
  lemma SameRemainder(m: nat, k: nat, y: nat)
    requires m > 0
    ensures (y + m * k) % m == y % m
  {
    var q, d := y / m, y % m;
    assert y + m * k == m * (q + k) + d;
    Quotient(m, q + k, d);
  }
}
