/** Quotients and remainders by a divisor that is not a constant. */
module Division {

  lemma ProductAtLeast(m: nat, d: int)
    requires 0 < m
    ensures 1 <= d ==> m <= m * d
    ensures d <= -1 ==> m * d + m <= 0
  {}

  lemma QuotientIsUnique(m: nat, a: int, ra: nat, b: int, rb: nat)
    requires ra < m && rb < m && m * a + ra == m * b + rb
    ensures a == b && ra == rb
  {
    assert m * (a - b) == m * a - m * b;
    ProductAtLeast(m, a - b);
  }

  /** Whole laps make no difference to a remainder. */
  lemma LapsOn(k: nat, m: nat, laps: nat)
    requires k < m
    ensures (m * laps + k) % m == k
  {
    var x := m * laps + k;
    QuotientIsUnique(m, x / m, x % m, laps, k);
  }
}
