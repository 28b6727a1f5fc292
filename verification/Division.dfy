/** Facts about division by products, for addresses and bit fields. */
module Division {

  lemma DivUnique(a: nat, d: nat, q: nat, r: nat)
    requires a == d * q + r && r < d
    ensures a / d == q && a % d == r
  {
    var k := a / d - q;
    SmallMultiple(d, k, r - a % d);
  }

  lemma SmallMultiple(d: int, k: int, m: int)
    requires d * k == m && -d < m < d
    ensures k == 0
  {
  }

  lemma DivDiv(a: nat, b: nat, c: nat)
    requires b > 0 && c > 0
    ensures b * c > 0 && a / (b * c) == a / b / c
  {
    var q, r := a / b, a % b;
    var s, t := q / c, q % c;
    Regroup(a, b, c, q, r, s, t);
    DivUnique(a, b * c, s, b * t + r);
  }

  lemma Regroup(a: nat, b: nat, c: nat, q: nat, r: nat, s: nat, t: nat)
    requires a == b * q + r && q == c * s + t && r < b && t < c
    ensures a == b * c * s + (b * t + r) && b * t + r < b * c
  {
    assert b * q == b * c * s + b * t;
    assert b * t <= b * (c - 1);
  }

  lemma Divided(a: nat, d: nat) returns (q: nat, r: nat)
    requires d > 0
    ensures a == d * q + r && r < d && q == a / d && r == a % d
  {
    q, r := a / d, a % d;
  }
}
