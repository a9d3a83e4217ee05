/** C's integer division and remainder, which truncate toward zero. */
module CMath {

  function Quot(a: int, b: int): (q: int)
    requires b > 0
    ensures a >= 0 ==> q == a / b
  {
    if a >= 0 then a / b else -((-a) / b)
  }

  function Rem(a: int, b: int): (r: int)
    requires b > 0
    ensures -b < r < b
    ensures a == b * Quot(a, b) + r
    ensures a >= 0 ==> r == a % b
  {
    a - b * Quot(a, b)
  }

  predicate IsInt32(x: int) {
    -0x8000_0000 <= x < 0x8000_0000
  }

  type Int32 = x: int | IsInt32(x)

  lemma NonzeroMultiple(d: int, k: int)
    requires d > 0
    ensures k >= 1 ==> d * k >= d
    ensures k <= -1 ==> d * k <= -d
  {
  }

  lemma RemainderIs(x: int, d: nat, q: int, r: nat)
    requires r < d && x == d * q + r
    ensures x % d == r && x / d == q
  {
    var k := x / d - q;
    assert x == d * (x / d) + x % d;
    assert d * (x / d) - d * q == d * k;
    NonzeroMultiple(d, k);
  }

  lemma NestedRemainders(b: nat, p: nat, y: int, z: nat, q: int, r: nat)
    requires z < b && r < p && y == p * q + r
    ensures b * y + z == b * p * q + (b * r + z) && 0 <= b * r + z < b * p
  {
    assert b * y == b * (p * q) + b * r;
    assert b * (p * q) == b * p * q;
    assert b * p == b * r + b * (p - r);
    NonzeroMultiple(b, p - r);
  }

  /** Dividing twice is dividing by the product. */
  lemma DivideByParts(x: int, b: nat, p: nat)
    requires b > 0 && p > 0
    ensures b * p > 0 && x / b / p == x / (b * p)
  {
    var y := x / b;
    var q, r, z := y / p, y % p, x % b;
    NestedRemainders(b, p, y, z, q, r);
    RemainderIs(x, b * p, q, b * r + z);
  }
}
