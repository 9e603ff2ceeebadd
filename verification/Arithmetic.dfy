/** Facts about multiples that the layouts of pages and blocks rest on. */
module Arithmetic {

  lemma MulStep(z: nat, a: nat, b: nat)
    requires a < b
    ensures z * a + z <= z * b
  {
    var d := b - a - 1;
    assert z * b == z * (a + 1 + d) == z * a + z + z * d;
    MulNat(z, d);
  }

  lemma MulNat(a: nat, b: nat)
    ensures a * b >= 0
  {
  }

  lemma QuotientIs(z: nat, k: nat, r: nat)
    requires r < z
    ensures (z * k + r) / z == k && (z * k + r) % z == r
  {
    var p := z * k + r;
    var q := p / z;
    DivMod(p, z);
    if q < k { MulStep(z, q, k); } else if q > k { MulStep(z, k, q); }
  }

  lemma DivMod(p: nat, z: nat)
    requires z > 0
    ensures p == z * (p / z) + p % z && 0 <= p % z < z
  {
  }

  lemma RoundedDown(z: nat, x: nat)
    requires z > 0
    ensures (x - x % z) % z == 0 && 0 <= x - x % z <= x < x - x % z + z
  {
    DivMod(x, z);
    QuotientIs(z, x / z, 0);
  }

  /** Two multiples less than z apart are the same. */
  lemma SameMultiple(z: nat, a: nat, b: nat)
    requires z > 0 && a % z == 0 && b % z == 0 && a < b + z && b < a + z
    ensures a == b
  {
    DivMod(a, z);
    DivMod(b, z);
    var i, j := a / z, b / z;
    if i < j { MulStep(z, i, j); } else if i > j { MulStep(z, j, i); }
  }

  lemma MultipleOfMultiple(c: nat, z: nat, x: nat)
    requires c > 0 && z > 0 && z % c == 0 && x % z == 0
    ensures x % c == 0
  {
    DivMod(z, c);
    DivMod(x, z);
    var i, j := z / c, x / z;
    assert x == c * i * j == c * (i * j);
    MulNat(i, j);
    QuotientIs(c, i * j, 0);
  }

  lemma ProductSign(z: int, d: int)
    requires z > 0
    ensures d >= 1 ==> z * d >= z
    ensures d <= -1 ==> z * d <= -z
  {
    if d >= 1 {
      MulStep(z, 0, d);
    } else if d <= -1 {
      var n := -d;
      assert z * d == -(z * n);
      MulStep(z, 0, n);
    }
  }

  lemma IntMultiple(z: int, k: int)
    requires z > 0
    ensures (z * k) % z == 0
  {
    var p := z * k;
    var q, r := p / z, p % z;
    assert p == z * q + r && 0 <= r < z;
    assert r == z * (k - q);
    ProductSign(z, k - q);
  }

  lemma MulOrder(z: nat, a: nat, b: nat)
    ensures a <= b ==> z * a <= z * b
  {
    if a < b { MulStep(z, a, b); }
  }

  lemma QuotientLess(n: nat, p: nat, c: nat)
    requires p > 0 && n < p * c
    ensures n / p < c
  {
    DivMod(n, p);
    MulOrder(p, c, n / p);
  }
}
