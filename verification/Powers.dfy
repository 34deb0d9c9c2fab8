/** Powers modulo n, as computed by Python's three-argument `pow`, and the law
    behind the key exchange: exponents commute. */
module Powers {

  function Power(b: nat, e: nat): (p: nat)
    ensures b >= 1 ==> p >= 1
  {
    if e == 0 then 1 else b * Power(b, e - 1)
  }

  function Pow2(n: nat): (r: nat)
    ensures r >= 1
  {
    if n == 0 then 1 else 2 * Pow2(n - 1)
  }

  /** `pow(b, e, n)`. */
  function ModPower(b: nat, e: nat, n: nat): (r: nat)
    requires n >= 1
    ensures r < n
  {
    Power(b, e) % n
  }

  lemma QuotientUnique(a: int, q: int, r: int, n: nat)
    requires a == q * n + r && 0 <= r < n
    ensures a % n == r && a / n == q
  {
    var d := a / n - q;
    assert d * n == r - a % n by {
      assert a == a / n * n + a % n;
      assert (a / n - q) * n == a / n * n - q * n;
    }
    if d >= 1 {
      Monotone(1, d, n);
    } else if d <= -1 {
      Monotone(d, -1, n);
    }
  }

  lemma Monotone(a: int, b: int, n: int)
    requires a <= b && 0 <= n
    ensures a * n <= b * n
  {}

  lemma ProductModulo(x: nat, y: nat, n: nat)
    requires n >= 1
    ensures (x % n * (y % n)) % n == (x * y) % n
  {
    var p, q := x % n, y % n;
    var u := p * q;
    var k := x / n * y + p * (y / n);
    calc {
      x * y;
      (x / n * n + p) * y;
      x / n * n * y + p * y;
      x / n * n * y + p * (y / n * n + q);
      x / n * n * y + p * (y / n * n) + u;
      { assert x / n * n * y == x / n * y * n && p * (y / n * n) == p * (y / n) * n; }
      x / n * y * n + p * (y / n) * n + u;
      k * n + u;
      k * n + (u / n * n + u % n);
      (k + u / n) * n + u % n;
    }
    QuotientUnique(x * y, k + u / n, u % n, n);
  }

  /** Reducing the base first changes nothing. */
  lemma {:induction false} PowerOfResidue(b: nat, e: nat, n: nat)
    requires n >= 1
    ensures ModPower(b % n, e, n) == ModPower(b, e, n)
  {
    if e > 0 {
      var s, t := Power(b % n, e - 1), Power(b, e - 1);
      PowerOfResidue(b, e - 1, n);
      ProductModulo(b % n, s, n);
      ProductModulo(b, t, n);
      assert b % n % n == b % n by { QuotientUnique(b % n, 0, b % n, n); }
    }
  }

  lemma {:induction false} PowerOfProduct(a: nat, b: nat, e: nat)
    ensures Power(a * b, e) == Power(a, e) * Power(b, e)
  {
    PowerStep(a * b, e);
    PowerStep(a, e);
    PowerStep(b, e);
    hide Power;
    if e > 0 {
      PowerOfProduct(a, b, e - 1);
      Regroup(a, b, Power(a, e - 1), Power(b, e - 1));
    }
  }

  lemma PowerStep(b: nat, e: nat)
    ensures Power(b, e) == if e == 0 then 1 else b * Power(b, e - 1)
  {}

  lemma Regroup(a: int, b: int, s: int, t: int)
    ensures a * b * (s * t) == a * s * (b * t)
  {
    assert a * b * (s * t) == a * (b * (s * t));
    assert b * (s * t) == s * (b * t);
    assert a * (s * (b * t)) == a * s * (b * t);
  }

  lemma {:induction false} PowerOfOne(e: nat)
    ensures Power(1, e) == 1
  {
    if e > 0 {
      PowerOfOne(e - 1);
    }
  }

  lemma {:induction false} PowersCommute(g: nat, x: nat, y: nat)
    ensures Power(Power(g, x), y) == Power(Power(g, y), x)
  {
    if x == 0 {
      PowerOfOne(y);
    } else {
      PowerOfProduct(g, Power(g, x - 1), y);
      PowersCommute(g, x - 1, y);
    }
  }

  /** (g^x)^y = (g^y)^x modulo n: both ends of the exchange hold the same number. */
  lemma SharedSecret(g: nat, x: nat, y: nat, n: nat)
    requires n >= 1
    ensures ModPower(ModPower(g, x, n), y, n) == ModPower(ModPower(g, y, n), x, n)
  {
    PowerOfResidue(Power(g, x), y, n);
    PowerOfResidue(Power(g, y), x, n);
    PowersCommute(g, x, y);
  }
}
