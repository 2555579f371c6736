/** Primality as a mathematical fact, shared by the hand-written wheel test and
    by the library primality oracle the archive scripts call. */
module NumberTheory {

  /** n is prime: it is at least 2 and nothing strictly between 1 and n divides it.
      Zero and negative numbers are never prime. */
  predicate IsPrime(n: int) {
    n >= 2 && forall d :: 2 <= d < n ==> n % d != 0
  }

  /** A twin-prime pair as the enumerators return it: (p, p + 2). */
  datatype TwinPair = TwinPair(first: int, second: int)

  /** Multiplying by a factor of at least one does not shrink a positive number. */
  lemma MulAtLeastSelf(a: int, m: int)
    requires a > 0 && m >= 1
    ensures a * m >= a
  {
  }

  /** Multiplication by a non-negative number is monotone. */
  lemma MulMonotone(x: int, y: int, z: int)
    requires x >= y && z >= 0
    ensures x * z >= y * z
  {
  }

  /** A multiple of a leaves no remainder modulo a. */
  lemma MultipleMod(a: int, k: int)
    requires a > 0
    ensures (a * k) % a == 0
  {
    var q, r := (a * k) / a, (a * k) % a;
    var m := k - q;
    assert a * k == a * q + r;
    assert r == a * m;
    if m >= 1 {
      MulAtLeastSelf(a, m);
    } else if m <= -1 {
      MulAtLeastSelf(a, -m);
    }
  }

  /** Divisibility is transitive: when a divides b, every multiple of b is a multiple of a. */
  lemma DividesTransitive(a: int, b: int, n: int)
    requires a > 0 && b > 0 && b % a == 0
    ensures n % b == 0 ==> n % a == 0
  {
    if n % b == 0 {
      var j, k := b / a, n / b;
      assert b == a * j;
      assert n == b * k;
      assert n == a * (j * k);
      MultipleMod(a, j * k);
    }
  }

  /** A composite witness: a divisor strictly between 1 and n rules primality out. */
  lemma ProperDivisorNotPrime(n: int, d: int)
    requires 2 <= d < n && n % d == 0
    ensures !IsPrime(n)
  {
  }

  /** A product of a positive factor and a positive number has a positive cofactor. */
  lemma CofactorPositive(d: int, e: int)
    requires d > 0 && d * e > 0
    ensures e > 0
  {
    if e <= 0 {
      MulMonotone(0, e, d);
    }
  }

  /** Both factors at least i give a product at least i * i. */
  lemma ProductBound(d: int, e: int, i: int)
    requires d >= i >= 0
    ensures e >= i ==> d * e >= i * i
  {
    if e >= i {
      MulMonotone(d, i, e);
      MulMonotone(e, i, i);
    }
  }

  /** A divisor d of n at or above i has a cofactor n / d below i, and that cofactor divides n too. */
  lemma CofactorBelow(n: int, d: int, i: int)
    requires n >= 2 && i >= 2 && i * i > n && i <= d < n
    ensures n % d == 0 ==> 2 <= n / d < i && n % (n / d) == 0
  {
    var e := n / d;
    if n % d == 0 {
      assert n == d * e;
      CofactorPositive(d, e);
      ProductBound(d, e, i);
      MultipleMod(e, d);
      assert n == e * d;
    }
  }

  /** Trial division may stop at the square root: if nothing in [2, i) divides n
      and i * i exceeds n, then n is prime. */
  lemma {:induction false} NoSmallFactorIsPrime(n: int, i: int)
    requires n >= 2 && i >= 2 && i * i > n
    requires forall d :: 2 <= d < i ==> n % d != 0
    ensures IsPrime(n)
  {
    forall d | 2 <= d < n
      ensures n % d != 0
    {
      if d >= i {
        CofactorBelow(n, d, i);
      }
    }
  }
}
