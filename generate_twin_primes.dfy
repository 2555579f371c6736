/** The stand-alone enumerator: a 6k±1 wheel trial-division primality test and
    an odd scan that collects every (p, p + 2) with both members prime. */
module GenerateTwinPrimes {
  import opened NumberTheory

  /** One round of the wheel: when neither i nor i + 2 divides an n coprime to 6,
      no number in [i, i + 6) divides it either (i + 1, i + 3, i + 5 are even,
      i + 4 is a multiple of 3). */
  lemma WheelStep(n: int, i: int)
    requires i >= 5 && i % 6 == 5
    requires n % 2 != 0 && n % 3 != 0 && n % i != 0 && n % (i + 2) != 0
    requires forall d :: 2 <= d < i ==> n % d != 0
    ensures forall d :: 2 <= d < i + 6 ==> n % d != 0
  {
    forall d | i <= d < i + 6
      ensures n % d != 0
    {
      if d == i + 4 {
        DividesTransitive(3, d, n);
      } else if d != i && d != i + 2 {
        DividesTransitive(2, d, n);
      }
    }
  }

  /** While i * i <= n with i >= 5, both trial divisors lie strictly between 1
      and n, and the next candidate i + 6 stays on the wheel. */
  lemma WheelBounds(n: int, i: int)
    requires i >= 5 && i % 6 == 5 && i * i <= n
    ensures i + 2 < n && (i + 6) % 6 == 5
  {
    MulMonotone(i, 5, i);
  }

  /** The early answers of the test agree with primality: nothing below 2 is
      prime, 2 and 3 are, and no larger multiple of 2 or 3 is. */
  lemma WheelShortcuts(n: int)
    ensures n < 2 ==> !IsPrime(n)
    ensures IsPrime(2) && IsPrime(3)
    ensures n > 3 && (n % 2 == 0 || n % 3 == 0) ==> !IsPrime(n)
  {
    if n > 3 && n % 2 == 0 {
      ProperDivisorNotPrime(n, 2);
    } else if n > 3 && n % 3 == 0 {
      ProperDivisorNotPrime(n, 3);
    }
  }

  /** The primality test: rejects n < 2, accepts 2 and 3, rejects other multiples
      of 2 and 3, then trial-divides by i and i + 2 for i = 5, 11, 17, ...
      while i * i <= n. It decides exactly the mathematical predicate. */
  method IsPrimeWheel(n: int) returns (r: bool)
    ensures r == IsPrime(n)
  {
    if n < 2 {
      return false;
    }
    if n == 2 || n == 3 {
      return true;
    }
    if n % 2 == 0 || n % 3 == 0 {
      return false;
    }
    DividesTransitive(2, 4, n);
    var i := 5;
    while i * i <= n
      invariant i >= 5 && i % 6 == 5
      invariant forall d :: 2 <= d < i ==> n % d != 0
      decreases n - i
    {
      WheelBounds(n, i);
      if n % i == 0 || n % (i + 2) == 0 {
        return false;
      }
      WheelStep(n, i);
      i := i + 6;
    }
    NoSmallFactorIsPrime(n, i);
    return true;
  }

  /** The pairs the scan `for p in range(p, limit, 2)` collects: every p below
      limit, stepping by two, with p and p + 2 both prime, in scan order. */
  function OddScan(p: int, limit: int): seq<TwinPair>
    decreases limit - p
  {
    if p >= limit then []
    else (if IsPrime(p) && IsPrime(p + 2) then [TwinPair(p, p + 2)] else []) + OddScan(p + 2, limit)
  }

  /** The enumerator: scans odd p from 3 up to (not including) limit and appends
      (p, p + 2) whenever both are prime. */
  method TwinPrimes(limit: int) returns (twins: seq<TwinPair>)
    ensures twins == OddScan(3, limit)
  {
    twins := [];
    var p := 3;
    while p < limit
      invariant twins + OddScan(p, limit) == OddScan(3, limit)
      decreases limit - p
    {
      var pPrime := IsPrimeWheel(p);
      if pPrime {
        var p2Prime := IsPrimeWheel(p + 2);
        if p2Prime {
          twins := twins + [TwinPair(p, p + 2)];
        }
      }
      p := p + 2;
    }
  }

  /** Soundness of the scan: every pair has the form (q, q + 2) with q prime,
      q + 2 prime, q of the same parity as the start and p <= q < limit. Only
      q is bounded by limit; q + 2 may reach or pass it. */
  lemma {:induction false} OddScanSound(p: int, limit: int)
    ensures forall t :: t in OddScan(p, limit) ==>
      && p <= t.first < limit
      && t.first % 2 == p % 2
      && t.second == t.first + 2
      && IsPrime(t.first) && IsPrime(t.second)
    decreases limit - p
  {
    if p < limit {
      OddScanSound(p + 2, limit);
    }
  }

  /** The first components come out strictly increasing. */
  lemma {:induction false} OddScanIncreasing(p: int, limit: int)
    ensures forall j, k :: 0 <= j < k < |OddScan(p, limit)| ==>
      OddScan(p, limit)[j].first < OddScan(p, limit)[k].first
    decreases limit - p
  {
    if p < limit {
      OddScanIncreasing(p + 2, limit);
      OddScanSound(p + 2, limit);
      var tail := OddScan(p + 2, limit);
      assert forall k :: 0 <= k < |tail| ==> tail[k] in tail;
    }
  }

  /** Completeness of the scan: every q in [p, limit) of the same parity as p
      with q and q + 2 both prime is reported. */
  lemma {:induction false} OddScanComplete(p: int, limit: int, q: int)
    requires p <= q < limit && q % 2 == p % 2
    requires IsPrime(q) && IsPrime(q + 2)
    ensures TwinPair(q, q + 2) in OddScan(p, limit)
    decreases limit - p
  {
    if q != p {
      OddScanComplete(p + 2, limit, q);
    }
  }

  /** Small limits: nothing below 4; at limit 4 the pair (3, 5) already appears
      although 5 exceeds the limit; at limit 10 the scan gives (3, 5) and (5, 7). */
  lemma OddScanSmallLimits(limit: int)
    ensures limit <= 3 ==> OddScan(3, limit) == []
    ensures OddScan(3, 4) == [TwinPair(3, 5)]
    ensures OddScan(3, 10) == [TwinPair(3, 5), TwinPair(5, 7)]
  {
    assert !IsPrime(9) by { assert 9 % 3 == 0; }
  }
}
