/** The twin-prime enumerator shared, word for word, by the three archive
    scripts: filter the ascending primes below limit for those p whose p + 2 is
    prime and does not exceed limit. */
module ArchiveTwins {
  import opened NumberTheory
  import GenerateTwinPrimes

  /** The library call primerange(lo, hi): exactly the primes in [lo, hi), ascending. */
  function PrimeRange(lo: int, hi: int): (r: seq<int>)
    ensures forall x {:trigger x in r} :: x in r <==> lo <= x < hi && IsPrime(x)
    ensures forall j, k :: 0 <= j < k < |r| ==> r[j] < r[k]
    decreases hi - lo
  {
    if lo >= hi then []
    else
      var rest := PrimeRange(lo + 1, hi);
      assert forall k :: 0 <= k < |rest| ==> rest[k] in rest;
      (if IsPrime(lo) then [lo] else []) + rest
  }

  /** The list comprehension over the primes: keeps (p, p + 2) for each p in
      order when p + 2 is prime and p + 2 <= limit. */
  function KeepTwins(primes: seq<int>, limit: int): (r: seq<TwinPair>)
    ensures forall t {:trigger t in r} :: t in r <==>
      t.first in primes && t.second == t.first + 2 && IsPrime(t.second) && t.second <= limit
  {
    if primes == [] then []
    else
      var p := primes[0];
      (if IsPrime(p + 2) && p + 2 <= limit then [TwinPair(p, p + 2)] else [])
        + KeepTwins(primes[1..], limit)
  }

  /** twin_primes(limit): the pairs (p, p + 2) of primes with p + 2 <= limit. */
  function TwinPrimes(limit: int): (r: seq<TwinPair>)
    ensures forall t {:trigger t in r} :: t in r <==>
      IsPrime(t.first) && IsPrime(t.second) && t.second == t.first + 2 && t.second <= limit
  {
    KeepTwins(PrimeRange(2, limit), limit)
  }

  /** The comprehension distributes over concatenation of its input. */
  lemma {:induction false} KeepTwinsAppend(a: seq<int>, b: seq<int>, limit: int)
    ensures KeepTwins(a + b, limit) == KeepTwins(a, limit) + KeepTwins(b, limit)
  {
    if a == [] {
      assert a + b == b;
    } else {
      assert (a + b)[0] == a[0];
      assert (a + b)[1..] == a[1..] + b;
      KeepTwinsAppend(a[1..], b, limit);
    }
  }

  /** An even number above 2 is not prime. */
  lemma EvenNotPrime(n: int)
    requires n > 2 && n % 2 == 0
    ensures !IsPrime(n)
  {
    ProperDivisorNotPrime(n, 2);
  }

  /** Near the limit nothing survives the filter: p >= limit - 1 means p + 2 > limit. */
  lemma KeepTwinsNearLimit(lo: int, limit: int)
    requires lo >= limit - 1
    ensures KeepTwins(PrimeRange(lo, limit), limit) == []
  {
    if lo < limit {
      assert PrimeRange(lo + 1, limit) == [];
      var head := if IsPrime(lo) then [lo] else [];
      assert PrimeRange(lo, limit) == head + [];
      assert KeepTwins(head, limit) == [] by {
        if IsPrime(lo) {
          assert KeepTwins(head, limit) == [] + KeepTwins([], limit);
        }
      }
    }
  }

  /** One step of two in primerange from an odd lo: lo + 1 is even and so is skipped. */
  lemma PrimeRangeOddStep(lo: int, limit: int)
    requires lo >= 3 && lo % 2 == 1 && lo < limit - 1
    ensures PrimeRange(lo, limit) == (if IsPrime(lo) then [lo] else []) + PrimeRange(lo + 2, limit)
  {
    EvenNotPrime(lo + 1);
    assert PrimeRange(lo + 1, limit) == [] + PrimeRange(lo + 2, limit);
  }

  /** Stepping by two keeps a number odd. */
  lemma OddPlusTwo(n: int)
    requires n % 2 == 1
    ensures (n + 2) % 2 == 1
  {
  }

  /** The comprehension applied to a single prime. */
  lemma KeepTwinsSingle(p: int, limit: int)
    ensures KeepTwins([p], limit) == if IsPrime(p + 2) && p + 2 <= limit then [TwinPair(p, p + 2)] else []
  {
    assert KeepTwins([p], limit) == (if IsPrime(p + 2) && p + 2 <= limit then [TwinPair(p, p + 2)] else [])
      + KeepTwins([], limit);
  }

  /** From an odd start lo >= 3, filtering primerange(lo, limit) agrees with the
      odd scan below limit - 1. */
  lemma {:induction false} KeepTwinsMatchesScan(lo: int, limit: int)
    requires lo >= 3 && lo % 2 == 1
    ensures KeepTwins(PrimeRange(lo, limit), limit) == GenerateTwinPrimes.OddScan(lo, limit - 1)
    decreases limit - lo
  {
    if lo < limit - 1 {
      var head := if IsPrime(lo) then [lo] else [];
      var rest := PrimeRange(lo + 2, limit);
      PrimeRangeOddStep(lo, limit);
      KeepTwinsAppend(head, rest, limit);
      var kept := if IsPrime(lo) && IsPrime(lo + 2) then [TwinPair(lo, lo + 2)] else [];
      assert KeepTwins(head, limit) == kept by {
        if IsPrime(lo) {
          KeepTwinsSingle(lo, limit);
        }
      }
      OddPlusTwo(lo);
      KeepTwinsMatchesScan(lo + 2, limit);
      assert GenerateTwinPrimes.OddScan(lo, limit - 1) == kept + GenerateTwinPrimes.OddScan(lo + 2, limit - 1);
    } else {
      KeepTwinsNearLimit(lo, limit);
    }
  }

  /** The archive enumerator at limit equals the stand-alone scan at limit - 1:
      the scan bounds only p, so it also reports p = limit - 1 (with p + 2 above
      limit), which the archive version's p + 2 <= limit drops. */
  lemma TwinPrimesMatchesScan(limit: int)
    ensures TwinPrimes(limit) == GenerateTwinPrimes.OddScan(3, limit - 1)
  {
    if limit > 2 {
      assert !IsPrime(4) by { EvenNotPrime(4); }
      assert PrimeRange(2, limit) == [2] + PrimeRange(3, limit);
      KeepTwinsAppend([2], PrimeRange(3, limit), limit);
      KeepTwinsMatchesScan(3, limit);
    }
  }

  /** The archive pairs come out in strictly increasing order of p. */
  lemma TwinPrimesIncreasing(limit: int)
    ensures forall j, k :: 0 <= j < k < |TwinPrimes(limit)| ==>
      TwinPrimes(limit)[j].first < TwinPrimes(limit)[k].first
  {
    TwinPrimesMatchesScan(limit);
    GenerateTwinPrimes.OddScanIncreasing(3, limit - 1);
  }

  /** Below 5 there is no pair; from 5 on the first pair is (3, 5). */
  lemma TwinPrimesSmallLimits(limit: int)
    ensures limit < 5 ==> TwinPrimes(limit) == []
    ensures limit >= 5 ==> |TwinPrimes(limit)| > 0 && TwinPrimes(limit)[0] == TwinPair(3, 5)
  {
    TwinPrimesMatchesScan(limit);
    if limit >= 5 {
      assert IsPrime(5);
      assert GenerateTwinPrimes.OddScan(3, limit - 1)
          == [TwinPair(3, 5)] + GenerateTwinPrimes.OddScan(5, limit - 1);
    }
  }
}
