/** The unique-primes experiment: for every twin pair (p, p + 2) below the limit,
    collect in one set the primes among the four offsets 2p + 1, 2p + 7, 2p - 3
    and 2p + 3, and report the size of that set with the number of pairs. No
    pair is skipped. */
module UniquePrimes {
  import opened NumberTheory
  import ArchiveTwins

  /** q is one of the four offsets of p. */
  predicate IsOffset(q: int, p: int) {
    q == 2 * p + 1 || q == 2 * p + 7 || q == 2 * p - 3 || q == 2 * p + 3
  }

  /** Add q to the set when it is prime. */
  function AddIfPrime(s: set<int>, q: int): set<int> {
    if IsPrime(q) then s + {q} else s
  }

  /** The four guarded additions made for one pair, in the order q1, q2, q3, q4. */
  function AddOffsetPrimes(s: set<int>, p: int): set<int> {
    AddIfPrime(AddIfPrime(AddIfPrime(AddIfPrime(s, 2 * p + 1), 2 * p + 7), 2 * p - 3), 2 * p + 3)
  }

  /** The set after the loop has walked over ps. */
  function Found(ps: seq<TwinPair>): set<int>
    decreases |ps|
  {
    if ps == [] then {} else AddOffsetPrimes(Found(ps[..|ps| - 1]), ps[|ps| - 1].first)
  }

  /** One pair's additions: q ends up in the set when it was there already or
      is a prime offset of p; nothing else enters, and at most four elements are new. */
  lemma AddOffsetPrimesEffect(s: set<int>, p: int)
    ensures forall q {:trigger q in AddOffsetPrimes(s, p)} ::
      q in AddOffsetPrimes(s, p) <==> q in s || (IsPrime(q) && IsOffset(q, p))
    ensures |AddOffsetPrimes(s, p)| <= |s| + 4
  {
    var s1 := AddIfPrime(s, 2 * p + 1);
    var s2 := AddIfPrime(s1, 2 * p + 7);
    var s3 := AddIfPrime(s2, 2 * p - 3);
    AddIfPrimeSize(s, 2 * p + 1);
    AddIfPrimeSize(s1, 2 * p + 7);
    AddIfPrimeSize(s2, 2 * p - 3);
    AddIfPrimeSize(s3, 2 * p + 3);
  }

  /** A single guarded addition grows the set by at most one. */
  lemma AddIfPrimeSize(s: set<int>, q: int)
    ensures |AddIfPrime(s, q)| <= |s| + 1
  {
    if IsPrime(q) && q !in s {
      assert |s + {q}| == |s| + 1;
    }
  }

  /** Adding a q that is already in the set leaves the set unchanged. */
  lemma AddIfPrimePresent(s: set<int>, q: int)
    requires q in s
    ensures AddIfPrime(s, q) == s
  {
    if IsPrime(q) {
      assert s + {q} == s;
    }
  }

  /** The final set is exactly the primes that are an offset of some pair. */
  lemma {:induction false} FoundMembers(ps: seq<TwinPair>, q: int)
    ensures q in Found(ps) <==> IsPrime(q) && exists j :: 0 <= j < |ps| && IsOffset(q, ps[j].first)
    decreases |ps|
  {
    if ps != [] {
      var prefix, p := ps[..|ps| - 1], ps[|ps| - 1].first;
      FoundMembers(prefix, q);
      AddOffsetPrimesEffect(Found(prefix), p);
      if q in Found(prefix) {
        var j :| 0 <= j < |prefix| && IsOffset(q, prefix[j].first);
        assert IsOffset(q, ps[j].first);
      } else if IsPrime(q) && IsOffset(q, p) {
        assert IsOffset(q, ps[|ps| - 1].first);
      } else if IsPrime(q) {
        forall j | 0 <= j < |ps|
          ensures !IsOffset(q, ps[j].first)
        {
          if j < |prefix| {
            assert ps[j] == prefix[j];
          }
        }
      }
    }
  }

  /** Every element of the final set is prime. */
  lemma FoundPrime(ps: seq<TwinPair>, q: int)
    requires q in Found(ps)
    ensures IsPrime(q)
  {
    FoundMembers(ps, q);
  }

  /** The set holds at most four primes per pair. */
  lemma {:induction false} FoundBound(ps: seq<TwinPair>)
    ensures |Found(ps)| <= 4 * |ps|
    decreases |ps|
  {
    if ps != [] {
      FoundBound(ps[..|ps| - 1]);
      AddOffsetPrimesEffect(Found(ps[..|ps| - 1]), ps[|ps| - 1].first);
    }
  }

  /** Walking a pair a second time adds nothing: the result does not depend on
      how often an offset recurs. */
  lemma RepeatedPair(ps: seq<TwinPair>, j: int)
    requires 0 <= j < |ps|
    ensures Found(ps + [ps[j]]) == Found(ps)
  {
    var ps' := ps + [ps[j]];
    assert ps'[..|ps'| - 1] == ps;
    AddOffsetPrimesEffect(Found(ps), ps[j].first);
    forall q | q in Found(ps') <==> q !in Found(ps)
      ensures false
    {
      FoundMembers(ps, q);
    }
  }

  /** The four guarded in-place additions for one pair. */
  method AddPairOffsets(found: set<int>, p: int) returns (updated: set<int>)
    ensures updated == AddOffsetPrimes(found, p)
  {
    updated := found;
    var q1 := 2 * p + 1;
    var q2 := 2 * p + 7;
    var q3 := 2 * p - 3;
    var q4 := 2 * p + 3;
    if IsPrime(q1) {
      updated := updated + {q1};
    }
    if IsPrime(q2) {
      updated := updated + {q2};
    }
    if IsPrime(q3) {
      updated := updated + {q3};
    }
    if IsPrime(q4) {
      updated := updated + {q4};
    }
  }

  /** The loop of the script: adds each prime offset of each pair to the set,
      then returns the set's size and the number of pairs. */
  method TestUniquePrimesFromOffsets(limit: int) returns (uniqueCount: nat, pairCount: nat)
    ensures pairCount == |ArchiveTwins.TwinPrimes(limit)|
    ensures uniqueCount == |Found(ArchiveTwins.TwinPrimes(limit))|
    ensures uniqueCount <= 4 * pairCount
  {
    var pairs := ArchiveTwins.TwinPrimes(limit);
    var uniquePrimesFound: set<int> := {};
    for i := 0 to |pairs|
      invariant uniquePrimesFound == Found(pairs[..i])
    {
      assert pairs[..i + 1][..i] == pairs[..i];
      uniquePrimesFound := AddPairOffsets(uniquePrimesFound, pairs[i].first);
    }
    assert pairs[..|pairs|] == pairs;
    FoundBound(pairs);
    uniqueCount, pairCount := |uniquePrimesFound|, |pairs|;
  }

  /** Below 5 there is no twin pair, so the script reports (0, 0). */
  lemma SmallLimits(limit: int)
    requires limit < 5
    ensures |ArchiveTwins.TwinPrimes(limit)| == 0
    ensures |Found(ArchiveTwins.TwinPrimes(limit))| == 0
  {
    ArchiveTwins.TwinPrimesSmallLimits(limit);
  }

  /** (3, 5) is not skipped here: from limit 5 on it is walked, and its prime
      offsets 7, 13 and 3 (but not 9) are in the set. */
  lemma ThreeFiveCounted(limit: int)
    requires limit >= 5
    ensures 3 in Found(ArchiveTwins.TwinPrimes(limit))
    ensures 7 in Found(ArchiveTwins.TwinPrimes(limit))
    ensures 13 in Found(ArchiveTwins.TwinPrimes(limit))
  {
    var pairs := ArchiveTwins.TwinPrimes(limit);
    ArchiveTwins.TwinPrimesSmallLimits(limit);
    assert pairs[0].first == 3;
    NoSmallFactorIsPrime(7, 3);
    NoSmallFactorIsPrime(13, 4);
    assert IsOffset(3, pairs[0].first) && IsOffset(7, pairs[0].first) && IsOffset(13, pairs[0].first);
    FoundMembers(pairs, 3);
    FoundMembers(pairs, 7);
    FoundMembers(pairs, 13);
  }
}
