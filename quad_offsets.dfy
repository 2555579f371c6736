/** The four-offset experiment: for every twin pair (p, p + 2) below the limit,
    count how many of 2p + 1, 2p + 7, 2p - 3 and 2p + 3 are prime, and keep a
    histogram of that number per last-digit category of p. Categories live in a
    dictionary with default values: a category appears once a pair lands in
    it, and reading an absent one gives all-zero counters. */
module QuadOffsets {
  import opened NumberTheory
  import opened LastDigit
  import ArchiveTwins

  /** The counters kept for one category. */
  datatype Counters = Counters(
    count: nat,
    fourPrime: nat,
    threePrime: nat,
    twoPrime: nat,
    onePrime: nat,
    nonePrime: nat,
    atLeastOnePrime: nat)

  /** The default record a missing category reads as. */
  const Zero := Counters(0, 0, 0, 0, 0, 0, 0)

  /** The results dictionary: the overall total and the categories seen so far. */
  datatype Results = Results(totalTwinPrimePairs: nat, categories: map<Category, Counters>)

  /** Before the loop only the total is set; no category exists yet. */
  const Initial := Results(0, map[])

  /** Reading a category with default-dictionary semantics. */
  function Lookup(res: Results, c: Category): Counters {
    if c in res.categories then res.categories[c] else Zero
  }

  /** One for a prime transform, zero otherwise: the source adds booleans. */
  function Bit(b: bool): nat {
    if b then 1 else 0
  }

  /** How many of the four transforms of p are prime. */
  function PrimeCount(p: int): nat {
    Bit(IsPrime(2 * p + 1)) + Bit(IsPrime(2 * p + 7)) + Bit(IsPrime(2 * p - 3)) + Bit(IsPrime(2 * p + 3))
  }

  /** The prime count lies in 0..4; it is 0 exactly when no transform is prime
      and 4 exactly when all four are. */
  lemma PrimeCountRange(p: int)
    ensures PrimeCount(p) <= 4
    ensures PrimeCount(p) == 0 <==>
      !IsPrime(2 * p + 1) && !IsPrime(2 * p + 7) && !IsPrime(2 * p - 3) && !IsPrime(2 * p + 3)
    ensures PrimeCount(p) == 4 <==>
      IsPrime(2 * p + 1) && IsPrime(2 * p + 7) && IsPrime(2 * p - 3) && IsPrime(2 * p + 3)
  {
  }

  /** Record one classified pair whose prime count is primeCount: bump the
      count, exactly one histogram bucket, and at-least-one when the prime
      count is positive. */
  function Record(k: Counters, primeCount: nat): Counters {
    var k' := k.(count := k.count + 1);
    var k'' :=
      if primeCount == 4 then k'.(fourPrime := k'.fourPrime + 1)
      else if primeCount == 3 then k'.(threePrime := k'.threePrime + 1)
      else if primeCount == 2 then k'.(twoPrime := k'.twoPrime + 1)
      else if primeCount == 1 then k'.(onePrime := k'.onePrime + 1)
      else k'.(nonePrime := k'.nonePrime + 1);
    if primeCount >= 1 then k''.(atLeastOnePrime := k''.atLeastOnePrime + 1) else k''
  }

  /** One iteration of the loop: skip p = 3, skip a p without a category,
      otherwise bump the total and record the pair in its category. */
  function Step(res: Results, t: TwinPair): Results {
    var p := t.first;
    if p == 3 then res
    else match CategoryOf(p)
      case None => res
      case Some(c) =>
        Results(res.totalTwinPrimePairs + 1, res.categories[c := Record(Lookup(res, c), PrimeCount(p))])
  }

  /** The results after the loop has walked over ps. */
  function Tally(ps: seq<TwinPair>): Results
    decreases |ps|
  {
    if ps == [] then Initial else Step(Tally(ps[..|ps| - 1]), ps[|ps| - 1])
  }

  /** Within one category the five buckets partition the count, and
      at-least-one is everything except none. */
  predicate Balanced(k: Counters) {
    && k.fourPrime + k.threePrime + k.twoPrime + k.onePrime + k.nonePrime == k.count
    && k.atLeastOnePrime == k.count - k.nonePrime
  }

  /** The bookkeeping invariants of the results dictionary. */
  predicate Consistent(res: Results) {
    && (forall c :: c in res.categories ==> Balanced(res.categories[c]))
    && res.totalTwinPrimePairs
       == Lookup(res, Ends13).count + Lookup(res, Ends79).count + Lookup(res, Ends91).count
  }

  /** How many pairs of ps land in category c with exactly k prime transforms. */
  function CountWithPrimes(ps: seq<TwinPair>, c: Category, k: nat): nat
    decreases |ps|
  {
    if ps == [] then 0
    else
      var p := ps[|ps| - 1].first;
      CountWithPrimes(ps[..|ps| - 1], c, k) + (if InCategory(p, c) && PrimeCount(p) == k then 1 else 0)
  }

  /** Recording a pair adds one to the count and keeps a category's counters balanced. */
  lemma RecordBalanced(k: Counters, primeCount: nat)
    requires Balanced(k) && primeCount <= 4
    ensures Record(k, primeCount).count == k.count + 1
    ensures Balanced(Record(k, primeCount))
  {
  }

  /** Storing a balanced record one above the old count, together with one more
      in the total, keeps the results consistent. */
  lemma UpdateConsistent(res: Results, c: Category, k: Counters)
    requires Consistent(res) && Balanced(k) && k.count == Lookup(res, c).count + 1
    ensures Consistent(Results(res.totalTwinPrimePairs + 1, res.categories[c := k]))
  {
  }

  /** A classified pair bumps the total and replaces its category's record by
      the recorded one; nothing else changes. */
  lemma StepRecords(res: Results, t: TwinPair, c: Category)
    requires InCategory(t.first, c)
    ensures Step(res, t)
         == Results(res.totalTwinPrimePairs + 1, res.categories[c := Record(Lookup(res, c), PrimeCount(t.first))])
  {
  }

  /** A pair that is not classified (p = 3, or a last digit outside 1, 7, 9)
      leaves the results as they were. */
  lemma StepSkips(res: Results, t: TwinPair)
    requires !Classified(t.first)
    ensures Step(res, t) == res
  {
  }

  /** One loop iteration keeps the results consistent. */
  lemma StepConsistent(res: Results, t: TwinPair)
    requires Consistent(res)
    ensures Consistent(Step(res, t))
  {
    var p := t.first;
    if Classified(p) {
      var c := CategoryOf(p).value;
      PrimeCountRange(p);
      RecordBalanced(Lookup(res, c), PrimeCount(p));
      UpdateConsistent(res, c, Record(Lookup(res, c), PrimeCount(p)));
      StepRecords(res, t, c);
    } else {
      StepSkips(res, t);
    }
  }

  /** Whatever the pairs, the loop keeps the results consistent: in every
      category the buckets sum to the count and at-least-one is count minus
      none, and the total is the sum of the category counts. */
  lemma {:induction false} TallyConsistent(ps: seq<TwinPair>)
    ensures Consistent(Tally(ps))
    decreases |ps|
  {
    if ps != [] {
      TallyConsistent(ps[..|ps| - 1]);
      StepConsistent(Tally(ps[..|ps| - 1]), ps[|ps| - 1]);
    }
  }

  /** A category key exists exactly when some pair landed in it; until then the
      category reads as all-zero counters. */
  lemma {:induction false} TallyKeys(ps: seq<TwinPair>, c: Category)
    ensures c in Tally(ps).categories <==> CountCategory(ps, c) > 0
    ensures c !in Tally(ps).categories ==> Lookup(Tally(ps), c) == Zero
    decreases |ps|
  {
    if ps != [] {
      var prefix, t := ps[..|ps| - 1], ps[|ps| - 1];
      TallyKeys(prefix, c);
      if Classified(t.first) {
        StepRecords(Tally(prefix), t, CategoryOf(t.first).value);
      } else {
        StepSkips(Tally(prefix), t);
      }
    }
  }

  /** The histogram bucket for pairs with exactly k prime transforms. */
  function Bucket(k: Counters, primeCount: nat): nat
    requires primeCount <= 4
  {
    match primeCount
    case 4 => k.fourPrime
    case 3 => k.threePrime
    case 2 => k.twoPrime
    case 1 => k.onePrime
    case 0 => k.nonePrime
  }

  /** Recording a pair with prime count n adds one to bucket n and to no other. */
  lemma RecordBucket(k: Counters, n: nat, m: nat)
    requires n <= 4 && m <= 4
    ensures Bucket(Record(k, n), m) == Bucket(k, m) + (if n == m then 1 else 0)
  {
  }

  /** The count of a category is the number of pairs in it, and the total the
      number of classified pairs. */
  lemma {:induction false} TallyCounts(ps: seq<TwinPair>, c: Category)
    ensures Tally(ps).totalTwinPrimePairs == CountClassified(ps)
    ensures Lookup(Tally(ps), c).count == CountCategory(ps, c)
    decreases |ps|
  {
    if ps != [] {
      var prefix, t := ps[..|ps| - 1], ps[|ps| - 1];
      TallyCounts(prefix, c);
      if Classified(t.first) {
        StepRecords(Tally(prefix), t, CategoryOf(t.first).value);
      } else {
        StepSkips(Tally(prefix), t);
      }
    }
  }

  /** Each histogram bucket counts the pairs of its category with exactly that
      many prime transforms. */
  lemma {:induction false} TallyBuckets(ps: seq<TwinPair>, c: Category, primeCount: nat)
    requires primeCount <= 4
    ensures Bucket(Lookup(Tally(ps), c), primeCount) == CountWithPrimes(ps, c, primeCount)
    decreases |ps|
  {
    if ps != [] {
      var prefix, t := ps[..|ps| - 1], ps[|ps| - 1];
      TallyBuckets(prefix, c, primeCount);
      if Classified(t.first) {
        var c' := CategoryOf(t.first).value;
        StepRecords(Tally(prefix), t, c');
        PrimeCountRange(t.first);
        RecordBucket(Lookup(Tally(prefix), c'), PrimeCount(t.first), primeCount);
      } else {
        StepSkips(Tally(prefix), t);
      }
    }
  }

  /** A pair that is not classified (p = 3, or a last digit outside 1, 7, 9,
      which among twin pairs is only p = 5) contributes to no category and not
      to the total. */
  lemma SkippedPairUntouched(ps: seq<TwinPair>, t: TwinPair)
    requires !Classified(t.first)
    ensures Tally(ps + [t]) == Tally(ps)
  {
    assert (ps + [t])[..|ps|] == ps;
  }

  /** The in-place updates for one classified pair: the count, then one bucket
      of the if/elif chain on the prime count, then at-least-one. */
  method RecordPair(k: Counters, primeCount: nat) returns (counters: Counters)
    ensures counters == Record(k, primeCount)
  {
    counters := k.(count := k.count + 1);
    if primeCount == 4 {
      counters := counters.(fourPrime := counters.fourPrime + 1);
    } else if primeCount == 3 {
      counters := counters.(threePrime := counters.threePrime + 1);
    } else if primeCount == 2 {
      counters := counters.(twoPrime := counters.twoPrime + 1);
    } else if primeCount == 1 {
      counters := counters.(onePrime := counters.onePrime + 1);
    } else {
      counters := counters.(nonePrime := counters.nonePrime + 1);
    }
    if primeCount >= 1 {
      counters := counters.(atLeastOnePrime := counters.atLeastOnePrime + 1);
    }
  }

  /** The loop of the script: walks the archive twin pairs below limit and
      updates the default-dictionary counters in place. */
  method TestConjectureQuadOffsets(limit: int) returns (results: Results)
    ensures results == Tally(ArchiveTwins.TwinPrimes(limit))
    ensures Consistent(results)
  {
    var pairs := ArchiveTwins.TwinPrimes(limit);
    results := Initial;
    for i := 0 to |pairs|
      invariant results == Tally(pairs[..i])
    {
      assert pairs[..i + 1][..i] == pairs[..i];
      ghost var before := results;
      var p := pairs[i].first;
      if p == 3 {
        StepSkips(results, pairs[i]);
        continue;
      }
      var lastDigit := p % 10;
      var category: Option<Category> := None;
      if lastDigit == 1 {
        category := Some(Ends13);
      } else if lastDigit == 7 {
        category := Some(Ends79);
      } else if lastDigit == 9 {
        category := Some(Ends91);
      }
      if category.None? {
        StepSkips(results, pairs[i]);
        continue;
      }
      var c := category.value;
      assert InCategory(p, c);
      var counters := if c in results.categories then results.categories[c] else Zero;
      results := results.(totalTwinPrimePairs := results.totalTwinPrimePairs + 1);
      var q1 := 2 * p + 1;
      var q2 := 2 * p + 7;
      var q3 := 2 * p - 3;
      var q4 := 2 * p + 3;
      var isQ1Prime := IsPrime(q1);
      var isQ2Prime := IsPrime(q2);
      var isQ3Prime := IsPrime(q3);
      var isQ4Prime := IsPrime(q4);
      var primeCount := Bit(isQ1Prime) + Bit(isQ2Prime) + Bit(isQ3Prime) + Bit(isQ4Prime);
      counters := RecordPair(counters, primeCount);
      results := results.(categories := results.categories[c := counters]);
      StepRecords(before, pairs[i], c);
    }
    assert pairs[..|pairs|] == pairs;
    TallyConsistent(pairs);
  }
}
