/** The two-offset experiment: for every twin pair (p, p + 2) below the limit,
    test whether q1 = 2p + 1 and q2 = 2p + 3 are prime, and count the outcomes
    per last-digit category of p. */
module ConjectureV2 {
  import opened NumberTheory
  import opened LastDigit
  import ArchiveTwins

  /** The counters kept for one category. */
  datatype Counters = Counters(
    count: nat,
    bothPrime: nat,
    onlyQ1Prime: nat,
    onlyQ2Prime: nat,
    neitherPrime: nat,
    atLeastOnePrime: nat)

  const Zero := Counters(0, 0, 0, 0, 0, 0)

  /** The results dictionary: the overall total and one counter record per category. */
  datatype Results = Results(totalTwinPrimePairs: nat, categories: map<Category, Counters>)

  /** All three categories are present from the start, every counter at zero. */
  const Initial := Results(0, map[Ends13 := Zero, Ends79 := Zero, Ends91 := Zero])

  function Q1(p: int): int { 2 * p + 1 }
  function Q2(p: int): int { 2 * p + 3 }

  /** The four mutually exclusive outcomes for a pair. */
  datatype Outcome = Both | OnlyQ1 | OnlyQ2 | Neither

  /** Which primality pattern of (q1, q2) an outcome stands for. */
  predicate HasOutcome(p: int, o: Outcome) {
    match o
    case Both => IsPrime(Q1(p)) && IsPrime(Q2(p))
    case OnlyQ1 => IsPrime(Q1(p)) && !IsPrime(Q2(p))
    case OnlyQ2 => !IsPrime(Q1(p)) && IsPrime(Q2(p))
    case Neither => !IsPrime(Q1(p)) && !IsPrime(Q2(p))
  }

  /** Record one classified pair in its category's counters: the count, then one
      branch of the if/elif chain on the primality of q1 and q2. */
  function Record(k: Counters, p: int): Counters {
    var k' := k.(count := k.count + 1);
    if IsPrime(Q1(p)) && IsPrime(Q2(p)) then
      k'.(bothPrime := k'.bothPrime + 1, atLeastOnePrime := k'.atLeastOnePrime + 1)
    else if IsPrime(Q1(p)) then
      k'.(onlyQ1Prime := k'.onlyQ1Prime + 1, atLeastOnePrime := k'.atLeastOnePrime + 1)
    else if IsPrime(Q2(p)) then
      k'.(onlyQ2Prime := k'.onlyQ2Prime + 1, atLeastOnePrime := k'.atLeastOnePrime + 1)
    else
      k'.(neitherPrime := k'.neitherPrime + 1)
  }

  /** Every category has its record in the dictionary. */
  predicate HasAllCategories(res: Results) {
    Ends13 in res.categories && Ends79 in res.categories && Ends91 in res.categories
  }

  /** One iteration of the loop: skip p = 3, skip a p without a category,
      otherwise bump the total and record the pair in its category. */
  function Step(res: Results, t: TwinPair): Results
    requires HasAllCategories(res)
  {
    var p := t.first;
    if p == 3 then res
    else match CategoryOf(p)
      case None => res
      case Some(c) =>
        Results(res.totalTwinPrimePairs + 1, res.categories[c := Record(res.categories[c], p)])
  }

  /** The results after the loop has walked over ps. The dictionary keeps
      every category key. */
  function Tally(ps: seq<TwinPair>): (res: Results)
    ensures HasAllCategories(res)
    decreases |ps|
  {
    if ps == [] then Initial else Step(Tally(ps[..|ps| - 1]), ps[|ps| - 1])
  }

  /** Within one category the four outcomes partition the count, and
      at-least-one is everything except neither. */
  predicate Balanced(k: Counters) {
    && k.bothPrime + k.onlyQ1Prime + k.onlyQ2Prime + k.neitherPrime == k.count
    && k.atLeastOnePrime == k.bothPrime + k.onlyQ1Prime + k.onlyQ2Prime
    && k.atLeastOnePrime == k.count - k.neitherPrime
  }

  /** The bookkeeping invariants of the results dictionary: every category is
      present and balanced, and the total is the sum of the category counts. */
  predicate Consistent(res: Results) {
    && HasAllCategories(res)
    && Balanced(res.categories[Ends13])
    && Balanced(res.categories[Ends79])
    && Balanced(res.categories[Ends91])
    && res.totalTwinPrimePairs
       == res.categories[Ends13].count + res.categories[Ends79].count + res.categories[Ends91].count
  }

  /** The counter that an outcome increments. */
  function OutcomeCounter(k: Counters, o: Outcome): nat {
    match o
    case Both => k.bothPrime
    case OnlyQ1 => k.onlyQ1Prime
    case OnlyQ2 => k.onlyQ2Prime
    case Neither => k.neitherPrime
  }

  /** How many pairs of ps land in category c with outcome o. */
  function CountOutcome(ps: seq<TwinPair>, c: Category, o: Outcome): nat
    decreases |ps|
  {
    if ps == [] then 0
    else
      var p := ps[|ps| - 1].first;
      CountOutcome(ps[..|ps| - 1], c, o) + (if InCategory(p, c) && HasOutcome(p, o) then 1 else 0)
  }

  /** Recording a pair adds one to the count, keeps the counters balanced, and
      bumps exactly the counter of the pair's outcome. */
  lemma RecordEffect(k: Counters, p: int, o: Outcome)
    requires Balanced(k)
    ensures Record(k, p).count == k.count + 1
    ensures Balanced(Record(k, p))
    ensures OutcomeCounter(Record(k, p), o) == OutcomeCounter(k, o) + (if HasOutcome(p, o) then 1 else 0)
  {
  }

  /** A classified pair bumps the total and replaces its category's record by
      the recorded one; nothing else changes. */
  lemma StepRecords(res: Results, t: TwinPair, c: Category)
    requires HasAllCategories(res) && InCategory(t.first, c)
    ensures Step(res, t)
         == Results(res.totalTwinPrimePairs + 1, res.categories[c := Record(res.categories[c], t.first)])
  {
  }

  /** A pair that is not classified (p = 3, or a last digit outside 1, 7, 9)
      leaves the results as they were. */
  lemma StepSkips(res: Results, t: TwinPair)
    requires HasAllCategories(res) && !Classified(t.first)
    ensures Step(res, t) == res
  {
  }

  /** Storing a balanced record one above the old count, together with one more
      in the total, keeps the results consistent. */
  lemma UpdateConsistent(res: Results, c: Category, k: Counters)
    requires Consistent(res) && Balanced(k) && k.count == res.categories[c].count + 1
    ensures Consistent(Results(res.totalTwinPrimePairs + 1, res.categories[c := k]))
  {
  }

  /** One loop iteration keeps the results consistent. */
  lemma StepConsistent(res: Results, t: TwinPair)
    requires Consistent(res)
    ensures Consistent(Step(res, t))
  {
    if Classified(t.first) {
      var c := CategoryOf(t.first).value;
      RecordEffect(res.categories[c], t.first, Both);
      UpdateConsistent(res, c, Record(res.categories[c], t.first));
      StepRecords(res, t, c);
    } else {
      StepSkips(res, t);
    }
  }

  /** Whatever the pairs, the loop keeps the results consistent: per category
      both + only-q1 + only-q2 + neither = count and at-least-one = count -
      neither, and the total is the sum of the three counts. */
  lemma {:induction false} TallyConsistent(ps: seq<TwinPair>)
    ensures Consistent(Tally(ps))
    decreases |ps|
  {
    if ps != [] {
      TallyConsistent(ps[..|ps| - 1]);
      StepConsistent(Tally(ps[..|ps| - 1]), ps[|ps| - 1]);
    }
  }

  /** The count of a category is the number of pairs in it, and the total the
      number of classified pairs. */
  lemma {:induction false} TallyCounts(ps: seq<TwinPair>, c: Category)
    ensures Tally(ps).totalTwinPrimePairs == CountClassified(ps)
    ensures Tally(ps).categories[c].count == CountCategory(ps, c)
    decreases |ps|
  {
    if ps != [] {
      var prefix, t := ps[..|ps| - 1], ps[|ps| - 1];
      TallyCounts(prefix, c);
      if Classified(t.first) {
        StepRecords(Tally(prefix), t, CategoryOf(t.first).value);
      } else {
        StepSkips(Tally(prefix), t);
      }
    }
  }

  /** Each outcome counter counts the pairs of its category whose transforms
      show that primality pattern: both-prime exactly when 2p + 1 and 2p + 3
      are both prime, only-q2 exactly when 2p + 3 is prime and 2p + 1 is not. */
  lemma {:induction false} TallyOutcomes(ps: seq<TwinPair>, c: Category, o: Outcome)
    ensures OutcomeCounter(Tally(ps).categories[c], o) == CountOutcome(ps, c, o)
    decreases |ps|
  {
    if ps != [] {
      var prefix, t := ps[..|ps| - 1], ps[|ps| - 1];
      TallyOutcomes(prefix, c, o);
      var before := Tally(prefix);
      if Classified(t.first) {
        var c' := CategoryOf(t.first).value;
        StepRecords(before, t, c');
        if c' == c {
          TallyConsistent(prefix);
          RecordEffect(before.categories[c], t.first, o);
        } else {
          assert !InCategory(t.first, c);
        }
      } else {
        StepSkips(before, t);
        assert !InCategory(t.first, c);
      }
    }
  }

  /** A pair that is not classified (p = 3, or a last digit outside 1, 7, 9,
      which among twin pairs is only p = 5) touches no counter. */
  lemma SkippedPairUntouched(ps: seq<TwinPair>, t: TwinPair)
    requires !Classified(t.first)
    ensures Tally(ps + [t]) == Tally(ps)
  {
    assert (ps + [t])[..|ps|] == ps;
    StepSkips(Tally(ps), t);
  }

  /** The in-place updates for one classified pair: the count, then one branch
      of the if/elif chain on the primality of q1 and q2. */
  method RecordPair(k: Counters, p: int) returns (counters: Counters)
    ensures counters == Record(k, p)
  {
    counters := k.(count := k.count + 1);
    var q1 := 2 * p + 1;
    var q2 := 2 * p + 3;
    var isQ1Prime := IsPrime(q1);
    var isQ2Prime := IsPrime(q2);
    if isQ1Prime && isQ2Prime {
      counters := counters.(bothPrime := counters.bothPrime + 1);
      counters := counters.(atLeastOnePrime := counters.atLeastOnePrime + 1);
    } else if isQ1Prime {
      counters := counters.(onlyQ1Prime := counters.onlyQ1Prime + 1);
      counters := counters.(atLeastOnePrime := counters.atLeastOnePrime + 1);
    } else if isQ2Prime {
      counters := counters.(onlyQ2Prime := counters.onlyQ2Prime + 1);
      counters := counters.(atLeastOnePrime := counters.atLeastOnePrime + 1);
    } else {
      counters := counters.(neitherPrime := counters.neitherPrime + 1);
    }
  }

  /** The loop of the script: walks the archive twin pairs below limit and
      updates the results dictionary in place. */
  method TestConjectureV2(limit: int) returns (results: Results)
    ensures results == Tally(ArchiveTwins.TwinPrimes(limit))
    ensures Consistent(results)
  {
    var pairs := ArchiveTwins.TwinPrimes(limit);
    results := Initial;
    for i := 0 to |pairs|
      invariant results == Tally(pairs[..i])
    {
      assert pairs[..i + 1][..i] == pairs[..i];
      ghost var before := results;
      var p := pairs[i].first;
      if p == 3 {
        StepSkips(results, pairs[i]);
        continue;
      }
      var lastDigit := p % 10;
      var category: Option<Category> := None;
      if lastDigit == 1 {
        category := Some(Ends13);
      } else if lastDigit == 7 {
        category := Some(Ends79);
      } else if lastDigit == 9 {
        category := Some(Ends91);
      }
      if category.None? {
        StepSkips(results, pairs[i]);
        continue;
      }
      var c := category.value;
      assert InCategory(p, c);
      var counters := RecordPair(results.categories[c], p);
      results := results.(totalTwinPrimePairs := results.totalTwinPrimePairs + 1);
      results := results.(categories := results.categories[c := counters]);
      StepRecords(before, pairs[i], c);
    }
    assert pairs[..|pairs|] == pairs;
    TallyConsistent(pairs);
  }
}
