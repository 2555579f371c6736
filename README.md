# Twin primes and their offsets, in Dafny

A model of the experiment scripts in the twin-primes-offsets repository. They
enumerate twin-prime pairs (p, p + 2) below a limit. For each pair they test
small linear transforms of p for primality: 2p + 1, 2p + 3, 2p + 7 and 2p - 3.
They then either tally the outcomes per last-digit category of p, or collect
the primes they find in a set.

The model has seven modules, one per concept of the source:

- `NumberTheory` — the predicate `IsPrime` and divisibility lemmas. `IsPrime`
  stands both for the hand-written test and for the library `isprime` call.
- `GenerateTwinPrimes` — the stand-alone enumerator `generate_twin_primes.py`.
  It has:
  - `IsPrimeWheel`, the 6k±1 trial-division test, as a method with a loop.
    It is proved to decide `IsPrime` for every integer.
  - `TwinPrimes`, the odd scan from 3, as a method with a loop. It is proved
    to produce `OddScan(3, limit)`.
- `ArchiveTwins` — the `twin_primes` comprehension that the three archive
  scripts share word for word. It filters `primerange(2, limit)`, which is
  modelled by `PrimeRange`, the ascending primes in [lo, hi).
- `LastDigit` — the last-digit category of p, which both counting scripts
  compute: (1,3), (7,9) or (9,1). It also holds the skip rule.
- `ConjectureV2` — `archive/2p_plus_1_and_3.py`. It counts outcomes for q1 = 2p + 1
  and q2 = 2p + 3 in a dictionary whose three categories exist from the start.
- `QuadOffsets` — `archive/2p_all_4offsets.py`. It keeps a histogram of how many
  of the four offsets are prime, per category, in a dictionary with default
  values.
- `UniquePrimes` — `archive/unique_primes_4offsets.py`. It keeps the set of
  distinct prime offsets and counts the pairs.

## How the loops are modelled

Each counting loop is a method that works in place on its state: the results
record, the per-category counters, or the set. Each method is proved against a
fold function (`Tally` or `Found`) that walks the same pairs and recurses on
the last element. The loop invariant is `state == Fold(pairs[..i])`, and the
method's `ensures` is `state == Fold(pairs)`. Lemmas about the fold carry what
the scripts promise:

- the partition sums
- at-least-one = count - none
- total = sum of the category counts
- what each counter counts
- the set's membership and size bound

## Two enumerators

The stand-alone scan and the archive comprehension differ at the upper end.
The scan tests every odd p < limit and may return a pair whose p + 2 reaches
or passes the limit: limit 4 gives (3, 5). The comprehension requires
p + 2 <= limit. `ArchiveTwins.TwinPrimesMatchesScan` proves the exact relation:
the archive `twin_primes(limit)` equals the scan with limit - 1.

## The skip rule

The counting scripts skip p = 3 explicitly. Their comment says (3, 5) is the
only twin pair outside the three categories. The last-digit test also drops
(5, 7), because 5 ends in 5. `LastDigit.SkippedTwinPairs` proves that among
twin pairs exactly p = 3 and p = 5 are skipped. The model follows the code, so
(5, 7) contributes to no counter and not to the total. The unique-primes script
skips nothing, and `UniquePrimes.ThreeFiveCounted` shows that (3, 5)
contributes its offsets 3, 7 and 13.

## Model

| member | source | states |
|---|---|---|
| NumberTheory.NoSmallFactorIsPrime | generate_twin_primes.py:9-13 | trial division may stop once i * i > n: no divisor in [2, i) then means n is prime |
| GenerateTwinPrimes.WheelShortcuts | generate_twin_primes.py:2-7 | the early answers are right: nothing below 2 (zero and negatives included) is prime, 2 and 3 are prime, and no n > 3 divisible by 2 or 3 is prime |
| GenerateTwinPrimes.WheelStep | generate_twin_primes.py:9-12 | one round of the wheel keeps the loop invariant: if neither i nor i + 2 divides n, and n is coprime to 6, then no d in [2, i + 6) divides n |
| GenerateTwinPrimes.WheelBounds | generate_twin_primes.py:9-12 | while i * i <= n, both trial divisors lie strictly between 1 and n, and i + 6 stays congruent to 5 modulo 6 |
| GenerateTwinPrimes.IsPrimeWheel | generate_twin_primes.py:1-13 | returns true exactly when n is prime, for every integer; the loop keeps i ≡ 5 (mod 6) and no divisor in [2, i), and it terminates |
| GenerateTwinPrimes.TwinPrimes | generate_twin_primes.py:15-20 | the scan over odd p from 3 to below limit appends exactly the pairs of `OddScan(3, limit)`, in order |
| GenerateTwinPrimes.OddScanSound | generate_twin_primes.py:15-19 | every pair is (q, q + 2) with q and q + 2 prime, start <= q < limit and q of the start's parity; q + 2 may reach or pass the limit |
| GenerateTwinPrimes.OddScanIncreasing | generate_twin_primes.py:17-19 | first components come out strictly increasing |
| GenerateTwinPrimes.OddScanComplete | generate_twin_primes.py:17-19 | every q in [start, limit) of the start's parity with q and q + 2 prime appears |
| GenerateTwinPrimes.OddScanSmallLimits | generate_twin_primes.py:17 | limit <= 3 gives no pairs; limit 4 already gives (3, 5); limit 10 gives (3, 5) and (5, 7) |
| ArchiveTwins.PrimeRange | archive/2p_plus_1_and_3.py:10 | the library range holds exactly the primes in [lo, hi), strictly ascending |
| ArchiveTwins.KeepTwins | archive/2p_plus_1_and_3.py:15 | (p, p + 2) is kept exactly when p is in the input, p + 2 is prime and p + 2 <= limit |
| ArchiveTwins.TwinPrimes | archive/2p_plus_1_and_3.py:3-15 | a pair is returned exactly when p and p + 2 are prime and p + 2 <= limit |
| ArchiveTwins.KeepTwinsAppend | archive/2p_plus_1_and_3.py:15 | the comprehension distributes over concatenation of its input list |
| ArchiveTwins.KeepTwinsMatchesScan | archive/2p_plus_1_and_3.py:10-15 | from an odd start lo >= 3, filtering the prime range below limit equals the odd scan below limit - 1 |
| ArchiveTwins.TwinPrimesMatchesScan | archive/2p_all_4offsets.py:4-13 | the archive enumerator at limit equals the stand-alone scan at limit - 1 |
| ArchiveTwins.TwinPrimesIncreasing | archive/unique_primes_4offsets.py:16-20 | the pairs come out in strictly ascending order of p |
| ArchiveTwins.TwinPrimesSmallLimits | archive/unique_primes_4offsets.py:16-20 | below 5 there are no pairs; from 5 on the first pair is (3, 5) |
| LastDigit.CategoriesPartition | archive/2p_plus_1_and_3.py:65-72 | the three categories partition the classified pairs: their counts add up to the number of classified pairs |
| LastDigit.SkippedTwinPairs | archive/2p_plus_1_and_3.py:59-76 | for a twin pair, p is skipped (p = 3, or last digit not 1, 7 or 9) exactly when p is 3 or 5 |
| ConjectureV2.RecordEffect | archive/2p_plus_1_and_3.py:79-101 | recording a pair adds one to the count, keeps the counters balanced, and adds one to exactly the counter of the pair's outcome |
| ConjectureV2.StepRecords | archive/2p_plus_1_and_3.py:78-101 | a classified pair adds one to the total and updates only its own category's counters |
| ConjectureV2.StepSkips | archive/2p_plus_1_and_3.py:59-76 | p = 3, or a p with no category, leaves the results unchanged |
| ConjectureV2.UpdateConsistent | archive/2p_plus_1_and_3.py:79-80 | storing balanced counters one count higher, with the total one higher, keeps the results consistent |
| ConjectureV2.StepConsistent | archive/2p_plus_1_and_3.py:58-101 | one loop iteration keeps the results consistent |
| ConjectureV2.TallyConsistent | archive/2p_plus_1_and_3.py:29-101 | after any pairs, per category both + only-q1 + only-q2 + neither = count and at-least-one = both + only-q1 + only-q2 = count - neither; the total is the sum of the three counts |
| ConjectureV2.TallyCounts | archive/2p_plus_1_and_3.py:79-80 | the total is the number of classified pairs, and each category's count is the number of pairs in it |
| ConjectureV2.TallyOutcomes | archive/2p_plus_1_and_3.py:83-101 | each outcome counter counts the pairs of its category with that primality pattern: both-prime when 2p + 1 and 2p + 3 are prime, only-q2 when only 2p + 3 is, and so on |
| ConjectureV2.SkippedPairUntouched | archive/2p_plus_1_and_3.py:61-76 | appending an unclassified pair leaves every counter and the total as they were |
| ConjectureV2.RecordPair | archive/2p_plus_1_and_3.py:79-101 | the in-place counter updates for one pair produce the recorded counters |
| ConjectureV2.TestConjectureV2 | archive/2p_plus_1_and_3.py:17-103 | the returned dictionary is the fold over the archive pairs below limit, and it is consistent |
| QuadOffsets.PrimeCountRange | archive/2p_all_4offsets.py:67-79 | the prime count of 2p + 1, 2p + 7, 2p - 3 and 2p + 3 is at most 4; it is 0 exactly when none is prime and 4 exactly when all are |
| QuadOffsets.RecordBalanced | archive/2p_all_4offsets.py:63-94 | recording a pair adds one to the count and keeps the five buckets summing to the count, with at-least-one = count - none |
| QuadOffsets.RecordBucket | archive/2p_all_4offsets.py:81-91 | recording a pair adds one to exactly the bucket of its prime count |
| QuadOffsets.UpdateConsistent | archive/2p_all_4offsets.py:63-64 | storing balanced counters one above the defaulted count, with the total one higher, keeps the results consistent |
| QuadOffsets.StepRecords | archive/2p_all_4offsets.py:42-94 | a classified pair adds one to the total and updates only its own category, starting from the default when the category is absent |
| QuadOffsets.StepSkips | archive/2p_all_4offsets.py:45-60 | p = 3, or a p with no category, leaves the results unchanged |
| QuadOffsets.StepConsistent | archive/2p_all_4offsets.py:42-94 | one loop iteration keeps the results consistent |
| QuadOffsets.TallyConsistent | archive/2p_all_4offsets.py:29-96 | after any pairs, every present category has its buckets summing to its count and at-least-one = count - none; the total is the sum of the three (defaulted) counts |
| QuadOffsets.TallyKeys | archive/2p_all_4offsets.py:30-39 | a category is present exactly when some pair landed in it; an absent one reads as all-zero counters |
| QuadOffsets.TallyCounts | archive/2p_all_4offsets.py:63-64 | the total is the number of classified pairs, and each category's count is the number of pairs in it |
| QuadOffsets.TallyBuckets | archive/2p_all_4offsets.py:66-91 | each bucket counts the pairs of its category with exactly that many prime offsets |
| QuadOffsets.SkippedPairUntouched | archive/2p_all_4offsets.py:45-60 | appending an unclassified pair leaves the results as they were |
| QuadOffsets.RecordPair | archive/2p_all_4offsets.py:63-94 | the in-place counter updates for one pair produce the recorded counters |
| QuadOffsets.TestConjectureQuadOffsets | archive/2p_all_4offsets.py:15-96 | the returned dictionary is the fold over the archive pairs below limit, and it is consistent |
| UniquePrimes.AddOffsetPrimesEffect | archive/unique_primes_4offsets.py:56-70 | after one pair, q is in the set exactly when it was there before or is a prime offset of p; the set grows by at most four |
| UniquePrimes.AddIfPrimeSize | archive/unique_primes_4offsets.py:63-70 | one guarded addition grows the set by at most one |
| UniquePrimes.AddIfPrimePresent | archive/unique_primes_4offsets.py:63-70 | adding a q already in the set leaves it unchanged |
| UniquePrimes.FoundMembers | archive/unique_primes_4offsets.py:49-70 | the final set is exactly the primes among 2p + 1, 2p + 7, 2p - 3 and 2p + 3 over all pairs |
| UniquePrimes.FoundPrime | archive/unique_primes_4offsets.py:63-70 | every element of the set is prime |
| UniquePrimes.FoundBound | archive/unique_primes_4offsets.py:63-72 | the set holds at most four elements per pair |
| UniquePrimes.RepeatedPair | archive/unique_primes_4offsets.py:49-70 | walking a pair again leaves the set unchanged, so the result does not depend on how often an offset recurs |
| UniquePrimes.AddPairOffsets | archive/unique_primes_4offsets.py:56-70 | the in-place guarded additions for one pair produce the same set as the specification of one pair's additions |
| UniquePrimes.TestUniquePrimesFromOffsets | archive/unique_primes_4offsets.py:22-72 | returns the size of the set folded over the archive pairs and the number of pairs, and the first is at most four times the second |
| UniquePrimes.SmallLimits | archive/unique_primes_4offsets.py:42-72 | below 5 the script returns (0, 0) |
| UniquePrimes.ThreeFiveCounted | archive/unique_primes_4offsets.py:49-70 | from limit 5 on, (3, 5) is walked, with no skip, and contributes 3, 7 and 13 to the set |

## Left out

- The internals of the library calls `isprime` and `primerange`. They are specified by their mathematical meaning: `IsPrime`, and `PrimeRange` as the ascending primes in [lo, hi).
- The console output: every `__main__` block, and the module-level example at generate_twin_primes.py:22-27 that prints the twin pairs below 1000.
- The percentage lines of the reports, e.g. archive/2p_plus_1_and_3.py:117-121 and archive/2p_all_4offsets.py:113-118. They are floating-point division and string formatting. The two-offset report divides by a category's count without a guard, so an empty category would raise. The four-offset report prints only categories whose count is positive.
- The default argument `limit=1_000_000`, and running time. Each method takes the limit as a parameter.
- The source keeps `total_twin_prime_pairs` as one more key of the results dictionary, next to the category keys. The model keeps it as a separate field of the results record. Only the printing code iterates over the mixed keys.
- Python integers are unbounded, like Dafny's `int`, so no overflow is modelled.
- The scripts `7offsets_all primes found and unique.py`, `7offsets_cumulative and exact success.py` and `7offsets_offset success by digit.py` are not part of this model.
