/** The last-digit categories both counting scripts sort twin pairs into, and the
    rule that decides which pairs are skipped. */
module LastDigit {
  import opened NumberTheory

  datatype Option<T> = None | Some(value: T)

  /** (1,3), (7,9) and (9,1) ending pairs, named after the last digits of p and p + 2. */
  datatype Category = Ends13 | Ends79 | Ends91

  /** The category chosen from p % 10; any other last digit has none. */
  function CategoryOf(p: int): Option<Category> {
    var lastDigit := p % 10;
    if lastDigit == 1 then Some(Ends13)
    else if lastDigit == 7 then Some(Ends79)
    else if lastDigit == 9 then Some(Ends91)
    else None
  }

  /** A pair with first member p lands in category c: p is not the explicitly
      skipped 3 and its last digit selects c. */
  predicate InCategory(p: int, c: Category) {
    p != 3 && CategoryOf(p) == Some(c)
  }

  /** A pair is counted at all: it lands in one of the three categories. */
  predicate Classified(p: int) {
    p != 3 && CategoryOf(p).Some?
  }

  /** How many pairs of ps land in category c. */
  function CountCategory(ps: seq<TwinPair>, c: Category): nat
    decreases |ps|
  {
    if ps == [] then 0
    else CountCategory(ps[..|ps| - 1], c) + (if InCategory(ps[|ps| - 1].first, c) then 1 else 0)
  }

  /** How many pairs of ps are classified at all. */
  function CountClassified(ps: seq<TwinPair>): nat
    decreases |ps|
  {
    if ps == [] then 0
    else CountClassified(ps[..|ps| - 1]) + (if Classified(ps[|ps| - 1].first) then 1 else 0)
  }

  /** The three categories partition the classified pairs. */
  lemma {:induction false} CategoriesPartition(ps: seq<TwinPair>)
    ensures CountClassified(ps)
         == CountCategory(ps, Ends13) + CountCategory(ps, Ends79) + CountCategory(ps, Ends91)
    decreases |ps|
  {
    if ps != [] {
      CategoriesPartition(ps[..|ps| - 1]);
    }
  }

  /** An odd number with neither it nor its successor-but-one divisible by 5
      ends in 1, 7 or 9: each other last digit makes p even, p a multiple of 5
      (digit 5) or p + 2 a multiple of 5 (digit 3). */
  lemma TwinLastDigit(p: int)
    ensures p % 2 == 1 && p % 5 != 0 && (p + 2) % 5 != 0 ==> p % 10 == 1 || p % 10 == 7 || p % 10 == 9
  {
    var q, lastDigit := p / 10, p % 10;
    assert p == 10 * q + lastDigit && 0 <= lastDigit < 10;
    if lastDigit % 2 == 0 {
      assert p == 2 * (5 * q + lastDigit / 2);
      MultipleMod(2, 5 * q + lastDigit / 2);
    } else if lastDigit == 5 {
      assert p == 5 * (2 * q + 1);
      MultipleMod(5, 2 * q + 1);
    } else if lastDigit == 3 {
      assert p + 2 == 5 * (2 * q + 1);
      MultipleMod(5, 2 * q + 1);
    }
  }

  /** A prime above 5 is odd and not a multiple of 5. */
  lemma PrimeAboveFive(n: int)
    requires IsPrime(n) && n > 5
    ensures n % 2 == 1 && n % 5 != 0
  {
  }

  /** Among twin pairs the skip rule drops exactly (3, 5) and (5, 7): the explicit
      test removes p = 3, and the missing category removes p = 5, whose last
      digit is 5. Every other twin prime p ends in 1, 7 or 9. */
  lemma SkippedTwinPairs(p: int)
    requires IsPrime(p) && IsPrime(p + 2)
    ensures !Classified(p) <==> p == 3 || p == 5
  {
    if p != 3 && p != 5 {
      assert p != 2 && p != 4 by {
        assert 4 % 2 == 0;
      }
      PrimeAboveFive(p);
      PrimeAboveFive(p + 2);
      TwinLastDigit(p);
    }
  }
}
