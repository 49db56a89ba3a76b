/**
  The prime test and the range scan of Assignment-2/Program1.java. The
  threads, the executor and the printing are left out; what each worker
  computes before printing is `PrimesInRange`.
*/
module PrimeFinder {
  import opened Arithmetic

  /** The textbook definition: greater than 1, and no divisor strictly between 1 and itself. */
  ghost predicate Prime(n: int)
  {
    n > 1 && forall d :: 2 <= d < n ==> n % d != 0
  }

  /**
    The loop of `isPrime` from the odd candidate `i` on: false as soon as
    some candidate with `i * i <= n` divides `n`. The source's bound
    `i <= Math.sqrt(number)` is `i * i <= n` for integers.
  */
  function NoOddDivisorFrom(n: int, i: int): (r: bool)
    requires i >= 3
    ensures !r ==> exists d :: i <= d && d * d <= n && n % d == 0
    decreases n - i
  {
    if i * i > n then true
    else if n % i == 0 then false
    else
      assert i <= n by { MulAtLeast(i, i, 3); }
      NoOddDivisorFrom(n, i + 2)
  }

  /** `isPrime`: holds exactly of the primes. */
  function IsPrime(number: int): (r: bool)
    ensures r <==> Prime(number)
  {
    TrialDivisionCorrect(number);
    if number <= 1 then false
    else if number == 2 then true
    else if number % 2 == 0 then false
    else NoOddDivisorFrom(number, 3)
  }

  // ---------------------------------------------------------------------
  // Arithmetic helpers
  // ---------------------------------------------------------------------

  /** A divisor `d` of `n` in [2, n) has a cofactor that is also a divisor in [2, n). */
  lemma Cofactor(n: int, d: int) returns (e: int)
    requires 2 <= d < n && n % d == 0
    ensures d * e == n && 2 <= e < n && n % e == 0
  {
    e := n / d;
    assert n == d * e;
    assert d * e >= 2 * e by { MulAtLeast(e, d, 2); }
    MultipleMod(d, e);
  }

  /** A number with an even divisor is even. */
  lemma EvenDivisorMakesEven(n: int, d: int)
    requires d > 0 && d % 2 == 0 && n % d == 0
    ensures n % 2 == 0
  {
    var q, h := n / d, d / 2;
    assert n == (h * q) * 2 by {
      assert d == h * 2;
      assert n == d * q;
    }
    MultipleMod(h * q, 2);
  }

  // ---------------------------------------------------------------------
  // Correctness of trial division
  // ---------------------------------------------------------------------

  /** A prime passes every remaining trial. */
  lemma {:induction false} PrimePassesTrials(n: int, i: int)
    requires Prime(n) && i >= 3
    ensures NoOddDivisorFrom(n, i)
    decreases n - i
  {
    if i * i <= n {
      MulAtLeast(i, i, 3);
      PrimePassesTrials(n, i + 2);
    }
  }

  /** Once `i * i > n`, a divisor at or above `i` would have a cofactor below `i`. */
  lemma NoDivisorAboveRoot(n: int, i: int)
    requires n > 2 && i >= 2 && i * i > n
    requires forall d :: 2 <= d < i ==> n % d != 0
    ensures Prime(n)
  {
    forall d | i <= d < n
      ensures n % d != 0
    {
      if n % d == 0 {
        var e := Cofactor(n, d);
        if e >= i {
          MulAtLeast(e, d, i);
          MulAtLeast(i, e, i);
          assert false;
        }
        assert false;
      }
    }
  }

  /**
    An odd `n` with no divisor below the odd candidate `i` that passes the
    remaining trials is prime.
  */
  lemma {:induction false} TrialsShowPrime(n: int, i: int)
    requires n > 2 && n % 2 == 1 && i >= 3 && i % 2 == 1
    requires forall d :: 2 <= d < i ==> n % d != 0
    requires NoOddDivisorFrom(n, i)
    ensures Prime(n)
    decreases n - i
  {
    if i * i > n {
      NoDivisorAboveRoot(n, i);
    } else {
      TrialStep(n, i);
      NextCandidate(n, i);
      TrialsShowPrime(n, i + 2);
    }
  }

  /** A candidate within the bound that passes the trials is no divisor, and the trials go on from the next odd one. */
  lemma TrialStep(n: int, i: int)
    requires i >= 3 && i * i <= n && NoOddDivisorFrom(n, i)
    ensures n % i != 0 && NoOddDivisorFrom(n, i + 2) && i + 2 <= n
  {
    MulAtLeast(i, i, 3);
  }

  /** An odd `n` with no divisor below `i` and none at `i` has none below `i + 2`. */
  lemma NextCandidate(n: int, i: int)
    requires n % 2 == 1 && i % 2 == 1 && i >= 3 && n % i != 0
    requires forall d :: 2 <= d < i ==> n % d != 0
    ensures forall d :: 2 <= d < i + 2 ==> n % d != 0
  {
    forall d | 2 <= d < i + 2
      ensures n % d != 0
    {
      if d == i + 1 && n % d == 0 {
        EvenDivisorMakesEven(n, d);
        assert false;
      }
    }
  }

  /** The branches of `isPrime` together decide primality. */
  lemma TrialDivisionCorrect(number: int)
    ensures (if number <= 1 then false
             else if number == 2 then true
             else if number % 2 == 0 then false
             else NoOddDivisorFrom(number, 3)) <==> Prime(number)
  {
    if number > 2 && number % 2 == 1 {
      if NoOddDivisorFrom(number, 3) {
        TrialsShowPrime(number, 3);
      }
      if Prime(number) {
        PrimePassesTrials(number, 3);
      }
    } else if number > 2 {
      assert number % 2 == 0 && 2 < number;
    }
  }

  /** The facts `isPrime` is written to state outright. */
  lemma IsPrimeBasics(n: int)
    ensures n <= 1 ==> !IsPrime(n)
    ensures IsPrime(2)
    ensures n > 2 && n % 2 == 0 ==> !IsPrime(n)
  {
  }

  // ---------------------------------------------------------------------
  // The range scan of PrimeThread.run / PrimeRunnable.run
  // ---------------------------------------------------------------------

  /** The primes in [startRange, endRange], in strictly ascending order. */
  method PrimesInRange(startRange: int, endRange: int) returns (primes: seq<int>)
    ensures forall p :: p in primes <==> startRange <= p <= endRange && Prime(p)
    ensures forall i, j :: 0 <= i < j < |primes| ==> primes[i] < primes[j]
    ensures startRange > endRange ==> primes == []
  {
    primes := [];
    var i := startRange;
    while i <= endRange
      invariant startRange <= i
      invariant startRange <= endRange ==> i <= endRange + 1
      invariant startRange > endRange ==> i == startRange
      invariant forall p :: p in primes <==> startRange <= p < i && Prime(p)
      invariant forall k :: 0 <= k < |primes| ==> primes[k] < i
      invariant forall k, l :: 0 <= k < l < |primes| ==> primes[k] < primes[l]
    {
      if IsPrime(i) {
        primes := primes + [i];
      }
      i := i + 1;
    }
    if primes != [] {
      assert primes[0] in primes;
    }
  }
}
