// get_prime: the size of a hash table of the assembler.
module Primes {

  ghost predicate Divides(d: nat, m: nat) {
    exists k: nat {:trigger d * k} :: m == d * k
  }

  ghost predicate IsPrime(p: nat) {
    p >= 2 && forall d {:trigger Divides(d, p)} :: 2 <= d < p ==> !Divides(d, p)
  }

  function Factorial(n: nat): (f: nat)
    ensures f >= 1
  {
    if n == 0 then 1 else n * Factorial(n - 1)
  }

  lemma MulAtLeast(d: int, t: int)
    requires d > 0 && t >= 1
    ensures d * t >= d
  {
  }

  lemma MulAtMost(d: int, t: int)
    requires d > 0 && t <= -1
    ensures d * t <= -d
  {
  }

  /** Only the multiple zero lies within one divisor of zero. */
  lemma SmallMultiple(d: int, t: int)
    requires d > 0 && -d < d * t < d
    ensures t == 0
  {
    if t >= 1 { MulAtLeast(d, t); }
    if t <= -1 { MulAtMost(d, t); }
  }

  lemma RemainderTells(d: nat, m: nat)
    requires d > 0
    ensures m % d == 0 <==> Divides(d, m)
  {
    var q := m / d;
    assert m == d * q + m % d;
    if Divides(d, m) {
      var k: nat :| m == d * k;
      assert d * (k - q) == d * k - d * q == m % d;
      SmallMultiple(d, k - q);
    }
  }

  lemma DividesProduct(d: nat, m: nat, n: nat)
    requires Divides(d, m)
    ensures Divides(d, n * m)
  {
    var k: nat :| m == d * k;
    assert n * m == d * (n * k);
  }

  lemma DividesDifference(d: nat, m: nat, n: nat)
    requires d > 0 && n <= m && Divides(d, m) && Divides(d, n)
    ensures Divides(d, m - n)
  {
    var j: nat :| m == d * j;
    var k: nat :| n == d * k;
    if j < k { MulAtMost(d, j - k); }
    assert m - n == d * (j - k);
  }

  lemma DividesTransitive(d: nat, e: nat, m: nat)
    requires Divides(d, e) && Divides(e, m)
    ensures Divides(d, m)
  {
    var k: nat :| m == e * k;
    DividesProduct(d, e, k);
  }

  lemma {:induction false} FactorialDivisible(n: nat, d: nat)
    requires 1 <= d <= n
    ensures Divides(d, Factorial(n))
  {
    if d == n {
      assert Factorial(n) == n * Factorial(n - 1);
    } else {
      FactorialDivisible(n - 1, d);
      DividesProduct(d, Factorial(n - 1), n);
    }
  }

  lemma NotOne(p: nat)
    requires p >= 2
    ensures !Divides(p, 1)
  {
    if Divides(p, 1) {
      var k: nat :| 1 == p * k;
      if k >= 1 { MulAtLeast(p, k); }
    }
  }

  /** The least divisor above one is prime. */
  lemma {:induction false} PrimeFactor(m: nat, from: nat) returns (p: nat)
    requires 2 <= from <= m && forall d {:trigger Divides(d, m)} :: 2 <= d < from ==> !Divides(d, m)
    ensures IsPrime(p) && p <= m && Divides(p, m)
    decreases m - from
  {
    assert m == m * 1;
    if Divides(from, m) {
      p := from;
      forall d | 2 <= d < p ensures !Divides(d, p) { SmallerDivides(d, p, m); }
    } else {
      p := PrimeFactor(m, from + 1);
    }
  }

  lemma SmallerDivides(d: nat, p: nat, m: nat)
    requires Divides(p, m) && !Divides(d, m)
    ensures !Divides(d, p)
  {
    if Divides(d, p) { DividesTransitive(d, p, m); }
  }

  /** There is a prime above every number. */
  lemma PrimeAbove(n: nat) returns (p: nat)
    ensures p > n && IsPrime(p)
  {
    p := PrimeFactor(Factorial(n) + 1, 2);
    NotOne(p);
    if p <= n {
      FactorialDivisible(n, p);
      DividesDifference(p, Factorial(n) + 1, Factorial(n));
    }
  }

  /** Where the search starts: an odd number a little above n. */
  function Start(n: nat): (s: nat)
    ensures s % 2 == 1 && n + 8 <= s <= n + 9
  {
    if n % 2 != 0 then n + 8 else n + 9
  }

  lemma EvenProduct(d: nat, k: nat)
    requires d % 2 == 0
    ensures (d * k) % 2 == 0
  {
    assert d * k == 2 * ((d / 2) * k);
  }

  /** The other factor of an odd number: odd too, and neither is above a third when the other is not one. */
  lemma OtherFactor(s: nat, d: nat) returns (k: nat)
    requires s % 2 == 1 && 2 <= d < s && Divides(d, s)
    ensures s == d * k && 3 <= k && k % 2 == 1 && d % 2 == 1 && d * 3 <= s && Divides(k, s)
  {
    k :| s == d * k;
    assert s == k * d;
    if d % 2 == 0 { EvenProduct(d, k); }
    if k % 2 == 0 { EvenProduct(k, d); }
    ThreeTimes(d, k);
  }

  lemma ThreeTimes(d: nat, k: nat)
    requires k >= 3
    ensures d * 3 <= d * k
  {
  }

  /** An odd number that is no prime has an odd divisor from 5 up to its half, unless it is nine. */
  lemma OddDivisor(s: nat) returns (d: nat)
    requires s % 2 == 1 && s > 9 && !IsPrime(s)
    ensures 5 <= d < s / 2 && d % 2 == 1 && Divides(d, s)
  {
    d :| 2 <= d < s && Divides(d, s);
    var k := OtherFactor(s, d);
    if d == 3 { d := k; }
  }

  lemma PrimeOdd(p: nat)
    requires IsPrime(p) && p > 2
    ensures p % 2 == 1
  {
    if p % 2 == 0 { HalfDivides(p); }
  }

  lemma HalfDivides(p: nat)
    requires p % 2 == 0
    ensures Divides(2, p)
  {
    assert p == 2 * (p / 2);
  }

  lemma EvenComposite(s: nat)
    requires s % 2 == 0 && s > 2
    ensures !IsPrime(s)
  {
    if IsPrime(s) { PrimeOdd(s); }
  }

  /** No prime from lo to hi. */
  ghost predicate NoPrime(lo: nat, hi: nat) {
    forall q {:trigger IsPrime(q)} :: lo <= q < hi ==> !IsPrime(q)
  }

  ghost predicate NoOddDivisor(s: nat, i: nat) {
    forall d {:trigger Divides(d, s)} :: 5 <= d < i && d % 2 == 1 ==> !Divides(d, s)
  }

  lemma Composite(lo: nat, s: nat, i: nat, p: nat)
    requires s % 2 == 1 && 3 <= i < s && Divides(i, s) && NoPrime(lo, s) && s <= p && IsPrime(p) && p > 2
    ensures NoPrime(lo, s + 2) && s + 2 <= p
  {
    EvenComposite(s + 1);
    PrimeOdd(p);
  }

  /** get_prime: it ends, and gives the least prime from Start(n) on, which is above n.  It is the smallest prime above
      n, as the assembler's documentation has it, exactly when no prime lies between n and the start of the search. */
  method GetPrime(n: nat) returns (s: nat)
    ensures IsPrime(s) && s % 2 == 1 && s >= Start(n) > n && NoPrime(Start(n), s)
    ensures s >= n + 8 && NoPrime(if n % 2 == 0 then n + 9 else n + 8, s)
    ensures NoPrime(n + 1, s) <==> NoPrime(n + 1, Start(n))
  {
    var i := 3;
    s := if n % 2 != 0 then n + 8 else n + 9;
    ghost var p := PrimeAbove(s);
    while i < s / 2
      invariant s % 2 == 1 && 9 <= Start(n) <= s <= p && i % 2 == 1 && 3 <= i && (s == 9 ==> i == 3)
      invariant NoPrime(Start(n), s) && NoOddDivisor(s, i)
      decreases p - s, s - i
    {
      RemainderTells(i, s);
      if s % i == 0 {
        Composite(Start(n), s, i, p);
        i := 3;
        s := s + 2;
      } else {
        OneMore(s, i);
      }
      i := i + 2;
    }
    Searched(s, i);
  }

  lemma OneMore(s: nat, i: nat)
    requires i % 2 == 1 && NoOddDivisor(s, i) && !Divides(i, s)
    ensures NoOddDivisor(s, i + 2)
  {
  }

  lemma Searched(s: nat, i: nat)
    requires s % 2 == 1 && s >= 9 && s / 2 <= i && (s == 9 ==> i == 3) && NoOddDivisor(s, i)
    ensures IsPrime(s)
  {
    if !IsPrime(s) { var d := OddDivisor(s); }
  }

  /** It is not for an empty table: two is prime. */
  lemma NotSmallest(s: nat)
    requires IsPrime(s) && s >= Start(0)
    ensures exists q :: 0 < q < s && IsPrime(q)
  {
    assert IsPrime(2);
  }
}
