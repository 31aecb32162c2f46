/** The primality test that every stage of the pipeline runs on the number it shows. */
module Prime {
  import opened Arith

  const UINT_RANGE: nat := 0x1_0000_0000

  /** The conversion of a C `int` to the `unsigned int` parameter of `isPrime`. */
  function ToUnsigned(v: int): (n: nat) {
    v % UINT_RANGE
  }

  predicate IsPrimeNumber(n: nat) {
    n >= 2 && forall d :: 2 <= d < n ==> n % d != 0
  }

  /** A divisor and its cofactor cannot both exceed the square root. */
  lemma SmallDivisor(n: nat, d: nat) returns (e: nat)
    requires 2 <= d < n && n % d == 0
    ensures 2 <= e && e * e <= n && n % e == 0
  {
    var q := n / d;
    assert n == q * d;
    assert q >= 2 by { MulMono(q, if q <= 1 then 1 else q, d); }
    if d * d <= n {
      e := d;
    } else {
      e := q;
      MulMono(d, if q < d then d else q, d);
      assert q < d;
      MulMono(q, d, q);
      DivModUnique(n, q, d, 0);
    }
  }

  /** An odd number has no even divisor. */
  lemma OddHasOddDivisors(n: nat, e: nat)
    requires e > 0 && n % 2 == 1 && n % e == 0
    ensures e % 2 == 1
  {
    var q, h := n / e, e / 2;
    assert n == q * e;
    assert e % 2 == 0 ==> n == q * h * 2;
  }

  /** A number whose square is at most `n` lies below any number whose square exceeds `n`. */
  lemma RootOrder(n: nat, e: nat, i: nat)
    requires e * e <= n < i * i
    ensures e < i
  {
    MulMono(i, if i <= e then e else i, i);
    MulMono(i, if i <= e then e else i, e);
  }

  /**
   * When no odd number from 3 up to the square root divides an odd `n`, nothing does:
   * skipping the even candidates and stopping at the root loses no composite.
   */
  lemma NoOddDivisorUpToRoot(n: nat, i: nat)
    requires n >= 3 && n % 2 == 1 && i * i > n
    requires forall d :: 3 <= d < i && d % 2 == 1 ==> n % d != 0
    ensures IsPrimeNumber(n)
  {
    forall d | 2 <= d < n && n % d == 0
      ensures false
    {
      var e := SmallDivisor(n, d);
      OddHasOddDivisors(n, e);
      RootOrder(n, e, i);
    }
  }

  ghost predicate NoOddDivisorBelow(n: nat, i: nat) {
    forall d :: 3 <= d < i && d % 2 == 1 ==> n % d != 0
  }

  lemma NextOdd(n: nat, i: nat)
    requires i >= 3 && i % 2 == 1 && n % i != 0 && NoOddDivisorBelow(n, i)
    ensures NoOddDivisorBelow(n, i + 2)
  {
    forall d | 3 <= d < i + 2 && d % 2 == 1
      ensures n % d != 0
    {
      assert d < i || d == i || d == i + 1;
    }
  }

  /** `isPrime`: trial division by the odd numbers up to the square root. */
  method IsPrime(num: nat) returns (prime: bool)
    requires num < UINT_RANGE
    ensures prime <==> num >= 2 && forall d :: 2 <= d < num ==> num % d != 0
    ensures prime <==> IsPrimeNumber(num)
  {
    if num == 2 {
      return true;
    }
    if num < 2 || num % 2 == 0 {
      return false;
    }
    var i := 3;
    while i * i <= num
      invariant 3 <= i && i % 2 == 1
      invariant NoOddDivisorBelow(num, i)
      decreases num + 2 - i
    {
      MulMono(3, i, i);
      if num % i == 0 {
        return false;
      }
      NextOdd(num, i);
      i := i + 2;
    }
    NoOddDivisorUpToRoot(num, i);
    return true;
  }

}
