/** The first sixty-four primes, proved to be exactly that. */
module Primes {
  function Row(r: nat): (row: seq<nat>)
    requires r < 8
    ensures |row| == 8
  {
    if r == 0 then [2, 3, 5, 7, 11, 13, 17, 19]
    else if r == 1 then [23, 29, 31, 37, 41, 43, 47, 53]
    else if r == 2 then [59, 61, 67, 71, 73, 79, 83, 89]
    else if r == 3 then [97, 101, 103, 107, 109, 113, 127, 131]
    else if r == 4 then [137, 139, 149, 151, 157, 163, 167, 173]
    else if r == 5 then [179, 181, 191, 193, 197, 199, 211, 223]
    else if r == 6 then [227, 229, 233, 239, 241, 251, 257, 263]
    else [269, 271, 277, 281, 283, 293, 307, 311]
  }

  /** The first sixty-four primes. */
  function Prime(i: nat): nat
    requires i < 64
  {
    Row(i / 8)[i % 8]
  }

  predicate Divides(d: nat, n: nat)
    requires d > 0
  {
    n % d == 0
  }

  predicate IsPrime(n: nat) {
    n >= 2 && forall d :: 2 <= d < n ==> !Divides(d, n)
  }

  /** No prime up to seventeen divides it. */
  predicate Sieved(n: nat) {
    n % 2 != 0 && n % 3 != 0 && n % 5 != 0 && n % 7 != 0 && n % 11 != 0 && n % 13 != 0 && n % 17 != 0
  }

  lemma {:induction false} Multiples(x: nat)
    ensures 2 * x % 2 == 0 && 3 * x % 3 == 0 && 5 * x % 5 == 0 && 7 * x % 7 == 0
    ensures 11 * x % 11 == 0 && 13 * x % 13 == 0 && 17 * x % 17 == 0
  {
  }

  lemma {:induction false} Regroup(q: nat, j: nat, k: nat)
    ensures q * j * k == q * (j * k)
  {
  }

  lemma {:induction false} Hit(n: nat, q: nat, j: nat, k: nat)
    requires q > 0 && n == q * j * k
    requires q == 2 || q == 3 || q == 5 || q == 7 || q == 11 || q == 13 || q == 17
    ensures n % q == 0
  {
    Regroup(q, j, k);
    Multiples(j * k);
  }

  lemma {:induction false} MultipleOfSmall(n: nat, m: nat, k: nat)
    requires n == m * k && 2 <= m <= 18
    ensures !Sieved(n)
  {
    if m % 2 == 0 {
      Hit(n, 2, m / 2, k);
    } else if m % 3 == 0 {
      Hit(n, 3, m / 3, k);
    } else if m % 5 == 0 {
      Hit(n, 5, m / 5, k);
    } else {
      assert m == 7 || m == 11 || m == 13 || m == 17;
      Hit(n, m, 1, k);
    }
  }

  lemma {:induction false} Grows(a: nat, b: nat, q: nat)
    requires a <= b
    ensures a * q <= b * q
  {
  }

  lemma {:induction false} SmallCofactor(d: nat, q: nat)
    requires d >= 19 && d < d * q < 361
    ensures 2 <= q <= 18
  {
    Grows(19, d, q);
    if q < 2 {
      Grows(q, 1, d);
    }
  }

  /** Below nineteen squared, sieving by the primes up to seventeen leaves primes only. */
  lemma {:induction false} SievedIsPrime(n: nat)
    requires 2 <= n < 361 && Sieved(n)
    ensures IsPrime(n)
  {
    forall d | 2 <= d < n
      ensures !Divides(d, n)
    {
      if Divides(d, n) {
        var q := n / d;
        if d <= 18 {
          MultipleOfSmall(n, d, q);
        } else {
          SmallCofactor(d, q);
          MultipleOfSmall(n, q, d);
        }
      }
    }
  }

  /** What the sieve removes beyond seventeen is composite. */
  lemma {:induction false} PrimeIsSieved(n: nat)
    requires n > 17 && IsPrime(n)
    ensures Sieved(n)
  {
    assert !Divides(2, n) && !Divides(3, n) && !Divides(5, n) && !Divides(7, n);
    assert !Divides(11, n) && !Divides(13, n) && !Divides(17, n);
  }

  // ---------------------------------------------------------------- row by row

  /** A listed prime. */
  predicate Listed(n: nat) {
    exists i :: 0 <= i < 64 && Prime(i) == n
  }

  lemma {:induction false} Row0(n: nat)
    requires n <= 19
    ensures IsPrime(n) ==> Listed(n)
  {
    assert Prime(0) == 2 && Prime(1) == 3 && Prime(2) == 5 && Prime(3) == 7;
    assert Prime(4) == 11 && Prime(5) == 13 && Prime(6) == 17 && Prime(7) == 19;
    if n > 2 && n % 2 == 0 {
      assert Divides(2, n);
    } else if n > 3 && n % 3 == 0 {
      assert Divides(3, n);
    }
  }

  lemma {:induction false} BesideSix(n: nat)
    requires n % 2 != 0 && n % 3 != 0
    ensures n == 6 * (n / 6) + 1 || n == 6 * (n / 6) + 5
  {
    var k := n / 6;
    Multiples(3 * k);
    Multiples(3 * k + 1);
    Multiples(3 * k + 2);
    Multiples(2 * k + 1);
  }

  lemma {:induction false} Row1(n: nat, k: nat)
    requires (n == 6 * k + 1 || n == 6 * k + 5) && 20 <= n <= 53 && Sieved(n)
    ensures n in [23, 29, 31, 37, 41, 43, 47, 53]
  {
    assert k == 3 || k == 4 || k == 5 || k == 6 || k == 7 || k == 8;
  }

  lemma {:induction false} Row2(n: nat, k: nat)
    requires (n == 6 * k + 1 || n == 6 * k + 5) && 54 <= n <= 89 && Sieved(n)
    ensures n in [59, 61, 67, 71, 73, 79, 83, 89]
  {
    assert k == 9 || k == 10 || k == 11 || k == 12 || k == 13 || k == 14;
  }

  lemma {:induction false} Row3(n: nat, k: nat)
    requires (n == 6 * k + 1 || n == 6 * k + 5) && 90 <= n <= 131 && Sieved(n)
    ensures n in [97, 101, 103, 107, 109, 113, 127, 131]
  {
    assert k == 15 || k == 16 || k == 17 || k == 18 || k == 19 || k == 20 || k == 21;
  }

  lemma {:induction false} Row4(n: nat, k: nat)
    requires (n == 6 * k + 1 || n == 6 * k + 5) && 132 <= n <= 173 && Sieved(n)
    ensures n in [137, 139, 149, 151, 157, 163, 167, 173]
  {
    assert k == 22 || k == 23 || k == 24 || k == 25 || k == 26 || k == 27 || k == 28;
  }

  lemma {:induction false} Row5(n: nat, k: nat)
    requires (n == 6 * k + 1 || n == 6 * k + 5) && 174 <= n <= 223 && Sieved(n)
    ensures n in [179, 181, 191, 193, 197, 199, 211, 223]
  {
    assert k == 29 || k == 30 || k == 31 || k == 32 || k == 33 || k == 34 || k == 35 || k == 36 || k == 37;
  }

  lemma {:induction false} Row6(n: nat, k: nat)
    requires (n == 6 * k + 1 || n == 6 * k + 5) && 224 <= n <= 263 && Sieved(n)
    ensures n in [227, 229, 233, 239, 241, 251, 257, 263]
  {
    assert k == 37 || k == 38 || k == 39 || k == 40 || k == 41 || k == 42 || k == 43;
  }

  lemma {:induction false} Row7(n: nat, k: nat)
    requires (n == 6 * k + 1 || n == 6 * k + 5) && 264 <= n <= 311 && Sieved(n)
    ensures n in [269, 271, 277, 281, 283, 293, 307, 311]
  {
    assert k == 44 || k == 45 || k == 46 || k == 47 || k == 48 || k == 49 || k == 50 || k == 51;
  }

  lemma {:induction false} RowListed(n: nat, r: nat)
    requires r < 8 && n in Row(r)
    ensures Listed(n)
  {
    var j :| 0 <= j < 8 && Row(r)[j] == n;
    var i := 8 * r + j;
    assert i / 8 == r && i % 8 == j;
    assert Prime(i) == n;
  }

  lemma {:induction false} Increasing(i: nat)
    requires i < 63
    ensures Prime(i) < Prime(i + 1)
  {
  }

  lemma {:induction false} FirstRowIsPrime(i: nat)
    requires i < 8
    ensures IsPrime(Prime(i))
  {
    forall d | 2 <= d < Prime(i)
      ensures !Divides(d, Prime(i))
    {
    }
  }

  lemma {:induction false} LaterRowsAreSieved(i: nat)
    requires 8 <= i < 64
    ensures Sieved(Prime(i)) && Prime(i) <= 311
  {
  }

  /** Every number up to 311 is prime exactly when the table lists it, and the table is in order: it is the
      first sixty-four primes. */
  lemma {:induction false} TableIsFirstPrimes(n: nat)
    requires n <= 311
    ensures IsPrime(n) <==> Listed(n)
    ensures forall i :: 0 <= i < 63 ==> Prime(i) < Prime(i + 1)
  {
    forall i | 0 <= i < 63
      ensures Prime(i) < Prime(i + 1)
    {
      Increasing(i);
    }
    if i :| 0 <= i < 64 && Prime(i) == n {
      ListedIsPrime(i);
    } else {
      PrimeIsListed(n);
    }
  }

  lemma {:induction false} ListedIsPrime(i: nat)
    requires i < 64
    ensures IsPrime(Prime(i))
  {
    if i < 8 {
      FirstRowIsPrime(i);
    } else {
      LaterRowsAreSieved(i);
      SievedIsPrime(Prime(i));
    }
  }

  lemma {:induction false} PrimeIsListed(n: nat)
    requires n <= 311
    ensures IsPrime(n) ==> Listed(n)
  {
    if n <= 19 {
      Row0(n);
    } else if IsPrime(n) {
      PrimeIsSieved(n);
      BesideSix(n);
      if n <= 53 {
        Row1(n, n / 6);
        RowListed(n, 1);
      } else if n <= 89 {
        Row2(n, n / 6);
        RowListed(n, 2);
      } else if n <= 131 {
        Row3(n, n / 6);
        RowListed(n, 3);
      } else if n <= 173 {
        Row4(n, n / 6);
        RowListed(n, 4);
      } else if n <= 223 {
        Row5(n, n / 6);
        RowListed(n, 5);
      } else if n <= 263 {
        Row6(n, n / 6);
        RowListed(n, 6);
      } else {
        Row7(n, n / 6);
        RowListed(n, 7);
      }
    }
  }
}
