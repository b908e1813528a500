/** Multiples, remainders and powers of two. */
module Arithmetic {

  lemma Quotient(n: int, a: int)
    requires n > 0
    ensures a == a / n * n + a % n
  {
  }

  lemma MulMonotone(n: int, i: int, j: int)
    requires n > 0 && i <= j
    ensures i * n <= j * n
  {
  }

  lemma RemainderOf(n: int, i: int)
    requires n > 0
    ensures i * n % n == 0
  {
    var q, r := i * n / n, i * n % n;
    Quotient(n, i * n);
    assert (i - q) * n == r;
    if i > q {
      MulMonotone(n, 1, i - q);
    } else if i < q {
      MulMonotone(n, i - q, -1);
    }
  }

  lemma QuotientOf(n: int, a: int, q: int, r: int)
    requires n > 0 && a == q * n + r && 0 <= r < n
    ensures a / n == q && a % n == r
  {
    Quotient(n, a);
    assert (a / n - q) * n == r - a % n;
    if a / n > q {
      MulMonotone(n, 1, a / n - q);
    } else if a / n < q {
      MulMonotone(n, a / n - q, -1);
    }
  }

  /** The multiples of n are n apart. */
  lemma NextAligned(n: int, a: int, b: int)
    requires n > 0 && a % n == 0 && b % n == 0 && a < b
    ensures a + n <= b && (a + n) % n == 0
  {
    Quotient(n, a);
    Quotient(n, b);
    var i, j := a / n, b / n;
    assert i < j by {
      if i >= j { MulMonotone(n, j, i); }
    }
    MulMonotone(n, i + 1, j);
    assert (i + 1) * n == a + n;
    RemainderOf(n, i + 1);
  }

  lemma RemainderOfNext(n: int, a: int)
    requires n > 0 && a % n == 0
    ensures (a + n) % n == 0
  {
    Quotient(n, a);
    RemainderOf(n, a / n + 1);
    assert (a / n + 1) * n == a / n * n + n;
  }

  function Pow2(n: nat): (r: nat)
    ensures r >= 1
  {
    if n == 0 then 1 else 2 * Pow2(n - 1)
  }

  lemma {:induction false} Pow2Add(a: nat, b: nat)
    ensures Pow2(a + b) == Pow2(a) * Pow2(b)
  {
    if a > 0 {
      Pow2Add(a - 1, b);
    }
  }

  lemma {:induction false} Pow2Monotone(a: nat, b: nat)
    requires a <= b
    ensures Pow2(a) <= Pow2(b)
  {
    if a < b {
      Pow2Monotone(a, b - 1);
    }
  }

  lemma Pow2Strict(a: nat, b: nat)
    requires a < b
    ensures Pow2(a) < Pow2(b)
  {
    Pow2Monotone(a + 1, b);
  }

  /** Shifting a number of 2k bits by k leaves k bits. */
  lemma ShiftHalf(n: nat, k: nat)
    requires n < Pow2(2 * k)
    ensures n / Pow2(k) < Pow2(k)
    ensures n / Pow2(k) == 0 ==> n < Pow2(k)
  {
    Pow2Add(k, k);
    hide Pow2;
    DivideHalf(Pow2(k), n);
  }

  lemma DivideHalf(p: nat, n: nat)
    requires p > 0 && n < p * p
    ensures n / p < p
    ensures n / p == 0 ==> n < p
  {
    Quotient(p, n);
    if n / p >= p {
      MulMonotone(p, p, n / p);
    }
  }

  /** A number that a shift takes to 1 lies between two powers of two. */
  lemma ShiftedToOne(n: nat, k: nat)
    requires n / Pow2(k) == 1
    ensures Pow2(k) <= n < Pow2(k + 1)
  {
    Quotient(Pow2(k), n);
  }

  lemma Pow2Divides(a: nat, b: nat)
    requires a <= b
    ensures Pow2(b) % Pow2(a) == 0
  {
    Pow2Add(b - a, a);
    RemainderOf(Pow2(a), Pow2(b - a));
  }

  /** A multiple of a power of two is a multiple of every smaller one. */
  lemma MultipleOfSmaller(s: int, a: nat, b: nat)
    requires a <= b && s % Pow2(b) == 0
    ensures s % Pow2(a) == 0
  {
    Quotient(Pow2(b), s);
    Pow2Add(b - a, a);
    var q := s / Pow2(b);
    assert s == (q * Pow2(b - a)) * Pow2(a) by {
      MulAssociates(q, Pow2(b - a), Pow2(a));
    }
    RemainderOf(Pow2(a), q * Pow2(b - a));
  }

  lemma MulAssociates(x: int, y: int, z: int)
    ensures x * (y * z) == (x * y) * z
  {
  }

  /** Shifting right twice. */
  lemma ShiftTwice(n: nat, a: nat, b: nat)
    ensures n / Pow2(a) / Pow2(b) == n / Pow2(a + b)
  {
    Pow2Add(a, b);
    hide Pow2;
    DivideTwice(n, Pow2(a), Pow2(b));
  }

  lemma DivideTwice(n: nat, p: nat, q: nat)
    requires p > 0 && q > 0 && p * q > 0
    ensures n / p / q == n / (p * q)
  {
    Quotient(p, n);
    Quotient(q, n / p);
    var d, r, s := n / p / q, n / p % q, n % p;
    assert n == d * (p * q) + (r * p + s) by {
      MulAssociates(d, q, p);
      MulDistributes(d * q, r, p);
    }
    MulDistributes(r, 1, p);
    MulMonotone(p, r + 1, q);
    MulMonotone(p, 0, r);
    QuotientOf(p * q, n, d, r * p + s);
  }

  lemma MulDistributes(x: int, y: int, z: int)
    ensures (x + y) * z == x * z + y * z
  {
  }

  function Log(n: nat): nat
  {
    if n < 2 then 0 else 1 + Log(n / 2)
  }

  lemma {:induction false} LogBounds(n: nat)
    requires n >= 1
    ensures Pow2(Log(n)) <= n < Pow2(Log(n) + 1)
  {
    if n >= 2 {
      LogBounds(n / 2);
    }
  }

  lemma LogIs(n: nat, k: nat)
    requires Pow2(k) <= n < Pow2(k + 1)
    ensures Log(n) == k
  {
    LogBounds(n);
    if Log(n) < k {
      Pow2Monotone(Log(n) + 1, k);
    } else if Log(n) > k {
      Pow2Monotone(k + 1, Log(n));
    }
  }
}
