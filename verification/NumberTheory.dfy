/** Divisibility and congruences, as far as modular inverse and Montgomery reduction need them. */
module NumberTheory {
  import opened Common
  import opened Digits

  ghost function Times(a: int, b: int): int {
    a * b
  }

  /** `a` and `b` leave the same rest modulo `n`. */
  ghost predicate Eqm(a: int, b: int, n: int) {
    exists k :: a - b == Times(k, n)
  }

  lemma {:induction false} EqmBy(a: int, b: int, n: int, k: int)
    requires a - b == k * n
    ensures Eqm(a, b, n)
  {
    assert a - b == Times(k, n);
  }

  lemma {:induction false} EqmSame(a: int, n: int)
    ensures Eqm(a, a, n)
  {
    EqmBy(a, a, n, 0);
  }

  /** Congruences add up; the difference may be written in any way. */
  lemma {:induction false} EqmAdd(a: int, b: int, c: int, d: int, n: int, e: int, f: int)
    requires Eqm(a, b, n) && Eqm(c, d, n) && e - f == (a - b) + (c - d)
    ensures Eqm(e, f, n)
  {
    var k :| a - b == Times(k, n);
    var j :| c - d == Times(j, n);
    MulAdd(k, j, n);
    EqmBy(e, f, n, k + j);
  }

  lemma {:induction false} EqmSub(a: int, b: int, c: int, d: int, n: int, e: int, f: int)
    requires Eqm(a, b, n) && Eqm(c, d, n) && e - f == (a - b) - (c - d)
    ensures Eqm(e, f, n)
  {
    var k :| a - b == Times(k, n);
    var j :| c - d == Times(j, n);
    MulAdd(k - j, j, n);
    EqmBy(e, f, n, k - j);
  }

  lemma {:induction false} EqmMul(a: int, b: int, n: int, c: int)
    requires Eqm(a, b, n)
    ensures Eqm(a * c, b * c, n) && Eqm(c * a, c * b, n)
  {
    var k :| a - b == Times(k, n);
    MulAdd(a - b, b, c);
    assert k * n * c == (k * c) * n by {
      MulAssoc(k, n, c); MulAssoc(k, c, n);
    }
    EqmBy(a * c, b * c, n, k * c);
  }

  /** Two rests in range are equal. */
  lemma {:induction false} EqmUnique(a: int, b: int, n: int)
    requires Eqm(a, b, n) && 0 <= a < n && 0 <= b < n
    ensures a == b
  {
    var k :| a - b == Times(k, n);
    if k > 0 {
      MulMono(1, k, n);
    } else if k < 0 {
      MulMono(k, -1, n);
    }
  }

  lemma {:induction false} EqmMod(a: nat, b: nat, n: nat)
    requires Eqm(a, b, n) && b < n
    ensures a % n == b
  {
    EqmBy(a, a % n, n, a / n);
    EqmSub(a, b, a, a % n, n, a % n, b);
    EqmUnique(a % n, b, n);
  }

  /** An odd modulus allows halving. */
  lemma {:induction false} EqmHalf(a: int, b: int, n: int)
    requires Eqm(2 * a, 2 * b, n) && n % 2 == 1
    ensures Eqm(a, b, n)
  {
    var k :| 2 * a - 2 * b == Times(k, n);
    EvenFactor(k, n, a - b);
    EqmBy(a, b, n, k / 2);
  }

  /** If `k * n` is even and `n` is odd then `k` is even. */
  lemma {:induction false} EvenFactor(k: int, n: int, half: int)
    requires k * n == 2 * half && n % 2 == 1
    ensures k % 2 == 0 && (k / 2) * n == half
  {
    var j, i := k / 2, n / 2;
    assert k == 2 * j + k % 2 && n == 2 * i + 1;
    MulAdd(2 * j, k % 2, n);
    MulAssoc(2, j, n);
    assert (k % 2) * n == if k % 2 == 1 then n else 0;
  }

  // ----------------------------------------------------------------- common divisors

  ghost predicate Divides(d: int, a: int) {
    exists k :: a == Times(k, d)
  }

  /** Greatest common divisor 1. */
  ghost predicate Coprime(a: int, b: int) {
    forall d :: d > 0 && Divides(d, a) && Divides(d, b) ==> d == 1
  }

  /** The same common divisors. */
  ghost predicate SameDivisors(a: int, b: int, c: int, d: int) {
    forall x :: x > 0 ==> (Divides(x, a) && Divides(x, b) <==> Divides(x, c) && Divides(x, d))
  }

  lemma {:induction false} DividesSelf(a: int)
    ensures Divides(a, a)
  {
    assert a == Times(1, a);
  }

  lemma {:induction false} DividesDifference(x: int, a: int, b: int)
    requires Divides(x, b)
    ensures Divides(x, a) <==> Divides(x, a - b)
  {
    var j :| b == Times(j, x);
    if Divides(x, a) {
      var k :| a == Times(k, x);
      MulAdd(k - j, j, x);
      assert a - b == Times(k - j, x);
    }
    if Divides(x, a - b) {
      var k :| a - b == Times(k, x);
      MulAdd(k, j, x);
      assert a == Times(k + j, x);
    }
  }

  lemma {:induction false} DividesOdd(x: int, n: int)
    requires Divides(x, n) && n % 2 == 1
    ensures x % 2 == 1
  {
    var k :| n == Times(k, x);
    var h, r := x / 2, x % 2;
    MulAdd(2 * h, r, k);
    MulSwap(k, 2, h);
    assert n == 2 * (k * h) + k * r;
    assert r == 0 ==> k * r == 0;
  }

  lemma {:induction false} DividesHalf(x: int, a: int)
    requires x % 2 == 1
    ensures Divides(x, 2 * a) <==> Divides(x, a)
  {
    if Divides(x, 2 * a) {
      var k :| 2 * a == Times(k, x);
      EvenFactor(k, x, a);
      assert a == Times(k / 2, x);
    }
    if Divides(x, a) {
      var k :| a == Times(k, x);
      MulAssoc(2, k, x);
      assert 2 * a == Times(2 * k, x);
    }
  }

  /** Subtracting one from the other keeps the common divisors. */
  lemma {:induction false} DivisorsSubtract(a: int, b: int)
    ensures SameDivisors(a, b, a - b, b)
  {
    forall x | x > 0 ensures Divides(x, a) && Divides(x, b) <==> Divides(x, a - b) && Divides(x, b) {
      if Divides(x, b) {
        DividesDifference(x, a, b);
      }
    }
  }

  /** Halving an even number keeps the common divisors with an odd one. */
  lemma {:induction false} DivisorsHalve(a: int, b: int)
    requires b % 2 == 1
    ensures SameDivisors(2 * a, b, a, b)
  {
    forall x | x > 0 ensures Divides(x, 2 * a) && Divides(x, b) <==> Divides(x, a) && Divides(x, b) {
      if Divides(x, b) {
        DividesOdd(x, b);
        DividesHalf(x, a);
      }
    }
  }

  lemma {:induction false} DivisorsSwap(a: int, b: int, c: int, d: int)
    requires SameDivisors(a, b, c, d)
    ensures SameDivisors(b, a, d, c) && SameDivisors(c, d, a, b)
  {}

  lemma {:induction false} DivisorsTransitive(a: int, b: int, c: int, d: int, e: int, f: int)
    requires SameDivisors(a, b, c, d) && SameDivisors(c, d, e, f)
    ensures SameDivisors(a, b, e, f)
  {}

  /** Ending at `(g, g)` tells the greatest common divisor. */
  lemma {:induction false} DivisorsDecide(a: int, b: int, g: int)
    requires SameDivisors(a, b, g, g) && g > 0
    ensures Coprime(a, b) <==> g == 1
  {
    if g == 1 {
      forall d | d > 0 && Divides(d, a) && Divides(d, b) ensures d == 1 {
        var k :| 1 == Times(k, d);
        UnitFactor(k, d);
      }
    } else {
      DividesSelf(g);
      assert Divides(g, a) && Divides(g, b);
    }
  }

  lemma {:induction false} UnitFactor(k: int, d: int)
    requires k * d == 1 && d > 0
    ensures d == 1
  {
    if d > 1 {
      if k >= 1 {
        MulMono(1, k, d);
      } else {
        MulMono(k, 0, d);
      }
    }
  }

  /** An odd number has no common divisor with a power of the base. */
  lemma {:induction false} OddCoprime(x: int, n: int, p: nat)
    requires x > 0 && Divides(x, n) && n % 2 == 1 && Divides(x, Pow(p))
    ensures x == 1
    decreases p
  {
    hide Pow, Pow2;
    DividesOdd(x, n);
    PowStep(0);
    if p == 0 {
      var k :| 1 == Times(k, x);
      UnitFactor(k, x);
    } else {
      PowStep(p - 1);
      TwoBase();
      HalveBase(x, Pow(p - 1), 32);
      OddCoprime(x, n, p - 1);
    }
  }

  lemma {:induction false} TwoBase()
    ensures Pow2(32) == BASE
  {
    assert Pow2(4) == 16;
    assert Pow2(8) == 256;
    assert Pow2(12) == 4096;
    assert Pow2(16) == 65536;
    assert Pow2(20) == 0x10_0000;
    assert Pow2(24) == 0x100_0000;
    assert Pow2(28) == 0x1000_0000;
  }

  lemma {:induction false} HalveBase(x: int, y: int, i: nat)
    requires x % 2 == 1 && i <= 32 && Divides(x, Pow2(i) * y)
    ensures Divides(x, y)
    decreases i
  {
    if i > 0 {
      MulAssoc(2, Pow2(i - 1), y);
      DividesHalf(x, Pow2(i - 1) * y);
      HalveBase(x, y, i - 1);
    } else {
      assert 1 * y == y;
    }
  }
}
