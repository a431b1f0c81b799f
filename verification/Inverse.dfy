/**
  Modular inverse by the binary extended Euclidean algorithm (dfslib/dfsrsa.c:770-823).
 */
module Inverse {
  import opened Common
  import opened Digits
  import opened LongArith
  import opened Karatsuba
  import opened NumberTheory

  lemma {:induction false} NumParity(s: seq<Digit>, off: nat, len: nat)
    requires 0 < len && off + len <= |s|
    ensures Num(s, off, len) % 2 == s[off] % 2 && Num(s, off, len) % 4 == s[off] % 4
  {
    hide Num, Pow;
    NumSplit(s, off, 1, len);
    NumOne(s, off);
    PowStep(0);
    Residue(s[off], Num(s, off + 1, len - 1));
  }

  lemma {:induction false} Residue(d: int, r: int)
    ensures (d + BASE * r) % 2 == d % 2 && (d + BASE * r) % 4 == d % 4
  {
    HalfShift(d, 0x8000_0000 * r);
    FourthShift(d, 0x4000_0000 * r);
  }

  lemma {:induction false} HalfShift(a: int, k: int)
    ensures (a + 2 * k) % 2 == a % 2
  {}

  /** `x * num` represents `n` modulo `m`. */
  ghost predicate Bezout(num: int, n: int, x: int, m: int) {
    n > 0 && 0 <= x < m && Eqm(x * num, n, m)
  }

  /** Halving the number and its cofactor, which is made even first by adding the odd modulus. */
  lemma {:induction false} BezoutHalve(num: int, n: int, x: int, m: int, x1: int)
    requires Bezout(num, 2 * n, x, m) && m % 2 == 1
    requires 2 * x1 == if x % 2 == 1 then x + m else x
    ensures Bezout(num, n, x1, m)
  {
    var e := if x % 2 == 1 then 1 else 0;
    MulAdd(x, e * m, num);
    MulAssoc(2, x1, num);
    assert 2 * (x1 * num) == x * num + (e * m) * num;
    assert (e * m) * num == (e * num) * m by { MulAssoc(e, m, num); MulAssoc(e, num, m); }
    EqmBy(2 * (x1 * num), x * num, m, e * num);
    EqmAdd(2 * (x1 * num), x * num, x * num, 2 * n, m, 2 * (x1 * num), 2 * n);
    EqmHalf(x1 * num, n, m);
  }

  lemma {:induction false} BezoutSubtract(num: int, n1: int, x1: int, n2: int, x2: int, m: int, x: int)
    requires Bezout(num, n1, x1, m) && Bezout(num, n2, x2, m) && n1 > n2
    requires x == if x1 < x2 then x1 - x2 + m else x1 - x2
    ensures Bezout(num, n1 - n2, x, m)
  {
    var e := if x1 < x2 then 1 else 0;
    MulAdd(x1 - x2, x2, num);
    MulAdd(x1 - x2, e * m, num);
    assert (e * m) * num == (e * num) * m by { MulAssoc(e, m, num); MulAssoc(e, num, m); }
    EqmSub(x1 * num, n1, x2 * num, n2, m, (x1 - x2) * num, n1 - n2);
    EqmBy(x * num, (x1 - x2) * num, m, e * num);
    EqmAdd(x * num, (x1 - x2) * num, (x1 - x2) * num, n1 - n2, m, x * num, n1 - n2);
  }

  /** The halving loops (dfslib/dfsrsa.c:786-797): make the number at `n` odd, keeping its cofactor at `x` in step. */
  method HalveEven(m: array<Digit>, n: nat, x: nat, mod4: nat, len: nat, ghost num: int, ghost other: int)
    requires 0 < len && n + len <= m.Length && x + len <= m.Length && mod4 + len <= m.Length
    requires Apart(n, len, x, len) && Apart(n, len, mod4, len) && Apart(x, len, mod4, len)
    requires Num(m[..], mod4, len) % 2 == 1
    requires Bezout(num, Num(m[..], n, len), Num(m[..], x, len), Num(m[..], mod4, len))
    requires Num(m[..], n, len) % 2 == 0 ==> other % 2 == 1
    modifies m
    ensures Outside2(old(m[..]), m[..], n, len, x, len)
    ensures Num(m[..], n, len) % 2 == 1 && Num(m[..], n, len) <= Num(old(m[..]), n, len)
    ensures Bezout(num, Num(m[..], n, len), Num(m[..], x, len), Num(old(m[..]), mod4, len))
    ensures SameDivisors(Num(old(m[..]), n, len), other, Num(m[..], n, len), other)
  {
    hide Num, Pow, Bezout, SameDivisors, Eqm;
    ghost var s := m[..];
    ghost var modulus := Num(s, mod4, len);
    BezoutRange(num, Num(s, n, len), Num(s, x, len), modulus);
    SameSelf(Num(s, n, len), other);
    NumParity(m[..], n, len);
    while m[n] % 2 == 0
      invariant Outside2(s, m[..], n, len, x, len)
      invariant 0 < Num(m[..], n, len) <= Num(s, n, len) && Num(m[..], n, len) % 2 == m[n] % 2
      invariant Bezout(num, Num(m[..], n, len), Num(m[..], x, len), modulus)
      invariant SameDivisors(Num(s, n, len), other, Num(m[..], n, len), other)
      invariant Num(m[..], n, len) % 2 == 0 ==> other % 2 == 1
      decreases Num(m[..], n, len)
    {
      ghost var n0, x0 := Num(m[..], n, len), Num(m[..], x, len);
      BezoutRange(num, n0, x0, modulus);
      NumSame(s, m[..], mod4, len);
      HalveBoth(m, n, x, mod4, len, modulus);
      ghost var n1, x1 := Num(m[..], n, len), Num(m[..], x, len);
      BezoutHalve(num, n1, x0, modulus, x1);
      DivisorsHalve(n1, other);
      DivisorsTransitive(Num(s, n, len), other, n0, other, n1, other);
      NumParity(m[..], n, len);
    }
  }

  lemma {:induction false} BezoutRange(num: int, n: int, x: int, m: int)
    requires Bezout(num, n, x, m)
    ensures n > 0 && 0 <= x < m
  {}

  lemma {:induction false} SameSelf(a: int, b: int)
    ensures SameDivisors(a, b, a, b)
  {}

  method HalveBoth(m: array<Digit>, n: nat, x: nat, mod4: nat, len: nat, ghost modulus: int)
    requires 0 < len && n + len <= m.Length && x + len <= m.Length && mod4 + len <= m.Length
    requires Apart(n, len, x, len) && Apart(n, len, mod4, len) && Apart(x, len, mod4, len)
    requires modulus == Num(m[..], mod4, len) && modulus % 2 == 1 && Num(m[..], n, len) % 2 == 0 && Num(m[..], x, len) < modulus
    modifies m
    ensures Outside2(old(m[..]), m[..], n, len, x, len)
    ensures 2 * Num(m[..], n, len) == Num(old(m[..]), n, len)
    ensures var x0 := Num(old(m[..]), x, len); 2 * Num(m[..], x, len) == if x0 % 2 == 1 then x0 + modulus else x0
  {
    hide Num, Pow;
    ghost var s := m[..];
    var carry := 0;
    var bit := Shr1(m, n, len, 0);
    ghost var t := m[..];
    NumSame(s, t, x, len); NumSame(s, t, mod4, len);
    NumParity(t, x, len);
    if m[x] % 2 == 1 {
      var c := Adc(m, x, x, mod4, 0, len);
      carry := c;
    }
    ghost var u := m[..];
    bit := Shr1(m, x, len, carry);
    NumSame(t, m[..], n, len);
    EvenSum(Num(m[..], x, len), bit, Num(t, x, len), modulus);
  }

  lemma {:induction false} EvenSum(x1: int, bit: int, x0: int, modulus: int)
    requires 0 <= bit <= 1 && modulus % 2 == 1
    requires 2 * x1 + bit == if x0 % 2 == 1 then x0 + modulus else x0
    ensures bit == 0
  {}

  /** Subtracting one number and its cofactor from another (dfslib/dfsrsa.c:804-813); the cofactor is kept non-negative. */
  method SubtractPair(m: array<Digit>, n1: nat, x1: nat, n2: nat, x2: nat, mod4: nat, len: nat)
    requires n1 + len <= m.Length && x1 + len <= m.Length && n2 + len <= m.Length && x2 + len <= m.Length && mod4 + len <= m.Length
    requires Apart(n1, len, x1, len) && Apart(n1, len, n2, len) && Apart(n1, len, x2, len) && Apart(n1, len, mod4, len)
    requires Apart(x1, len, x2, len) && Apart(x1, len, mod4, len)
    requires Num(m[..], n1, len) > Num(m[..], n2, len)
    requires Num(m[..], x1, len) < Num(m[..], mod4, len) && Num(m[..], x2, len) < Num(m[..], mod4, len)
    modifies m
    ensures Outside2(old(m[..]), m[..], n1, len, x1, len)
    ensures Num(m[..], n1, len) == Num(old(m[..]), n1, len) - Num(old(m[..]), n2, len)
    ensures var a, b := Num(old(m[..]), x1, len), Num(old(m[..]), x2, len);
            Num(m[..], x1, len) == if a < b then a - b + Num(old(m[..]), mod4, len) else a - b
  {
    hide Num, Pow;
    ghost var s := m[..];
    var r := Sub(m, n1, n1, n2, len);
    ghost var t := m[..];
    NumBound(t, n1, len);
    NonNegative(Num(t, n1, len), r, Pow(len));
    NumSame(s, t, x1, len); NumSame(s, t, x2, len); NumSame(s, t, mod4, len);
    r := Sub(m, x1, x1, x2, len);
    ghost var u := m[..];
    NumSame(t, u, n1, len); NumSame(t, u, mod4, len);
    NumBound(u, x1, len);
    SignOf(Num(u, x1, len), r, Pow(len));
    if r != 0 {
      var c := Adc(m, x1, x1, mod4, 0, len);
      NumSame(u, m[..], n1, len);
      NumBound(m[..], x1, len);
      NumBound(s, mod4, len);
      WrapBack(Num(u, x1, len), Num(s, mod4, len), Num(m[..], x1, len), c, Pow(len), Num(s, x1, len) - Num(s, x2, len));
    }
  }

  lemma {:induction false} SignOf(n: int, r: int, p: int)
    requires 0 <= n < p && -1 <= r <= 0
    ensures r == 0 <==> n + r * p >= 0
  {}

  /** Borrow and carry cancel. */
  lemma {:induction false} WrapBack(n: int, modulus: int, n1: int, c: int, p: int, diff: int)
    requires n - p == diff < 0 && n1 + c * p == n + modulus && 0 <= c <= 1 && diff + modulus >= 0 && 0 <= n1 < p && modulus < p
    ensures n1 == diff + modulus
  {}

  /** Everything the loop of `dfsrsa_inverse` keeps, as a property of the numbers. */
  ghost predicate Euclid(num: int, modulus: int, pn: int, px: int, qn: int, qx: int) {
    && modulus % 2 == 1
    && Bezout(num, pn, px, modulus) && Bezout(num, qn, qx, modulus) && SameDivisors(num, modulus, pn, qn)
  }

  /** `work` holds pn, qn, qx and the odd part of the modulus; px is the result `inv` (dfslib/dfsrsa.c:773-774). */
  ghost predicate Keeps(s: seq<Digit>, inv: nat, work: nat, len: nat, num: int, modulus: int) {
    && 0 < len && inv + len <= |s| && work + 4 * len <= |s| && Apart(inv, len, work, 4 * len)
    && modulus == Num(s, work + 3 * len, len)
    && Euclid(num, modulus, Num(s, work, len), Num(s, inv, len), Num(s, work + len, len), Num(s, work + 2 * len, len))
  }

  /** The reduction loop of `dfsrsa_inverse` (dfslib/dfsrsa.c:781-815). */
  method Reduce(m: array<Digit>, inv: nat, work: nat, len: nat, ghost num: int, ghost modulus: int)
    requires Keeps(m[..], inv, work, len, num, modulus)
    requires Num(m[..], work, len) % 2 == 1 || Num(m[..], work + len, len) % 2 == 1
    modifies m
    ensures Outside2(old(m[..]), m[..], inv, len, work, 3 * len)
    ensures Keeps(m[..], inv, work, len, num, modulus) && Num(m[..], work, len) == Num(m[..], work + len, len)
  {
    hide Num, Pow, Bezout, SameDivisors, Eqm;
    ghost var s := m[..];
    var pn, qn, qx := work, work + len, work + 2 * len;
    while true
      invariant Outside2(s, m[..], inv, len, work, 3 * len) && Keeps(m[..], inv, work, len, num, modulus)
      invariant Num(m[..], pn, len) % 2 == 1 || Num(m[..], qn, len) % 2 == 1
      decreases Num(m[..], pn, len) + Num(m[..], qn, len)
    {
      HalvePair(m, inv, work, len, num, modulus);
      var c := Cmp(m, pn, qn, len);
      if c == 0 {
        break;
      } else if c > 0 {
        SubtractFirst(m, inv, work, len, num, modulus);
      } else {
        SubtractSecond(m, inv, work, len, num, modulus);
      }
    }
  }

  method SubtractFirst(m: array<Digit>, inv: nat, work: nat, len: nat, ghost num: int, ghost modulus: int)
    requires Keeps(m[..], inv, work, len, num, modulus) && Num(m[..], work, len) > Num(m[..], work + len, len)
    modifies m
    ensures Outside2(old(m[..]), m[..], inv, len, work, 3 * len) && Keeps(m[..], inv, work, len, num, modulus)
    ensures Num(m[..], work, len) == Num(old(m[..]), work, len) - Num(old(m[..]), work + len, len)
    ensures Num(m[..], work + len, len) == Num(old(m[..]), work + len, len)
  {
    hide Num, Pow, Bezout, SameDivisors, Eqm;
    ghost var t := m[..];
    var pn, qn, qx := work, work + len, work + 2 * len;
    ghost var a, ax, b, bx := Num(t, pn, len), Num(t, inv, len), Num(t, qn, len), Num(t, qx, len);
    BezoutRange(num, a, ax, modulus); BezoutRange(num, b, bx, modulus);
    SubtractPair(m, pn, inv, qn, qx, work + 3 * len, len);
    NumSame(t, m[..], qn, len); NumSame(t, m[..], qx, len); NumSame(t, m[..], work + 3 * len, len);
    BezoutSubtract(num, a, ax, b, bx, modulus, Num(m[..], inv, len));
    DivisorsSubtract(a, b);
    DivisorsTransitive(num, modulus, a, b, a - b, b);
  }

  method SubtractSecond(m: array<Digit>, inv: nat, work: nat, len: nat, ghost num: int, ghost modulus: int)
    requires Keeps(m[..], inv, work, len, num, modulus) && Num(m[..], work, len) < Num(m[..], work + len, len)
    modifies m
    ensures Outside2(old(m[..]), m[..], inv, len, work, 3 * len) && Keeps(m[..], inv, work, len, num, modulus)
    ensures Num(m[..], work, len) == Num(old(m[..]), work, len)
    ensures Num(m[..], work + len, len) == Num(old(m[..]), work + len, len) - Num(old(m[..]), work, len)
  {
    hide Num, Pow, Bezout, SameDivisors, Eqm;
    ghost var t := m[..];
    var pn, qn, qx := work, work + len, work + 2 * len;
    ghost var a, ax, b, bx := Num(t, pn, len), Num(t, inv, len), Num(t, qn, len), Num(t, qx, len);
    BezoutRange(num, a, ax, modulus); BezoutRange(num, b, bx, modulus);
    SubtractPair(m, qn, qx, pn, inv, work + 3 * len, len);
    NumSame(t, m[..], pn, len); NumSame(t, m[..], inv, len); NumSame(t, m[..], work + 3 * len, len);
    BezoutSubtract(num, b, bx, a, ax, modulus, Num(m[..], qx, len));
    DivisorsSubtract(b, a);
    DivisorsSwap(b, a, b - a, a);
    DivisorsTransitive(num, modulus, a, b, a, b - a);
  }

  method HalvePair(m: array<Digit>, inv: nat, work: nat, len: nat, ghost num: int, ghost modulus: int)
    requires Keeps(m[..], inv, work, len, num, modulus)
    requires Num(m[..], work, len) % 2 == 1 || Num(m[..], work + len, len) % 2 == 1
    modifies m
    ensures Outside2(old(m[..]), m[..], inv, len, work, 3 * len) && Keeps(m[..], inv, work, len, num, modulus)
    ensures Num(m[..], work, len) % 2 == 1 && Num(m[..], work + len, len) % 2 == 1
    ensures Num(m[..], work, len) <= Num(old(m[..]), work, len) && Num(m[..], work + len, len) <= Num(old(m[..]), work + len, len)
  {
    hide Num, Pow, Bezout, SameDivisors, Eqm;
    ghost var s := m[..];
    var qn, qx, mod4 := work + len, work + 2 * len, work + 3 * len;
    ghost var a, b := Num(s, work, len), Num(s, qn, len);
    HalveEven(m, work, inv, mod4, len, num, b);
    ghost var t := m[..];
    ghost var a1 := Num(t, work, len);
    NumSame(s, t, qn, len); NumSame(s, t, qx, len); NumSame(s, t, mod4, len);
    DivisorsTransitive(num, modulus, a, b, a1, b);
    HalveEven(m, qn, qx, mod4, len, num, a1);
    NumSame(t, m[..], work, len); NumSame(t, m[..], inv, len); NumSame(t, m[..], mod4, len);
    ghost var b1 := Num(m[..], qn, len);
    DivisorsSwap(b, a1, b1, a1);
    DivisorsTransitive(num, modulus, a1, b, a1, b1);
  }

  // ----------------------------------------------------------------- even moduli

  lemma {:induction false} SquareOdd(num: int, j: int)
    requires num == 2 * j + 1
    ensures num * num == 4 * (j * j + j) + 1
  {
    MulAdd(2 * j, 1, num);
    MulAssoc(2, j, num);
    MulAdd(2 * j, 1, j);
    MulAssoc(2, j, j);
  }

  lemma {:induction false} OneModFour(x: int, y: int, w: int)
    requires x == 4 * y + 1 && (w == 1 || w == 2 || w == 4)
    ensures Eqm(x, 1, w)
  {
    EqmBy(x, 1, w, if w == 1 then 4 * y else if w == 2 then 2 * y else y);
  }

  /** The bits of `x` below `w`, for `w` one of 1, 2, 4. */
  function Low(x: int, w: int): int {
    if w == 2 then x % 2 else if w == 4 then x % 4 else 0
  }

  lemma {:induction false} SameRest(a: int, b: int, w: int)
    requires (w == 1 || w == 2 || w == 4) && Low(a, w) == Low(b, w)
    ensures Eqm(a, b, w)
  {
    if w == 1 {
      EqmBy(a, b, 1, a - b);
    } else if w == 2 {
      EqmBy(a, b, 2, (a - b) / 2);
    } else {
      EqmBy(a, b, 4, (a - b) / 4);
    }
  }

  /** The square of an odd number is 1 modulo 4, so modulo 2 and 4 it is its own inverse. */
  lemma {:induction false} OddSquare(num: int, inv: int, w: int)
    requires num % 2 == 1 && (w == 1 || w == 2 || w == 4) && Low(inv, w) == Low(num, w)
    ensures Eqm(inv * num, 1, w)
  {
    hide Eqm;
    var j := num / 2;
    SquareOdd(num, j);
    OneModFour(num * num, j * j + j, w);
    SameRest(inv, num, w);
    EqmMul(inv, num, w, num);
    EqmAdd(inv * num, num * num, num * num, 1, w, inv * num, 1);
  }

  /** Congruence modulo an odd number and modulo 1, 2 or 4 gives congruence modulo the product. */
  lemma {:induction false} CombineModuli(x: int, modulus: int, w: int)
    requires modulus % 2 == 1 && (w == 1 || w == 2 || w == 4) && Eqm(x, 1, modulus) && Eqm(x, 1, w)
    ensures Eqm(x, 1, w * modulus)
  {
    var k :| x - 1 == Times(k, modulus);
    var j :| x - 1 == Times(j, w);
    if w == 1 {
      EqmBy(x, 1, w * modulus, k);
    } else {
      var y := if w == 2 then j else 2 * j;
      EvenFactor(k, modulus, y);
      var k2 := k / 2;
      if w == 2 {
        MulAssoc(k2, 2, modulus); MulSwap(k2, 2, modulus);
        EqmBy(x, 1, w * modulus, k2);
      } else {
        EvenFactor(k2, modulus, j);
        var k4 := k2 / 2;
        MulSwap(k4, 4, modulus);
        EqmBy(x, 1, w * modulus, k4);
      }
    }
  }

  /** Common divisors with the whole modulus are those with its odd part. */
  lemma {:induction false} DivisorsOddPart(num: int, modulus: int, w: int)
    requires num % 2 == 1 && (w == 1 || w == 2 || w == 4)
    ensures SameDivisors(num, w * modulus, num, modulus)
  {
    forall x | x > 0 ensures Divides(x, num) && Divides(x, w * modulus) <==> Divides(x, num) && Divides(x, modulus) {
      if Divides(x, num) {
        DividesOdd(x, num);
        DividesHalf(x, modulus);
        DividesHalf(x, 2 * modulus);
      }
    }
  }

  /** None of the first `j` sums has the low bits of `num`. */
  ghost predicate Missed(x: int, modulus: int, num: int, w: int, j: int) {
    && (j >= 1 ==> Low(x, w) != Low(num, w))
    && (j >= 2 ==> Low(x + modulus, w) != Low(num, w))
    && (j >= 3 ==> Low(x + 2 * modulus, w) != Low(num, w))
  }

  lemma {:induction false} NoneMissed(x: int, modulus: int, num: int, w: int)
    ensures Missed(x, modulus, num, w, 0)
  {}

  /** Adding an odd number at most `w - 1` times reaches every rest modulo `w`. */
  lemma {:induction false} RestReached(x: int, modulus: int, num: int, w: int, j: int)
    requires (w == 1 || w == 2 || w == 4) && modulus % 2 == 1 && 0 <= j < w
    requires Missed(x, modulus, num, w, j)
    ensures Low(x + j * modulus, w) != Low(num, w) ==> j + 1 < w && Missed(x, modulus, num, w, j + 1)
  {
    assert j == 0 || j == 1 || j == 2 || j == 3;
    if w == 2 {
      assert j == 0 || j == 1;
    } else if w == 4 && j == 3 {
      AllRests(x, modulus, num);
    }
  }

  lemma {:induction false} AllRests(x: int, modulus: int, num: int)
    requires modulus % 2 == 1
    ensures x % 4 == num % 4 || (x + modulus) % 4 == num % 4 || (x + 2 * modulus) % 4 == num % 4 || (x + 3 * modulus) % 4 == num % 4
  {
    FourthOf(x, modulus, 1);
    FourthOf(x, modulus, 2);
    FourthOf(x, modulus, 3);
    FourRests(x % 4, modulus % 4, num % 4);
    OddFourth(modulus);
  }

  lemma {:induction false} OddFourth(modulus: int)
    requires modulus % 2 == 1
    ensures modulus % 4 == 1 || modulus % 4 == 3
  {
    HalfShift(modulus % 4, 2 * (modulus / 4));
  }

  lemma {:induction false} FourthOf(x: int, modulus: int, j: int)
    requires 1 <= j <= 3
    ensures (x + j * modulus) % 4 == (x % 4 + j * (modulus % 4)) % 4
  {
    var a, b := x % 4, modulus % 4;
    assert j * modulus == j * b + 4 * (j * (modulus / 4));
    FourthShift(a + j * b, x / 4 + j * (modulus / 4));
  }

  lemma {:induction false} FourthShift(a: int, k: int)
    ensures (a + 4 * k) % 4 == a % 4
  {}

  lemma {:induction false} FourRests(x: int, m: int, num: int)
    requires 0 <= x < 4 && 0 <= num < 4
    ensures m == 1 || m == 3 ==> x == num || (x + m) % 4 == num || (x + 2 * m) % 4 == num || (x + 3 * m) % 4 == num
  {}

  /** The last loop of `dfsrsa_inverse` (dfslib/dfsrsa.c:820): add the odd part until the low bits are right. */
  method FixLowBits(m: array<Digit>, inv: nat, num: nat, mod4: nat, len: nat, mask: nat)
    requires 0 < len && inv + len <= m.Length && num + len <= m.Length && mod4 + len <= m.Length
    requires Apart(inv, len, num, len) && Apart(inv, len, mod4, len)
    requires mask == 0 || mask == 1 || mask == 3
    requires var modulus := Num(m[..], mod4, len);
             modulus % 2 == 1 && Num(m[..], inv, len) < modulus && (mask + 1) * modulus < Pow(len)
    modifies m
    ensures Outside(old(m[..]), m[..], inv, inv + len)
    ensures Num(m[..], inv, len) < (mask + 1) * Num(old(m[..]), mod4, len)
    ensures Low(Num(m[..], inv, len), mask + 1) == Low(Num(old(m[..]), num, len), mask + 1)
    ensures Eqm(Num(m[..], inv, len), Num(old(m[..]), inv, len), Num(old(m[..]), mod4, len))
  {
    hide Num, Pow, Eqm, Missed;
    ghost var s := m[..];
    ghost var x, modulus := Num(s, inv, len), Num(s, mod4, len);
    var w := mask + 1;
    ghost var j := 0;
    NoneMissed(x, modulus, m[num], w);
    NumParity(s, num, len); NumParity(s, inv, len);
    while Low(m[num], w) != Low(m[inv], w)
      invariant Outside(s, m[..], inv, inv + len) && 0 <= j < w && Num(m[..], inv, len) == x + j * modulus
      invariant Low(m[inv], w) == Low(x + j * modulus, w)
      invariant Missed(x, modulus, m[num], w, j)
      decreases w - j
    {
      ghost var t := m[..];
      RestReached(x, modulus, m[num], w, j);
      NumSame(s, t, mod4, len);
      var c := Adc(m, inv, inv, mod4, 0, len);
      MulAdd(j, 1, modulus);
      MulMono(j + 2, w, modulus);
      MulAdd(j + 1, 1, modulus);
      NoCarry(Num(m[..], inv, len), c, Pow(len), x + (j + 1) * modulus);
      NumParity(m[..], inv, len);
      j := j + 1;
    }
    MulMono(j + 1, w, modulus);
    MulAdd(j, 1, modulus);
    EqmBy(Num(m[..], inv, len), x, modulus, j);
  }

  lemma {:induction false} NoCarry(n: int, c: int, p: int, v: int)
    requires n + c * p == v && v < p && 0 <= n && 0 <= c <= 1
    ensures c == 0 && n == v
  {}

  /** The odd part of the modulus and its power of two (dfslib/dfsrsa.c:778). */
  method OddPart(m: array<Digit>, mod4: nat, len: nat) returns (mask: nat)
    requires 0 < len && mod4 + len <= m.Length && Num(m[..], mod4, len) % 8 != 0
    modifies m
    ensures Outside(old(m[..]), m[..], mod4, mod4 + len)
    ensures (mask == 0 || mask == 1 || mask == 3) && Num(m[..], mod4, len) % 2 == 1
    ensures Num(old(m[..]), mod4, len) == (mask + 1) * Num(m[..], mod4, len)
  {
    hide Num, Pow;
    ghost var s := m[..];
    mask := 0;
    NumParity(s, mod4, len);
    while m[mod4] % 2 == 0
      invariant Outside(s, m[..], mod4, mod4 + len) && (mask == 0 || mask == 1 || mask == 3)
      invariant Num(s, mod4, len) == (mask + 1) * Num(m[..], mod4, len) && Num(m[..], mod4, len) % 2 == m[mod4] % 2
      decreases Num(m[..], mod4, len)
    {
      ghost var a := Num(m[..], mod4, len);
      var bit := Shr1(m, mod4, len, 0);
      EvenHalf(Num(s, mod4, len), mask, a, Num(m[..], mod4, len), bit);
      mask := 2 * mask + 1;
      NumParity(m[..], mod4, len);
    }
  }

  /** Halving an even cofactor doubles the power of two, which stays at most 4. */
  lemma {:induction false} EvenHalf(x: int, mask: int, a: int, b: int, bit: int)
    requires x % 8 != 0 && (mask == 0 || mask == 1 || mask == 3) && x == (mask + 1) * a
    requires a % 2 == 0 && a == 2 * b + bit && 0 <= bit <= 1
    ensures bit == 0 && mask != 3 && x == (2 * mask + 2) * b && (a > 0 ==> b < a) && a != 0
  {
    assert bit == 0;
    assert mask == 3 ==> x == 8 * b;
  }

  /**
    `dfsrsa_inverse` for an odd number and a modulus with at most two factors 2 and an odd part above 1:
    it answers 0 exactly for coprime arguments and then leaves the inverse below the modulus in `inv`.
   */
  method ModInverse(m: array<Digit>, inv: nat, num: nat, mod: nat, work: nat, len: nat) returns (r: int)
    requires 0 < len && inv + len <= m.Length && num + len <= m.Length && mod + len <= m.Length && work + 4 * len <= m.Length
    requires Apart(inv, len, work, 4 * len) && Apart(num, len, inv, len) && Apart(num, len, work, 4 * len)
    requires Apart(mod, len, inv, len) && Apart(mod, len, work, 4 * len)
    requires Num(m[..], num, len) % 2 == 1 && Num(m[..], mod, len) % 8 != 0
    requires Num(m[..], mod, len) !in {1, 2, 4}
    modifies m
    ensures Outside2(old(m[..]), m[..], inv, len, work, 4 * len)
    ensures r == if Coprime(Num(old(m[..]), num, len), Num(old(m[..]), mod, len)) then 0 else -1
    ensures r == 0 ==>
              && Num(m[..], inv, len) < Num(old(m[..]), mod, len)
              && Eqm(Num(m[..], inv, len) * Num(old(m[..]), num, len), 1, Num(old(m[..]), mod, len))
  {
    hide Num, Pow, Bezout, SameDivisors, Eqm, Coprime;
    ghost var s := m[..];
    ghost var n, whole := Num(s, num, len), Num(s, mod, len);
    var mask := Prepare(m, inv, num, mod, work, len);
    ghost var t := m[..];
    ghost var modulus := Num(t, work + 3 * len, len);
    Reduce(m, inv, work, len, n, modulus);
    ghost var u := m[..];
    ghost var g := Num(u, work, len);
    BezoutRange(n, g, Num(u, inv, len), modulus);
    DivisorsOddPart(n, modulus, mask + 1);
    DivisorsTransitive(n, whole, n, modulus, g, g);
    DivisorsDecide(n, whole, g);
    Set(m, work + len, len, 1);
    ghost var v := m[..];
    NumSame(u, v, work, len); NumSame(u, v, inv, len); NumSame(u, v, work + 3 * len, len); NumSame(s, v, num, len);
    var c := Cmp(m, work, work + len, len);
    if c != 0 {
      return -1;
    }
    NumBound(s, mod, len);
    FixLowBits(m, inv, num, work + 3 * len, len, mask);
    r := 0;
    Assembled(n, modulus, mask + 1, Num(u, inv, len), Num(m[..], inv, len));
  }

  lemma {:induction false} Assembled(n: int, modulus: int, w: int, x: int, inv: int)
    requires n % 2 == 1 && modulus % 2 == 1 && (w == 1 || w == 2 || w == 4) && Bezout(n, 1, x, modulus)
    requires Low(inv, w) == Low(n, w) && Eqm(inv, x, modulus)
    ensures Eqm(inv * n, 1, w * modulus)
  {
    EqmMul(inv, x, modulus, n);
    EqmAdd(inv * n, x * n, x * n, 1, modulus, inv * n, 1);
    OddSquare(n, inv, w);
    CombineModuli(inv * n, modulus, w);
  }

  method Prepare(m: array<Digit>, inv: nat, num: nat, mod: nat, work: nat, len: nat) returns (mask: nat)
    requires 0 < len && inv + len <= m.Length && num + len <= m.Length && mod + len <= m.Length && work + 4 * len <= m.Length
    requires Apart(inv, len, work, 4 * len) && Apart(num, len, inv, len) && Apart(num, len, work, 4 * len)
    requires Apart(mod, len, inv, len) && Apart(mod, len, work, 4 * len)
    requires Num(m[..], num, len) % 2 == 1 && Num(m[..], mod, len) % 8 != 0
    requires Num(m[..], mod, len) !in {1, 2, 4}
    modifies m
    ensures Outside2(old(m[..]), m[..], inv, len, work, 4 * len)
    ensures (mask == 0 || mask == 1 || mask == 3)
    ensures Num(old(m[..]), mod, len) == (mask + 1) * Num(m[..], work + 3 * len, len)
    ensures Keeps(m[..], inv, work, len, Num(old(m[..]), num, len), Num(m[..], work + 3 * len, len))
    ensures Num(m[..], work, len) % 2 == 1
  {
    hide Num, Pow, Bezout, SameDivisors, Eqm;
    ghost var s := m[..];
    ghost var n := Num(s, num, len);
    Copy(m, work, num, len);
    ghost var s0 := m[..];
    Set(m, inv, len, 1);
    ghost var s1 := m[..];
    NumSame(s0, s1, work, len); NumSame(s, s1, mod, len);
    mask := PrepareModulus(m, mod, work, len);
    ghost var t := m[..];
    NumSame(s1, t, inv, len); NumSame(s1, t, work, len);
    OddPartAbove(Num(s, mod, len), mask + 1, Num(t, work + 3 * len, len));
    Start(n, Num(t, work + 3 * len, len));
    SameSelf(n, Num(t, work + 3 * len, len));
  }

  lemma {:induction false} OddPartAbove(whole: int, w: int, modulus: int)
    requires whole == w * modulus && whole !in {1, 2, 4} && (w == 1 || w == 2 || w == 4) && modulus % 2 == 1 && modulus >= 0
    ensures modulus > 1
  {}

  method PrepareModulus(m: array<Digit>, mod: nat, work: nat, len: nat) returns (mask: nat)
    requires 0 < len && mod + len <= m.Length && work + 4 * len <= m.Length && Apart(mod, len, work, 4 * len)
    requires Num(m[..], mod, len) % 8 != 0
    modifies m
    ensures Outside(old(m[..]), m[..], work + len, work + 4 * len)
    ensures (mask == 0 || mask == 1 || mask == 3) && Num(m[..], work + 3 * len, len) % 2 == 1
    ensures Num(old(m[..]), mod, len) == (mask + 1) * Num(m[..], work + 3 * len, len)
    ensures Num(m[..], work + len, len) == Num(m[..], work + 3 * len, len) && Num(m[..], work + 2 * len, len) == 0
  {
    hide Num, Pow;
    Copy(m, work + 3 * len, mod, len);
    mask := OddPart(m, work + 3 * len, len);
    ghost var s2 := m[..];
    Copy(m, work + len, work + 3 * len, len);
    ghost var s3 := m[..];
    Set(m, work + 2 * len, len, 0);
    ghost var t := m[..];
    NumSame(s3, t, work + len, len); NumSame(s2, t, work + 3 * len, len);
  }

  lemma {:induction false} Start(n: int, modulus: int)
    requires n > 0 && modulus > 1
    ensures Bezout(n, n, 1, modulus) && Bezout(n, modulus, 0, modulus)
  {
    EqmSame(n, modulus);
    assert 1 * n == n && 0 * n == 0;
    EqmBy(0, modulus, modulus, -1);
  }
}
