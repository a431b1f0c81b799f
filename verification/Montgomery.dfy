/**
  Montgomery reduction and exponentiation (dfslib/dfsrsa.c:835-888). `mdata` holds the factor
  `k` with `k*N = -1` modulo R in its first `len` digits and scratch space after it.
 */
module Montgomery {
  import opened Common
  import opened Digits
  import opened LongArith
  import opened Karatsuba
  import opened NumberTheory
  import opened Division
  import opened Inverse

  /** What `dfsrsa_montgomery_init` establishes, with R = 2^(32*len). */
  ghost predicate Ready(s: seq<Digit>, mod: nat, mdata: nat, len: nat) {
    && 0 < len && mod + len <= |s| && mdata + 6 * len <= |s| && Apart(mod, len, mdata, 6 * len)
    && Num(s, mod, len) > 1 && Eqm(Num(s, mdata, len) * Num(s, mod, len) + 1, 0, Pow(len))
  }

  lemma {:induction false} ReadyKept(s: seq<Digit>, t: seq<Digit>, p: nat, pLen: nat, mod: nat, mdata: nat, len: nat)
    requires Ready(s, mod, mdata, len) && Outside2(s, t, p, pLen, mdata + len, 5 * len)
    requires Apart(p, pLen, mod, len) && Apart(p, pLen, mdata, len)
    ensures Ready(t, mod, mdata, len) && Num(t, mod, len) == Num(s, mod, len)
  {
    NumSame(s, t, mod, len);
    NumSame(s, t, mdata, len);
  }

  /** Adding the right multiple of N makes the low half vanish, with a carry of exactly one. */
  lemma {:induction false} LowVanishes(lo: nat, k: nat, n: nat, r: nat, t: nat, z: nat, pLo: nat, pHi: nat)
    requires 0 < lo < r && pLo < r && Eqm(k * n + 1, 0, r)
    requires lo * k == t + r * z && t * n == pLo + r * pHi
    ensures lo + pLo == r
  {
    EqmMul(k * n + 1, 0, r, lo);
    MulAdd(k * n, 1, lo);
    assert lo * (k * n) == (lo * k) * n by { MulAssoc(lo, k, n); }
    MulAdd(t, r * z, n);
    MulAssoc(r, z, n);
    assert (k * n + 1) * lo == t * n + r * (z * n) + lo;
    EqmBy(t * n + r * (z * n) + lo, pLo + lo, r, pHi + z * n) by { MulAdd(pHi, z * n, r); }
    EqmSub(t * n + r * (z * n) + lo, 0, t * n + r * (z * n) + lo, pLo + lo, r, pLo + lo, 0);
    var j :| pLo + lo - 0 == Times(j, r);
    if j <= 0 {
      MulMono(j, 0, r);
    } else if j >= 2 {
      MulMono(2, j, r);
    }
  }

  /** The value of the reduction step before the final subtraction. */
  lemma {:induction false} StepValue(lo: nat, hi: nat, n: nat, r: nat, t: nat, pLo: nat, pHi: nat, v: nat)
    requires lo + pLo == r && t * n == pLo + r * pHi && v == hi + pHi + 1 && t < r
    ensures Eqm(v * r, lo + r * hi, n) && (lo + r * hi < n * r ==> v < 2 * n)
  {
    MulAdd(hi + pHi, 1, r);
    MulAdd(hi, pHi, r);
    assert v * r == lo + r * hi + t * n;
    EqmBy(v * r, lo + r * hi, n, t);
    if lo + r * hi < n * r && v >= 2 * n {
      MulMono(t, r, n);
      MulMono(2 * n, v, r);
      MulAssoc(2, n, r);
    }
  }

  /** The final subtraction (dfslib/dfsrsa.c:876-879): `num` holds `v` without its carry. */
  method FinalSubtract(m: array<Digit>, num: nat, mod: nat, len: nat, carry: Digit, ghost v: nat)
    requires num + len <= m.Length && mod + len <= m.Length && Apart(num, len, mod, len) && carry <= 1
    requires Num(m[..], num, len) + carry * Pow(len) == v
    modifies m
    ensures Outside(old(m[..]), m[..], num, num + len)
    ensures var n := Num(old(m[..]), mod, len);
            v < 2 * n ==> Num(m[..], num, len) == if v >= n then v - n else v
  {
    hide Num, Pow;
    NumBound(m[..], mod, len);
    NumBound(m[..], num, len);
    var c := Cmp(m, num, mod, len);
    if carry != 0 || c >= 0 {
      var r := Sub(m, num, num, mod, len);
      NumBound(m[..], num, len);
      FinalValue(Num(m[..], num, len), r, Pow(len), v - carry * Pow(len) - Num(old(m[..]), mod, len), carry);
    }
  }

  lemma {:induction false} FinalValue(x: nat, r: int, p: nat, diff: int, carry: int)
    requires x + r * p == diff && 0 <= carry <= 1 && -1 <= r <= 0 && x < p
    ensures 0 <= diff + carry * p < p ==> x == diff + carry * p
  {}

  /** `dfsrsa_montgomery_mod`: divide by R modulo N. */
  method MontgomeryMod(m: array<Digit>, num: nat, mod: nat, mdata: nat, len: nat, treshold: nat)
    requires Ready(m[..], mod, mdata, len) && treshold > 0
    requires num + 2 * len <= m.Length && Apart(num, 2 * len, mod, len) && Apart(num, 2 * len, mdata, 6 * len)
    modifies m
    ensures Outside2(old(m[..]), m[..], num, len, mdata + len, 5 * len)
    ensures var x, n := Num(old(m[..]), num, 2 * len), Num(old(m[..]), mod, len);
            x < n * Pow(len) ==> Num(m[..], num, len) < n && Eqm(Num(m[..], num, len) * Pow(len), x, n)
  {
    hide Num, Pow, Eqm, Outside2;
    var g := GetLen(m, num, len);
    if g != 0 {
      ReduceLow(m, num, mod, mdata, len, treshold);
    } else {
      ReduceHigh(m, num, mod, mdata, len);
    }
  }

  /** The reduction step when the low half is not zero (dfslib/dfsrsa.c:873-879). */
  method ReduceLow(m: array<Digit>, num: nat, mod: nat, mdata: nat, len: nat, treshold: nat)
    requires Ready(m[..], mod, mdata, len) && treshold > 0
    requires num + 2 * len <= m.Length && Apart(num, 2 * len, mod, len) && Apart(num, 2 * len, mdata, 6 * len)
    requires Num(m[..], num, len) > 0
    modifies m
    ensures Outside2(old(m[..]), m[..], num, len, mdata + len, 5 * len)
    ensures var x, n := Num(old(m[..]), num, 2 * len), Num(old(m[..]), mod, len);
            x < n * Pow(len) ==> Num(m[..], num, len) < n && Eqm(Num(m[..], num, len) * Pow(len), x, n)
  {
    hide Num, Pow, Eqm, Outside2;
    ghost var s := m[..];
    ghost var n, r, lo, hi := Num(s, mod, len), Pow(len), Num(s, num, len), Num(s, num + len, len);
    NumSplit(s, num, len, 2 * len);
    ghost var t, pLo, pHi := Multiples(m, num, mod, mdata, len, treshold);
    hide Ready;
    ghost var u := m[..];
    NumKept(s, u, mdata + len, 5 * len, mdata + len, 5 * len, num + len, len);
    NumKept(s, u, mdata + len, 5 * len, mdata + len, 5 * len, mod, len);
    var carry := Adc(m, num, num + len, mdata + 3 * len, 1, len);
    ghost var v := hi + pHi + 1;
    StepValue(lo, hi, n, r, t, pLo, pHi, v);
    NumSame(u, m[..], mod, len);
    ghost var w := m[..];
    FinalSubtract(m, num, mod, len, carry, v);
    FrameTwo(s, u, w, m[..], num, mdata, len);
    FinalResult(v, Num(m[..], num, len), n, r, Num(s, num, 2 * len));
  }

  /** The reduction step when the low half is zero (dfslib/dfsrsa.c:881-884). */
  method ReduceHigh(m: array<Digit>, num: nat, mod: nat, mdata: nat, len: nat)
    requires Ready(m[..], mod, mdata, len)
    requires num + 2 * len <= m.Length && Apart(num, 2 * len, mod, len) && Apart(num, 2 * len, mdata, 6 * len)
    requires Num(m[..], num, len) == 0
    modifies m
    ensures Outside2(old(m[..]), m[..], num, len, mdata + len, 5 * len)
    ensures var x, n := Num(old(m[..]), num, 2 * len), Num(old(m[..]), mod, len);
            x < n * Pow(len) ==> Num(m[..], num, len) < n && Eqm(Num(m[..], num, len) * Pow(len), x, n)
  {
    hide Num, Pow, Eqm, Outside2;
    ghost var s := m[..];
    ghost var n, r, hi := Num(s, mod, len), Pow(len), Num(s, num + len, len);
    NumSplit(s, num, len, 2 * len);
    CopyHigh(m, num, len);
    ghost var w := m[..];
    NumKept(s, w, num, len, num, 0, mod, len);
    FinalSubtract(m, num, mod, len, 0, hi);
    FrameTwo(s, s, w, m[..], num, mdata, len);
    EqmHigh(hi, r, n);
    if r * hi < n * r && hi >= n {
      MulMono(n, hi, r);
    }
  }

  lemma {:induction false} EqmHigh(hi: int, r: int, n: int)
    ensures Eqm(hi * r, 0 + r * hi, n)
  {
    EqmSame(hi * r, n);
  }

  method CopyHigh(m: array<Digit>, num: nat, len: nat)
    requires num + 2 * len <= m.Length
    modifies m
    ensures Outside2(old(m[..]), m[..], num, len, num, 0) && Outside(old(m[..]), m[..], num, num + len)
    ensures Num(m[..], num, len) == Num(old(m[..]), num + len, len)
  {
    Copy(m, num, num + len, len);
  }

  lemma {:induction false} FrameTwo(s: seq<Digit>, u: seq<Digit>, w: seq<Digit>, v: seq<Digit>, num: nat, mdata: nat, len: nat)
    requires u == s || Outside2(s, u, mdata + len, 5 * len, mdata + len, 5 * len)
    requires Outside(u, w, num, num + len) && Outside(w, v, num, num + len)
    ensures Outside2(s, v, num, len, mdata + len, 5 * len)
  {}

  lemma {:induction false} FinalResult(v: nat, x: nat, n: nat, r: nat, whole: nat)
    requires Eqm(v * r, whole, n) && (whole < n * r ==> v < 2 * n)
    requires v < 2 * n ==> x == if v >= n then v - n else v
    ensures whole < n * r ==> x < n && Eqm(x * r, whole, n)
  {
    if whole < n * r && v >= n {
      MulAdd(x, n, r);
      EqmBy(v * r, x * r, n, r);
      EqmSub(v * r, whole, v * r, x * r, n, x * r, whole);
    }
  }

  /** The two products of the reduction step (dfslib/dfsrsa.c:874-875). */
  method Multiples(m: array<Digit>, num: nat, mod: nat, mdata: nat, len: nat, treshold: nat)
      returns (ghost t: nat, ghost pLo: nat, ghost pHi: nat)
    requires Ready(m[..], mod, mdata, len) && treshold > 0
    requires num + 2 * len <= m.Length && Apart(num, 2 * len, mod, len) && Apart(num, 2 * len, mdata, 6 * len)
    requires Num(m[..], num, len) > 0
    modifies m
    ensures Outside2(old(m[..]), m[..], mdata + len, 5 * len, mdata + len, 5 * len)
    ensures Num(m[..], mdata + 3 * len, len) == pHi && t < Pow(len)
    ensures t * Num(old(m[..]), mod, len) == pLo + Pow(len) * pHi && Num(old(m[..]), num, len) + pLo == Pow(len)
  {
    hide Num, Pow, Eqm, Outside2;
    ghost var s := m[..];
    ghost var n, r, lo, k := Num(s, mod, len), Pow(len), Num(s, num, len), Num(s, mdata, len);
    NumBound(s, num, len);
    KaratsubaMul(m, mdata + len, num, mdata, len, mdata + 4 * len, treshold);
    ghost var u := m[..];
    Compose(s, s, u, mdata + len, 2 * len, mdata + 4 * len, 2 * len, mdata + len, 2 * len, mdata + 4 * len, 2 * len,
            mdata + len, 5 * len, mdata + len, 5 * len) by { Untouched(s, mdata + len, 2 * len, mdata + 4 * len, 2 * len); }
    NumKept(s, u, mdata + len, 5 * len, mdata + len, 5 * len, mod, len);
    NumSplit(u, mdata + len, len, 2 * len);
    t := Num(u, mdata + len, len);
    NumBound(u, mdata + len, len);
    KaratsubaMul(m, mdata + 2 * len, mdata + len, mod, len, mdata + 4 * len, treshold);
    ghost var v := m[..];
    Compose(s, u, v, mdata + len, 5 * len, mdata + len, 5 * len, mdata + 2 * len, 2 * len, mdata + 4 * len, 2 * len,
            mdata + len, 5 * len, mdata + len, 5 * len);
    NumSplit(v, mdata + 2 * len, len, 2 * len);
    pLo, pHi := Num(v, mdata + 2 * len, len), Num(v, mdata + 3 * len, len);
    NumBound(v, mdata + 2 * len, len);
    LowVanishes(lo, k, n, r, t, Num(u, mdata + 2 * len, len), pLo, pHi);
  }

  lemma {:induction false} Untouched(s: seq<Digit>, p: int, l: int, w: int, k: int)
    ensures Outside2(s, s, p, l, w, k)
  {}

  // --------------------------------------------------------------- initialisation

  /** R - N is prime to an odd N. */
  lemma {:induction false} ComplementCoprime(n: nat, len: nat)
    requires n % 2 == 1 && n < Pow(len)
    ensures Coprime(Pow(len) - n, n)
  {
    hide Pow;
    forall d | d > 0 && Divides(d, Pow(len) - n) && Divides(d, n) ensures d == 1 {
      DividesDifference(d, Pow(len), n);
      OddCoprime(d, n, len);
    }
  }

  lemma {:induction false} PowEven(len: nat)
    requires len > 0
    ensures Pow(len) % 8 == 0
  {
    PowStep(len - 1);
  }

  /** From `inv*(R-N) = 1` modulo N and the division of `R*inv` by N to the factor `k`. */
  lemma {:induction false} FactorK(inv: nat, r: nat, n: nat, k: nat, rem: nat)
    requires inv < n && 1 < n && Eqm(inv * (r - n), 1, n) && k * n + rem == r * inv && rem < n
    ensures rem == 1 && k < r && Eqm(k * n + 1, 0, r)
  {
    MulAdd(r - n, n, inv);
    EqmBy(r * inv, inv * (r - n), n, inv);
    EqmAdd(r * inv, inv * (r - n), inv * (r - n), 1, n, r * inv, 1);
    EqmBy(r * inv, rem, n, k);
    EqmSub(r * inv, 1, r * inv, rem, n, rem, 1);
    EqmUnique(rem, 1, n);
    EqmBy(k * n + 1, 0, r, inv);
    if k >= r {
      MulMono(r, k, n);
      MulMono(inv + 1, n, r);
      MulAdd(inv, 1, r);
    }
  }

  /** `dfsrsa_montgomery_init`: never fails for an odd modulus above 1. */
  method MontgomeryInit(m: array<Digit>, mod: nat, mdata: nat, work: nat, len: nat) returns (res: int)
    requires 0 < len && mod + len <= m.Length && mdata + 6 * len <= m.Length && work + 4 * len <= m.Length
    requires Apart(mod, len, mdata, 6 * len) && Apart(mod, len, work, 4 * len) && Apart(mdata, 6 * len, work, 4 * len)
    requires Num(m[..], mod, len) % 2 == 1 && Num(m[..], mod, len) > 1
    modifies m
    ensures Outside2(old(m[..]), m[..], mdata, 4 * len, work, 4 * len)
    ensures res == 0 && Ready(m[..], mod, mdata, len)
  {
    hide Num, Pow, Eqm, Coprime, Outside2;
    ghost var s := m[..];
    ghost var n, r := Num(s, mod, len), Pow(len);
    NumBound(s, mod, len);
    Complement(m, mod, mdata, len);
    ghost var t := m[..];
    NumKept(s, t, mdata, 4 * len, mdata, 0, mod, len);
    PowEven(len);
    ComplementCoprime(n, len);
    OddCondition(n, r);
    var err := ModInverse(m, mdata + 3 * len, mdata, mod, work, len);
    if err != 0 {
      return -1;
    }
    ghost var u := m[..];
    NumKept(t, u, mdata + 3 * len, len, work, 4 * len, mdata + 2 * len, len);
    NumKept(t, u, mdata + 3 * len, len, work, 4 * len, mod, len);
    NumSplit(u, mdata + 2 * len, len, 2 * len);
    ghost var inv := Num(u, mdata + 3 * len, len);
    err := DivMod(m, mdata + 2 * len, 2 * len, mod, len, mdata);
    if err != 0 {
      return -1;
    }
    ghost var v := m[..];
    NumKept(u, v, mdata + 2 * len, 2 * len, mdata, 2 * len, mod, len);
    FactorK(inv, r, n, Num(v, mdata, 2 * len), Num(v, mdata + 2 * len, 2 * len));
    SmallIsLow(v, mdata, len);
    Compose(s, t, u, mdata, 4 * len, mdata, 0, mdata + 3 * len, len, work, 4 * len, mdata, 4 * len, work, 4 * len);
    Compose(s, u, v, mdata, 4 * len, work, 4 * len, mdata + 2 * len, 2 * len, mdata, 2 * len, mdata, 4 * len, work, 4 * len);
    res := 0;
  }

  lemma {:induction false} OddCondition(n: int, r: int)
    requires n % 2 == 1 && n > 1 && r % 8 == 0
    ensures (r - n) % 2 == 1 && n % 8 != 0 && n !in {1, 2, 4}
  {
    OddForm(r - n, 4 * (r / 8) - n / 2 - 1);
    NotEighth(n);
  }

  lemma {:induction false} OddForm(x: int, y: int)
    requires x == 2 * y + 1
    ensures x % 2 == 1
  {}

  lemma {:induction false} NotEighth(n: int)
    requires n % 2 == 1
    ensures n % 8 != 0
  {
    var q := n / 8;
    assert n == 8 * q + n % 8;
  }

  /** A number of two halves that is below R has a zero upper half. */
  lemma {:induction false} SmallIsLow(s: seq<Digit>, off: nat, len: nat)
    requires off + 2 * len <= |s| && Num(s, off, 2 * len) < Pow(len)
    ensures Num(s, off, len) == Num(s, off, 2 * len)
  {
    hide Num, Pow;
    NumSplit(s, off, len, 2 * len);
    if Num(s, off + len, len) > 0 {
      MulMono(1, Num(s, off + len, len), Pow(len));
    }
  }

  /** R - N into `mdata`, zero into `mdata + 2*len` (dfslib/dfsrsa.c:839-840). */
  method Complement(m: array<Digit>, mod: nat, mdata: nat, len: nat)
    requires 0 < len && mod + len <= m.Length && mdata + 6 * len <= m.Length && Apart(mod, len, mdata, 6 * len)
    requires Num(m[..], mod, len) > 0
    modifies m
    ensures Outside2(old(m[..]), m[..], mdata, 4 * len, mdata, 0)
    ensures Num(m[..], mdata, len) == Pow(len) - Num(old(m[..]), mod, len) && Num(m[..], mdata + 2 * len, len) == 0
  {
    hide Num, Pow;
    ghost var s := m[..];
    Set(m, mdata + 2 * len, len, 0);
    ghost var t := m[..];
    NumSame(s, t, mod, len);
    var b := Sub(m, mdata, mdata + 2 * len, mod, len);
    NumSame(t, m[..], mdata + 2 * len, len);
    NumBound(s, mod, len);
    NumBound(m[..], mdata, len);
    SignOf(Num(m[..], mdata, len), b, Pow(len));
  }

  /** `dfsrsa_montgomery_reduce`: bring a number into Montgomery form. */
  method MontgomeryReduce(m: array<Digit>, num: nat, mod: nat, mdata: nat, len: nat) returns (res: int)
    requires Ready(m[..], mod, mdata, len)
    requires num + len <= m.Length && Apart(num, len, mdata, 6 * len) && Apart(num, len, mod, len)
    modifies m
    ensures Outside2(old(m[..]), m[..], num, len, mdata + len, 5 * len)
    ensures res == 0 && Num(m[..], num, len) < Num(old(m[..]), mod, len)
    ensures Eqm(Num(m[..], num, len), Num(old(m[..]), num, len) * Pow(len), Num(old(m[..]), mod, len))
  {
    hide Num, Pow, Eqm;
    ghost var s := m[..];
    ghost var n, x := Num(s, mod, len), Num(s, num, len);
    Set(m, mdata + 2 * len, len, 0);
    ghost var t := m[..];
    NumSame(s, t, num, len);
    Copy(m, mdata + 3 * len, num, len);
    ghost var u := m[..];
    NumSame(t, u, mdata + 2 * len, len); NumSame(s, u, mod, len);
    NumSplit(u, mdata + 2 * len, len, 2 * len);
    var err := Mod(m, mdata + 2 * len, 2 * len, mod, len);
    if err != 0 {
      return -1;
    }
    ghost var v := m[..];
    NumBound(s, mod, len);
    SmallIsLow(v, mdata + 2 * len, len);
    Copy(m, num, mdata + 2 * len, len);
    ModIsEqm(Pow(len) * x, n);
    res := 0;
  }

  lemma {:induction false} ModIsEqm(a: nat, n: nat)
    requires n > 0
    ensures Eqm(a % n, a, n) && a % n < n
  {
    EqmBy(a % n, a, n, 0 - a / n);
  }
}
