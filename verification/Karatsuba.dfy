/**
  Karatsuba multiplication (dfslib/dfsrsa.c:561-605): `prod` first serves as scratch for a
  recursive call, and the middle term is added in place over digits that are still to be read.
 */
module Karatsuba {
  import opened Common
  import opened Digits
  import opened LongArith

  /** Everything outside the two given ranges is as it was. */
  ghost predicate Outside2(s: seq<Digit>, t: seq<Digit>, p: int, pLen: int, w: int, wLen: int) {
    |s| == |t| && forall i :: 0 <= i < |s| && !(p <= i < p + pLen) && !(w <= i < w + wLen) ==> t[i] == s[i]
  }

  ghost predicate Apart(x: int, xLen: int, y: int, yLen: int) {
    x + xLen <= y || y + yLen <= x
  }

  /** The middle term: high product, plus low product, plus or minus the product of the differences. */
  ghost function Middle(s: seq<Digit>, prod: nat, work: nat, h: nat, minus: bool, len: nat): int
    requires len <= 2 * h && prod + 4 * h <= |s| && work + 4 * h <= |s|
  {
    Num(s, prod + 2 * h, len) + Num(s, work, len)
    + if minus then 0 - Num(s, work + 2 * h, len) else Num(s, work + 2 * h, len)
  }

  ghost function MiddleDigit(s: seq<Digit>, prod: nat, work: nat, h: nat, minus: bool, i: nat): int
    requires i < 2 * h && prod + 4 * h <= |s| && work + 4 * h <= |s|
  {
    var a: int, b: int, c: int := s[prod + 2 * h + i], s[work + i], s[work + 2 * h + i];
    (if minus then 0 - c else c) + a + b
  }

  lemma {:induction false} MiddlePush(s: seq<Digit>, prod: nat, work: nat, h: nat, minus: bool, i: nat)
    requires i < 2 * h && prod + 4 * h <= |s| && work + 4 * h <= |s|
    ensures Middle(s, prod, work, h, minus, i + 1) == Middle(s, prod, work, h, minus, i)
            + MiddleDigit(s, prod, work, h, minus, i) * Pow(i)
  {
    hide Num, Pow;
    NumPush(s, prod + 2 * h, i); NumPush(s, work, i); NumPush(s, work + 2 * h, i);
    var a: int, b: int, c: int, p := s[prod + 2 * h + i], s[work + i], s[work + 2 * h + i], Pow(i);
    var e: int := if minus then 0 - c else c;
    MulAdd(e + a, b, p);
    MulAdd(e, a, p);
    MulNeg(c, p);
  }

  /** The two digit loops that add the middle term (dfslib/dfsrsa.c:588-602) and the final carry loop (603-605). */
  method AddMiddle(m: array<Digit>, prod: nat, work: nat, h: nat, minus: bool)
    requires 0 < h && prod + 4 * h <= m.Length && work + 4 * h <= m.Length && Apart(prod, 4 * h, work, 4 * h)
    requires var x := Middle(m[..], prod, work, h, minus, 2 * h); 0 <= x && Num(m[..], prod + h, 3 * h) + x < Pow(3 * h)
    modifies m
    ensures Outside(old(m[..]), m[..], prod + h, prod + 4 * h)
    ensures Num(m[..], prod + h, 3 * h)
            == Num(old(m[..]), prod + h, 3 * h) + Middle(old(m[..]), prod, work, h, minus, 2 * h)
  {
    hide Num, Pow;
    ghost var s := m[..];
    var rem := AddMiddleDigits(m, prod, work, h, minus);
    ghost var x := Middle(s, prod, work, h, minus, 2 * h);
    hide Middle;
    NumBound(m[..], prod + h, 2 * h);
    NonNegative(Num(m[..], prod + h, 2 * h), rem, Pow(2 * h));
    var j := 2 * h;
    while rem != 0
      invariant 2 * h <= j <= 3 * h && 0 <= rem <= 3
      invariant Outside(s, m[..], prod + h, prod + h + j)
      invariant Num(m[..], prod + h, j) + rem * Pow(j) == Num(s, prod + h, j) + x
      invariant j == 3 * h ==> rem == 0
      decreases 3 * h - j
    {
      ghost var t, c0 := m[..], rem;
      var r := rem + m[prod + h + j];
      m[prod + h + j] := r % BASE;
      rem := r / BASE;
      NumPush(s, prod + h, j); NumPush(m[..], prod + h, j);
      NumSame(t, m[..], prod + h, j);
      PowStep(j);
      Carry3(m[prod + h + j], rem, c0, s[prod + h + j], 0, Pow(j));
      j := j + 1;
      if j == 3 * h && rem > 0 {
        MulMono(1, rem, Pow(j));
      }
    }
    NumSplit(s, prod + h, j, 3 * h); NumSplit(m[..], prod + h, j, 3 * h);
    NumSame(s, m[..], prod + h + j, 3 * h - j);
  }

  lemma {:induction false} NonNegative(n: int, rem: int, p: int)
    requires 0 <= n < p && n + rem * p >= 0
    ensures rem >= 0
  {
    if rem < 0 {
      MulMono(rem, -1, p);
    }
  }

  method AddMiddleDigits(m: array<Digit>, prod: nat, work: nat, h: nat, minus: bool) returns (rem: int)
    requires 0 < h && prod + 4 * h <= m.Length && work + 4 * h <= m.Length && Apart(prod, 4 * h, work, 4 * h)
    modifies m
    ensures Outside(old(m[..]), m[..], prod + h, prod + 3 * h)
    ensures -1 <= rem <= 3
    ensures Num(m[..], prod + h, 2 * h) + rem * Pow(2 * h)
            == Num(old(m[..]), prod + h, 2 * h) + Middle(old(m[..]), prod, work, h, minus, 2 * h)
  {
    hide Num, Pow;
    ghost var s := m[..];
    PowStep(0);
    NumEmpty(s, prod + h); NumEmpty(s, prod + 2 * h); NumEmpty(s, work); NumEmpty(s, work + 2 * h);
    rem := 0;
    var i := 0;
    while i < 2 * h
      invariant i <= 2 * h && -1 <= rem <= 3
      invariant Outside(s, m[..], prod + h, prod + h + i)
      invariant Num(m[..], prod + h, i) + rem * Pow(i) == Num(s, prod + h, i) + Middle(s, prod, work, h, minus, i)
    {
      hide Middle;
      ghost var t, c0 := m[..], rem;
      var d: int := m[work + 2 * h + i];
      if minus {
        d := 0 - d;
      }
      d := d + m[prod + 2 * h + i] + m[work + i];
      var r := rem + m[prod + h + i] + d;
      m[prod + h + i] := r % BASE;
      rem := r / BASE;
      NumPush(s, prod + h, i); NumPush(m[..], prod + h, i);
      NumSame(t, m[..], prod + h, i);
      MiddlePush(s, prod, work, h, minus, i);
      assert d == MiddleDigit(s, prod, work, h, minus, i);
      PowStep(i);
      Carry3(m[prod + h + i], rem, c0, s[prod + h + i], d, Pow(i));
      i := i + 1;
    }
  }

  /** The absolute difference of the two halves of a number (dfslib/dfsrsa.c:573-582); `neg` if the low half is greater. */
  method HalfDifference(m: array<Digit>, dst: nat, mul: nat, h: nat) returns (neg: bool)
    requires dst + h <= m.Length && mul + 2 * h <= m.Length && Apart(dst, h, mul, 2 * h)
    modifies m
    ensures Outside(old(m[..]), m[..], dst, dst + h)
    ensures Num(old(m[..]), mul + h, h) - Num(old(m[..]), mul, h)
            == if neg then 0 - Num(m[..], dst, h) else Num(m[..], dst, h)
  {
    hide Num, Pow;
    var c := Cmp(m, mul + h, mul, h);
    ghost var s := m[..];
    var borrow;
    if c >= 0 {
      borrow := Sub(m, dst, mul + h, mul, h);
      neg := false;
    } else {
      borrow := Sub(m, dst, mul, mul + h, h);
      neg := true;
    }
    NumBound(m[..], dst, h);
    NonNegative(Num(m[..], dst, h), borrow, Pow(h));
  }

  /** `(a0 + a1*p) * (b0 + b1*p)` from three products. */
  lemma {:induction false} Recombine(a0: int, a1: int, b0: int, b1: int, p: int, x: int)
    requires x == a1 * b1 + a0 * b0 - (a1 - a0) * (b1 - b0)
    ensures x == a1 * b0 + a0 * b1
    ensures (a0 + p * a1) * (b0 + p * b1) == a0 * b0 + p * x + p * (p * (a1 * b1))
  {
    MulAdd(a1, 0 - a0, b1 - b0);
    MulAdd(b1, 0 - b0, a1);
    MulAdd(b1, 0 - b0, 0 - a0);
    MulNeg(b0, a1);
    MulNeg(a0, b1); MulNeg(a0, 0 - b0); MulNeg(b0, a0);
    MulAdd(a0, p * a1, b0 + p * b1);
    MulAdd(b0, p * b1, a0);
    MulAdd(b0, p * b1, p * a1);
    MulAssoc(p, a1, b0); MulSwap(a0, p, b1);
    MulAdd(a1 * b0, a0 * b1, p);
    MulAssoc(p, a1, p * b1); MulSwap(a1, p, b1);
  }

  /** The bounds that `AddMiddle` needs follow from the size of the product. */
  lemma {:induction false} MiddleFits(s: seq<Digit>, prod: nat, h: nat, x: int, product: int)
    requires 0 < h && prod + 4 * h <= |s| && 0 <= product < Pow(4 * h)
    requires product == Num(s, prod, 4 * h) + Pow(h) * x
    ensures Num(s, prod + h, 3 * h) + x < Pow(3 * h)
    ensures product == Num(s, prod, h) + Pow(h) * (Num(s, prod + h, 3 * h) + x)
  {
    hide Num, Pow;
    NumSplit(s, prod, h, 4 * h);
    PowAdd(h, 3 * h);
    MulAdd(Num(s, prod + h, 3 * h), x, Pow(h));
    var y := Num(s, prod + h, 3 * h) + x;
    if y >= Pow(3 * h) {
      MulMono(Pow(3 * h), y, Pow(h));
    }
  }

  lemma {:induction false} ProductBound(a: nat, b: nat, p: nat, q: nat)
    requires a < p && b < q
    ensures a * b < p * q
  {
    MulMono(a, p, b);
    MulMono(b, q, p);
    if a * b == p * q {
      MulMono(b + 1, q, p);
      MulAdd(b, 1, p);
    }
  }

  /** A number apart from both changed ranges is unchanged. */
  lemma {:induction false} NumKept(s: seq<Digit>, t: seq<Digit>, p: nat, pLen: nat, w: nat, wLen: nat, off: nat, len: nat)
    requires Outside2(s, t, p, pLen, w, wLen) && Apart(off, len, p, pLen) && Apart(off, len, w, wLen) && off + len <= |s|
    ensures Num(t, off, len) == Num(s, off, len)
  {
    NumSame(s, t, off, len);
  }

  /** The range at `x` lies in one of the two others. */
  ghost predicate Within(x: int, len: int, p: int, l: int, w: int, k: int) {
    (p <= x && x + len <= p + l) || (w <= x && x + len <= w + k)
  }

  /** Changes inside two ranges compose. */
  lemma {:induction false} Compose(s: seq<Digit>, t: seq<Digit>, u: seq<Digit>, p1: int, l1: int, w1: int, k1: int,
                                   p2: int, l2: int, w2: int, k2: int, p: int, l: int, w: int, k: int)
    requires Outside2(s, t, p1, l1, w1, k1) && Outside2(t, u, p2, l2, w2, k2)
    requires Within(p1, l1, p, l, w, k) && Within(w1, k1, p, l, w, k) && Within(p2, l2, p, l, w, k) && Within(w2, k2, p, l, w, k)
    ensures Outside2(s, u, p, l, w, k)
  {}

  /** Everything a caller may rely on about the operands of one multiplication. */
  ghost predicate Operands(size: nat, prod: nat, mul1: nat, mul2: nat, len: nat, work: nat) {
    && 0 < len && prod + 2 * len <= size && work + 2 * len <= size && mul1 + len <= size && mul2 + len <= size
    && Apart(prod, 2 * len, work, 2 * len)
    && Apart(mul1, len, prod, 2 * len) && Apart(mul1, len, work, 2 * len)
    && Apart(mul2, len, prod, 2 * len) && Apart(mul2, len, work, 2 * len)
  }

  /** `dfsrsa_karatsuba_mul`; `treshold` stands for KARATSUBA_TRESHOLD, 32 or 64 depending on the platform. */
  method KaratsubaMul(m: array<Digit>, prod: nat, mul1: nat, mul2: nat, len: nat, work: nat, treshold: nat)
    requires Operands(m.Length, prod, mul1, mul2, len, work) && treshold > 0
    modifies m
    ensures Outside2(old(m[..]), m[..], prod, 2 * len, work, 2 * len)
    ensures Num(m[..], prod, 2 * len) == Num(old(m[..]), mul1, len) * Num(old(m[..]), mul2, len)
    decreases len, 2
  {
    hide Num, Pow, Middle;
    if len % 2 == 1 || len < treshold {
      Mul(m, prod, mul1, mul2, len);
      return;
    }
    var h := len / 2;
    ghost var s := m[..];
    ghost var d1, d2;
    var neg1, neg2;
    neg1, neg2, d1, d2 := Products(m, prod, mul1, mul2, h, work, treshold);
    ghost var t := m[..];
    CrossValue(s, t, prod, mul1, mul2, h, work, neg1, neg2, d1, d2);
    CrossTerm(s, t, prod, mul1, mul2, h, work, Middle(t, prod, work, h, neg1 == neg2, 2 * h));
    AddMiddle(m, prod, work, h, neg1 == neg2);
    NumSplit(m[..], prod, h, 4 * h);
    NumSame(t, m[..], prod, h);
  }

  /** The three recursive products (dfslib/dfsrsa.c:573-586); the two low halves come out in `prod` and, copied, in `work`. */
  method Products(m: array<Digit>, prod: nat, mul1: nat, mul2: nat, h: nat, work: nat, treshold: nat)
      returns (neg1: bool, neg2: bool, ghost d1: nat, ghost d2: nat)
    requires Operands(m.Length, prod, mul1, mul2, 2 * h, work) && treshold > 0 && h > 0
    modifies m
    ensures Outside2(old(m[..]), m[..], prod, 4 * h, work, 4 * h)
    ensures Num(old(m[..]), mul1 + h, h) - Num(old(m[..]), mul1, h) == if neg1 then 0 - d1 else d1
    ensures Num(old(m[..]), mul2 + h, h) - Num(old(m[..]), mul2, h) == if neg2 then 0 - d2 else d2
    ensures Num(m[..], work + 2 * h, 2 * h) == d1 * d2
    ensures Num(m[..], prod, 2 * h) == Num(old(m[..]), mul1, h) * Num(old(m[..]), mul2, h) == Num(m[..], work, 2 * h)
    ensures Num(m[..], prod + 2 * h, 2 * h) == Num(old(m[..]), mul1 + h, h) * Num(old(m[..]), mul2 + h, h)
    decreases 2 * h, 1
  {
    hide Num, Pow;
    ghost var s := m[..];
    neg1, neg2, d1, d2 := Differences(m, mul1, mul2, h, work);
    ghost var s2 := m[..];
    assert Outside2(s, s2, prod, 0, work, 2 * h);
    KaratsubaMul(m, work + 2 * h, work, work + h, h, prod, treshold);
    hide Outside2;
    ghost var s3 := m[..];
    Compose(s, s2, s3, prod, 0, work, 2 * h, work + 2 * h, 2 * h, prod, 2 * h, prod, 4 * h, work, 4 * h);
    NumKept(s, s3, prod, 4 * h, work, 4 * h, mul1, h);
    NumKept(s, s3, prod, 4 * h, work, 4 * h, mul2, h);
    NumKept(s, s3, prod, 4 * h, work, 4 * h, mul1 + h, h);
    NumKept(s, s3, prod, 4 * h, work, 4 * h, mul2 + h, h);
    HalfProducts(m, prod, mul1, mul2, h, work, treshold);
    ghost var t := m[..];
    Compose(s, s3, t, prod, 4 * h, work, 4 * h, prod, 4 * h, work, 2 * h, prod, 4 * h, work, 4 * h);
    NumKept(s3, t, prod, 4 * h, work, 2 * h, work + 2 * h, 2 * h);
  }

  method HalfProducts(m: array<Digit>, prod: nat, mul1: nat, mul2: nat, h: nat, work: nat, treshold: nat)
    requires Operands(m.Length, prod, mul1, mul2, 2 * h, work) && treshold > 0 && h > 0
    modifies m
    ensures Outside2(old(m[..]), m[..], prod, 4 * h, work, 2 * h)
    ensures Num(m[..], prod, 2 * h) == Num(old(m[..]), mul1, h) * Num(old(m[..]), mul2, h) == Num(m[..], work, 2 * h)
    ensures Num(m[..], prod + 2 * h, 2 * h) == Num(old(m[..]), mul1 + h, h) * Num(old(m[..]), mul2 + h, h)
    decreases 2 * h, 0
  {
    hide Num, Pow, Outside2;
    ghost var s := m[..];
    KaratsubaMul(m, prod, mul1, mul2, h, work, treshold);
    ghost var s4 := m[..];
    NumKept(s, s4, prod, 2 * h, work, 2 * h, mul1 + h, h);
    NumKept(s, s4, prod, 2 * h, work, 2 * h, mul2 + h, h);
    KaratsubaMul(m, prod + 2 * h, mul1 + h, mul2 + h, h, work, treshold);
    ghost var s5 := m[..];
    Compose(s, s4, s5, prod, 2 * h, work, 2 * h, prod + 2 * h, 2 * h, work, 2 * h, prod, 4 * h, work, 2 * h);
    NumKept(s4, s5, prod + 2 * h, 2 * h, work, 2 * h, prod, 2 * h);
    CopyLow(m, work, prod, h);
    ghost var t := m[..];
    Compose(s, s5, t, prod, 4 * h, work, 2 * h, prod, 0, work, 2 * h, prod, 4 * h, work, 2 * h);
    NumKept(s5, t, prod, 0, work, 2 * h, prod, 2 * h);
    NumKept(s5, t, prod, 0, work, 2 * h, prod + 2 * h, 2 * h);
  }

  method CopyLow(m: array<Digit>, work: nat, prod: nat, h: nat)
    requires prod + 2 * h <= m.Length && work + 2 * h <= m.Length && Apart(prod, 2 * h, work, 2 * h)
    modifies m
    ensures Outside2(old(m[..]), m[..], prod, 0, work, 2 * h)
    ensures Num(m[..], work, 2 * h) == Num(old(m[..]), prod, 2 * h)
  {
    Copy(m, work, prod, 2 * h);
  }

  method Differences(m: array<Digit>, mul1: nat, mul2: nat, h: nat, work: nat)
      returns (neg1: bool, neg2: bool, ghost d1: nat, ghost d2: nat)
    requires work + 2 * h <= m.Length && mul1 + 2 * h <= m.Length && mul2 + 2 * h <= m.Length
    requires Apart(work, 2 * h, mul1, 2 * h) && Apart(work, 2 * h, mul2, 2 * h)
    modifies m
    ensures Outside(old(m[..]), m[..], work, work + 2 * h)
    ensures Num(old(m[..]), mul1 + h, h) - Num(old(m[..]), mul1, h) == if neg1 then 0 - d1 else d1
    ensures Num(old(m[..]), mul2 + h, h) - Num(old(m[..]), mul2, h) == if neg2 then 0 - d2 else d2
    ensures Num(m[..], work, h) == d1 && Num(m[..], work + h, h) == d2
  {
    hide Num, Pow;
    ghost var s := m[..];
    neg1 := HalfDifference(m, work, mul1, h);
    ghost var s1 := m[..];
    NumSame(s, s1, mul2, h); NumSame(s, s1, mul2 + h, h);
    neg2 := HalfDifference(m, work + h, mul2, h);
    NumSame(s1, m[..], work, h);
    d1, d2 := Num(m[..], work, h), Num(m[..], work + h, h);
  }

  lemma {:induction false} SignedProduct(u: int, v: int, neg1: bool, neg2: bool, d1: int, d2: int, d: int)
    requires d == d1 * d2 && u == (if neg1 then 0 - d1 else d1) && v == if neg2 then 0 - d2 else d2
    ensures u * v == if neg1 == neg2 then d else 0 - d
  {
    MulNeg(d1, d2); MulNeg(d2, d1); MulNeg(d1, 0 - d2);
  }

  lemma {:induction false} Assemble(a0: int, a1: int, b0: int, b1: int, low: int, high: int, d: int,
                                    neg1: bool, neg2: bool, d1: int, d2: int,
                                    p: int, pp: int, x: int, a: int, b: int, full: int)
    requires a0 >= 0 && a1 >= 0 && b0 >= 0 && b1 >= 0 && low == a0 * b0 && high == a1 * b1 && d == d1 * d2
    requires a1 - a0 == (if neg1 then 0 - d1 else d1) && b1 - b0 == if neg2 then 0 - d2 else d2
    requires x == high + low - (if neg1 == neg2 then d else 0 - d) && pp == p * p
    requires a == a0 + p * a1 && b == b0 + p * b1 && full == low + pp * high
    ensures 0 <= x && a * b == full + p * x
  {
    SignedProduct(a1 - a0, b1 - b0, neg1, neg2, d1, d2, d);
    Recombine(a0, a1, b0, b1, p, x);
    MulMono(0, a1, b0); MulMono(0, a0, b1);
    MulAssoc(p, p, a1 * b1);
  }

  /** The middle term completes the product of the two operands. */
  lemma {:induction false} CrossValue(s: seq<Digit>, t: seq<Digit>, prod: nat, mul1: nat, mul2: nat, h: nat, work: nat,
                                      neg1: bool, neg2: bool, d1: nat, d2: nat)
    requires |s| == |t| && 0 < h && Operands(|s|, prod, mul1, mul2, 2 * h, work)
    requires Num(s, mul1 + h, h) - Num(s, mul1, h) == if neg1 then 0 - d1 else d1
    requires Num(s, mul2 + h, h) - Num(s, mul2, h) == if neg2 then 0 - d2 else d2
    requires Num(t, work + 2 * h, 2 * h) == d1 * d2
    requires Num(t, prod, 2 * h) == Num(s, mul1, h) * Num(s, mul2, h) == Num(t, work, 2 * h)
    requires Num(t, prod + 2 * h, 2 * h) == Num(s, mul1 + h, h) * Num(s, mul2 + h, h)
    ensures var x := Middle(t, prod, work, h, neg1 == neg2, 2 * h);
            0 <= x && Num(s, mul1, 2 * h) * Num(s, mul2, 2 * h) == Num(t, prod, 4 * h) + Pow(h) * x
  {
    hide Num, Pow;
    var a0, a1, b0, b1 := Num(s, mul1, h), Num(s, mul1 + h, h), Num(s, mul2, h), Num(s, mul2 + h, h);
    var low, high, d, full := Num(t, prod, 2 * h), Num(t, prod + 2 * h, 2 * h), Num(t, work + 2 * h, 2 * h), Num(t, prod, 4 * h);
    var a, b := Num(s, mul1, 2 * h), Num(s, mul2, 2 * h);
    var x := Middle(t, prod, work, h, neg1 == neg2, 2 * h);
    NumSplit(s, mul1, h, 2 * h); NumSplit(s, mul2, h, 2 * h);
    NumSplit(t, prod, 2 * h, 4 * h);
    PowAdd(h, h);
    Assemble(a0, a1, b0, b1, low, high, d, neg1, neg2, d1, d2, Pow(h), Pow(2 * h), x, a, b, full);
  }

  /** After the three recursive products, the middle term completes the product and fits. */
  lemma {:induction false} CrossTerm(s: seq<Digit>, t: seq<Digit>, prod: nat, mul1: nat, mul2: nat, h: nat, work: nat, x: int)
    requires |s| == |t| && 0 < h && Operands(|s|, prod, mul1, mul2, 2 * h, work)
    requires Num(s, mul1, 2 * h) * Num(s, mul2, 2 * h) == Num(t, prod, 4 * h) + Pow(h) * x
    ensures Num(t, prod + h, 3 * h) + x < Pow(3 * h)
    ensures Num(s, mul1, 2 * h) * Num(s, mul2, 2 * h) == Num(t, prod, h) + Pow(h) * (Num(t, prod + h, 3 * h) + x)
  {
    hide Num, Pow;
    var a, b := Num(s, mul1, 2 * h), Num(s, mul2, 2 * h);
    NumBound(s, mul1, 2 * h); NumBound(s, mul2, 2 * h);
    ProductBound(a, b, Pow(2 * h), Pow(2 * h));
    MulMono(0, a, b);
    PowAdd(2 * h, 2 * h);
    MiddleFits(t, prod, h, x, a * b);
  }
}
