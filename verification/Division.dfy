/**
  Long division with estimated quotient digits (dfslib/dfsrsa.c:208-219 and 641-730).
 */
module Division {
  import opened Common
  import opened Digits
  import opened LongArith
  import opened Karatsuba

  /** The 64-bit accumulator `res` of `dfsrsa_mulsub` that stands for the borrow `c`. */
  ghost predicate Accumulates(res: int, c: int) {
    0 - BASE < c <= 0 && res == if c < 0 then c + WORD else 0
  }

  /** One step of `dfsrsa_mulsub` in 64-bit arithmetic computes a floor division of the true difference. */
  lemma {:induction false} BorrowStep(res: int, c: int, d: Digit, p: int, r: int)
    requires Accumulates(res, c) && 0 <= p <= (BASE - 1) * (BASE - 1) && r == (res + d - p) % WORD
    ensures var hi := r / BASE; var c1 := (c + d - p) / BASE;
            Accumulates(if hi != 0 then hi + (WORD - BASE) else hi, c1) && r % BASE + BASE * c1 == c + d - p
  {
    var v := c + d - p;
    assert 0 - (BASE - 1) * BASE <= v < BASE;
    assert r == if v < 0 then v + WORD else v;
  }

  /**
    `dfsrsa_mulsub`: subtract `big * small` where it does not exceed the number it is taken from,
    which may reach one digit beyond `len`; the digit above is touched only if it is needed.
   */
  method MulSub(m: array<Digit>, sub: nat, big: nat, small: Digit, len: nat)
    requires sub + len <= m.Length && big + len <= m.Length && Apart(big, len, sub, len)
    requires Num(m[..], big, len) * small <= Num(m[..], sub, len)
             || (sub + len < m.Length && Num(m[..], big, len) * small <= Num(m[..], sub, len + 1))
    modifies m
    ensures var product := Num(old(m[..]), big, len) * small;
            if product <= Num(old(m[..]), sub, len) then
              Outside(old(m[..]), m[..], sub, sub + len) && Num(m[..], sub, len) == Num(old(m[..]), sub, len) - product
            else
              && sub + len < m.Length && Outside(old(m[..]), m[..], sub, sub + len + 1)
              && Num(m[..], sub, len + 1) == Num(old(m[..]), sub, len + 1) - product
  {
    hide Num, Pow;
    ghost var s := m[..];
    var res, c := MulSubDigits(m, sub, big, small, len);
    ghost var t := m[..];
    ghost var p, n := Pow(len), Num(t, sub, len);
    NumBound(t, sub, len);
    BorrowSign(n, c, p);
    if res != 0 {
      NumPush(s, sub, len);
      BorrowFits(n, c, p, s[sub + len]);
      m[sub + len] := (m[sub + len] + res % BASE) % BASE;
      NumPush(m[..], sub, len);
      NumSame(t, m[..], sub, len);
      MulAdd(s[sub + len], c, p);
    }
  }

  lemma {:induction false} BorrowSign(n: int, c: int, p: int)
    requires 0 <= n < p && c <= 0
    ensures c == 0 <==> n + c * p >= 0
  {
    if c < 0 {
      MulMono(c, -1, p);
    }
  }

  lemma {:induction false} BorrowFits(n: int, c: int, p: int, d: int)
    requires 0 <= n < p && n + c * p + d * p >= 0
    ensures d + c >= 0
  {
    MulAdd(d, c, p);
    NonNegative(n, d + c, p);
  }

  method MulSubDigits(m: array<Digit>, sub: nat, big: nat, small: Digit, len: nat) returns (res: int, ghost c: int)
    requires sub + len <= m.Length && big + len <= m.Length && Apart(big, len, sub, len)
    modifies m
    ensures Outside(old(m[..]), m[..], sub, sub + len) && Accumulates(res, c)
    ensures Num(m[..], sub, len) + c * Pow(len) == Num(old(m[..]), sub, len) - Num(old(m[..]), big, len) * small
  {
    hide Num, Pow;
    ghost var s := m[..];
    PowStep(0);
    NumEmpty(s, sub); NumEmpty(s, big);
    res, c := 0, 0;
    var i := 0;
    while i < len
      invariant i <= len && Accumulates(res, c)
      invariant Outside(s, m[..], sub, sub + i)
      invariant Num(m[..], sub, i) + c * Pow(i) == Num(s, sub, i) - Num(s, big, i) * small
    {
      ghost var t, c0 := m[..], c;
      DigitProduct(0, m[big + i], small, 0);
      ghost var d: int := s[big + i] * small;
      var r := (res + m[sub + i] - m[big + i] * small) % WORD;
      BorrowStep(res, c, m[sub + i], d, r);
      m[sub + i] := r % BASE;
      res := r / BASE;
      if res != 0 {
        res := res + (WORD - BASE);
      }
      c := (c0 + s[sub + i] - d) / BASE;
      hide Accumulates;
      NumPush(s, sub, i); NumPush(s, big, i); NumPush(m[..], sub, i);
      NumSame(t, m[..], sub, i);
      PowStep(i);
      SubRow(m[sub + i], c, c0, s[sub + i], s[big + i], small, d, Pow(i), Num(s, big, i));
      i := i + 1;
    }
  }

  lemma {:induction false} SubRow(x: int, c: int, c0: int, e: int, g: int, small: int, d: int, p: int, n: int)
    requires x + BASE * c == c0 + e - d && d == g * small
    ensures x * p + c * (BASE * p) == c0 * p + e * p - d * p
    ensures (n + g * p) * small == n * small + d * p
  {
    Carry(x, c, c0 + e - d, p);
    MulAdd(c0 + e, 0 - d, p);
    MulAdd(c0, e, p);
    MulNeg(d, p);
    MulAdd(n, g * p, small);
    MulSwap(small, g, p);
    MulAssoc(g, small, p);
  }

  // ----------------------------------------------------------- estimating a digit

  /** The two leading digits of the divisor, rounded up where lower digits were cut off (dfslib/dfsrsa.c:696-701). */
  ghost predicate Leading(s: seq<Digit>, div: nat, len: nat, div1: int, div2: int) {
    && 0 < len && div + len <= |s| && s[div + len - 1] > 0
    && (var top: int := s[div + len - 1]; div1 == if len > 1 then top + 1 else top)
    && div2 == if len == 1 then 0
               else if len == 2 then s[div + 1] * BASE + s[div]
               else (s[div + len - 1] * BASE + s[div + len - 2] + 1) % WORD
  }

  /** The rounded leading digits bound the divisor from above; `div2` is 0 if rounding up wrapped around. */
  lemma {:induction false} LeadingBounds(s: seq<Digit>, div: nat, len: nat, div1: int, div2: int)
    requires Leading(s, div, len, div1, div2)
    ensures Num(s, div, len) <= div1 * Pow(len - 1) && 1 <= div1 <= BASE
    ensures len > 1 && div2 != 0 ==> Num(s, div, len) <= div2 * Pow(len - 2) && div2 >= BASE
    ensures len > 1 && div2 == 0 ==> div1 == BASE
    ensures Num(s, div, len) >= Pow(len - 1)
  {
    hide Num, Pow;
    NumAtLeast(s, div, len);
    NumPush(s, div, len - 1);
    NumBound(s, div, len - 1);
    MulAdd(s[div + len - 1], 1, Pow(len - 1));
    if len == 1 {
      NumEmpty(s, div);
    } else {
      TopTwo(s, div, len);
      var top: int := s[div + len - 1] * BASE + s[div + len - 2];
      MulAdd(top, 1, Pow(len - 2));
      if len == 2 {
        NumEmpty(s, div);
      }
    }
  }

  /** A number by its two leading digits. */
  lemma {:induction false} TopTwo(s: seq<Digit>, off: nat, len: nat)
    requires 1 < len && off + len <= |s|
    ensures var top: int := s[off + len - 1] * BASE + s[off + len - 2];
            && Num(s, off, len) == top * Pow(len - 2) + Num(s, off, len - 2)
            && Num(s, off, len - 2) < Pow(len - 2)
  {
    hide Num, Pow;
    NumPush(s, off, len - 1); NumPush(s, off, len - 2);
    NumBound(s, off, len - 2);
    PowStep(len - 2);
    var a: int, b: int, p := s[off + len - 1], s[off + len - 2], Pow(len - 2);
    MulAdd(a * BASE, b, p);
    MulAssoc(a, BASE, p);
  }

  lemma {:induction false} DivFloor(x: nat, y: nat)
    requires y > 0
    ensures x / y * y <= x && (x >= y ==> x / y >= 1)
  {}

  lemma {:induction false} DivBelow(x: nat, y: nat, z: nat)
    requires y > 0 && x < y * z
    ensures x / y < z
  {
    if x / y >= z {
      MulMono(z, x / y, y);
    }
  }

  /** `q * d` does not exceed the window if the quotient was estimated from leading digits. */
  lemma {:induction false} NoOvershoot(top: nat, lead: nat, d: nat, p: nat, w: nat)
    requires lead > 0 && d <= lead * p && top * p <= w
    ensures top / lead * d <= w
  {
    var q := top / lead;
    DivFloor(top, lead);
    MulMono(d, lead * p, q);
    MulAssoc(q, lead, p);
    MulMono(q * lead, top, p);
  }

  /** Estimate when the window is one digit longer than the divisor. */
  lemma {:induction false} EstimateLong(s: seq<Digit>, mod: nat, off: nat, div: nat, len: nat, div1: int, div2: int)
    requires Leading(s, div, len, div1, div2) && mod + off + len + 1 <= |s| && s[mod + off + len] > 0
    requires Num(s, mod + off + 1, len) < Num(s, div, len)
    ensures var q := (s[mod + off + len] * BASE + s[mod + off + len - 1]) / div1;
            1 <= q < BASE && Num(s, div, len) * q <= Num(s, mod + off, len + 1)
  {
    hide Num, Pow, Leading;
    LeadingLength(s, div, len, div1, div2);
    LeadingBounds(s, div, len, div1, div2);
    TopTwo(s, mod + off, len + 1);
    var m1: int, top: int, p := s[mod + off + len], s[mod + off + len] * BASE + s[mod + off + len - 1], Pow(len - 1);
    NoOvershoot(top, div1, Num(s, div, len), p, Num(s, mod + off, len + 1));
    DivFloor(top, div1);
    NumPush(s, mod + off + 1, len - 1);
    if m1 >= div1 {
      MulMono(div1, m1, p);
    }
    MulMono(m1 + 1, div1, BASE);
    DivBelow(top, div1, BASE);
  }

  /** Estimate from two leading digits when the window is as long as the divisor. */
  lemma {:induction false} EstimateTwo(s: seq<Digit>, mod: nat, off: nat, div: nat, len: nat, div1: int, div2: int)
    requires Leading(s, div, len, div1, div2) && len > 1 && div2 != 0 && mod + off + len <= |s|
    ensures var q := (s[mod + off + len - 1] * BASE + s[mod + off + len - 2]) / div2;
            0 <= q < BASE && q * Num(s, div, len) <= Num(s, mod + off, len)
  {
    hide Num, Pow, Leading;
    LeadingLength(s, div, len, div1, div2);
    LeadingBounds(s, div, len, div1, div2);
    TopTwo(s, mod + off, len);
    var top: int, d, w := s[mod + off + len - 1] * BASE + s[mod + off + len - 2], Num(s, div, len), Num(s, mod + off, len);
    NoOvershoot(top, div2, d, Pow(len - 2), w);
    DivBelow(top, div2, BASE);
  }

  /** A one-digit divisor is divided exactly; a divisor of all ones is taken once. */
  lemma {:induction false} EstimateOne(s: seq<Digit>, mod: nat, off: nat, div: nat, len: nat, div1: int, div2: int)
    requires Leading(s, div, len, div1, div2) && (len == 1 || div2 == 0) && mod + off + len <= |s|
    ensures var q := s[mod + off + len - 1] / div1;
            0 <= q < BASE && q * Num(s, div, len) <= Num(s, mod + off, len)
  {
    hide Num, Pow;
    LeadingBounds(s, div, len, div1, div2);
    var top := s[mod + off + len - 1];
    if len == 1 {
      NumOne(s, mod + off); NumOne(s, div);
      DivFloor(top, div1);
    }
    MulMono(1, div1, BASE);
    DivBelow(top, div1, BASE);
  }

  /**
    The digit estimate (dfslib/dfsrsa.c:703-722): either the dividend is already smaller than the divisor,
    or a digit `q >= 1` and an offset are found such that `q` times the shifted divisor does not overshoot.
   */
  method Estimate(m: array<Digit>, mod: nat, mlen: nat, div: nat, len: nat, div1: int, div2: int)
      returns (done: bool, offset: nat, q: Digit)
    requires mod + mlen <= m.Length && Leading(m[..], div, len, div1, div2)
    requires mlen > 0 ==> m[mod + mlen - 1] > 0
    ensures done ==> Num(m[..], mod, mlen) < Num(m[..], div, len)
    ensures !done ==>
              && offset + len <= mlen <= offset + len + 1 && q >= 1
              && Num(m[..], div, len) * q <= Num(m[..], mod + offset, mlen - offset)
              && Num(m[..], mod, mlen) < Pow(offset + 1) * Num(m[..], div, len)
  {
    hide Num, Pow, Leading;
    ghost var s := m[..];
    LeadingLength(s, div, len, div1, div2);
    done, offset, q := false, 0, 1;
    if mlen < len {
      ShorterIsLess(s, mod, mlen, div, len);
      return true, 0, 1;
    }
    offset := mlen - len;
    var res := Cmp(m, mod + offset, div, len);
    var mod0: int := m[mod + mlen - 1];
    if res < 0 {
      if offset == 0 {
        return true, 0, 1;
      }
      offset := offset - 1;
      EstimateLong(s, mod, offset, div, len, div1, div2);
      WindowLong(s, mod, mlen, offset, div, len);
      mod0 := (mod0 * BASE + m[mod + mlen - 2]) / div1;
    } else {
      WindowShort(s, mod, mlen, offset, div, len, div1, div2);
      if len > 1 && div2 != 0 {
        EstimateTwo(s, mod, offset, div, len, div1, div2);
        mod0 := (mod0 * BASE + m[mod + mlen - 2]) / div2;
      } else {
        EstimateOne(s, mod, offset, div, len, div1, div2);
        mod0 := mod0 / div1;
      }
    }
    if mod0 == 0 {
      mod0 := 1;
    }
    q := mod0;
  }

  lemma {:induction false} LeadingLength(s: seq<Digit>, div: nat, len: nat, div1: int, div2: int)
    requires Leading(s, div, len, div1, div2)
    ensures 0 < len && div + len <= |s| && s[div + len - 1] > 0 && div1 > 0 && (div2 == 0 || div2 > 0)
  {}

  /** One round of the division loop: subtract the estimated multiple of the divisor. `mlen` is the significant length. */
  method ReduceOnce(m: array<Digit>, mod: nat, mlen: nat, div: nat, len: nat, div1: int, div2: int)
      returns (done: bool, offset: nat, q: Digit)
    requires mod + mlen <= m.Length && Leading(m[..], div, len, div1, div2) && Apart(div, len, mod, mlen)
    requires mlen > 0 ==> m[mod + mlen - 1] > 0
    modifies m
    ensures Outside(old(m[..]), m[..], mod, mod + mlen)
    ensures done ==> m[..] == old(m[..]) && Num(m[..], mod, mlen) < Num(m[..], div, len)
    ensures !done ==>
              && offset + len <= mlen && q >= 1
              && Num(m[..], mod, mlen) == Num(old(m[..]), mod, mlen) - Pow(offset) * (Num(old(m[..]), div, len) * q)
              && Num(old(m[..]), mod, mlen) < Pow(offset + 1) * Num(old(m[..]), div, len)
  {
    hide Num, Pow, Leading;
    ghost var s := m[..];
    LeadingLength(s, div, len, div1, div2);
    done, offset, q := Estimate(m, mod, mlen, div, len, div1, div2);
    if !done {
      MulSub(m, mod + offset, div, q, len);
      Subtracted(s, m[..], mod, mlen, offset, div, len, q);
    }
  }

  lemma {:induction false} ShorterIsLess(s: seq<Digit>, mod: nat, mlen: nat, div: nat, len: nat)
    requires mlen < len && mod + mlen <= |s| && div + len <= |s| && s[div + len - 1] > 0
    ensures Num(s, mod, mlen) < Num(s, div, len)
  {
    NumBound(s, mod, mlen);
    NumAtLeast(s, div, len);
    PowMono(mlen, len - 1);
  }

  lemma {:induction false} PowMono(a: nat, b: nat)
    requires a <= b
    ensures Pow(a) <= Pow(b)
  {
    PowAdd(a, b - a);
    MulMono(1, Pow(b - a), Pow(a));
  }

  /** If the top window is below the divisor, the whole is below the divisor shifted there. */
  lemma {:induction false} WindowLong(s: seq<Digit>, mod: nat, mlen: nat, offset: nat, div: nat, len: nat)
    requires offset + len + 1 == mlen && mod + mlen <= |s| && div + len <= |s|
    requires Num(s, mod + offset + 1, len) < Num(s, div, len)
    ensures Num(s, mod, mlen) < Pow(offset + 1) * Num(s, div, len)
  {
    hide Num, Pow;
    NumSplit(s, mod, offset + 1, mlen);
    NumBound(s, mod, offset + 1);
    MulMono(Num(s, mod + offset + 1, len) + 1, Num(s, div, len), Pow(offset + 1));
    MulAdd(Num(s, mod + offset + 1, len), 1, Pow(offset + 1));
  }

  lemma {:induction false} WindowShort(s: seq<Digit>, mod: nat, mlen: nat, offset: nat, div: nat, len: nat, div1: int, div2: int)
    requires offset + len == mlen && mod + mlen <= |s| && Leading(s, div, len, div1, div2)
    ensures Num(s, mod, mlen) < Pow(offset + 1) * Num(s, div, len)
  {
    hide Num, Pow;
    LeadingBounds(s, div, len, div1, div2);
    NumBound(s, mod, mlen);
    PowAdd(offset + 1, len - 1);
    MulMono(Pow(len - 1), Num(s, div, len), Pow(offset + 1));
  }

  /** Subtracting in a window that ends at the top subtracts the shifted multiple from the whole. */
  lemma {:induction false} Subtracted(s: seq<Digit>, t: seq<Digit>, mod: nat, mlen: nat, offset: nat, div: nat, len: nat, q: Digit)
    requires |s| == |t| && mod + mlen <= |s| && div + len <= |s| && offset + len <= mlen <= offset + len + 1
    requires var product := Num(s, div, len) * q;
             if product <= Num(s, mod + offset, len) then
               Outside(s, t, mod + offset, mod + offset + len) && Num(t, mod + offset, len) == Num(s, mod + offset, len) - product
             else
               && mlen == offset + len + 1 && Outside(s, t, mod + offset, mod + offset + len + 1)
               && Num(t, mod + offset, len + 1) == Num(s, mod + offset, len + 1) - product
    ensures Num(t, mod, mlen) == Num(s, mod, mlen) - Pow(offset) * (Num(s, div, len) * q)
  {
    hide Num, Pow;
    var product := Num(s, div, len) * q;
    var w := mlen - offset;
    NumSplit(s, mod, offset, mlen); NumSplit(t, mod, offset, mlen);
    NumSame(s, t, mod, offset);
    assert Num(t, mod + offset, w) == Num(s, mod + offset, w) - product by {
      if w == len + 1 && product <= Num(s, mod + offset, len) {
        NumPush(s, mod + offset, len); NumPush(t, mod + offset, len);
      }
    }
    MulAdd(Num(t, mod + offset, w), product, Pow(offset));
  }

  // ------------------------------------------------------------------- the loops

  /** The leading digits as the C code computes them (dfslib/dfsrsa.c:696-701). */
  method LeadingDigits(m: array<Digit>, div: nat, len: nat) returns (div1: int, div2: int)
    requires 0 < len && div + len <= m.Length && m[div + len - 1] > 0
    ensures Leading(m[..], div, len, div1, div2)
  {
    div1 := m[div + len - 1];
    div2 := 0;
    if len > 1 {
      div2 := div1 * BASE + m[div + len - 2];
      div1 := div1 + 1;
      if len > 2 {
        div2 := (div2 + 1) % WORD;
      }
    }
  }

  lemma {:induction false} LeadingSame(s: seq<Digit>, t: seq<Digit>, div: nat, len: nat, div1: int, div2: int)
    requires Leading(s, div, len, div1, div2) && |t| == |s| && forall i :: div <= i < div + len ==> t[i] == s[i]
    ensures Leading(t, div, len, div1, div2) && Num(t, div, len) == Num(s, div, len)
  {
    NumSame(s, t, div, len);
  }

  lemma {:induction false} Decreased(before: nat, after: int, p: nat, d: nat, q: nat)
    requires after == before - p * (d * q) && p > 0 && d > 0 && q > 0
    ensures after < before
  {
    MulMono(1, q, d);
    MulMono(1, d * q, p);
  }

  /** `dfsrsa_mod` (dfslib/dfsrsa.c:643-682): -1 for a zero divisor, otherwise the remainder is left in `mod`. */
  method Mod(m: array<Digit>, mod: nat, mlen0: nat, div: nat, len0: nat) returns (r: int)
    requires mod + mlen0 <= m.Length && div + len0 <= m.Length && Apart(div, len0, mod, mlen0)
    modifies m
    ensures Outside(old(m[..]), m[..], mod, mod + mlen0)
    ensures r == if Num(old(m[..]), div, len0) == 0 then -1 else 0
    ensures r == -1 ==> m[..] == old(m[..])
    ensures r == 0 ==> Num(m[..], mod, mlen0) == Num(old(m[..]), mod, mlen0) % Num(old(m[..]), div, len0)
  {
    hide Num, Pow, Leading;
    ghost var s := m[..];
    var len := GetLen(m, div, len0);
    if len == 0 {
      return -1;
    }
    r := 0;
    ghost var d := Num(s, div, len0);
    var div1, div2 := LeadingDigits(m, div, len);
    var mlen: nat := mlen0;
    ghost var k: nat := 0;
    while true
      invariant mlen <= mlen0 && Outside(s, m[..], mod, mod + mlen0)
      invariant Leading(m[..], div, len, div1, div2) && Num(m[..], div, len) == d > 0
      invariant Num(m[..], mod, mlen) == Num(m[..], mod, mlen0)
      invariant Num(m[..], mod, mlen0) + d * k == Num(s, mod, mlen0)
      invariant forall i :: mod + mlen <= i < mod + mlen0 ==> m[i] == 0
      decreases Num(m[..], mod, mlen0)
    {
      mlen := GetLen(m, mod, mlen);
      ghost var t := m[..];
      var done, offset, q := ReduceOnce(m, mod, mlen, div, len, div1, div2);
      if done {
        Remainder(Num(s, mod, mlen0), d, k, Num(m[..], mod, mlen0));
        break;
      }
      LeadingLength(t, div, len, div1, div2);
      LeadingSame(t, m[..], div, len, div1, div2);
      LeadingZeros(m[..], mod, mlen, mlen0);
      Decreased(Num(t, mod, mlen), Num(m[..], mod, mlen), Pow(offset), d, q);
      MulSwap(Pow(offset), d, q);
      MulAdd(k, Pow(offset) * q, d);
      k := k + Pow(offset) * q;
    }
  }

  /** A division identity with a small rest determines the remainder. */
  lemma {:induction false} Remainder(x: nat, d: nat, k: nat, r: nat)
    requires d > 0 && r + d * k == x && r < d
    ensures x % d == r && x / d == k
  {
    var q, y := x / d, x % d;
    assert x == d * q + y && 0 <= y < d;
    if q < k {
      MulMono(q + 1, k, d);
      MulAdd(q, 1, d);
    } else if q > k {
      MulMono(k + 1, q, d);
      MulAdd(k, 1, d);
    }
  }

  /** Changing one digit changes the number by its weight. */
  lemma {:induction false} NumUpdate(s: seq<Digit>, t: seq<Digit>, off: nat, len: nat, i: nat)
    requires |s| == |t| && off + len <= |s| && i < len && Outside(s, t, off + i, off + i + 1)
    ensures Num(t, off, len) - Num(s, off, len) == (t[off + i] - s[off + i]) * Pow(i)
    decreases len
  {
    hide Num, Pow;
    NumPush(s, off, len - 1); NumPush(t, off, len - 1);
    if i == len - 1 {
      NumSame(s, t, off, len - 1);
      var a: int, b: int := t[off + i], s[off + i];
      MulAdd(a - b, b, Pow(i));
    } else {
      NumUpdate(s, t, off, len - 1, i);
    }
  }

  /**
    The quotient digits written so far: zero below `o`, and digit `o` times the shifted divisor together with the
    rest `x` stays below the next shift. Hence adding the next estimated digit never carries.
   */
  ghost predicate QuotientSoFar(s: seq<Digit>, quo: nat, mlen0: nat, o: nat, d: nat, x: nat) {
    && o < mlen0 && quo + mlen0 <= |s|
    && (forall i :: quo <= i < quo + o ==> s[i] == 0)
    && Pow(o) * (d * s[quo + o]) + x < Pow(o + 1) * d
  }

  /** The offsets never increase, and the digit at the current offset has room for the new estimate. */
  lemma {:induction false} DigitRoom(s: seq<Digit>, quo: nat, mlen0: nat, o: nat, n: nat, d: nat, x: nat, x1: nat, q: Digit)
    requires QuotientSoFar(s, quo, mlen0, o, d, x) && d > 0 && q >= 1
    requires x1 == x - Pow(n) * (d * q) && x < Pow(n + 1) * d
    ensures n <= o && s[quo + n] + q < BASE
    ensures Pow(n) * (d * (s[quo + n] + q)) + x1 < Pow(n + 1) * d
  {
    hide Pow;
    MulMono(1, q, d);
    MulMono(d, d * q, Pow(n));
    if n > o {
      PowMono(o + 1, n);
      MulMono(Pow(o + 1), Pow(n), d);
      MulMono(0, d * s[quo + o], Pow(o));
    }
    PowStep(n);
    var e: int := s[quo + n];
    MulMono(0, d * e, Pow(n));
    MulAdd(e, q, d);
    MulAdd(d * e, d * q, Pow(n));
    if n < o {
      assert e == 0;
    }
    Room(e + q, Pow(n), d, x1);
  }

  lemma {:induction false} Room(v: nat, p: nat, d: nat, x1: nat)
    requires p * (d * v) + x1 < BASE * p * d && p > 0 && d > 0
    ensures v < BASE
  {
    if v >= BASE {
      MulMono(BASE, v, d);
      MulMono(d * BASE, d * v, p);
      MulSwap(p, d, BASE);
    }
  }

  /**
    `dfsrsa_divmod` (dfslib/dfsrsa.c:687-730): -1 for a zero divisor, otherwise the exact quotient and remainder.
    Adding an estimated digit to the quotient never carries.
   */
  method DivMod(m: array<Digit>, mod: nat, mlen0: nat, div: nat, len0: nat, quo: nat) returns (r: int)
    requires mod + mlen0 <= m.Length && div + len0 <= m.Length && quo + mlen0 <= m.Length && 0 < mlen0
    requires Apart(div, len0, mod, mlen0) && Apart(quo, mlen0, mod, mlen0) && Apart(quo, mlen0, div, len0)
    modifies m
    ensures Outside2(old(m[..]), m[..], mod, mlen0, quo, mlen0)
    ensures r == if Num(old(m[..]), div, len0) == 0 then -1 else 0
    ensures r == -1 ==> m[..] == old(m[..])
    ensures r == 0 ==>
              var x, d := Num(old(m[..]), mod, mlen0), Num(old(m[..]), div, len0);
              && Num(m[..], quo, mlen0) * d + Num(m[..], mod, mlen0) == x && Num(m[..], mod, mlen0) < d
              && Num(m[..], quo, mlen0) == x / d && Num(m[..], mod, mlen0) == x % d
  {
    hide Num, Pow, Leading, QuotientSoFar;
    ghost var s := m[..];
    var len := GetLen(m, div, len0);
    if len == 0 {
      return -1;
    }
    r := 0;
    Set(m, quo, mlen0, 0);
    ghost var x, d := Num(s, mod, mlen0), Num(s, div, len0);
    NumSame(s, m[..], mod, mlen0); NumSame(s, m[..], div, len);
    var div1, div2 := LeadingDigits(m, div, len);
    ghost var o: nat := mlen0 - 1;
    NoQuotient(m[..], mod, quo, mlen0, d);
    var mlen: nat := mlen0;
    while true
      invariant mlen <= mlen0 && Outside2(s, m[..], mod, mlen0, quo, mlen0)
      invariant Leading(m[..], div, len, div1, div2) && Num(m[..], div, len) == d > 0
      invariant Num(m[..], mod, mlen) == Num(m[..], mod, mlen0)
      invariant Num(m[..], quo, mlen0) * d + Num(m[..], mod, mlen0) == x
      invariant forall i :: mod + mlen <= i < mod + mlen0 ==> m[i] == 0
      invariant 0 <= o && QuotientSoFar(m[..], quo, mlen0, o, d, Num(m[..], mod, mlen0))
      decreases Num(m[..], mod, mlen0)
    {
      mlen := GetLen(m, mod, mlen);
      ghost var t := m[..];
      LeadingLength(t, div, len, div1, div2);
      var done;
      done, o := DivStep(m, mod, mlen0, mlen, div, len, div1, div2, quo, d, x, o);
      if done {
        Remainder(x, d, Num(m[..], quo, mlen0), Num(m[..], mod, mlen0));
        break;
      }
      Compose(s, t, m[..], mod, mlen0, quo, mlen0, mod, mlen0, quo, mlen0, mod, mlen0, quo, mlen0);
    }
  }

  /** One round of the loop of `dfsrsa_divmod`: the quotient grows by what the dividend loses. */
  method DivStep(m: array<Digit>, mod: nat, mlen0: nat, mlen: nat, div: nat, len: nat, div1: int, div2: int, quo: nat,
                 ghost d: nat, ghost x: nat, ghost o: nat) returns (done: bool, ghost o1: nat)
    requires mod + mlen0 <= m.Length && quo + mlen0 <= m.Length && mlen <= mlen0
    requires Leading(m[..], div, len, div1, div2) && div + len <= m.Length && Num(m[..], div, len) == d > 0
    requires Apart(div, len, mod, mlen0) && Apart(quo, mlen0, mod, mlen0) && Apart(quo, mlen0, div, len)
    requires mlen > 0 ==> m[mod + mlen - 1] > 0
    requires Num(m[..], mod, mlen) == Num(m[..], mod, mlen0) && forall i :: mod + mlen <= i < mod + mlen0 ==> m[i] == 0
    requires Num(m[..], quo, mlen0) * d + Num(m[..], mod, mlen0) == x
    requires QuotientSoFar(m[..], quo, mlen0, o, d, Num(m[..], mod, mlen0))
    modifies m
    ensures Outside2(old(m[..]), m[..], mod, mlen0, quo, mlen0)
    ensures done ==> m[..] == old(m[..]) && Num(m[..], mod, mlen0) < d
    ensures Leading(m[..], div, len, div1, div2) && Num(m[..], div, len) == d
    ensures Num(m[..], mod, mlen) == Num(m[..], mod, mlen0) && forall i :: mod + mlen <= i < mod + mlen0 ==> m[i] == 0
    ensures Num(m[..], quo, mlen0) * d + Num(m[..], mod, mlen0) == x
    ensures QuotientSoFar(m[..], quo, mlen0, o1, d, Num(m[..], mod, mlen0))
    ensures !done ==> Num(m[..], mod, mlen0) < Num(old(m[..]), mod, mlen0)
  {
    hide Num, Pow, Leading, QuotientSoFar;
    ghost var t := m[..];
    o1 := o;
    var offset, q;
    done, offset, q := ReduceOnce(m, mod, mlen, div, len, div1, div2);
    if !done {
      ghost var u := m[..];
      LeadingSame(t, u, div, len, div1, div2);
      LeadingZeros(u, mod, mlen, mlen0);
      Decreased(Num(t, mod, mlen), Num(u, mod, mlen), Pow(offset), d, q);
      DigitRoom(t, quo, mlen0, o, offset, d, Num(t, mod, mlen0), Num(u, mod, mlen0), q);
      var _ := AddEq(m, quo + offset, q, mlen - offset);
      NumSame(u, m[..], mod, mlen0); NumSame(u, m[..], mod, mlen);
      LeadingSame(u, m[..], div, len, div1, div2);
      NextQuotient(t, u, m[..], mod, quo, mlen0, o, offset, d, Num(u, mod, mlen0), q, x);
      o1 := offset;
    }
  }

  lemma {:induction false} NoQuotient(s: seq<Digit>, mod: nat, quo: nat, mlen0: nat, d: nat)
    requires 0 < mlen0 && mod + mlen0 <= |s| && quo + mlen0 <= |s| && d > 0
    requires forall i :: quo <= i < quo + mlen0 ==> s[i] == 0
    ensures QuotientSoFar(s, quo, mlen0, mlen0 - 1, d, Num(s, mod, mlen0))
  {
    hide Num, Pow;
    NumBound(s, mod, mlen0);
    MulMono(1, d, Pow(mlen0));
  }

  lemma {:induction false} NextQuotient(t: seq<Digit>, u: seq<Digit>, v: seq<Digit>, mod: nat, quo: nat, mlen0: nat, o: nat, n: nat,
                                        d: nat, x1: nat, q: Digit, x: nat)
    requires |t| == |u| == |v| && mod + mlen0 <= |t| && Apart(quo, mlen0, mod, mlen0)
    requires QuotientSoFar(t, quo, mlen0, o, d, x1 + Pow(n) * (d * q)) && n <= o
    requires Outside(t, u, mod, mod + mlen0) && Outside(u, v, quo + n, quo + n + 1) && v[quo + n] == u[quo + n] + q
    requires Pow(n) * (d * (t[quo + n] + q)) + x1 < Pow(n + 1) * d
    requires Num(t, quo, mlen0) * d + (x1 + Pow(n) * (d * q)) == x
    ensures QuotientSoFar(v, quo, mlen0, n, d, x1)
    ensures Num(v, quo, mlen0) * d + x1 == x
  {
    hide Num, Pow;
    NumSame(t, u, quo, mlen0);
    NumUpdate(u, v, quo, mlen0, n);
    MulAdd(Num(u, quo, mlen0), q * Pow(n), d);
    MulSwap(Pow(n), d, q);
    assert v[quo + n] == t[quo + n] + q;
  }
}
