/**
  Long numbers as little-endian digit sequences (dfslib/dfsrsa.h:15-23).
 */
module Digits {
  import opened Common

  type Digit = x: int | 0 <= x < BASE

  function Pow(n: nat): (r: nat)
    ensures r > 0
  {
    if n == 0 then 1 else BASE * Pow(n - 1)
  }

  /** The number that the digits stand for. */
  function Val(s: seq<Digit>): nat
  {
    if s == [] then 0 else Val(s[..|s| - 1]) + s[|s| - 1] * Pow(|s| - 1)
  }

  /** The number in the `len` digits from `off` on. */
  function Num(s: seq<Digit>, off: nat, len: nat): nat
    requires off + len <= |s|
  {
    Val(s[off..off + len])
  }

  lemma {:induction false} NumEmpty(s: seq<Digit>, off: nat)
    requires off <= |s|
    ensures Num(s, off, 0) == 0
  {}

  lemma {:induction false} NumPush(s: seq<Digit>, off: nat, len: nat)
    requires off + len < |s|
    ensures Num(s, off, len + 1) == Num(s, off, len) + s[off + len] * Pow(len)
  {
    var t := s[off..off + len + 1];
    assert t[..|t| - 1] == s[off..off + len];
  }

  /** A number depends on its own digits only. */
  lemma {:induction false} NumSame(s: seq<Digit>, t: seq<Digit>, off: nat, len: nat)
    requires off + len <= |s| && off + len <= |t|
    requires forall i :: off <= i < off + len ==> s[i] == t[i]
    ensures Num(s, off, len) == Num(t, off, len)
  {
    assert s[off..off + len] == t[off..off + len];
  }

  lemma {:induction false} PowStep(n: nat)
    ensures Pow(0) == 1 && Pow(n + 1) == BASE * Pow(n)
  {}

  lemma {:induction false} PowAdd(m: nat, n: nat)
    ensures Pow(m + n) == Pow(m) * Pow(n)
  {
    if m > 0 {
      PowAdd(m - 1, n);
      MulAssoc(BASE, Pow(m - 1), Pow(n));
    }
  }

  lemma {:induction false} MulAssoc(a: int, b: int, c: int)
    ensures a * b * c == a * (b * c)
  {}

  lemma {:induction false} MulSwap(a: int, b: int, c: int)
    ensures a * (b * c) == b * (a * c)
  {
    MulAssoc(a, b, c);
    MulAssoc(b, a, c);
  }

  lemma {:induction false} MulAdd(a: int, b: int, c: int)
    ensures (a + b) * c == a * c + b * c && c * (a + b) == c * a + c * b
  {}

  lemma {:induction false} NumBound(s: seq<Digit>, off: nat, len: nat)
    requires off + len <= |s|
    ensures Num(s, off, len) < Pow(len)
  {
    if len > 0 {
      NumBound(s, off, len - 1);
      NumPush(s, off, len - 1);
      MulMono(s[off + len - 1], BASE - 1, Pow(len - 1));
    }
  }

  /** A number is its low part plus its high part shifted. */
  lemma {:induction false} NumSplit(s: seq<Digit>, off: nat, k: nat, len: nat)
    requires k <= len && off + len <= |s|
    ensures Num(s, off, len) == Num(s, off, k) + Pow(k) * Num(s, off + k, len - k)
    decreases len
  {
    hide Num, Pow;
    if len == k {
      NumEmpty(s, off + k);
    } else {
      NumSplit(s, off, k, len - 1);
      NumPush(s, off, len - 1);
      NumPush(s, off + k, len - 1 - k);
      PowAdd(k, len - 1 - k);
      var d, p, q := s[off + len - 1], Pow(k), Pow(len - 1 - k);
      MulAdd(Num(s, off + k, len - 1 - k), d * q, p);
      MulSwap(p, d, q);
    }
  }

  /** A digit and a carry that make up `t` stand for the same as `t` one place lower. */
  lemma {:induction false} Carry(d: int, c: int, t: int, p: int)
    requires d + BASE * c == t
    ensures d * p + c * (BASE * p) == t * p
  {
    MulAdd(d, BASE * c, p);
    MulAssoc(BASE, c, p);
    MulSwap(c, BASE, p);
  }

  lemma {:induction false} Carry3(d: int, c: int, x: int, y: int, z: int, p: int)
    requires d + BASE * c == x + y + z
    ensures d * p + c * (BASE * p) == x * p + y * p + z * p
  {
    Carry(d, c, x + y + z, p);
    MulAdd(x + y, z, p);
    MulAdd(x, y, p);
  }

  lemma {:induction false} MulNeg(a: int, b: int)
    ensures (0 - a) * b == 0 - a * b
  {}

  /** Digits are determined by the value. */
  lemma {:induction false} NumZero(s: seq<Digit>, off: nat, len: nat)
    requires off + len <= |s|
    ensures Num(s, off, len) == 0 <==> forall i :: off <= i < off + len ==> s[i] == 0
  {
    hide Num, Pow;
    if len > 0 {
      NumZero(s, off, len - 1);
      NumPush(s, off, len - 1);
      var d, p := s[off + len - 1], Pow(len - 1);
      if d > 0 {
        MulMono(1, d, p);
      }
    } else {
      NumEmpty(s, off);
    }
  }

  /** Equal leading digits do not matter in a comparison. */
  lemma {:induction false} SameAbove(s: seq<Digit>, x: nat, y: nat, k: nat, len: nat)
    requires k <= len && x + len <= |s| && y + len <= |s|
    requires s[x + k..x + len] == s[y + k..y + len]
    ensures Num(s, x, len) - Num(s, y, len) == Num(s, x, k) - Num(s, y, k)
  {
    NumSplit(s, x, k, len);
    NumSplit(s, y, k, len);
  }

  /** The top digit decides. */
  lemma {:induction false} TopDigit(s: seq<Digit>, x: nat, y: nat, len: nat)
    requires 0 < len && x + len <= |s| && y + len <= |s| && s[x + len - 1] < s[y + len - 1]
    ensures Num(s, x, len) < Num(s, y, len)
  {
    NumPush(s, x, len - 1);
    NumPush(s, y, len - 1);
    NumBound(s, x, len - 1);
    var p := Pow(len - 1);
    MulMono(s[x + len - 1] + 1, s[y + len - 1], p);
    MulAdd(s[x + len - 1], 1, p);
  }

  /** Leading zeros do not change a number. */
  lemma {:induction false} LeadingZeros(s: seq<Digit>, off: nat, k: nat, len: nat)
    requires k <= len && off + len <= |s| && forall i :: off + k <= i < off + len ==> s[i] == 0
    ensures Num(s, off, len) == Num(s, off, k)
  {
    NumSplit(s, off, k, len);
    NumZero(s, off + k, len - k);
  }

  /** A number with a non-zero top digit is at least that power of the base. */
  lemma {:induction false} NumAtLeast(s: seq<Digit>, off: nat, len: nat)
    requires 0 < len && off + len <= |s| && s[off + len - 1] > 0
    ensures Num(s, off, len) >= Pow(len - 1)
  {
    NumPush(s, off, len - 1);
    MulMono(1, s[off + len - 1], Pow(len - 1));
  }

  lemma {:induction false} NumOne(s: seq<Digit>, off: nat)
    requires off < |s|
    ensures Num(s, off, 1) == s[off]
  {
    NumEmpty(s, off);
    NumPush(s, off, 0);
    PowStep(0);
  }
}
