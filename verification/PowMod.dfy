/** Exponentiation by squaring in Montgomery form (dfslib/dfsrsa.c:894-934). */
module PowMod {
  import opened Common
  import opened Digits
  import opened LongArith
  import opened Karatsuba
  import opened NumberTheory
  import opened Division
  import opened Montgomery

  function Exp(b: int, e: nat): int {
    if e == 0 then 1 else b * Exp(b, e - 1)
  }

  lemma {:induction false} ExpAdd(b: int, d: nat, e: nat)
    ensures Exp(b, d + e) == Exp(b, d) * Exp(b, e)
  {
    if d > 0 {
      ExpAdd(b, d - 1, e);
      MulAssoc(b, Exp(b, d - 1), Exp(b, e));
    }
  }

  /** Slot `slot` holds `v` in Montgomery form: `v*R` modulo N. */
  ghost predicate InForm(s: seq<Digit>, slot: nat, mod: nat, len: nat, v: int) {
    && slot + len <= |s| && mod + len <= |s|
    && Num(s, slot, len) < Num(s, mod, len) && Eqm(Num(s, slot, len), v * Pow(len), Num(s, mod, len))
  }

  lemma {:induction false} FormKept(s: seq<Digit>, t: seq<Digit>, slot: nat, mod: nat, len: nat, v: int, p: nat, pLen: nat, w: nat, wLen: nat)
    requires InForm(s, slot, mod, len, v) && Outside2(s, t, p, pLen, w, wLen)
    requires Apart(slot, len, p, pLen) && Apart(slot, len, w, wLen) && Apart(mod, len, p, pLen) && Apart(mod, len, w, wLen)
    ensures InForm(t, slot, mod, len, v)
  {
    NumKept(s, t, p, pLen, w, wLen, slot, len);
    NumKept(s, t, p, pLen, w, wLen, mod, len);
  }

  /** R has an inverse modulo N. */
  lemma {:induction false} ReadyInverse(s: seq<Digit>, mod: nat, mdata: nat, len: nat) returns (rinv: int)
    requires Ready(s, mod, mdata, len)
    ensures Eqm(Pow(len) * rinv, 1, Num(s, mod, len))
  {
    var k, n, r := Num(s, mdata, len), Num(s, mod, len), Pow(len);
    rinv :| k * n + 1 - 0 == Times(rinv, r);
    EqmBy(r * rinv, 1, n, k);
  }

  /** R cancels in a congruence. */
  lemma {:induction false} Cancel(x: int, y: int, r: int, rinv: int, n: int)
    requires Eqm(x * r, y * r, n) && Eqm(r * rinv, 1, n)
    ensures Eqm(x, y, n)
  {
    hide Eqm;
    EqmMul(x * r, y * r, n, rinv);
    MulAssoc(x, r, rinv); MulAssoc(y, r, rinv);
    EqmMul(r * rinv, 1, n, x);
    EqmMul(r * rinv, 1, n, y);
    EqmSub(x * (r * rinv), y * (r * rinv), x * (r * rinv), x * 1, n, x, y * (r * rinv));
    EqmAdd(x, y * (r * rinv), y * (r * rinv), y * 1, n, x, y);
  }

  lemma {:induction false} ProductForm(a: int, b: int, va: int, vb: int, y: int, r: int, rinv: int, n: int)
    requires Eqm(a, va * r, n) && Eqm(b, vb * r, n) && Eqm(y * r, a * b, n) && Eqm(r * rinv, 1, n)
    ensures Eqm(y, va * vb * r, n)
  {
    hide Eqm;
    EqmMul(a, va * r, n, b);
    EqmMul(b, vb * r, n, va * r);
    assert va * r * (vb * r) == (va * vb * r) * r by {
      MulAssoc(va, r, vb * r); MulSwap(r, vb, r); MulAssoc(va, vb, r); MulAssoc(va, vb * r, r);
      MulAssoc(vb, r, r);
    }
    EqmAdd(y * r, a * b, a * b, va * r * b, n, y * r, va * r * b);
    EqmAdd(y * r, va * r * b, va * r * b, va * r * (vb * r), n, y * r, va * vb * r * r);
    Cancel(y, va * vb * r, r, rinv, n);
  }

  /** Multiply two numbers in Montgomery form into the slot `dst`. */
  method Multiply(m: array<Digit>, dst: nat, a: nat, b: nat, mod: nat, mdata: nat, len: nat, treshold: nat, ghost va: int, ghost vb: int)
    requires Ready(m[..], mod, mdata, len) && treshold > 0
    requires dst + 2 * len <= m.Length && Apart(dst, 2 * len, mod, len) && Apart(dst, 2 * len, mdata, 6 * len)
    requires InForm(m[..], a, mod, len, va) && Apart(a, len, dst, 2 * len) && Apart(a, len, mdata, 6 * len)
    requires InForm(m[..], b, mod, len, vb) && Apart(b, len, dst, 2 * len) && Apart(b, len, mdata, 6 * len)
    modifies m
    ensures Outside2(old(m[..]), m[..], dst, 2 * len, mdata + len, 5 * len)
    ensures Ready(m[..], mod, mdata, len) && InForm(m[..], dst, mod, len, va * vb)
  {
    hide Num, Pow, Eqm, Outside2;
    ghost var s := m[..];
    ghost var n, r := Num(s, mod, len), Pow(len);
    KaratsubaMul(m, dst, a, b, len, mdata + 4 * len, treshold);
    ghost var t := m[..];
    Untouched(s, dst, 2 * len, mdata + 4 * len, 2 * len);
    Compose(s, s, t, dst, 2 * len, mdata + 4 * len, 2 * len, dst, 2 * len, mdata + 4 * len, 2 * len, dst, 2 * len, mdata + len, 5 * len);
    ReadyKept(s, t, dst, 2 * len, mod, mdata, len);
    NumBound(s, mod, len);
    ProductBound(Num(s, a, len), Num(s, b, len), n, r);
    MontgomeryMod(m, dst, mod, mdata, len, treshold);
    ghost var u := m[..];
    Compose(s, t, u, dst, 2 * len, mdata + len, 5 * len, dst, len, mdata + len, 5 * len, dst, 2 * len, mdata + len, 5 * len);
    ReadyKept(s, u, dst, 2 * len, mod, mdata, len);
    ghost var rinv := ReadyInverse(s, mod, mdata, len);
    ProductForm(Num(s, a, len), Num(s, b, len), va, vb, Num(u, dst, len), r, rinv, n);
  }

  /** The state of the main loop: `b^e` in the current slot, the base in its own. */
  ghost predicate Running(s: seq<Digit>, work: nat, off: nat, mod: nat, len: nat, b: int, e: nat, flag: bool) {
    && work + 12 * len <= |s| && mod + len <= |s| && Apart(mod, len, work, 12 * len) && (off == 0 || off == 2 * len)
    && Ready(s, mod, work + 4 * len, len)
    && InForm(s, work + off, mod, len, Exp(b, e)) && InForm(s, work + 10 * len, mod, len, b)
    && (!flag ==> e == 0)
  }

  /** Multiply the current slot by the number in Montgomery form at `b`, into the other slot. */
  method NextSlot(m: array<Digit>, work: nat, off: nat, factor: nat, mod: nat, len: nat, treshold: nat, flag: bool,
                  ghost b: int, ghost e: nat, ghost f: nat) returns (off1: nat)
    requires Running(m[..], work, off, mod, len, b, e, flag) && treshold > 0
    requires factor == work + off || factor == work + 10 * len
    requires InForm(m[..], factor, mod, len, Exp(b, f))
    modifies m
    ensures off1 == 2 * len - off && Outside(old(m[..]), m[..], work, work + 12 * len)
    ensures Running(m[..], work, off1, mod, len, b, e + f, true)
  {
    hide Num, Pow, Eqm, Exp, InForm, Ready;
    ghost var s := m[..];
    off1 := 2 * len - off;
    Multiply(m, work + off1, work + 2 * len - off1, factor, mod, work + 4 * len, len, treshold, Exp(b, e), Exp(b, f));
    ExpAdd(b, e, f);
    FormKept(s, m[..], work + 10 * len, mod, len, b, work + off1, 2 * len, work + 5 * len, 5 * len);
  }

  /** One exponent bit (dfslib/dfsrsa.c:912-922): square if anything was multiplied in yet, then multiply by the base. */
  method BitStep(m: array<Digit>, work: nat, off: nat, mod: nat, len: nat, treshold: nat, flag: bool, bit: bool, ghost b: int, ghost e: nat)
      returns (off1: nat, flag1: bool)
    requires Running(m[..], work, off, mod, len, b, e, flag) && treshold > 0
    modifies m
    ensures Outside(old(m[..]), m[..], work, work + 12 * len)
    ensures Running(m[..], work, off1, mod, len, b, 2 * e + (if bit then 1 else 0), flag1)
  {
    hide Exp, InForm, Ready;
    off1, flag1 := off, flag;
    if flag {
      off1 := NextSlot(m, work, off1, work + off1, mod, len, treshold, flag, b, e, e);
    }
    if bit {
      ExpOne(b);
      off1 := NextSlot(m, work, off1, work + 10 * len, mod, len, treshold, flag, b, 2 * e, 1);
      flag1 := true;
    }
  }

  lemma {:induction false} ExpOne(b: int)
    ensures Exp(b, 1) == b
  {
    assert Exp(b, 0) == 1;
  }

  /** All bits of one exponent digit, the highest first. */
  method DigitSteps(m: array<Digit>, work: nat, off: nat, mod: nat, len: nat, treshold: nat, flag: bool, bits: Digit, ghost b: int, ghost e: nat)
      returns (off1: nat, flag1: bool)
    requires Running(m[..], work, off, mod, len, b, e, flag) && treshold > 0
    modifies m
    ensures Outside(old(m[..]), m[..], work, work + 12 * len)
    ensures Running(m[..], work, off1, mod, len, b, e * BASE + bits, flag1)
  {
    hide Running, Pow2;
    off1, flag1 := off, flag;
    var i := 32;
    ghost var f, rest: int := e, bits;
    TwoBase(); TwoStep(0);
    assert bits == bits / 1;
    var power := BASE;
    while i > 0
      invariant 0 <= i <= 32 && power == Pow2(i) && rest == bits % power && 0 <= f
      invariant f * power + rest == e * BASE + bits
      invariant Outside(old(m[..]), m[..], work, work + 12 * len)
      invariant Running(m[..], work, off1, mod, len, b, f, flag1)
    {
      i := i - 1;
      TwoStep(i);
      var half := power / 2;
      var bit := bits / half % 2 == 1;
      off1, flag1 := BitStep(m, work, off1, mod, len, treshold, flag1, bit, b, f);
      BitSplit(bits, half);
      ghost var d := if bit then 1 else 0;
      assert (2 * f + d) * half == f * (2 * half) + d * half by {
        MulAdd(2 * f, d, half); MulAssoc(2, f, half); MulSwap(f, 2, half);
      }
      f := 2 * f + d;
      rest := bits % half;
      power := half;
    }
    assert bits % 1 == 0;
  }

  lemma {:induction false} TwoStep(i: nat)
    ensures Pow2(i + 1) == 2 * Pow2(i) && Pow2(0) == 1
  {}

  /** Splitting off the top bit of a rest. */
  lemma {:induction false} BitSplit(x: nat, h: nat)
    requires h > 0
    ensures x % (2 * h) == (if x / h % 2 == 1 then 1 else 0) * h + x % h
  {
    var q, r := x / (2 * h), x % (2 * h);
    EuclidFact(x, 2 * h);
    var c := if r >= h then 1 else 0;
    assert (2 * q + c) * h == q * (2 * h) + c * h by {
      MulAdd(2 * q, c, h); MulAssoc(2, q, h); MulSwap(q, 2, h);
    }
    Remainder(x, h, 2 * q + c, r - c * h);
  }

  lemma {:induction false} EuclidFact(x: nat, d: nat)
    requires d > 0
    ensures x == x / d * d + x % d && 0 <= x % d < d && x / d >= 0
  {}

  /** Clearing the upper half of a slot and reducing it once takes the slot out of Montgomery form (dfslib/dfsrsa.c:925-928). */
  method ConvertSlot(m: array<Digit>, slot: nat, mod: nat, mdata: nat, len: nat, treshold: nat)
    requires Ready(m[..], mod, mdata, len) && treshold > 0
    requires slot + 2 * len <= m.Length && Apart(slot, 2 * len, mod, len) && Apart(slot, 2 * len, mdata, 6 * len)
    modifies m
    ensures Outside2(old(m[..]), m[..], slot, 2 * len, mdata + len, 5 * len) && Ready(m[..], mod, mdata, len)
    ensures var n := Num(old(m[..]), mod, len);
            Num(m[..], slot, len) < n && Eqm(Num(m[..], slot, len) * Pow(len), Num(old(m[..]), slot, len), n)
  {
    hide Num, Pow, Eqm;
    ghost var s := m[..];
    Set(m, slot + len, len, 0);
    ghost var t := m[..];
    NumSame(s, t, slot, len);
    NumSplit(t, slot, len, 2 * len);
    ReadyKept(s, t, slot, 2 * len, mod, mdata, len);
    NumBound(t, slot, len);
    MulMono(1, Num(t, mod, len), Pow(len));
    MontgomeryMod(m, slot, mod, mdata, len, treshold);
    ReadyKept(s, m[..], slot, 2 * len, mod, mdata, len);
  }

  /** The setup of `dfsrsa_montgomery_powmod` (dfslib/dfsrsa.c:903-907): 1 and the base in Montgomery form. */
  method Setup(m: array<Digit>, base: nat, mod: nat, work: nat, len: nat) returns (ok: bool)
    requires 0 < len && base + len <= m.Length && mod + len <= m.Length && work + 12 * len <= m.Length
    requires Apart(mod, len, work, 12 * len) && Apart(base, len, work, 12 * len)
    requires Num(m[..], mod, len) % 2 == 1 && Num(m[..], mod, len) > 1
    modifies m
    ensures Outside(old(m[..]), m[..], work, work + 12 * len)
    ensures ok && Running(m[..], work, 0, mod, len, Num(old(m[..]), base, len), 0, false)
  {
    hide Num, Pow, Eqm, Ready;
    ghost var s := m[..];
    ghost var x := Num(s, base, len);
    var mdata := work + 4 * len;
    var err := MontgomeryInit(m, mod, mdata, work, len);
    if err != 0 {
      return false;
    }
    ghost var s1 := m[..];
    Set(m, work, len, 1);
    ghost var s2 := m[..];
    ReadyKept(s1, s2, work, 2 * len, mod, mdata, len);
    err := MontgomeryReduce(m, work, mod, mdata, len);
    if err != 0 {
      return false;
    }
    ghost var s3 := m[..];
    ReadyKept(s2, s3, work, 2 * len, mod, mdata, len);
    NumSame(s, s3, base, len);
    Copy(m, work + 10 * len, base, len);
    ghost var s4 := m[..];
    ReadyKept(s3, s4, work + 10 * len, len, mod, mdata, len);
    err := MontgomeryReduce(m, work + 10 * len, mod, mdata, len);
    if err != 0 {
      return false;
    }
    ghost var s5 := m[..];
    ReadyKept(s4, s5, work + 10 * len, len, mod, mdata, len);
    NumSame(s3, s5, work, len);
    assert Exp(x, 0) == 1;
    ok := true;
  }

  /**
    `dfsrsa_montgomery_powmod`: for every odd modulus above 1, base and exponent, the result is the
    power of the base reduced modulo the modulus. The fallback at 932 is never reached.
   */
  method MontgomeryPowmod(m: array<Digit>, res: nat, base: nat, exp: nat, mod: nat, work: nat, len: nat, treshold: nat)
    requires 0 < len && treshold > 0 && work + 12 * len <= m.Length
    requires res + len <= m.Length && base + len <= m.Length && exp + len <= m.Length && mod + len <= m.Length
    requires Apart(res, len, work, 12 * len) && Apart(base, len, work, 12 * len)
    requires Apart(exp, len, work, 12 * len) && Apart(mod, len, work, 12 * len)
    requires Num(m[..], mod, len) % 2 == 1 && Num(m[..], mod, len) > 1
    modifies m
    ensures Outside2(old(m[..]), m[..], res, len, work, 12 * len)
    ensures Num(m[..], res, len)
            == Exp(Num(old(m[..]), base, len), Num(old(m[..]), exp, len)) % Num(old(m[..]), mod, len)
  {
    hide Num, Pow, Eqm, Running, Exp;
    ghost var s := m[..];
    ghost var b, e := Num(s, base, len), Num(s, exp, len);
    var ok := Setup(m, base, mod, work, len);
    if !ok {
      return;
    }
    NumSame(s, m[..], exp, len);
    var off, flag := ExponentSteps(m, exp, mod, work, len, treshold, b);
    NumSame(s, m[..], mod, len);
    Finish(m, res, mod, work, off, len, treshold, b, e, flag);
  }

  /** The digits of the exponent from the highest significant one down (dfslib/dfsrsa.c:908-924). */
  method ExponentSteps(m: array<Digit>, exp: nat, mod: nat, work: nat, len: nat, treshold: nat, ghost b: nat) returns (off: nat, flag: bool)
    requires treshold > 0 && exp + len <= m.Length && Apart(exp, len, work, 12 * len)
    requires Running(m[..], work, 0, mod, len, b, 0, false)
    modifies m
    ensures Outside(old(m[..]), m[..], work, work + 12 * len)
    ensures Running(m[..], work, off, mod, len, b, Num(old(m[..]), exp, len), flag)
  {
    hide Num, Pow, Running;
    ghost var s := m[..];
    var explen := GetLen(m, exp, len);
    ghost var top := explen;
    NumEmpty(s, exp + top);
    off, flag := 0, false;
    while explen > 0
      invariant 0 <= explen <= top && Outside(s, m[..], work, work + 12 * len)
      invariant Running(m[..], work, off, mod, len, b, Num(s, exp + explen, top - explen), flag)
    {
      ghost var e := Num(s, exp + explen, top - explen);
      explen := explen - 1;
      var bits := m[exp + explen];
      NumSplit(s, exp + explen, 1, top - explen);
      NumOne(s, exp + explen);
      PowStep(0);
      off, flag := DigitSteps(m, work, off, mod, len, treshold, flag, bits, b, e);
    }
  }

  /** Leaving Montgomery form in both slots and copying the result (dfslib/dfsrsa.c:925-929). */
  method Finish(m: array<Digit>, res: nat, mod: nat, work: nat, off: nat, len: nat, treshold: nat, ghost b: nat, ghost e: nat, flag: bool)
    requires Running(m[..], work, off, mod, len, b, e, flag) && treshold > 0
    requires res + len <= m.Length && Apart(res, len, work, 12 * len)
    modifies m
    ensures Outside2(old(m[..]), m[..], res, len, work, 12 * len)
    ensures Num(m[..], res, len) == Exp(b, e) % Num(old(m[..]), mod, len)
  {
    hide Num, Pow, Eqm, Exp, Ready, Outside2;
    ghost var s := m[..];
    ghost var n, r, mdata, v := Num(s, mod, len), Pow(len), work + 4 * len, Exp(b, e);
    ghost var rinv := ReadyInverse(s, mod, mdata, len);
    ReadySize(s, mod, mdata, len);
    ConvertSlot(m, work, mod, work + 4 * len, len, treshold);
    ghost var t := m[..];
    NumKept(s, t, work, 2 * len, mdata + len, 5 * len, mod, len);
    NumKept(s, t, work, 2 * len, mdata + len, 5 * len, work + 2 * len, len);
    ConvertSlot(m, work + 2 * len, mod, work + 4 * len, len, treshold);
    ghost var u := m[..];
    NumKept(t, u, work + 2 * len, 2 * len, mdata + len, 5 * len, work, len);
    ghost var y := Num(u, work + off, len);
    OutOfForm(Num(s, work + off, len), y, v, r, rinv, n);
    ExpNonNegative(b, e);
    EqmMod(v, y, n);
    Copy(m, res, work + off, len);
    FinishFrame(s, t, u, m[..], res, work, len);
  }

  lemma {:induction false} ReadySize(s: seq<Digit>, mod: nat, mdata: nat, len: nat)
    requires Ready(s, mod, mdata, len)
    ensures 0 < len && Num(s, mod, len) > 1
  {}

  lemma {:induction false} FinishFrame(s: seq<Digit>, t: seq<Digit>, u: seq<Digit>, v: seq<Digit>, res: nat, work: nat, len: nat)
    requires Outside2(s, t, work, 2 * len, work + 4 * len + len, 5 * len)
    requires Outside2(t, u, work + 2 * len, 2 * len, work + 4 * len + len, 5 * len) && Outside(u, v, res, res + len)
    ensures Outside2(s, v, res, len, work, 12 * len)
  {}

  lemma {:induction false} OutOfForm(x: int, y: int, v: int, r: int, rinv: int, n: int)
    requires Eqm(x, v * r, n) && Eqm(y * r, x, n) && Eqm(r * rinv, 1, n)
    ensures Eqm(v, y, n)
  {
    hide Eqm;
    EqmAdd(y * r, x, x, v * r, n, y * r, v * r);
    Cancel(y, v, r, rinv, n);
    EqmSame(y, n);
    EqmSub(y, y, y, v, n, v, y);
  }

  lemma {:induction false} ExpNonNegative(b: nat, e: nat)
    ensures Exp(b, e) >= 0
  {
    if e > 0 {
      ExpNonNegative(b, e - 1);
      MulMono(0, b, Exp(b, e - 1));
    }
  }
}
