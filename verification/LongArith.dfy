/**
  The carry loops of dfslib/dfsrsa.c. All numbers live in one digit memory and are named by
  offsets, as the C code names them by pointers; operands may be the destination itself.
 */
module LongArith {
  import opened Common
  import opened Digits

  /** Everything outside `[lo, hi)` is as it was. */
  ghost predicate Outside(s: seq<Digit>, t: seq<Digit>, lo: int, hi: int) {
    |s| == |t| && forall i :: 0 <= i < |s| && !(lo <= i < hi) ==> t[i] == s[i]
  }

  /** A source that a forward loop may read while it writes `len` digits from `dst` on. */
  ghost predicate Readable(src: nat, dst: nat, len: nat) {
    src >= dst || src + len <= dst
  }

  /** `dfsrsa_adc`, and with `carry == 0` also `dfsrsa_add` (dfslib/dfsrsa.c:141-161). */
  method Adc(m: array<Digit>, sum: nat, add1: nat, add2: nat, carry: Digit, len: nat) returns (res: Digit)
    requires sum + len <= m.Length && add1 + len <= m.Length && add2 + len <= m.Length
    requires Readable(add1, sum, len) && Readable(add2, sum, len)
    modifies m
    ensures Outside(old(m[..]), m[..], sum, sum + len)
    ensures Num(m[..], sum, len) + res * Pow(len) == Num(old(m[..]), add1, len) + Num(old(m[..]), add2, len) + carry
    ensures carry <= 1 ==> res <= 1
  {
    hide Num, Pow;
    ghost var s := m[..];
    PowStep(0);
    var c: int := carry;
    var i := 0;
    NumEmpty(s, add1); NumEmpty(s, add2); NumEmpty(s, sum);
    while i < len
      invariant i <= len && 0 <= c < BASE && (carry <= 1 ==> c <= 1)
      invariant Outside(s, m[..], sum, sum + i)
      invariant Num(m[..], sum, i) + c * Pow(i) == Num(s, add1, i) + Num(s, add2, i) + carry
    {
      ghost var t, c0 := m[..], c;
      var res := c + m[add1 + i] + m[add2 + i];
      m[sum + i] := res % BASE;
      c := res / BASE;
      NumPush(s, add1, i); NumPush(s, add2, i); NumPush(m[..], sum, i);
      NumSame(t, m[..], sum, i);
      PowStep(i);
      Carry3(m[sum + i], c, c0, s[add1 + i], s[add2 + i], Pow(i));
      i := i + 1;
    }
    res := c;
  }

  /** `dfsrsa_sub` (dfslib/dfsrsa.c:164-172): the result is 0, or -1 for a borrow. */
  method Sub(m: array<Digit>, sub: nat, from: nat, to: nat, len: nat) returns (res: int)
    requires sub + len <= m.Length && from + len <= m.Length && to + len <= m.Length
    requires Readable(from, sub, len) && Readable(to, sub, len)
    modifies m
    ensures Outside(old(m[..]), m[..], sub, sub + len)
    ensures Num(m[..], sub, len) + res * Pow(len) == Num(old(m[..]), from, len) - Num(old(m[..]), to, len)
    ensures -1 <= res <= 0
  {
    hide Num, Pow;
    ghost var s := m[..];
    PowStep(0);
    res := 0;
    var i := 0;
    NumEmpty(s, from); NumEmpty(s, to); NumEmpty(s, sub);
    while i < len
      invariant i <= len && -1 <= res <= 0
      invariant Outside(s, m[..], sub, sub + i)
      invariant Num(m[..], sub, i) + res * Pow(i) == Num(s, from, i) - Num(s, to, i)
    {
      ghost var t, c0 := m[..], res;
      var d := res + m[from + i] - m[to + i];
      m[sub + i] := d % BASE;
      res := d / BASE;
      NumPush(s, from, i); NumPush(s, to, i); NumPush(m[..], sub, i);
      NumSame(t, m[..], sub, i);
      PowStep(i);
      ghost var e: int := s[to + i];
      Carry3(m[sub + i], res, c0, s[from + i], 0 - e, Pow(i));
      MulNeg(e, Pow(i));
      i := i + 1;
    }
  }

  /** `dfsrsa_cmp` (dfslib/dfsrsa.c:122-129). */
  method Cmp(m: array<Digit>, left: nat, right: nat, len: nat) returns (r: int)
    requires left + len <= m.Length && right + len <= m.Length
    ensures r == if Num(m[..], left, len) < Num(m[..], right, len) then -1
                 else if Num(m[..], left, len) > Num(m[..], right, len) then 1 else 0
  {
    hide Num, Pow;
    var i := len;
    while i > 0 && m[left + i - 1] == m[right + i - 1]
      invariant 0 <= i <= len
      invariant m[left + i..left + len] == m[right + i..right + len]
    {
      i := i - 1;
      assert m[left + i..left + len] == [m[left + i]] + m[left + i + 1..left + len];
      assert m[right + i..right + len] == [m[right + i]] + m[right + i + 1..right + len];
    }
    assert m[..][left + i..left + len] == m[..][right + i..right + len];
    SameAbove(m[..], left, right, i, len);
    if i == 0 {
      NumEmpty(m[..], left); NumEmpty(m[..], right);
      return 0;
    } else if m[left + i - 1] < m[right + i - 1] {
      TopDigit(m[..], left, right, i);
      return -1;
    } else {
      TopDigit(m[..], right, left, i);
      return 1;
    }
  }

  /** `dfsrsa_getlen` (dfslib/dfsrsa.c:114-119): the number of significant digits. */
  method GetLen(m: array<Digit>, num: nat, len: nat) returns (n: nat)
    requires num + len <= m.Length
    ensures n <= len && Num(m[..], num, n) == Num(m[..], num, len)
    ensures n > 0 ==> m[num + n - 1] != 0 && Num(m[..], num, len) >= Pow(n - 1)
    ensures n == 0 <==> Num(m[..], num, len) == 0
    ensures forall i :: num + n <= i < num + len ==> m[i] == 0
  {
    hide Num, Pow;
    n := len;
    while n > 0 && m[num + n - 1] == 0
      invariant n <= len
      invariant forall i :: num + n <= i < num + len ==> m[i] == 0
    {
      n := n - 1;
    }
    LeadingZeros(m[..], num, n, len);
    if n > 0 {
      NumAtLeast(m[..], num, n);
    } else {
      NumEmpty(m[..], num);
    }
  }

  /** `dfsrsa_set` (dfslib/dfsrsa.c:105-111). */
  method Set(m: array<Digit>, res: nat, len: nat, value: Digit)
    requires 0 < len && res + len <= m.Length
    modifies m
    ensures Outside(old(m[..]), m[..], res, res + len)
    ensures Num(m[..], res, len) == value
    ensures m[res] == value && forall i :: res < i < res + len ==> m[i] == 0
  {
    hide Num, Pow;
    ghost var s := m[..];
    var i := 1;
    while i < len
      invariant 1 <= i <= len
      invariant Outside(s, m[..], res, res + i)
      invariant forall j :: res < j < res + i ==> m[j] == 0
    {
      m[res + i] := 0;
      i := i + 1;
    }
    m[res] := value;
    LeadingZeros(m[..], res, 1, len);
    NumOne(m[..], res);
  }

  /** `dfsrsa_copy` (dfslib/dfsrsa.c:99-102), a `memcpy` of separate numbers. */
  method Copy(m: array<Digit>, to: nat, from: nat, len: nat)
    requires to + len <= m.Length && from + len <= m.Length && (to + len <= from || from + len <= to)
    modifies m
    ensures Outside(old(m[..]), m[..], to, to + len)
    ensures m[to..to + len] == old(m[from..from + len])
    ensures Num(m[..], to, len) == Num(old(m[..]), from, len)
  {
    ghost var s := m[..];
    var i := 0;
    while i < len
      invariant i <= len
      invariant Outside(s, m[..], to, to + i)
      invariant m[to..to + i] == s[from..from + i]
    {
      m[to + i] := m[from + i];
      i := i + 1;
    }
    assert m[..][to..to + len] == m[to..to + len];
  }

  /** `dfsrsa_shr1` (dfslib/dfsrsa.c:176-186): halve the number with `carry` as its topmost bit. */
  method Shr1(m: array<Digit>, num: nat, len: nat, carry: int) returns (bit: int)
    requires num + len <= m.Length && 0 <= carry <= 1
    modifies m
    ensures Outside(old(m[..]), m[..], num, num + len)
    ensures 0 <= bit <= 1
    ensures 2 * Num(m[..], num, len) + bit == Num(old(m[..]), num, len) + carry * Pow(len)
  {
    hide Num, Pow;
    ghost var s := m[..];
    bit := carry;
    var i := len;
    NumEmpty(s, num + len);
    PowStep(0);
    while i > 0
      invariant 0 <= i <= len && 0 <= bit <= 1
      invariant Outside(s, m[..], num + i, num + len)
      invariant 2 * Num(m[..], num + i, len - i) + bit == Num(s, num + i, len - i) + carry * Pow(len - i)
    {
      ghost var t, b0 := m[..], bit;
      i := i - 1;
      var next := m[num + i] % 2;
      m[num + i] := m[num + i] / 2 + bit * 0x8000_0000;
      bit := next;
      ghost var n := len - i;
      NumSplit(s, num + i, 1, n); NumSplit(m[..], num + i, 1, n);
      NumOne(s, num + i); NumOne(m[..], num + i);
      NumSame(t, m[..], num + i + 1, n - 1);
      PowStep(0); PowStep(n - 1);
      MulSwap(carry, BASE, Pow(n - 1));
    }
  }

  /** `dfsrsa_addeq` (dfslib/dfsrsa.c:132-138): add a digit, discarding the last carry. */
  method AddEq(m: array<Digit>, sum: nat, small: Digit, len: nat) returns (ghost lost: nat)
    requires sum + len <= m.Length
    modifies m
    ensures Outside(old(m[..]), m[..], sum, sum + len)
    ensures Num(m[..], sum, len) + lost * Pow(len) == Num(old(m[..]), sum, len) + small
    ensures len > 0 && old(m[sum]) + small < BASE ==>
              lost == 0 && Outside(old(m[..]), m[..], sum, sum + 1) && m[sum] == old(m[sum]) + small
  {
    hide Num, Pow;
    ghost var s := m[..];
    PowStep(0);
    NumEmpty(s, sum);
    var res, i := small, 0;
    while i < len && res != 0
      invariant i <= len && 0 <= res < BASE
      invariant Outside(s, m[..], sum, sum + i)
      invariant Num(m[..], sum, i) + res * Pow(i) == Num(s, sum, i) + small
      invariant if i == 0 then res == small
                else s[sum] + small < BASE ==> res == 0 && Outside(s, m[..], sum, sum + 1) && m[sum] == s[sum] + small
      decreases len - i
    {
      ghost var t, c0 := m[..], res;
      var r := res + m[sum + i];
      m[sum + i] := r % BASE;
      res := r / BASE;
      NumPush(s, sum, i); NumPush(m[..], sum, i);
      NumSame(t, m[..], sum, i);
      PowStep(i);
      Carry3(m[sum + i], res, c0, s[sum + i], 0, Pow(i));
      i := i + 1;
    }
    lost := if i == len then res else 0;
    NumSplit(s, sum, i, len); NumSplit(m[..], sum, i, len);
    NumSame(s, m[..], sum + i, len - i);
  }

  /** `dfsrsa_muladd` (dfslib/dfsrsa.c:195-203): the digit above the sum is overwritten by the carry. */
  method MulAddTo(m: array<Digit>, sum: nat, big: nat, small: Digit, len: nat)
    requires sum + len < m.Length && big + len <= m.Length && (big + len <= sum || sum + len < big)
    modifies m
    ensures Outside(old(m[..]), m[..], sum, sum + len + 1)
    ensures Num(m[..], sum, len + 1) == Num(old(m[..]), sum, len) + Num(old(m[..]), big, len) * small
  {
    hide Num, Pow;
    ghost var s := m[..];
    PowStep(0);
    NumEmpty(s, sum); NumEmpty(s, big);
    var c, i := 0, 0;
    while i < len
      invariant i <= len && 0 <= c < BASE
      invariant Outside(s, m[..], sum, sum + i)
      invariant Num(m[..], sum, i) + c * Pow(i) == Num(s, sum, i) + Num(s, big, i) * small
    {
      ghost var t, c0 := m[..], c;
      DigitProduct(c, m[big + i], small, m[sum + i]);
      var res := c + m[big + i] * small + m[sum + i];
      m[sum + i] := res % BASE;
      c := res / BASE;
      NumPush(s, sum, i); NumPush(s, big, i); NumPush(m[..], sum, i);
      NumSame(t, m[..], sum, i);
      PowStep(i);
      var d, p := s[big + i] * small, Pow(i);
      Carry3(m[sum + i], c, c0, d, s[sum + i], p);
      MulAdd(Num(s, big, i), s[big + i] * p, small);
      MulSwap(small, s[big + i], p);
      MulAssoc(s[big + i], small, p);
      i := i + 1;
    }
    ghost var t := m[..];
    m[sum + len] := c;
    NumPush(m[..], sum, len);
    NumSame(t, m[..], sum, len);
  }

  /** One step of a multiplication fits into a double digit. */
  lemma {:induction false} DigitProduct(c: Digit, a: Digit, b: Digit, d: Digit)
    ensures 0 <= a * b <= (BASE - 1) * (BASE - 1) && (c + a * b + d) / BASE < BASE && c + a * b + d < WORD
  {
    MulMono(a, BASE - 1, b);
    MulMono(0, a, b);
    DigitSum(c, a * b, d);
  }

  lemma {:induction false} DigitSum(c: Digit, x: int, d: Digit)
    requires 0 <= x <= (BASE - 1) * (BASE - 1)
    ensures (c + x + d) / BASE < BASE && c + x + d < WORD
  {}

  /** The portable `dfsrsa_mul` (dfslib/dfsrsa.c:222-229). */
  method Mul(m: array<Digit>, prod: nat, mul1: nat, mul2: nat, len: nat)
    requires 0 < len && prod + 2 * len <= m.Length && mul1 + len <= m.Length && mul2 + len <= m.Length
    requires (mul1 + len <= prod || prod + 2 * len <= mul1) && (mul2 + len <= prod || prod + 2 * len <= mul2)
    modifies m
    ensures Outside(old(m[..]), m[..], prod, prod + 2 * len)
    ensures Num(m[..], prod, 2 * len) == Num(old(m[..]), mul1, len) * Num(old(m[..]), mul2, len)
  {
    hide Num, Pow;
    ghost var s := m[..];
    Set(m, prod, len, 0);
    NumEmpty(s, mul2);
    var i := 0;
    while i < len
      invariant i <= len
      invariant Outside(s, m[..], prod, prod + 2 * len)
      invariant Num(m[..], prod, len + i) == Num(s, mul1, len) * Num(s, mul2, i)
    {
      ghost var t := m[..];
      MulAddTo(m, prod + i, mul1, m[mul2 + i], len);
      NumSame(s, t, mul1, len);
      MulRow(s, t, m[..], prod, mul1, mul2, len, i);
      i := i + 1;
    }
  }

  lemma {:induction false} MulRow(s: seq<Digit>, t: seq<Digit>, u: seq<Digit>, prod: nat, mul1: nat, mul2: nat, len: nat, i: nat)
    requires |s| == |t| == |u| && i < len && prod + 2 * len <= |s| && mul1 + len <= |s| && mul2 + len <= |s|
    requires Num(t, prod, len + i) == Num(s, mul1, len) * Num(s, mul2, i)
    requires Num(u, prod + i, len + 1) == Num(t, prod + i, len) + Num(s, mul1, len) * s[mul2 + i]
    requires forall k :: prod <= k < prod + i ==> u[k] == t[k]
    ensures Num(u, prod, len + i + 1) == Num(s, mul1, len) * Num(s, mul2, i + 1)
  {
    hide Num, Pow;
    NumSplit(t, prod, i, len + i); NumSplit(u, prod, i, len + i + 1);
    NumSame(t, u, prod, i);
    NumPush(s, mul2, i);
    var a, p, d := Num(s, mul1, len), Pow(i), s[mul2 + i];
    MulAdd(Num(t, prod + i, len), a * d, p);
    MulAdd(Num(s, mul2, i), d * p, a);
    MulSwap(p, a, d);
    assert p * d == d * p;
  }
}
