/**
 * What the cipher does beyond being undone: which bits reach the key words and the cipher
 * words, and which sectors and passwords start from different keys (dfslib/dfslib_crypt.c:55-146).
 */
module CipherLaws {
  import opened Common
  import opened Cipher

  // ---------------------------------------------------------------- 32-bit operations

  /** Bit `k` of a number. */
  function Bit(n: nat, k: nat): nat {
    if k == 0 then n % 2 else Bit(n / 2, k - 1)
  }

  lemma {:induction false} XorBitsBit(a: nat, b: nat, n: nat, k: nat)
    requires k < n
    ensures Bit(XorBits(a, b, n), k) == (Bit(a, k) + Bit(b, k)) % 2
  {
    Bits((a + b) % 2, XorBits(a / 2, b / 2, n - 1), XorBits(a, b, n));
    if k > 0 {
      XorBitsBit(a / 2, b / 2, n - 1, k - 1);
    } else {
      SumParity(a, b);
    }
  }

  lemma {:induction false} SumParity(a: nat, b: nat)
    ensures (a + b) % 2 == (a % 2 + b % 2) % 2
  {}

  /** Every bit of an exclusive or is the sum of the two bits modulo 2. */
  lemma {:induction false} XorBit(a: Word, b: Word, k: nat)
    requires k < 32
    ensures Bit(Xor(a, b), k) == (Bit(a, k) + Bit(b, k)) % 2
  {
    XorBitsBit(a, b, 32, k);
  }

  lemma {:induction false} XorSame(a: Word, b: Word, c: Word)
    ensures Xor(a, c) == Xor(b, c) <==> a == b
  {
    hide Xor;
    XorTwice(a, c);
    XorTwice(b, c);
  }

  lemma {:induction false} XorBitsSwap(a: nat, b: nat, n: nat)
    ensures XorBits(a, b, n) == XorBits(b, a, n)
  {
    if n > 0 {
      XorBitsSwap(a / 2, b / 2, n - 1);
    }
  }

  lemma {:induction false} XorSwap(a: Word, b: Word)
    ensures Xor(a, b) == Xor(b, a)
  {
    XorBitsSwap(a, b, 32);
  }

  /** A product keeps its low 32 bits. */
  lemma {:induction false} MulLow(a: Word, b: Word)
    ensures exists h: nat :: a * b == Mul(a, b) + h * BASE
  {
    assert a * b == Mul(a, b) + a * b / BASE * BASE;
  }

  // ---------------------------------------------------------------- key words

  /** The three parts of a product: 16 low bits, 32 middle bits, and the rest. */
  ghost predicate Middle(product: nat, low: nat, mid: nat, high: nat) {
    low < 0x1_0000 && mid < BASE && product == low + 0x1_0000 * (mid + BASE * high)
  }

  lemma {:induction false} MiddleParts(p: nat)
    ensures Middle(p, p % 0x1_0000, p / 0x1_0000 % BASE, p / 0x1_0000 / BASE)
  {}

  lemma {:induction false} MiddleOnly(p: nat, low: nat, mid: nat, high: nat)
    requires Middle(p, low, mid, high)
    ensures mid == p / 0x1_0000 % BASE
  {
    assert p / 0x1_0000 == mid + BASE * high;
  }

  /**
   * A key word, with the register that `t` selects taken off, is the 32 middle bits of `y` times the sum of `z`
   * and the register that the high half of `x` selects.
   */
  lemma {:induction false} KeyWordIs(c: Crypt, x: Word, y: Word, z: Word, t: Word, mid: Word)
    requires Sized(c)
    ensures Crypt0(c, x, y, z, t) == Xor(mid, c.regs[t % 0x1_0000])
            <==> exists low, high :: Middle(y * Add(z, c.regs[x / 0x1_0000]), low, mid, high)
  {
    hide Xor, Add;
    var p := y * Add(z, c.regs[x / 0x1_0000]);
    MiddleParts(p);
    XorSame(p / 0x1_0000 % BASE, mid, c.regs[t % 0x1_0000]);
    if low, high :| Middle(p, low, mid, high) {
      MiddleOnly(p, low, mid, high);
    }
  }

  /** Without a factor only one register is left; with the factor 2^16 the whole sum comes through. */
  lemma {:induction false} KeyWordPlain(c: Crypt, x: Word, z: Word, t: Word)
    requires Sized(c)
    ensures Crypt0(c, x, 0, z, t) == Xor(0, c.regs[t % 0x1_0000])
    ensures Crypt0(c, x, 0x1_0000, z, t) == Xor(Add(z, c.regs[x / 0x1_0000]), c.regs[t % 0x1_0000])
  {
    hide Xor, Add;
  }

  /** Each plain word leads to a key of its own. */
  lemma {:induction false} FedTells(c: Crypt, k: Key, v: Word, w: Word)
    requires Sized(c)
    ensures Fed(c, k, v) == Fed(c, k, w) <==> v == w
  {
    hide Xor, Turn;
    XorSwap(Turn(c, k).x, Not(v));
    XorSwap(Turn(c, k).x, Not(w));
    XorSame(Not(v), Not(w), Turn(c, k).x);
  }

  // ---------------------------------------------------------------- cipher words

  /** Mixing runs from the last word to the first: each word takes in the mixed word after it. */
  lemma {:induction false} MixedWord(s: seq<Word>, m: Word, i: nat)
    requires i < |s|
    ensures Mix(s, m)[i] == Xor(s[i], Mul(if i + 1 < |s| then Mix(s, m)[i + 1] else m, MAGIC6))
  {
    hide Xor, Mul;
    var n := |s| - 1;
    var w := Xor(s[n], Mul(m, MAGIC6));
    assert Mix(s, m) == Mix(s[..n], w) + [w];
    if i < n {
      MixedWord(s[..n], w, i);
    }
  }

  /** Each word is lowered by the last key word of the state that the words before it lead to. */
  lemma {:induction false} CipherWord(c: Crypt, k: Key, s: seq<Word>, i: nat)
    requires Sized(c) && i < |s|
    ensures Stream(c, k, s)[i] == Sub(s[i], Turn(c, KeyAfter(c, k, s[..i])).t)
    decreases i
  {
    hide Turn, Fed, Sub;
    if i > 0 {
      CipherWord(c, Fed(c, k, s[0]), s[1..], i - 1);
      assert s[1..][..i - 1] == s[1..i];
      KeyShift(c, k, s[..i]);
      assert s[..i][1..] == s[1..i] && s[..i][0] == s[0];
    }
  }

  lemma {:induction false} KeyShift(c: Crypt, k: Key, s: seq<Word>)
    requires Sized(c) && s != []
    ensures KeyAfter(c, k, s) == KeyAfter(c, Fed(c, k, s[0]), s[1..])
  {
    hide Fed;
    var n := |s| - 1;
    if n > 0 {
      KeyShift(c, k, s[..n]);
      assert s[..n][1..] == s[1..][..n - 1];
    } else {
      assert s[..n] == [] && s[1..] == [];
    }
  }

  /** The same text under two keys starts with the same cipher word only if their key words agree. */
  lemma {:induction false} KeysTell(c: Crypt, d: Crypt, k: Key, l: Key, s: seq<Word>)
    requires Sized(c) && Sized(d) && s != []
    ensures Stream(c, k, s)[0] == Stream(d, l, s)[0] <==> Turn(c, k).t == Turn(d, l).t
  {
    hide Turn;
    SubSame(s[0], Turn(c, k).t, Turn(d, l).t);
  }

  lemma {:induction false} SubSame(a: Word, b: Word, c: Word)
    ensures Sub(a, b) == Sub(a, c) <==> b == c
  {}

  // ---------------------------------------------------------------- sectors and passwords

  /** With the same table and sector, different passwords give different seeds. */
  lemma {:induction false} PasswordsTell(c: Crypt, d: Crypt, sectorNo: nat, narrow: bool)
    requires Sized(c) && Sized(d) && c.regs == d.regs
    ensures Seed(c, sectorNo, narrow) == Seed(d, sectorNo, narrow) <==> c.pwd == d.pwd
  {
    hide Xor, Mod, Scrambled;
    var no := Scrambled(sectorNo);
    ModExact(no, 65479, narrow);
    ModExact(no, 65497, narrow);
    ModExact(no, 65519, narrow);
    ModExact(no, 65521, narrow);
    XorSame(c.pwd[0], d.pwd[0], c.regs[Mod(no, 65479, narrow) + 31]);
    XorSame(c.pwd[1], d.pwd[1], c.regs[Mod(no, 65497, narrow) + 11]);
    XorSame(c.pwd[2], d.pwd[2], c.regs[Mod(no, 65519, narrow) + 5]);
    XorSame(c.pwd[3], d.pwd[3], c.regs[Mod(no, 65521, narrow) + 3]);
    if c.pwd[0] == d.pwd[0] && c.pwd[1] == d.pwd[1] && c.pwd[2] == d.pwd[2] && c.pwd[3] == d.pwd[3] {
      assert c.pwd == d.pwd;
    }
  }

  const FACTOR: nat := 5280348404770466003
  const INVERSE: nat := 17773994572763082587

  /** The inverse of the factor modulo 2^64 takes the product back. */
  lemma {:induction false} Unscrambled(n: nat)
    requires n < WORD
    ensures Scrambled(n) * INVERSE % WORD == n
  {
    hide Scrambled;
    var q := ScrambledParts(n);
    var k := FACTOR * INVERSE / WORD;
    assert FACTOR * INVERSE == 1 + WORD * k;
    Expand(n, FACTOR, INVERSE, Scrambled(n), q, k);
    Whole(Scrambled(n) * INVERSE, n, n * k - q * INVERSE);
  }

  lemma {:induction false} ScrambledParts(n: nat) returns (q: nat)
    ensures n * FACTOR == Scrambled(n) + WORD * q
  {
    q := n * FACTOR / WORD;
  }

  lemma {:induction false} Expand(n: int, f: int, i: int, s: int, q: int, k: int)
    requires n * f == s + WORD * q && f * i == 1 + WORD * k
    ensures s * i == n + WORD * (n * k - q * i)
  {
    assert n * (f * i) == n + WORD * (n * k);
    assert (s + WORD * q) * i == s * i + WORD * (q * i);
    assert (n * f) * i == n * (f * i);
  }

  lemma {:induction false} Whole(a: int, r: int, k: int)
    requires a == r + WORD * k && 0 <= r < WORD
    ensures a % WORD == r
  {}

  /** Different sectors have different products. */
  lemma {:induction false} SectorsScatter(a: nat, b: nat)
    requires a < WORD && b < WORD
    ensures Scrambled(a) == Scrambled(b) <==> a == b
  {
    Unscrambled(a);
    Unscrambled(b);
  }

  /** The two products select the same four registers. */
  predicate SameRegisters(a: nat, b: nat) {
    a % 65479 == b % 65479 && a % 65497 == b % 65497 && a % 65519 == b % 65519 && a % 65521 == b % 65521
  }

  /** The product of the four moduli, which is a little less than 2^64. */
  const PERIOD: int := 18410739107493357137

  lemma {:induction false} Coprime(d: int, a: int, b: int, p: int, q: int, u: int, v: int)
    requires d == a * p && d == b * q && u * p + v * q == 1
    ensures d == (b * u + a * v) * (p * q)
  {
    assert d == d * (u * p) + d * (v * q) by { assert d * (u * p + v * q) == d * (u * p) + d * (v * q); }
    assert d * (u * p) == (b * u) * (p * q) by { assert (b * q) * (u * p) == (b * u) * (p * q); }
    assert d * (v * q) == (a * v) * (p * q) by { assert (a * p) * (v * q) == (a * v) * (p * q); }
    assert (b * u) * (p * q) + (a * v) * (p * q) == (b * u + a * v) * (p * q);
  }

  lemma {:induction false} SameRest(a: int, b: int, p: int) returns (k: int)
    requires p > 0 && a % p == b % p
    ensures a - b == k * p
  {
    k := a / p - b / p;
    assert a == a / p * p + a % p && b == b / p * p + b % p;
    assert (a / p - b / p) * p == a / p * p - b / p * p;
  }

  lemma {:induction false} RestShifts(a: int, p: int, k: int)
    requires p > 0
    ensures (a + k * p) % p == a % p
  {
    var r, q := a % p, a / p;
    assert a + k * p == (q + k) * p + r;
    RestUnique(a + k * p, p, q + k, r);
  }

  lemma {:induction false} RestUnique(a: int, p: int, q: int, r: int)
    requires p > 0 && a == q * p + r && 0 <= r < p
    ensures a % p == r
  {
    var s, t := a % p, a / p;
    assert a == t * p + s;
    assert (t - q) * p == r - s;
    if t > q {
      MulMono(1, t - q, p);
    } else if t < q {
      MulMono(1, q - t, p);
    }
  }

  /** Two products select the same registers if and only if they are equal or one period apart. */
  lemma {:induction false} RegistersRepeat(a: nat, b: nat)
    requires a < WORD && b < WORD
    ensures SameRegisters(a, b) <==> a == b || a == b + PERIOD || b == a + PERIOD
  {
    if SameRegisters(a, b) {
      var d := a - b;
      var k0 := SameRest(a, b, 65479);
      var k1 := SameRest(a, b, 65497);
      var k2 := SameRest(a, b, 65519);
      var k3 := SameRest(a, b, 65521);
      Coprime(d, k0, k1, 65479, 65497, 25471, -25464);
      Coprime(d, k2, k3, 65519, 65521, 32760, -32759);
      var m, n := k1 * 25471 + k0 * -25464, k3 * 32760 + k2 * -32759;
      Coprime(d, m, n, 65479 * 65497, 65519 * 65521, 394829481, -394443898);
      OnePeriod(d, n * 394829481 + m * -394443898);
    } else if a == b + PERIOD {
      PeriodKeeps(b);
    } else if b == a + PERIOD {
      PeriodKeeps(a);
    }
  }

  lemma {:induction false} OnePeriod(d: int, k: int)
    requires d == k * PERIOD && -WORD < d < WORD
    ensures d == 0 || d == PERIOD || d == -PERIOD
  {
    assert 2 * PERIOD > WORD;
  }

  lemma {:induction false} PeriodKeeps(a: nat)
    ensures SameRegisters(a, a + PERIOD)
  {
    RestShifts(a, 65479, PERIOD / 65479);
    RestShifts(a, 65497, PERIOD / 65497);
    RestShifts(a, 65519, PERIOD / 65519);
    RestShifts(a, 65521, PERIOD / 65521);
  }

  /** Two sectors that start from the same registers, and so from the same key whatever the password. */
  lemma {:induction false} TwinSectors(c: Crypt, narrow: bool)
    requires Sized(c)
    ensures Seed(c, 0, narrow) == Seed(c, 696960994382413259, narrow)
  {
    hide Xor, Mod;
    var no := Scrambled(696960994382413259);
    assert Scrambled(0) == 0;
    assert no == PERIOD;
    PeriodKeeps(0);
    SameSeed(c, 0, 696960994382413259, narrow);
  }

  lemma {:induction false} SameSeed(c: Crypt, a: nat, b: nat, narrow: bool)
    requires Sized(c) && SameRegisters(Scrambled(a), Scrambled(b))
    ensures Seed(c, a, narrow) == Seed(c, b, narrow)
  {
    hide Xor, Mod, Scrambled;
    var m, n := Scrambled(a), Scrambled(b);
    ModExact(m, 65479, narrow); ModExact(n, 65479, narrow);
    ModExact(m, 65497, narrow); ModExact(n, 65497, narrow);
    ModExact(m, 65519, narrow); ModExact(n, 65519, narrow);
    ModExact(m, 65521, narrow); ModExact(n, 65521, narrow);
  }

  /** The four words of a seed. */
  lemma {:induction false} SeedWords(c: Crypt, sectorNo: nat, narrow: bool)
    requires Sized(c)
    ensures var no := Scrambled(sectorNo);
      Seed(c, sectorNo, narrow) == Key(
        Xor(c.pwd[0], c.regs[no % 65479 + 31]), Xor(c.pwd[1], c.regs[no % 65497 + 11]),
        Xor(c.pwd[2], c.regs[no % 65519 + 5]), Xor(c.pwd[3], c.regs[no % 65521 + 3]))
  {
    hide Xor, Mod, Scrambled;
    var no := Scrambled(sectorNo);
    ModExact(no, 65479, narrow);
    ModExact(no, 65497, narrow);
    ModExact(no, 65519, narrow);
    ModExact(no, 65521, narrow);
  }

  /** A turn treats the four words alike: turning them round turns the result round. */
  lemma {:induction false} TurnGoesRound(c: Crypt, k: Key)
    requires Sized(c)
    ensures var n := Turn(c, k);
      && n.x == Crypt0(c, k.x, k.y, k.z, k.t)
      && Turn(c, Key(k.y, k.z, k.t, k.x)) == Key(n.y, n.z, n.t, n.x)
  {
    hide Crypt0;
  }

  // ---------------------------------------------------------------- a known answer

  lemma {:induction false} XorBitsZero(b: nat, n: nat)
    requires b < Pow2(n)
    ensures XorBits(0, b, n) == b
  {
    if n > 0 {
      XorBitsZero(b / 2, n - 1);
    }
  }

  lemma {:induction false} XorZero(b: Word)
    ensures Xor(0, b) == b && Xor(b, 0) == b
  {
    Pow2Word();
    XorBitsZero(b, 32);
    XorSwap(0, b);
  }

  lemma {:induction false} XorOne(b: Word)
    ensures Xor(1, b) == (if b % 2 == 0 then b + 1 else b - 1) && Xor(b, 1) == Xor(1, b)
  {
    Pow2Word();
    hide Pow2;
    XorBitsOne(b, 32);
    XorSwap(1, b);
  }

  lemma {:induction false} XorBitsOne(b: nat, n: nat)
    requires n > 0 && b < Pow2(n)
    ensures XorBits(1, b, n) == if b % 2 == 0 then b + 1 else b - 1
  {
    XorBitsZero(b / 2, n - 1);
  }

  /** All registers 1 and the empty password. */
  ghost predicate Ones(c: Crypt) {
    Sized(c) && c.pwd == [0, 0, 0, 0] && forall i :: 0 <= i < |c.regs| ==> c.regs[i] == 1
  }

  lemma {:induction false} OnesWord(c: Crypt, x: Word, y: Word, z: Word, t: Word)
    requires Ones(c)
    ensures Crypt0(c, x, y, z, t) == Xor(y * Add(z, 1) / 0x1_0000 % BASE, 1)
  {
    hide Xor;
  }

  lemma {:induction false} OnesTurns(c: Crypt, n: nat)
    requires Ones(c)
    ensures Turns(c, Key(1, 1, 1, 1), n) == Key(1, 1, 1, 1)
  {
    hide Xor, Crypt0;
    if n > 0 {
      OnesTurns(c, n - 1);
      OnesWord(c, 1, 1, 1, 1);
      XorZero(1);
    }
  }

  lemma {:induction false} OnesPrepared(c: Crypt, sectorNo: nat, narrow: bool)
    requires Ones(c) && sectorNo < WORD
    ensures Prepared(c, sectorNo, narrow) == Key(1, 1, 1, 1)
  {
    hide Xor, Scrambled;
    SeedWords(c, sectorNo, narrow);
    XorZero(1);
    OnesTurns(c, 16);
  }

  lemma {:induction false} ZerosMixed()
    ensures Mix([0, 0], MAGIC5) == [2711051979, 1697354479]
  {
    hide Xor;
    var s: seq<Word> := [0, 0];
    assert Mul(MAGIC5, MAGIC6) == 1697354479;
    assert Mul(1697354479, MAGIC6) == 2711051979;
    XorZero(1697354479);
    XorZero(2711051979);
    MixedWord(s, MAGIC5, 1);
    MixedWord(s, MAGIC5, 0);
  }

  /** Two zero words under registers of 1 and the empty password, whatever the sector. */
  lemma {:induction false} KnownAnswer(c: Crypt, sectorNo: nat, narrow: bool)
    requires Ones(c) && sectorNo < WORD
    ensures Encrypted(c, Prepared(c, sectorNo, narrow), [0, 0]) == [2711051978, 1697306143]
  {
    hide Xor, Prepared, Mix, Crypt0, Stream;
    OnesPrepared(c, sectorNo, narrow);
    ZerosMixed();
    var k, s: seq<Word> := Key(1, 1, 1, 1), [2711051979, 1697354479];
    OnesWord(c, 1, 1, 1, 1);
    XorZero(1);
    XorOne(Not(2711051979));
    var l := Key(1583915317, 1, 1, 1);
    assert Fed(c, k, s[0]) == l;
    OnesWord(c, 1, 1583915317, 1, 1);
    XorOne(48337);
    assert Turn(c, l).t == 48336;
    CipherWord(c, k, s, 0);
    CipherWord(c, k, s, 1);
    assert s[..0] == [] && s[..1] == [s[0]];
    KeyFirst(c, k, s[0]);
  }

  lemma {:induction false} KeyFirst(c: Crypt, k: Key, v: Word)
    requires Sized(c)
    ensures KeyAfter(c, k, []) == k && KeyAfter(c, k, [v]) == Fed(c, k, v)
  {
    hide Fed;
    assert [v][..0] == [];
  }

  /** All registers 0: a turn squares what is common to the four words and drops 16 bits. */
  ghost predicate Zeros(c: Crypt, w: Word) {
    Sized(c) && c.pwd == [w, w, w, w] && forall i :: 0 <= i < |c.regs| ==> c.regs[i] == 0
  }

  function Alike(w: Word): Key { Key(w, w, w, w) }

  lemma {:induction false} ZerosTurn(c: Crypt, p: Word, w: Word)
    requires Zeros(c, p)
    ensures Turn(c, Alike(w)) == Alike(w * w / 0x1_0000 % BASE)
  {
    hide Crypt0;
    ZerosWord(c, p, w, w, w, w);
  }

  lemma {:induction false} ZerosWord(c: Crypt, p: Word, x: Word, y: Word, z: Word, t: Word)
    requires Zeros(c, p)
    ensures Crypt0(c, x, y, z, t) == y * z / 0x1_0000 % BASE
  {
    hide Xor;
    assert Add(z, 0) == z;
    XorZero(y * z / 0x1_0000 % BASE);
  }

  lemma {:induction false} TurnsNext(c: Crypt, k: Key, n: nat)
    requires Sized(c)
    ensures Turns(c, k, 0) == k && Turns(c, k, n + 1) == Turn(c, Turns(c, k, n))
  {
    hide Turn;
  }

  lemma {:induction false} ZerosStep(c: Crypt, p: Word, n: nat, w: Word, v: Word)
    requires Zeros(c, p) && Turns(c, Alike(p), n) == Alike(w) && v == w * w / 0x1_0000 % BASE
    ensures Turns(c, Alike(p), n + 1) == Alike(v)
  {
    hide Turn, Turns;
    TurnsNext(c, Alike(p), n);
    ZerosTurn(c, p, w);
  }

  /** A password that sixteen turns, no more and no fewer, take to this key. */
  lemma {:induction false} KnownKey(c: Crypt, sectorNo: nat, narrow: bool)
    requires Zeros(c, 65537) && sectorNo < WORD
    ensures Prepared(c, sectorNo, narrow) == Alike(177737)
  {
    hide Xor, Scrambled, Turns, Turn;
    SeedWords(c, sectorNo, narrow);
    XorZero(65537);
    assert Seed(c, sectorNo, narrow) == Alike(65537);
    TurnsNext(c, Alike(65537), 0);
    ZerosStep(c, 65537, 0, 65537, 65538);
    ZerosStep(c, 65537, 1, 65538, 65540);
    ZerosStep(c, 65537, 2, 65540, 65544);
    ZerosStep(c, 65537, 3, 65544, 65552);
    ZerosStep(c, 65537, 4, 65552, 65568);
    ZerosStep(c, 65537, 5, 65568, 65600);
    ZerosStep(c, 65537, 6, 65600, 65664);
    ZerosStep(c, 65537, 7, 65664, 65792);
    ZerosStep(c, 65537, 8, 65792, 66049);
    ZerosStep(c, 65537, 9, 66049, 66566);
    ZerosStep(c, 65537, 10, 66566, 67612);
    ZerosStep(c, 65537, 11, 67612, 69753);
    ZerosStep(c, 65537, 12, 69753, 74241);
    ZerosStep(c, 65537, 13, 74241, 84102);
    ZerosStep(c, 65537, 14, 84102, 107927);
    ZerosStep(c, 65537, 15, 107927, 177737);
  }
}
