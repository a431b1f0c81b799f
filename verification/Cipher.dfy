/**
 * The plaintext-feedback cipher (dfslib/dfslib_crypt.c): words are mixed from the
 * last to the first, then each is shifted by a key word while the word itself
 * enters the next key state.
 */
module Cipher {
  import opened Common
  import NumberTheory

  type Word = x: nat | x < 0x1_0000_0000

  const MAGIC5: Word := 1615037507
  const MAGIC6: Word := 43385317
  const MAGIC7: nat := 1229426917
  const MAGIC8: nat := 3433359571

  // ---------------------------------------------------------------- 32-bit operations

  function XorBits(a: nat, b: nat, n: nat): nat {
    if n == 0 then 0 else (a + b) % 2 + 2 * XorBits(a / 2, b / 2, n - 1)
  }

  lemma {:induction false} XorBound(a: nat, b: nat, n: nat)
    ensures XorBits(a, b, n) < Pow2(n)
  {
    if n > 0 {
      XorBound(a / 2, b / 2, n - 1);
    }
  }

  lemma {:induction false} XorUndoes(a: nat, b: nat, n: nat)
    requires a < Pow2(n)
    ensures XorBits(XorBits(a, b, n), b, n) == a
  {
    if n > 0 {
      var x := XorBits(a, b, n);
      Bits((a + b) % 2, XorBits(a / 2, b / 2, n - 1), x);
      Parity(a, b, x);
      XorUndoes(a / 2, b / 2, n - 1);
    }
  }

  lemma {:induction false} Bits(bit: nat, rest: nat, x: nat)
    requires bit < 2 && x == bit + 2 * rest
    ensures x / 2 == rest && x % 2 == bit
  {}

  lemma {:induction false} Parity(a: nat, b: nat, x: nat)
    requires x % 2 == (a + b) % 2
    ensures (x + b) % 2 == a % 2 && a == a % 2 + 2 * (a / 2)
  {}

  lemma {:induction false} Pow2Word()
    ensures Pow2(32) == BASE
  {
    assert Pow2(8) == 256;
    assert Pow2(16) == 0x1_0000;
    assert Pow2(24) == 0x100_0000;
  }

  function Xor(a: Word, b: Word): Word {
    XorBound(a, b, 32);
    Pow2Word();
    XorBits(a, b, 32)
  }

  lemma {:induction false} XorTwice(a: Word, b: Word)
    ensures Xor(Xor(a, b), b) == a
  {
    Pow2Word();
    XorUndoes(a, b, 32);
  }

  function Not(a: Word): Word { BASE - 1 - a }

  function Add(a: Word, b: Word): Word { (a + b) % BASE }

  function Sub(a: Word, b: Word): Word { (a - b) % BASE }

  function Mul(a: Word, b: Word): Word { a * b % BASE }

  lemma {:induction false} SubAdd(a: Word, b: Word)
    ensures Add(Sub(a, b), b) == a
  {}

  // ---------------------------------------------------------------- key states

  /** The register table and the password state. */
  datatype Crypt = Crypt(regs: seq<Word>, pwd: seq<Word>, ispwd: bool)

  predicate Sized(c: Crypt) { |c.regs| == 0x1_0000 && |c.pwd| == 4 }

  /** The running key state. */
  datatype Key = Key(x: Word, y: Word, z: Word, t: Word)

  /** `dfs_crypt0`. */
  function Crypt0(c: Crypt, x: Word, y: Word, z: Word, t: Word): Word
    requires Sized(c)
  {
    Xor(y * Add(z, c.regs[x / 0x1_0000]) / 0x1_0000 % BASE, c.regs[t % 0x1_0000])
  }

  /** `dfs_crypt2`: the next key state, before a word is fed in. */
  function Turn(c: Crypt, k: Key): Key
    requires Sized(c)
  {
    Key(Crypt0(c, k.x, k.y, k.z, k.t), Crypt0(c, k.y, k.z, k.t, k.x), Crypt0(c, k.z, k.t, k.x, k.y), Crypt0(c, k.t, k.x, k.y, k.z))
  }

  /** The next key state once the plain word `v` is fed in. */
  function Fed(c: Crypt, k: Key, v: Word): Key
    requires Sized(c)
  {
    var n := Turn(c, k);
    n.(x := Xor(n.x, Not(v)))
  }

  function Turns(c: Crypt, k: Key, n: nat): Key
    requires Sized(c)
  {
    if n == 0 then k else Turn(c, Turns(c, k, n - 1))
  }

  /** Sixteen more bits. */
  function Push(x: nat, low: nat): nat { x * 0x1_0000 + low }

  /**
   * `dfs_mod`. Where a C `long` has 32 bits (`narrow`) and the number does not fit, the
   * remainder is taken in three 32-bit steps.
   */
  function Mod(big: nat, small: nat, narrow: bool): nat
    requires big < WORD && 0 < small < 0x1_0000
  {
    if !narrow || big < BASE then big % small
    else
      var top := big / BASE % small;
      var mid := Push(top, big % BASE / 0x1_0000) % small;
      Push(mid, big % 0x1_0000) % small
  }

  /** The three steps take the exact remainder; each shifted remainder fits in 32 bits, being below 2^16 before. */
  lemma {:induction false} ModExact(big: nat, small: nat, narrow: bool)
    requires big < WORD && 0 < small < 0x1_0000
    ensures Mod(big, small, narrow) == big % small
  {
    hide Push;
    var h, m, l := big / BASE, big % BASE / 0x1_0000, big % 0x1_0000;
    Halves(big);
    Horner(h, m, small);
    Horner(Push(h, m), l, small);
  }

  lemma {:induction false} Halves(big: nat)
    ensures big == Push(Push(big / BASE, big % BASE / 0x1_0000), big % 0x1_0000)
  {
    var h, lo := big / BASE, big % BASE;
    assert big == h * BASE + lo;
    var m, l := lo / 0x1_0000, lo % 0x1_0000;
    assert lo == m * 0x1_0000 + l;
    LastBits(big, h * 0x1_0000 + m, l);
  }

  lemma {:induction false} LastBits(x: nat, q: nat, r: nat)
    requires x == q * 0x1_0000 + r && r < 0x1_0000
    ensures x % 0x1_0000 == r
  {}

  lemma {:induction false} Horner(h: nat, m: nat, small: nat)
    requires small > 0
    ensures Push(h % small, m) % small == Push(h, m) % small
  {
    var q, g := h / small, h % small;
    var b := g * 0x1_0000 + m;
    var p := b / small;
    Scale(h, q, g, small);
    Gather(h * 0x1_0000 + m, b % small, q * 0x1_0000, p, small);
  }

  lemma {:induction false} Scale(h: nat, q: nat, g: nat, small: nat)
    requires h == q * small + g
    ensures h * 0x1_0000 == q * 0x1_0000 * small + g * 0x1_0000
  {
    assert q * 0x1_0000 * small == q * small * 0x1_0000;
  }

  lemma {:induction false} Gather(a: nat, r: nat, x: nat, y: nat, small: nat)
    requires r < small && a == x * small + (y * small + r)
    ensures a % small == r
  {
    assert a - r == (x + y) * small;
    NumberTheory.EqmBy(a, r, small, x + y);
    NumberTheory.EqmMod(a, r, small);
  }

  /** The 64-bit product that stands for a sector number. */
  function Scrambled(sectorNo: nat): (no: nat)
    ensures no < WORD
  {
    sectorNo * (MAGIC7 * BASE + MAGIC8) % WORD
  }

  /** Password and sector number put together, before the key is turned. */
  function Seed(c: Crypt, sectorNo: nat, narrow: bool): Key
    requires Sized(c)
  {
    var no := Scrambled(sectorNo);
    ModExact(no, 65479, narrow);
    ModExact(no, 65497, narrow);
    ModExact(no, 65519, narrow);
    ModExact(no, 65521, narrow);
    Key(
      Xor(c.pwd[0], c.regs[Mod(no, 65479, narrow) + 31]),
      Xor(c.pwd[1], c.regs[Mod(no, 65497, narrow) + 11]),
      Xor(c.pwd[2], c.regs[Mod(no, 65519, narrow) + 5]),
      Xor(c.pwd[3], c.regs[Mod(no, 65521, narrow) + 3]))
  }

  /** The key state a sector starts from (`dfs_prepare`). */
  function Prepared(c: Crypt, sectorNo: nat, narrow: bool): Key
    requires Sized(c) && sectorNo < WORD
  {
    Turns(c, Seed(c, sectorNo, narrow), 16)
  }

  // ---------------------------------------------------------------- the specification

  /** The words after encryption from key `k`. */
  function Stream(c: Crypt, k: Key, s: seq<Word>): (r: seq<Word>)
    requires Sized(c)
    ensures |r| == |s|
    decreases |s|
  {
    if s == [] then []
    else [Sub(s[0], Turn(c, k).t)] + Stream(c, Fed(c, k, s[0]), s[1..])
  }

  function Unstream(c: Crypt, k: Key, s: seq<Word>): (r: seq<Word>)
    requires Sized(c)
    ensures |r| == |s|
    decreases |s|
  {
    if s == [] then []
    else
      var v := Add(s[0], Turn(c, k).t);
      [v] + Unstream(c, Fed(c, k, v), s[1..])
  }

  /** The key after the plain words `s` have been fed in. */
  function KeyAfter(c: Crypt, k: Key, s: seq<Word>): Key
    requires Sized(c)
  {
    if s == [] then k else Fed(c, KeyAfter(c, k, s[..|s| - 1]), s[|s| - 1])
  }

  /** `dfs_enmixArray` from carry `m`. */
  function Mix(s: seq<Word>, m: Word): (r: seq<Word>)
    ensures |r| == |s|
  {
    if s == [] then []
    else
      var w := Xor(s[|s| - 1], Mul(m, MAGIC6));
      Mix(s[..|s| - 1], w) + [w]
  }

  /** `dfs_unmixArray` from carry `m`. */
  function Unmix(s: seq<Word>, m: Word): (r: seq<Word>)
    ensures |r| == |s|
  {
    if s == [] then []
    else Unmix(s[..|s| - 1], s[|s| - 1]) + [Xor(s[|s| - 1], Mul(m, MAGIC6))]
  }

  function Encrypted(c: Crypt, k: Key, s: seq<Word>): (r: seq<Word>)
    requires Sized(c)
    ensures |r| == |s|
  {
    Stream(c, k, Mix(s, MAGIC5))
  }

  function Decrypted(c: Crypt, k: Key, s: seq<Word>): (r: seq<Word>)
    requires Sized(c)
    ensures |r| == |s|
  {
    Unmix(Unstream(c, k, s), MAGIC5)
  }

  lemma {:induction false} StreamRoundTrip(c: Crypt, k: Key, s: seq<Word>)
    requires Sized(c)
    ensures Unstream(c, k, Stream(c, k, s)) == s
    decreases |s|
  {
    hide Turn, Fed, Add, Sub;
    if s != [] {
      SubAdd(s[0], Turn(c, k).t);
      var e := Stream(c, k, s);
      assert e[1..] == Stream(c, Fed(c, k, s[0]), s[1..]);
      StreamRoundTrip(c, Fed(c, k, s[0]), s[1..]);
    }
  }

  lemma {:induction false} MixRoundTrip(s: seq<Word>, m: Word)
    ensures Unmix(Mix(s, m), m) == s
  {
    hide Xor, Mul, Unmix;
    if s == [] {
      UnmixEmpty(m);
    } else {
      var n := |s| - 1;
      var w := Xor(s[n], Mul(m, MAGIC6));
      UnmixSnoc(Mix(s[..n], w), w, m);
      XorTwice(s[n], Mul(m, MAGIC6));
      MixRoundTrip(s[..n], w);
    }
  }

  lemma {:induction false} UnmixEmpty(m: Word)
    ensures Unmix([], m) == []
  {}

  lemma {:induction false} UnmixSnoc(e: seq<Word>, w: Word, m: Word)
    ensures Unmix(e + [w], m) == Unmix(e, w) + [Xor(w, Mul(m, MAGIC6))]
  {
    hide Xor, Mul;
    assert (e + [w])[..|e|] == e;
  }

  /** Decryption undoes encryption, from any key. */
  lemma {:induction false} RoundTrip(c: Crypt, k: Key, s: seq<Word>)
    requires Sized(c)
    ensures Decrypted(c, k, Encrypted(c, k, s)) == s
  {
    hide Stream, Unstream, Mix, Unmix;
    StreamRoundTrip(c, k, Mix(s, MAGIC5));
    MixRoundTrip(s, MAGIC5);
  }

  // ---------------------------------------------------------------- in place

  lemma {:induction false} MixStep(s: seq<Word>, m: Word, i: nat)
    requires i < |s|
    ensures var w := Xor(s[i], Mul(m, MAGIC6)); Mix(s[..i + 1], m) == Mix(s[..i], w) + [w]
    ensures Unmix(s[..i + 1], m) == Unmix(s[..i], s[i]) + [Xor(s[i], Mul(m, MAGIC6))]
  {
    hide Xor, Mul;
    assert s[..i + 1][..i] == s[..i];
  }

  /** `dfs_enmixArray`. */
  method MixArray(d: array<Word>)
    modifies d
    ensures d[..] == Mix(old(d[..]), MAGIC5)
  {
    hide Mix, Xor, Mul;
    ghost var s := d[..];
    var c := MAGIC5;
    var i := d.Length;
    assert s[..i] == s;
    while i > 0
      invariant 0 <= i <= d.Length && d[..i] == s[..i]
      invariant Mix(s, MAGIC5) == Mix(s[..i], c) + d[i..]
    {
      i := i - 1;
      MixStep(s, c, i);
      d[i] := Xor(d[i], Mul(c, MAGIC6));
      c := d[i];
      assert d[i..] == [c] + d[i + 1..];
    }
    MixNone(c);
  }

  lemma {:induction false} MixNone(c: Word)
    ensures Mix([], c) == [] && Unmix([], c) == []
  {}

  /** `dfs_unmixArray`. */
  method UnmixArray(d: array<Word>)
    modifies d
    ensures d[..] == Unmix(old(d[..]), MAGIC5)
  {
    hide Unmix, Xor, Mul;
    ghost var s := d[..];
    var c := MAGIC5;
    var i := d.Length;
    assert s[..i] == s;
    while i > 0
      invariant 0 <= i <= d.Length && d[..i] == s[..i]
      invariant Unmix(s, MAGIC5) == Unmix(s[..i], c) + d[i..]
    {
      i := i - 1;
      MixStep(s, c, i);
      ghost var w := d[i];
      c := Mul(c, MAGIC6);
      XorBack(d[i], c);
      d[i] := Xor(d[i], c);
      c := Xor(c, d[i]);
      assert d[i..] == [d[i]] + d[i + 1..];
    }
    MixNone(c);
  }

  lemma {:induction false} XorBack(w: Word, c: Word)
    ensures Xor(c, Xor(w, c)) == w
  {
    XorTwice(w, c);
    XorSwap(c, Xor(w, c), 32);
  }

  lemma {:induction false} XorSwap(a: nat, b: nat, n: nat)
    ensures XorBits(a, b, n) == XorBits(b, a, n)
  {
    if n > 0 {
      XorSwap(a / 2, b / 2, n - 1);
    }
  }

  lemma {:induction false} StreamStep(c: Crypt, k: Key, s: seq<Word>, i: nat)
    requires Sized(c) && i < |s|
    ensures KeyAfter(c, k, s[..i + 1]) == Fed(c, KeyAfter(c, k, s[..i]), s[i])
    ensures Stream(c, KeyAfter(c, k, s[..i]), s[i..]) ==
      [Sub(s[i], Turn(c, KeyAfter(c, k, s[..i])).t)] + Stream(c, KeyAfter(c, k, s[..i + 1]), s[i + 1..])
  {
    hide Fed, Turn, Sub;
    assert s[..i + 1][..i] == s[..i];
    assert s[i..][1..] == s[i + 1..];
  }

  /** One `dfs_encrypt2`: word `i` is shifted and fed into the key. */
  method EncryptWord(c: Crypt, d: array<Word>, i: nat, k: Key) returns (n: Key)
    requires Sized(c) && i < d.Length
    modifies d
    ensures d[..] == old(d[..])[i := Sub(old(d[i]), Turn(c, k).t)] && n == Fed(c, k, old(d[i]))
  {
    hide Xor, Crypt0, Sub;
    var x := Xor(Crypt0(c, k.x, k.y, k.z, k.t), Not(d[i]));
    var y := Crypt0(c, k.y, k.z, k.t, k.x);
    var z := Crypt0(c, k.z, k.t, k.x, k.y);
    var t := Crypt0(c, k.t, k.x, k.y, k.z);
    d[i] := Sub(d[i], t);
    n := Key(x, y, z, t);
  }

  /** One `dfs_uncrypt2`: the word is shifted back before it is fed in. */
  method UncryptWord(c: Crypt, d: array<Word>, i: nat, k: Key) returns (n: Key)
    requires Sized(c) && i < d.Length
    modifies d
    ensures d[..] == old(d[..])[i := Add(old(d[i]), Turn(c, k).t)] && n == Fed(c, k, Add(old(d[i]), Turn(c, k).t))
  {
    hide Xor, Crypt0, Add;
    var z := Crypt0(c, k.z, k.t, k.x, k.y);
    var t := Crypt0(c, k.t, k.x, k.y, k.z);
    d[i] := Add(d[i], t);
    var x := Xor(Crypt0(c, k.x, k.y, k.z, k.t), Not(d[i]));
    var y := Crypt0(c, k.y, k.z, k.t, k.x);
    n := Key(x, y, z, t);
  }

  /** `dfs_encrypt3` from word `i` on, `pairs` times. */
  method EncryptPairs(c: Crypt, d: array<Word>, i: nat, pairs: nat, k: Key, ghost s: seq<Word>, ghost start: Key) returns (n: Key)
    requires Sized(c) && i + 2 * pairs <= d.Length == |s| && d[i..] == s[i..]
    requires k == KeyAfter(c, start, s[..i]) && Stream(c, start, s) == d[..i] + Stream(c, k, s[i..])
    modifies d
    ensures var j := i + 2 * pairs;
      d[j..] == s[j..] && n == KeyAfter(c, start, s[..j]) && Stream(c, start, s) == d[..j] + Stream(c, n, s[j..])
  {
    hide Stream, KeyAfter, Turn, Fed, Sub;
    n := k;
    var p, j := pairs, i;
    while p > 0
      invariant 0 <= p <= pairs && j == i + 2 * (pairs - p)
      invariant d[j..] == s[j..] && n == KeyAfter(c, start, s[..j]) && Stream(c, start, s) == d[..j] + Stream(c, n, s[j..])
    {
      n := EncryptNext(c, d, j, n, s, start);
      n := EncryptNext(c, d, j + 1, n, s, start);
      j := j + 2;
      p := p - 1;
    }
  }

  /** Word `i` of a longer encryption. */
  method EncryptNext(c: Crypt, d: array<Word>, i: nat, k: Key, ghost s: seq<Word>, ghost start: Key) returns (n: Key)
    requires Sized(c) && i < d.Length == |s| && d[i..] == s[i..]
    requires k == KeyAfter(c, start, s[..i]) && Stream(c, start, s) == d[..i] + Stream(c, k, s[i..])
    modifies d
    ensures d[i + 1..] == s[i + 1..] && n == KeyAfter(c, start, s[..i + 1])
    ensures Stream(c, start, s) == d[..i + 1] + Stream(c, n, s[i + 1..])
  {
    hide Stream, KeyAfter, Turn, Fed, Sub;
    StreamStep(c, start, s, i);
    assert d[i] == s[i];
    n := EncryptWord(c, d, i, k);
    assert d[..i + 1] == old(d[..i]) + [d[i]];
  }

  lemma {:induction false} UnstreamStep(c: Crypt, k: Key, s: seq<Word>, i: nat)
    requires Sized(c) && i < |s|
    ensures var v := Add(s[i], Turn(c, k).t); Unstream(c, k, s[i..]) == [v] + Unstream(c, Fed(c, k, v), s[i + 1..])
  {
    hide Fed, Turn, Add;
    assert s[i..][1..] == s[i + 1..];
  }

  lemma {:induction false} KeyStep(c: Crypt, k: Key, s: seq<Word>, v: Word)
    requires Sized(c)
    ensures KeyAfter(c, k, s + [v]) == Fed(c, KeyAfter(c, k, s), v)
  {
    hide Fed;
    assert (s + [v])[..|s|] == s;
  }

  /** Word `i` of a longer decryption: the key is the one the recovered words lead to. */
  method UncryptNext(c: Crypt, d: array<Word>, i: nat, k: Key, ghost s: seq<Word>, ghost start: Key) returns (n: Key)
    requires Sized(c) && i < d.Length == |s| && d[i..] == s[i..]
    requires k == KeyAfter(c, start, d[..i]) && Unstream(c, start, s) == d[..i] + Unstream(c, k, s[i..])
    modifies d
    ensures d[i + 1..] == s[i + 1..] && n == KeyAfter(c, start, d[..i + 1])
    ensures Unstream(c, start, s) == d[..i + 1] + Unstream(c, n, s[i + 1..])
  {
    hide Unstream, KeyAfter, Turn, Fed, Add;
    UnstreamStep(c, k, s, i);
    assert d[i] == s[i];
    KeyStep(c, start, d[..i], Add(d[i], Turn(c, k).t));
    n := UncryptWord(c, d, i, k);
    assert d[..i + 1] == old(d[..i]) + [d[i]];
  }

  /** `dfs_uncrypt3` from word `i` on, `pairs` times. */
  method UncryptPairs(c: Crypt, d: array<Word>, i: nat, pairs: nat, k: Key, ghost s: seq<Word>, ghost start: Key) returns (n: Key)
    requires Sized(c) && i + 2 * pairs <= d.Length == |s| && d[i..] == s[i..]
    requires k == KeyAfter(c, start, d[..i]) && Unstream(c, start, s) == d[..i] + Unstream(c, k, s[i..])
    modifies d
    ensures var j := i + 2 * pairs;
      d[j..] == s[j..] && n == KeyAfter(c, start, d[..j]) && Unstream(c, start, s) == d[..j] + Unstream(c, n, s[j..])
  {
    hide Unstream, KeyAfter, Turn, Fed, Add;
    n := k;
    var p, j := pairs, i;
    while p > 0
      invariant 0 <= p <= pairs && j == i + 2 * (pairs - p)
      invariant d[j..] == s[j..] && n == KeyAfter(c, start, d[..j]) && Unstream(c, start, s) == d[..j] + Unstream(c, n, s[j..])
    {
      n := UncryptNext(c, d, j, n, s, start);
      n := UncryptNext(c, d, j + 1, n, s, start);
      j := j + 2;
      p := p - 1;
    }
  }

  lemma {:induction false} Ends(c: Crypt, k: Key, s: seq<Word>)
    requires Sized(c)
    ensures Stream(c, k, []) == [] && Unstream(c, k, []) == [] && KeyAfter(c, k, []) == k
    ensures s[..0] == [] && s[0..] == s && s[..|s|] == s && s[|s|..] == []
  {}

  /** `dfslib_encrypt_array`. */
  method EncryptArray(c: Crypt, d: array<Word>, sectorNo: nat, narrow: bool) returns (res: int)
    requires Sized(c) && sectorNo < WORD
    modifies d
    ensures res == if c.ispwd && d.Length % 2 == 0 then 1 else 0
    ensures d[..] == if res == 1 then Encrypted(c, Prepared(c, sectorNo, narrow), old(d[..])) else old(d[..])
  {
    hide Stream, KeyAfter, Mix, Prepared;
    if !c.ispwd || d.Length % 2 == 1 { return 0; }
    var k := Prepared(c, sectorNo, narrow);
    MixArray(d);
    ghost var s := d[..];
    Ends(c, k, s);
    var n := EncryptPairs(c, d, 0, d.Length / 2, k, s, k);
    Ends(c, n, d[..]);
    return 1;
  }

  /** `dfslib_uncrypt_array`. */
  method UncryptArray(c: Crypt, d: array<Word>, sectorNo: nat, narrow: bool) returns (res: int)
    requires Sized(c) && sectorNo < WORD
    modifies d
    ensures res == if c.ispwd && d.Length % 2 == 0 then 1 else 0
    ensures d[..] == if res == 1 then Decrypted(c, Prepared(c, sectorNo, narrow), old(d[..])) else old(d[..])
  {
    hide Unstream, KeyAfter, Unmix, Prepared;
    if !c.ispwd || d.Length % 2 == 1 { return 0; }
    var k := Prepared(c, sectorNo, narrow);
    ghost var s := d[..];
    Ends(c, k, s);
    var n := UncryptPairs(c, d, 0, d.Length / 2, k, s, k);
    Ends(c, n, d[..]);
    assert d[..d.Length] == d[..] == Unstream(c, k, s);
    UnmixArray(d);
    return 1;
  }

  /** `dfslib_encrypt_sector`: eight rounds of eight pairs. */
  method EncryptSector(c: Crypt, d: array<Word>, sectorNo: nat, narrow: bool) returns (res: int)
    requires Sized(c) && sectorNo < WORD && d.Length == 128
    modifies d
    ensures res == if c.ispwd then 1 else 0
    ensures d[..] == if res == 1 then Encrypted(c, Prepared(c, sectorNo, narrow), old(d[..])) else old(d[..])
  {
    hide Stream, KeyAfter, Mix, Prepared;
    if !c.ispwd { return 0; }
    var k := Prepared(c, sectorNo, narrow);
    ghost var start := k;
    MixArray(d);
    ghost var s := d[..];
    Ends(c, k, s);
    var i := 8;
    while i > 0
      invariant 0 <= i <= 8 && d[128 - 16 * i..] == s[128 - 16 * i..]
      invariant k == KeyAfter(c, start, s[..128 - 16 * i]) && Stream(c, start, s) == d[..128 - 16 * i] + Stream(c, k, s[128 - 16 * i..])
    {
      k := EncryptPairs(c, d, 128 - 16 * i, 8, k, s, start);
      i := i - 1;
    }
    Ends(c, k, d[..]);
    return 1;
  }

  /** `dfslib_uncrypt_sector`. */
  method UncryptSector(c: Crypt, d: array<Word>, sectorNo: nat, narrow: bool) returns (res: int)
    requires Sized(c) && sectorNo < WORD && d.Length == 128
    modifies d
    ensures res == if c.ispwd then 1 else 0
    ensures d[..] == if res == 1 then Decrypted(c, Prepared(c, sectorNo, narrow), old(d[..])) else old(d[..])
  {
    hide Unstream, KeyAfter, Unmix, Prepared;
    if !c.ispwd { return 0; }
    var k := Prepared(c, sectorNo, narrow);
    ghost var start := k;
    ghost var s := d[..];
    Ends(c, k, s);
    var i := 8;
    while i > 0
      invariant 0 <= i <= 8 && d[128 - 16 * i..] == s[128 - 16 * i..]
      invariant k == KeyAfter(c, start, d[..128 - 16 * i]) && Unstream(c, start, s) == d[..128 - 16 * i] + Unstream(c, k, s[128 - 16 * i..])
    {
      k := UncryptPairs(c, d, 128 - 16 * i, 8, k, s, start);
      i := i - 1;
    }
    Ends(c, k, d[..]);
    assert d[..128] == d[..] == Unstream(c, start, s);
    UnmixArray(d);
    return 1;
  }

  /** The key state evolves on decryption exactly as it did on encryption. */
  lemma {:induction false} SameKeys(c: Crypt, k: Key, s: seq<Word>, i: nat)
    requires Sized(c) && i <= |s|
    ensures KeyAfter(c, k, Unstream(c, k, Stream(c, k, s))[..i]) == KeyAfter(c, k, s[..i])
  {
    StreamRoundTrip(c, k, s);
  }
}
