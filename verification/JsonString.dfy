/** Parsing of JSON strings (client/json-rpc/cJSON.c:541-825). */
module JsonString {
  import opened Common
  import opened JsonText

  /** The text `t` stands at offset `o`, before the terminator. */
  ghost predicate At(c: seq<Byte>, o: int, t: seq<Char>) {
    0 <= o && o + |t| < |c| && forall i :: 0 <= i < |t| ==> c[o + i] == t[i]
  }

  lemma {:induction false} AtSplit(c: seq<Byte>, o: int, a: seq<Char>, b: seq<Char>)
    requires At(c, o, a + b)
    ensures At(c, o, a) && At(c, o + |a|, b)
  {
    assert forall i :: 0 <= i < |a| ==> (a + b)[i] == a[i];
    assert forall i :: 0 <= i < |b| ==> (a + b)[|a| + i] == b[i];
  }

  lemma {:induction false} AtHead(c: seq<Byte>, o: int, t: seq<Char>)
    requires At(c, o, t) && t != []
    ensures c[o] == t[0]
  {
    assert c[o + 0] == t[0];
  }

  /** A buffer as `cJSON_ParseWithOpts` sets it up: a C string with its terminator. */
  ghost predicate Terminated(c: seq<Byte>) {
    |c| > 0 && c[|c| - 1] == 0 && forall i :: 0 <= i < |c| - 1 ==> c[i] != 0
  }

  // ---------------------------------------------------------------- hexadecimal and UTF-8

  function HexValue(c: Byte): nat
    requires IsHex(c)
  {
    if c <= 57 then c - 48 else if c <= 70 then c - 55 else c - 87
  }

  lemma {:induction false} HexInverse(n: nat)
    requires n < 16
    ensures IsHex(HexDigit(n)) && HexValue(HexDigit(n)) == n
  {}

  /** Upper and lower case alike. */
  lemma {:induction false} HexUpper(n: nat)
    requires n < 16
    ensures var c := if n < 10 then 48 + n else 55 + n; IsHex(c) && HexValue(c) == n
  {}

  /** Four hexadecimal digits, or 0. */
  function Hex4(t: seq<Byte>): (h: nat)
    requires |t| == 4
    ensures h < 0x1_0000
  {
    if IsHex(t[0]) && IsHex(t[1]) && IsHex(t[2]) && IsHex(t[3]) then
      ((HexValue(t[0]) * 16 + HexValue(t[1])) * 16 + HexValue(t[2])) * 16 + HexValue(t[3])
    else 0
  }

  /** `parse_hex4`. */
  method ParseHex4(t: seq<Byte>) returns (h: nat)
    requires |t| == 4
    ensures h == Hex4(t)
  {
    h := 0;
    var i := 0;
    while i < 4
      invariant 0 <= i <= 4 && forall j :: 0 <= j < i ==> IsHex(t[j])
      invariant i == 0 ==> h == 0
      invariant i == 1 ==> h == HexValue(t[0]) * 16
      invariant i == 2 ==> h == (HexValue(t[0]) * 16 + HexValue(t[1])) * 16
      invariant i == 3 ==> h == ((HexValue(t[0]) * 16 + HexValue(t[1])) * 16 + HexValue(t[2])) * 16
      invariant i == 4 ==> h == Hex4(t)
    {
      if 48 <= t[i] <= 57 {
        h := h + t[i] - 48;
      } else if 65 <= t[i] <= 70 {
        h := h + 10 + t[i] - 65;
      } else if 97 <= t[i] <= 102 {
        h := h + 10 + t[i] - 97;
      } else {
        return 0;
      }
      if i < 3 {
        h := h * 16;
      }
      i := i + 1;
    }
  }

  /** UTF-8 of a code point (section 3 of RFC 3629). */
  function Utf8(n: nat): (s: seq<Byte>)
    requires n <= 0x10_FFFF
  {
    if n < 0x80 then [n]
    else if n < 0x800 then [0xC0 + n / 64, 0x80 + n % 64]
    else if n < 0x1_0000 then [0xE0 + n / 64 / 64, 0x80 + n / 64 % 64, 0x80 + n % 64]
    else [0xF0 + n / 64 / 64 / 64, 0x80 + n / 64 / 64 % 64, 0x80 + n / 64 % 64, 0x80 + n % 64]
  }

  /** What a decoder reads back. */
  function FromUtf8(s: seq<Byte>): int {
    if |s| == 1 then s[0]
    else if |s| == 2 then Low(s[0], 0xC0) * 64 + Low(s[1], 0x80)
    else if |s| == 3 then (Low(s[0], 0xE0) * 64 + Low(s[1], 0x80)) * 64 + Low(s[2], 0x80)
    else if |s| == 4 then ((Low(s[0], 0xF0) * 64 + Low(s[1], 0x80)) * 64 + Low(s[2], 0x80)) * 64 + Low(s[3], 0x80)
    else -1
  }

  function Low(b: int, mark: int): int { b - mark }

  lemma {:induction false} Utf8Inverse(n: nat)
    requires n <= 0x10_FFFF
    ensures FromUtf8(Utf8(n)) == n
    ensures forall i :: 0 < i < |Utf8(n)| ==> 0x80 <= Utf8(n)[i] < 0xC0
  {
    var a := n / 64;
    var b := a / 64;
    assert n == a * 64 + n % 64 && a == b * 64 + a % 64 && b == b / 64 * 64 + b % 64;
  }

  /** The encoding loop: continuation bytes from the last to the first, then the leading byte. */
  method Encode(n: nat) returns (s: seq<Byte>)
    requires n <= 0x10_FFFF
    ensures s == Utf8(n)
  {
    hide Continuation, Shifted;
    Unrolled(n);
    var length, mark := 1, 0;
    if n < 0x80 {
    } else if n < 0x800 {
      length, mark := 2, 0xC0;
    } else if n < 0x1_0000 {
      length, mark := 3, 0xE0;
    } else {
      length, mark := 4, 0xF0;
    }
    var rest := n;
    s := [];
    var position := length - 1;
    while position > 0
      invariant 0 <= position < length && |s| == length - 1 - position
      invariant rest == Shifted(n, length - 1 - position)
      invariant s == Continuation(n, length - 1 - position)
    {
      NextByte(n, length - 1 - position);
      s := [0x80 + rest % 64] + s;
      rest := rest / 64;
      position := position - 1;
    }
    Unrolled(n);
    if length > 1 {
      s := [mark + rest] + s;
    } else {
      s := [rest];
    }
  }

  function Shifted(n: nat, k: nat): nat { if k == 0 then n else Shifted(n, k - 1) / 64 }

  function Continuation(n: nat, k: nat): seq<Byte> {
    if k == 0 then [] else [0x80 + Shifted(n, k - 1) % 64] + Continuation(n, k - 1)
  }

  lemma {:induction false} NextByte(n: nat, k: nat)
    ensures Shifted(n, k + 1) == Shifted(n, k) / 64
    ensures Continuation(n, k + 1) == [0x80 + Shifted(n, k) % 64] + Continuation(n, k)
  {}

  lemma {:induction false} Unrolled(n: nat)
    ensures Shifted(n, 0) == n && Shifted(n, 1) == n / 64 && Shifted(n, 2) == n / 64 / 64 && Shifted(n, 3) == n / 64 / 64 / 64
    ensures Continuation(n, 0) == []
    ensures Continuation(n, 1) == [0x80 + n % 64]
    ensures Continuation(n, 2) == [0x80 + n / 64 % 64, 0x80 + n % 64]
    ensures Continuation(n, 3) == [0x80 + n / 64 / 64 % 64, 0x80 + n / 64 % 64, 0x80 + n % 64]
  {
    assert Shifted(n, 2) == Shifted(n, 1) / 64;
    assert Continuation(n, 2) == [0x80 + Shifted(n, 1) % 64] + Continuation(n, 1);
  }

  /** A code unit that starts or ends a surrogate pair. */
  predicate Leading(u: nat) { 0xD800 <= u <= 0xDBFF }

  predicate Trailing(u: nat) { 0xDC00 <= u <= 0xDFFF }

  /** The code point of a surrogate pair. */
  function Paired(u: nat, v: nat): (n: nat)
    requires Leading(u) && Trailing(v)
    ensures 0x1_0000 <= n <= 0x10_FFFF
  {
    0x1_0000 + u % 0x400 * 0x400 + v % 0x400
  }

  /** The code point of a surrogate pair is the one that UTF-16 splits into it (section 2.1 of RFC 2781). */
  lemma {:induction false} PairedSplits(n: nat)
    requires 0x1_0000 <= n <= 0x10_FFFF
    ensures var u, v := 0xD800 + (n - 0x1_0000) / 0x400, 0xDC00 + (n - 0x1_0000) % 0x400;
      Leading(u) && Trailing(v) && Paired(u, v) == n
  {
    var m := n - 0x1_0000;
    assert m == m / 0x400 * 0x400 + m % 0x400 && m / 0x400 < 0x400;
    LowTen(m / 0x400);
    LowTen(m % 0x400 + 0x400);
  }

  lemma {:induction false} LowTen(a: nat)
    requires a < 0x800
    ensures (0xD800 + a) % 0x400 == a % 0x400
  {}

  /** What a `\u` escape at the start of `t` means: its length and its bytes. */
  function Unicode(t: seq<Byte>): Option<(nat, seq<Byte>)>
  {
    if |t| < 6 then None
    else
      var u := Hex4(t[2..6]);
      if Trailing(u) then None
      else if !Leading(u) then Some((6, Utf8(u)))
      else if |t| < 12 || t[6] != BACKSLASH || t[7] != 117 || !Trailing(Hex4(t[8..12])) then None
      else Some((12, Utf8(Paired(u, Hex4(t[8..12])))))
  }

  lemma {:induction false} Inner(c: seq<Byte>, p: nat, end: nat, a: nat, b: nat)
    requires p <= end <= |c| && a <= b <= end - p
    ensures c[p..end][a..b] == c[p + a..p + b]
  {
    var t := c[p..end];
    forall i | 0 <= i < b - a ensures t[a..b][i] == c[p + a..p + b][i] {
      assert t[a + i] == c[p + a + i];
    }
  }

  /** `utf16_literal_to_utf8`: length of the literal at `p`, or 0, and its bytes. */
  method Utf16(c: seq<Byte>, p: nat, end: nat) returns (length: nat, bytes: seq<Byte>)
    requires p <= end <= |c|
    ensures length in {0, 6, 12} && (length > 0 ==> p + length <= end)
    ensures match Unicode(c[p..end]) case None => length == 0 case Some((n, b)) => length == n && bytes == b
    ensures |bytes| <= if length == 6 then 3 else 4
  {
    hide Hex4;
    ghost var t := c[p..end];
    bytes := [];
    if end - p < 6 { return 0, []; }
    Inner(c, p, end, 2, 6);
    var first := ParseHex4(c[p + 2..p + 6]);
    if 0xDC00 <= first <= 0xDFFF { return 0, []; }
    var codepoint := first;
    length := 6;
    if 0xD800 <= first <= 0xDBFF {
      length := 12;
      if end - (p + 6) < 6 { return 0, []; }
      Inner(c, p, end, 8, 12);
      assert t[6] == c[p + 6] && t[7] == c[p + 7];
      if c[p + 6] != BACKSLASH || c[p + 7] != 117 { return 0, []; }
      var second := ParseHex4(c[p + 8..p + 12]);
      if second < 0xDC00 || second > 0xDFFF { return 0, []; }
      codepoint := 0x1_0000 + first % 0x400 * 0x400 + second % 0x400;
    }
    bytes := Encode(codepoint);
  }

  // ---------------------------------------------------------------- finding the end

  /** Whether the scan from `start` takes the character at `p` as the second of an escape. */
  predicate Second(c: seq<Byte>, start: nat, p: nat)
    requires start <= p <= |c|
    decreases p - start
  {
    p > start && c[p - 1] == BACKSLASH && !Second(c, start, p - 1)
  }

  /** The string that starts at `start` ends at the quote at `end`: the first one that no backslash escapes. */
  ghost predicate Closing(c: seq<Byte>, start: nat, end: nat) {
    && start <= end < |c| && c[end] == QUOTE && !Second(c, start, end)
    && Unclosed(c, start, end)
  }

  ghost predicate Unclosed(c: seq<Byte>, start: nat, end: nat)
    requires start <= end <= |c|
  {
    forall i :: start <= i < end && c[i] == QUOTE ==> Second(c, start, i)
  }

  lemma {:induction false} ClosingOnce(c: seq<Byte>, start: nat, p: nat, q: nat)
    requires Closing(c, start, p) && Closing(c, start, q)
    ensures p == q
  {
    hide Second;
  }

  /** How many escapes the scan has met before `p`. */
  function Skips(c: seq<Byte>, start: nat, p: nat): nat
    requires start <= p <= |c|
    decreases p - start
  {
    if p == start then 0 else Skips(c, start, p - 1) + if Second(c, start, p) then 1 else 0
  }

  /** Of any two neighbouring characters at most one is the second of an escape. */
  lemma {:induction false} SkipsSpread(c: seq<Byte>, start: nat, p: nat, n: nat)
    requires start <= p && p + n <= |c|
    ensures 2 * (Skips(c, start, p + n) - Skips(c, start, p)) <= n + 1
    ensures n % 2 == 0 ==> 2 * (Skips(c, start, p + n) - Skips(c, start, p)) <= n
    ensures n == 1 && c[p] != BACKSLASH ==> Skips(c, start, p + 1) == Skips(c, start, p)
  {
    if n >= 2 {
      SkipsSpread(c, start, p, n - 2);
      assert Skips(c, start, p + n) == Skips(c, start, p + n - 1) + if Second(c, start, p + n) then 1 else 0;
    }
  }

  /** The first loop of `parse_string`: the position of the closing quote, if there is one, and the number of escapes. */
  method FindEnd(c: seq<Byte>, start: nat) returns (ok: bool, end: nat, skipped: nat)
    requires start <= |c|
    ensures ok ==> Closing(c, start, end) && skipped == Skips(c, start, end)
    ensures !ok ==> forall e :: !Closing(c, start, e)
  {
    end, skipped := start, 0;
    while end < |c| && c[end] != QUOTE
      invariant start <= end <= |c| && !Second(c, start, end) && skipped == Skips(c, start, end)
      invariant Unclosed(c, start, end)
    {
      if c[end] == BACKSLASH {
        if end + 1 >= |c| { return false, 0, 0; }
        skipped := skipped + 1;
        end := end + 1;
      }
      end := end + 1;
    }
    if end >= |c| || c[end] != QUOTE { return false, 0, 0; }
    return true, end, skipped;
  }

  // ---------------------------------------------------------------- undoing escapes

  function Unletter(b: Byte): Option<Byte> {
    if b == 98 then Some(8) else if b == 102 then Some(12) else if b == 110 then Some(10)
    else if b == 114 then Some(13) else if b == 116 then Some(9)
    else if b == 34 || b == 92 || b == 47 then Some(b) else None
  }

  /** The letters of section 7 of RFC 8259, and that they undo the printer's. */
  lemma {:induction false} LettersAreRfc(b: Byte, c: Char)
    ensures Unletter(b).Some? <==> b in {34, 92, 47, 98, 102, 110, 114, 116}
    ensures Letter(c) != 0 ==> Unletter(Letter(c)) == Some(c)
    ensures Unletter(47) == Some(47)
  {}

  /**
   * The first character of the string `t`: how many bytes spell it and what it is. A backslash at the very end
   * takes in the quote behind it.
   */
  function First(t: seq<Byte>): Option<(nat, seq<Byte>)>
    requires t != []
  {
    if t[0] != BACKSLASH then Some((1, [t[0]]))
    else
      var b := if |t| > 1 then t[1] else QUOTE;
      if b == 117 then Unicode(t) else match Unletter(b) case None => None case Some(x) => Some((2, [x]))
  }

  /** How much of `t` its first character takes. */
  function Taken(t: seq<Byte>): (n: nat)
    requires t != [] && First(t).Some?
    ensures 0 < n <= |t|
  {
    if First(t).value.0 <= |t| then First(t).value.0 else |t|
  }

  /** What the string `t` spells, if its escapes are well formed. */
  function Spelled(t: seq<Byte>): Option<seq<Byte>>
    decreases |t|
  {
    if t == [] then Some([])
    else if First(t).None? then None
    else
      var rest := Spelled(t[Taken(t)..]);
      if rest.None? then None else Some(First(t).value.1 + rest.value)
  }

  /** One turn of the second loop of `parse_string`: length consumed (0 on failure) and bytes produced. */
  method UnescapeOne(c: seq<Byte>, p: nat, end: nat) returns (length: nat, bytes: seq<Byte>)
    requires p < end < |c| && c[end] == QUOTE
    ensures length > 0 ==> p + length <= end + 1
    ensures length in {0, 1, 2, 6, 12} && (length == 1 <==> c[p] != BACKSLASH) && (length > 2 ==> p + length <= end)
    ensures length > 0 ==> |bytes| <= if length <= 2 then 1 else if length == 6 then 3 else 4
    ensures match First(c[p..end]) case None => length == 0 case Some((n, b)) => length == n && bytes == b
  {
    hide Unicode;
    ghost var t := c[p..end];
    assert t[0] == c[p] && (|t| > 1 ==> t[1] == c[p + 1]);
    if c[p] != BACKSLASH { return 1, [c[p]]; }
    length := 2;
    match c[p + 1]
    case 98 => bytes := [8];
    case 102 => bytes := [12];
    case 110 => bytes := [10];
    case 114 => bytes := [13];
    case 116 => bytes := [9];
    case 34 => bytes := [c[p + 1]];
    case 92 => bytes := [c[p + 1]];
    case 47 => bytes := [c[p + 1]];
    case 117 => length, bytes := Utf16(c, p, end);
    case _ => return 0, [];
  }

  /** The second loop of `parse_string`: it succeeds exactly on well-formed escapes and gives what the string spells. */
  method Unescape(c: seq<Byte>, start: nat, end: nat, room: nat) returns (ok: bool, p: nat, out: seq<Byte>)
    requires Closing(c, start, end) && room >= end - start - Skips(c, start, end)
    ensures start <= p <= end + 1 && |out| <= room
    ensures ok <==> Spelled(c[start..end]).Some?
    ensures ok ==> Spelled(c[start..end]) == Some(out)
  {
    hide First, Second, Skips, Unclosed, Spelled;
    p, out := start, [];
    NoSkips(c, start);
    RestStart(c, start, end);
    while p < end
      invariant start <= p <= end + 1
      invariant |out| + Skips(c, start, if p <= end then p else end) <= (if p <= end then p else end) - start
      invariant Rest(c[start..end], c, p, end, out)
      decreases end + 1 - p
    {
      var length, bytes := UnescapeOne(c, p, end);
      SpelledNext(c[start..end], c, p, end, out);
      if length == 0 {
        SkipsUpTo(c, start, p, end);
        return false, p, out;
      }
      FewerBytes(c, start, p, end, length, |bytes|);
      out := out + bytes;
      p := p + length;
    }
    SpelledAll(c[start..end], c, p, end, out);
    ok := true;
  }

  /** `t` spells `out` and then what stands from `p` to `end`. */
  ghost predicate Rest(t: seq<Byte>, c: seq<Byte>, p: nat, end: nat, out: seq<Byte>) {
    end <= |c| && var rest := Spelled(if p <= end then c[p..end] else []);
    if rest.None? then Spelled(t) == None else Spelled(t) == Some(out + rest.value)
  }

  lemma {:induction false} RestStart(c: seq<Byte>, start: nat, end: nat)
    requires start <= end <= |c|
    ensures Rest(c[start..end], c, start, end, [])
  {
    hide Spelled;
    var t := Spelled(c[start..end]);
    assert t.Some? ==> [] + t.value == t.value;
  }

  lemma {:induction false} SpelledNext(t: seq<Byte>, c: seq<Byte>, p: nat, end: nat, out: seq<Byte>)
    requires p < end <= |c| && Rest(t, c, p, end, out)
    ensures match First(c[p..end])
      case None => Spelled(t) == None
      case Some((n, b)) => n > 0 && Rest(t, c, p + n, end, out + b)
  {
    hide First;
    var r := c[p..end];
    if First(r).Some? {
      var (n, b) := First(r).value;
      FirstTakes(r);
      assert r[Taken(r)..] == if p + n <= end then c[p + n..end] else [];
      var rest := Spelled(r[Taken(r)..]);
      if rest.Some? {
        assert out + (b + rest.value) == out + b + rest.value;
      }
    }
  }

  lemma {:induction false} FirstTakes(t: seq<Byte>)
    requires t != [] && First(t).Some?
    ensures First(t).value.0 > 0 && Taken(t) == if First(t).value.0 <= |t| then First(t).value.0 else |t|
  {}

  lemma {:induction false} SpelledAll(t: seq<Byte>, c: seq<Byte>, p: nat, end: nat, out: seq<Byte>)
    requires end <= p && Rest(t, c, p, end, out)
    ensures Spelled(t) == Some(out)
  {
    assert p <= end ==> c[p..end] == [];
    assert out + [] == out;
  }

  lemma {:induction false} NoSkips(c: seq<Byte>, start: nat)
    requires start <= |c|
    ensures Skips(c, start, start) == 0
  {}

  /** One turn writes no more than it reads beyond the escapes counted by the scan. */
  lemma {:induction false} FewerBytes(c: seq<Byte>, start: nat, p: nat, end: nat, length: nat, n: nat)
    requires start <= p < end < |c| && !Second(c, start, end) && length in {1, 2, 6, 12} && p + length <= end + 1
    requires (length == 1 ==> c[p] != BACKSLASH) && (length > 2 ==> p + length <= end)
    requires n <= if length <= 2 then 1 else if length == 6 then 3 else 4
    ensures var q := if p + length <= end then p + length else end;
      n + Skips(c, start, q) - Skips(c, start, p) <= q - p
  {
    if p + length <= end {
      SkipsSpread(c, start, p, length);
    } else {
      assert p + 1 == end;
    }
  }

  /** What has been read and what is still to come share the room. */
  lemma {:induction false} SkipsUpTo(c: seq<Byte>, start: nat, p: nat, end: nat)
    requires start <= p <= end <= |c| && !Second(c, start, end)
    ensures Skips(c, start, end) - Skips(c, start, p) <= end - p
  {
    SkipsSpread(c, start, p, end - p);
  }

  // ---------------------------------------------------------------- strings of RFC 8259

  /** The characters of section 7 of RFC 8259; a character outside the basic plane is a pair of escapes. */
  datatype Piece = Plain8(b: Byte) | Short(b: Byte) | Basic(h: seq<Byte>) | Surrogates(h: seq<Byte>, l: seq<Byte>)

  predicate HexDigits(h: seq<Byte>) { |h| == 4 && forall i :: 0 <= i < 4 ==> IsHex(h[i]) }

  predicate Proper(p: Piece) {
    match p
    case Plain8(b) => b >= 0x20 && b != QUOTE && b != BACKSLASH
    case Short(b) => b in {34, 92, 47, 98, 102, 110, 114, 116}
    case Basic(h) => HexDigits(h) && !Leading(Hex4(h)) && !Trailing(Hex4(h))
    case Surrogates(h, l) => HexDigits(h) && HexDigits(l) && Leading(Hex4(h)) && Trailing(Hex4(l))
  }

  function Spelling(p: Piece): seq<Byte> {
    match p
    case Plain8(b) => [b]
    case Short(b) => [BACKSLASH, b]
    case Basic(h) => [BACKSLASH, 117] + h
    case Surrogates(h, l) => [BACKSLASH, 117] + h + [BACKSLASH, 117] + l
  }

  function Meaning(p: Piece): seq<Byte>
    requires Proper(p)
  {
    match p
    case Plain8(b) => [b]
    case Short(b) => [Unletter(b).value]
    case Basic(h) => Utf8(Hex4(h))
    case Surrogates(h, l) => Utf8(Paired(Hex4(h), Hex4(l)))
  }

  function Spellings(ps: seq<Piece>): seq<Byte> {
    if ps == [] then [] else Spelling(ps[0]) + Spellings(ps[1..])
  }

  function Meanings(ps: seq<Piece>): seq<Byte>
    requires forall i :: 0 <= i < |ps| ==> Proper(ps[i])
  {
    if ps == [] then [] else Meaning(ps[0]) + Meanings(ps[1..])
  }

  lemma {:induction false} PieceReads(p: Piece, rest: seq<Byte>)
    requires Proper(p)
    ensures First(Spelling(p) + rest) == Some((|Spelling(p)|, Meaning(p)))
  {
    hide Hex4;
    var t := Spelling(p) + rest;
    assert t[0] == Spelling(p)[0] && (|Spelling(p)| > 1 ==> t[1] == Spelling(p)[1]);
    match p
    case Plain8(b) =>
    case Short(b) =>
    case Basic(h) => assert t[2..6] == h;
    case Surrogates(h, l) => assert t[2..6] == h && t[6] == BACKSLASH && t[7] == 117 && t[8..12] == l;
  }

  /** Every string of RFC 8259 whose surrogates are paired is read with the meaning that the RFC gives it. */
  lemma {:induction false} RfcStringsRead(ps: seq<Piece>)
    requires forall i :: 0 <= i < |ps| ==> Proper(ps[i])
    ensures Spelled(Spellings(ps)) == Some(Meanings(ps))
  {
    hide First, Meaning, Spelling, Proper;
    if ps != [] {
      var t, rest := Spellings(ps), Spellings(ps[1..]);
      PieceReads(ps[0], rest);
      PieceSpelled(ps[0]);
      FirstTakes(t);
      assert t[|Spelling(ps[0])|..] == rest;
      RfcStringsRead(ps[1..]);
    }
  }

  lemma {:induction false} PieceSpelled(p: Piece)
    requires Proper(p)
    ensures Spelling(p) != []
  {}

  /** What RFC 8259 does not allow and the parser reads: a control character, and four characters that are no digits. */
  lemma {:induction false} LenientStrings()
    ensures Spelled([10]) == Some([10])
    ensures Spelled([BACKSLASH, 117, 122, 122, 122, 122]) == Some([0])
  {
    var a: seq<Byte>, t: seq<Byte> := [10], [BACKSLASH, 117, 122, 122, 122, 122];
    SpelledOne(a);
    assert t[2..6] == [122, 122, 122, 122];
    assert Hex4(t[2..6]) == 0;
    SpelledOne(t);
  }

  /** A string that is a single character. */
  lemma {:induction false} SpelledOne(t: seq<Byte>)
    requires t != [] && First(t).Some? && First(t).value.0 == |t|
    ensures Spelled(t) == Some(First(t).value.1)
  {
    hide First;
    assert t[|t|..] == [];
    assert First(t).value.1 + [] == First(t).value.1;
  }

  // ---------------------------------------------------------------- printed strings

  lemma {:induction false} EscapeReads(ch: Char, rest: seq<Byte>)
    ensures First(Escape(ch) + rest) == Some((|Escape(ch)|, [ch])) && Escape(ch) != []
  {
    var e := Escape(ch);
    var t := e + rest;
    assert t[0] == e[0] && (|e| > 1 ==> t[1] == e[1]);
    if |e| == 6 {
      assert t[2..6] == [48, 48, HexDigit(ch / 16), HexDigit(ch % 16)];
      HexInverse(ch / 16);
      HexInverse(ch % 16);
      assert Hex4(t[2..6]) == ch;
    }
  }

  /** A printed string spells itself. */
  lemma {:induction false} EscapedSpells(s: seq<Char>)
    ensures Spelled(Escaped(s)) == Some(s)
  {
    hide First, Escape;
    if s != [] {
      var t, rest := Escaped(s), Escaped(s[1..]);
      EscapeReads(s[0], rest);
      FirstTakes(t);
      assert t[|Escape(s[0])|..] == rest;
      EscapedSpells(s[1..]);
      assert [s[0]] + s[1..] == s;
    }
  }

  /** A printed character ends where no escape is under way, and hides its quotes. */
  lemma {:induction false} EscapeHides(c: seq<Byte>, start: nat, p: nat, ch: Char)
    requires start <= p && At(c, p, Escape(ch)) && !Second(c, start, p) && Unclosed(c, start, p)
    ensures var q := p + |Escape(ch)|; q < |c| && !Second(c, start, q) && Unclosed(c, start, q)
  {
    var e := Escape(ch);
    assert c[p] == e[0] && (|e| > 1 ==> c[p + 1] == e[1]);
    if |e| == 6 {
      assert c[p + 2] == e[2] && c[p + 3] == e[3] && c[p + 4] == e[4] && c[p + 5] == e[5];
      assert Second(c, start, p + 1) && !Second(c, start, p + 2) && !Second(c, start, p + 3);
    }
  }

  lemma {:induction false} EscapedHides(c: seq<Byte>, start: nat, p: nat, s: seq<Char>)
    requires start <= p && At(c, p, Escaped(s)) && !Second(c, start, p) && Unclosed(c, start, p)
    ensures var q := p + |Escaped(s)|; q < |c| && !Second(c, start, q) && Unclosed(c, start, q)
    decreases |s|
  {
    hide Escape, At, Second, Unclosed;
    if s != [] {
      assert Escaped(s) == Escape(s[0]) + Escaped(s[1..]);
      AtSplit(c, p, Escape(s[0]), Escaped(s[1..]));
      EscapeHides(c, start, p, s[0]);
      EscapedHides(c, start, p + |Escape(s[0])|, s[1..]);
    } else {
      AtInside(c, p, Escaped(s));
    }
  }

  lemma {:induction false} AtInside(c: seq<Byte>, o: int, t: seq<Char>)
    requires At(c, o, t)
    ensures 0 <= o && o + |t| < |c|
  {}

  /** A printed string in a buffer ends at its quote. */
  lemma {:induction false} EscapedCloses(c: seq<Byte>, start: nat, s: seq<Char>)
    requires At(c, start, Escaped(s) + [QUOTE])
    ensures Closing(c, start, start + |Escaped(s)|) && c[start..start + |Escaped(s)|] == Escaped(s)
  {
    hide Escaped;
    AtSplit(c, start, Escaped(s), [QUOTE]);
    AtHead(c, start + |Escaped(s)|, [QUOTE]);
    EscapedHides(c, start, start, s);
  }
}
