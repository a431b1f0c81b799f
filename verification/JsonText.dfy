/**
 * JSON values and the text that the printer of client/json-rpc/cJSON.c gives them,
 * with and without formatting. A finite number stands for itself by its printed form.
 */
module JsonText {
  type Byte = x: int | 0 <= x < 256

  /** A byte of a C string. */
  type Char = x: int | 1 <= x < 256 witness 1

  datatype Json =
    | Null | False | True
    | Num(digits: Digits)
    | Str(text: seq<Char>)
    | Arr(items: seq<Json>)
    | Obj(members: seq<Member>)

  predicate NumberChar(c: Byte) { 48 <= c <= 57 || c in {43, 45, 46, 69, 101} }

  predicate NumberStart(c: Byte) { c == 45 || 48 <= c <= 57 }

  /** What `print_number` can write: it has 26 bytes for the number and its terminator. */
  predicate IsDigits(t: seq<Char>) {
    1 <= |t| <= 25 && NumberStart(t[0]) && forall i :: 0 <= i < |t| ==> NumberChar(t[i])
  }

  type Digits = t: seq<Char> | IsDigits(t) witness [48]

  datatype Member = Member(name: seq<Char>, value: Json)

  const LIMIT: nat := 1000    // CJSON_NESTING_LIMIT

  const QUOTE: Char := 34
  const COMMA: Char := 44
  const COLON: Char := 58
  const OPEN: Char := 91
  const BACKSLASH: Char := 92
  const CLOSE: Char := 93
  const BEGIN: Char := 123
  const END: Char := 125
  const SPACE: Char := 32
  const TAB: Char := 9
  const NEWLINE: Char := 10

  // ---------------------------------------------------------------- strings

  function HexDigit(n: nat): Char
    requires n < 16
  {
    if n < 10 then 48 + n else 87 + n
  }

  const DIGITS: seq<Char> := [48, 49, 50, 51, 52, 53, 54, 55, 56, 57, 97, 98, 99, 100, 101, 102]

  /** A control character without a letter is written with four lower-case digits. */
  lemma {:induction false} ControlEscape(c: Char)
    requires c < 32 && Letter(c) == 0
    ensures Escape(c) == [BACKSLASH, 117, 48, 48, DIGITS[c / 16], DIGITS[c % 16]]
  {
    assert DIGITS[c / 16] == HexDigit(c / 16) && DIGITS[c % 16] == HexDigit(c % 16);
  }

  /** The letter of a two-character escape, or 0. */
  function Letter(c: Char): Byte {
    if c == QUOTE || c == BACKSLASH then c
    else if c == 8 then 98 else if c == 12 then 102 else if c == 10 then 110 else if c == 13 then 114 else if c == 9 then 116
    else 0
  }

  predicate Plain(c: Char) { c > 31 && c != QUOTE && c != BACKSLASH }

  /** One character as printed. */
  function Escape(c: Char): seq<Char> {
    if Plain(c) then [c]
    else if Letter(c) != 0 then [BACKSLASH, Letter(c)]
    else [BACKSLASH, 117, 48, 48, HexDigit(c / 16), HexDigit(c % 16)]
  }

  function Escaped(s: seq<Char>): seq<Char> {
    if s == [] then [] else Escape(s[0]) + Escaped(s[1..])
  }

  function Quoted(s: seq<Char>): seq<Char> { [QUOTE] + Escaped(s) + [QUOTE] }

  predicate IsHex(c: Byte) { 48 <= c <= 57 || 65 <= c <= 70 || 97 <= c <= 102 }

  /** The characters of a string by section 7 of RFC 8259. */
  predicate Grammatical(t: seq<Char>) {
    t == [] ||
    (Plain(t[0]) && Grammatical(t[1..])) ||
    (|t| >= 2 && t[0] == BACKSLASH && t[1] in {34, 92, 47, 98, 102, 110, 114, 116} && Grammatical(t[2..])) ||
    (|t| >= 6 && t[0] == BACKSLASH && t[1] == 117 && IsHex(t[2]) && IsHex(t[3]) && IsHex(t[4]) && IsHex(t[5]) && Grammatical(t[6..]))
  }

  lemma {:induction false} EscapedIsGrammatical(s: seq<Char>)
    ensures Grammatical(Escaped(s))
  {
    if s != [] {
      EscapedIsGrammatical(s[1..]);
      var e, r := Escape(s[0]), Escaped(s[1..]);
      assert (e + r)[|e|..] == r;
    }
  }

  // ---------------------------------------------------------------- values

  function Tabs(n: nat): seq<Char> { seq(n, _ => TAB) }

  function Literal(v: Json): seq<Char>
    requires v.Null? || v.False? || v.True?
  {
    match v
    case Null => [110, 117, 108, 108]
    case False => [102, 97, 108, 115, 101]
    case True => [116, 114, 117, 101]
  }

  /** A value as printed inside `depth` arrays and objects. */
  function Text(v: Json, format: bool, depth: nat): seq<Char>
    decreases v, 1, 0
  {
    match v
    case Num(t) => t
    case Str(s) => Quoted(s)
    case Arr(items) => [OPEN] + Items(v, 0, format, depth)
    case Obj(members) => [BEGIN] + (if format then [NEWLINE] else []) + Members(v, 0, format, depth)
    case _ => Literal(v)
  }

  /** From item `k` of an array to its closing bracket. */
  function Items(v: Json, k: nat, format: bool, depth: nat): seq<Char>
    requires v.Arr? && k <= |v.items|
    decreases v, 0, |v.items| - k
  {
    if k == |v.items| then [CLOSE]
    else Text(v.items[k], format, depth + 1) + (Comma(v, k, format) + Items(v, k + 1, format, depth))
  }

  /** What follows item `k`. */
  function Comma(v: Json, k: nat, format: bool): seq<Char>
    requires v.Arr? && k < |v.items|
  {
    if k + 1 == |v.items| then [] else if format then [COMMA, SPACE] else [COMMA]
  }

  function Indent(n: nat, format: bool): seq<Char> { if format then Tabs(n) else [] }

  /** From member `k` of an object to its closing brace. */
  function Members(v: Json, k: nat, format: bool, depth: nat): seq<Char>
    requires v.Obj? && k <= |v.members|
    decreases v, 0, |v.members| - k
  {
    if k == |v.members| then Indent(depth, format) + [END]
    else MemberText(v, k, format, depth) + Members(v, k + 1, format, depth)
  }

  /** Member `k` with the white space and the comma printed around it. */
  function MemberText(v: Json, k: nat, format: bool, depth: nat): seq<Char>
    requires v.Obj? && k < |v.members|
    decreases v, 0, 0
  {
    Indent(depth + 1, format) + (Quoted(v.members[k].name) + (Colon(format) +
    (Text(v.members[k].value, format, depth + 1) + Ending(v, k, format))))
  }

  function Colon(format: bool): seq<Char> { if format then [COLON, TAB] else [COLON] }

  /** What follows member `k`. */
  function Ending(v: Json, k: nat, format: bool): seq<Char>
    requires v.Obj? && k < |v.members|
  {
    (if k + 1 < |v.members| then [COMMA] else []) + (if format then [NEWLINE] else [])
  }

  /** How deep arrays and objects are nested. */
  function Nesting(v: Json): nat
    decreases v, 0
  {
    match v
    case Arr(items) => 1 + ItemsNesting(v, 0)
    case Obj(members) => 1 + MembersNesting(v, 0)
    case _ => 0
  }

  function Max(a: nat, b: nat): nat { if a > b then a else b }

  function ItemsNesting(v: Json, k: nat): nat
    requires v.Arr? && k <= |v.items|
    decreases v, 0, |v.items| - k
  {
    if k == |v.items| then 0 else Max(Nesting(v.items[k]), ItemsNesting(v, k + 1))
  }

  function MembersNesting(v: Json, k: nat): nat
    requires v.Obj? && k <= |v.members|
    decreases v, 0, |v.members| - k
  {
    if k == |v.members| then 0 else Max(Nesting(v.members[k].value), MembersNesting(v, k + 1))
  }

  /** A printed value starts with a character that is not white space. */
  lemma {:induction false} TextStarts(v: Json, format: bool, depth: nat)
    ensures Text(v, format, depth) != [] && 32 < Text(v, format, depth)[0] < 0xC0
  {}
}
