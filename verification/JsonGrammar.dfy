/**
 * Which texts stand for which values: the grammar that client/json-rpc/cJSON.c:1213-1265,
 * 1342-1433 and 1498-1604 read. It is that of RFC 8259, except that any byte up to 32 counts
 * as white space, strings may hold control characters and wrong `\u` digits, and a number is
 * as much as `strtod` takes of a run of number characters.
 */
module JsonGrammar {
  import opened Common
  import opened JsonText
  import opened JsonString

  /** What `strtod` makes of a number: how much it reads, and the number by its printed form. */
  datatype Reading = Reading(length: nat, digits: Digits)

  type Strtod = seq<Byte> -> Reading

  // ---------------------------------------------------------------- tokens

  /** The part of a byte string that C sees. */
  function CString(s: seq<Byte>): seq<Char> {
    if s == [] || s[0] == 0 then [] else [s[0]] + CString(s[1..])
  }

  lemma {:induction false} CStringSame(s: seq<Char>)
    ensures CString(s) == s
  {
    if s != [] {
      CStringSame(s[1..]);
    }
  }

  /** White space, and then something visible at `b`. */
  ghost predicate Gap(c: seq<Byte>, a: nat, b: nat) {
    a <= b < |c| && (forall i :: a <= i < b ==> c[i] <= 32) && c[b] > 32
  }

  lemma {:induction false} GapOnce(c: seq<Byte>, a: nat, b: nat, d: nat)
    requires Gap(c, a, b) && Gap(c, a, d)
    ensures b == d
  {}

  /** `can_read` and `strncmp`: whether a word stands at the offset. */
  predicate Sees(c: seq<Byte>, o: nat, word: seq<Byte>) {
    o + |word| <= |c| && c[o..o + |word|] == word
  }

  lemma {:induction false} SeesHead(c: seq<Byte>, o: nat, word: seq<Byte>)
    requires |word| > 0 && Sees(c, o, word)
    ensures c[o] == word[0]
  {
    assert c[o] == c[o..o + |word|][0];
  }

  const NULL: seq<Byte> := [110, 117, 108, 108]
  const FALSE: seq<Byte> := [102, 97, 108, 115, 101]
  const TRUE: seq<Byte> := [116, 114, 117, 101]

  /** How many number characters stand from `o` on. */
  function Run(c: seq<Byte>, o: nat): (n: nat)
    requires o <= |c|
    ensures o + n <= |c|
    decreases |c| - o
  {
    if o < |c| && NumberChar(c[o]) then 1 + Run(c, o + 1) else 0
  }

  /** `parse_number` copies at most 63 characters. */
  function Lexeme(c: seq<Byte>, o: nat): seq<Byte>
    requires o <= |c|
  {
    c[o..o + if Run(c, o) <= 63 then Run(c, o) else 63]
  }

  function Consumed(read: Strtod, l: seq<Byte>): (n: nat)
    ensures n <= |l|
  {
    if read(l).length <= |l| then read(l).length else |l|
  }

  ghost predicate StandsNumber(read: Strtod, c: seq<Byte>, o: nat, t: Digits, p: nat) {
    && o < |c| && NumberStart(c[o])
    && var l := Lexeme(c, o); Consumed(read, l) > 0 && p == o + Consumed(read, l) && t == read(l).digits
  }

  /** From a quote to the first one that is not escaped, with well-formed escapes between them. */
  ghost predicate StandsString(c: seq<Byte>, o: nat, s: seq<Char>, p: nat) {
    && o + 1 < p <= |c| && c[o] == QUOTE && Closing(c, o + 1, p - 1)
    && Spelled(c[o + 1..p - 1]).Some? && s == CString(Spelled(c[o + 1..p - 1]).value)
  }

  // ---------------------------------------------------------------- values

  predicate Nested(v: Json) { v.Arr? || v.Obj? }

  function Count(v: Json): nat
    requires Nested(v)
  {
    if v.Arr? then |v.items| else |v.members|
  }

  function Opener(v: Json): Byte
    requires Nested(v)
  {
    if v.Arr? then OPEN else BEGIN
  }

  function Closer(v: Json): Byte
    requires Nested(v)
  {
    if v.Arr? then CLOSE else END
  }

  function PartValue(v: Json, k: nat): (w: Json)
    requires Nested(v) && k < Count(v)
  {
    if v.Arr? then v.items[k] else v.members[k].value
  }

  /** The value `v` stands from `o` up to `p`. */
  ghost predicate Stands(read: Strtod, c: seq<Byte>, o: nat, v: Json, p: nat)
    decreases v, 3
  {
    match v
    case Null => Sees(c, o, NULL) && p == o + 4
    case False => Sees(c, o, FALSE) && p == o + 5
    case True => Sees(c, o, TRUE) && p == o + 4
    case Num(t) => StandsNumber(read, c, o, t, p)
    case Str(s) => StandsString(c, o, s, p)
    case _ =>
      && o + 1 < p <= |c| && c[o] == Opener(v) && c[p - 1] == Closer(v)
      && if Count(v) == 0 then Gap(c, o + 1, p - 1) else Listed(read, c, o, v, Count(v), p - 1)
  }

  /** From the bracket at `o` on stand the first `k` parts of `v`; what ends the last of them is at `d`. */
  ghost predicate Listed(read: Strtod, c: seq<Byte>, o: nat, v: Json, k: nat, d: nat)
    requires Nested(v) && k <= Count(v)
    decreases v, 2, k
  {
    if k == 0 then d == o
    else exists e: nat :: Listed(read, c, o, v, k - 1, e) && (k == 1 || (e < |c| && c[e] == COMMA)) && PartAt(read, c, e, v, k - 1, d)
  }

  /** Between what is at `e` and what is at `d` stands part `k` of `v`. */
  ghost predicate PartAt(read: Strtod, c: seq<Byte>, e: nat, v: Json, k: nat, d: nat)
    requires Nested(v) && k < Count(v)
    decreases v, 1
  {
    if v.Arr? then exists a: nat, b: nat :: ItemAt(read, c, e, v, k, d, a, b)
    else exists a: nat, b: nat, f: nat, g: nat, h: nat :: MemberAt(read, c, e, v, k, d, a, b, f, g, h)
  }

  ghost predicate ItemAt(read: Strtod, c: seq<Byte>, e: nat, v: Json, k: nat, d: nat, a: nat, b: nat)
    requires v.Arr? && k < Count(v)
    decreases v, 0
  {
    Gap(c, e + 1, a) && Stands(read, c, a, v.items[k], b) && Gap(c, b, d)
  }

  /** A name, a colon at `f` and a value. */
  ghost predicate MemberAt(read: Strtod, c: seq<Byte>, e: nat, v: Json, k: nat, d: nat, a: nat, b: nat, f: nat, g: nat, h: nat)
    requires v.Obj? && k < Count(v)
    decreases v, 0
  {
    && Gap(c, e + 1, a) && StandsString(c, a, v.members[k].name, b) && Gap(c, b, f) && c[f] == COLON
    && Gap(c, f + 1, g) && Stands(read, c, g, v.members[k].value, h) && Gap(c, h, d)
  }

  /** A value shows its kind by its first byte, which is visible. */
  lemma {:induction false} StandsHead(read: Strtod, c: seq<Byte>, o: nat, v: Json, p: nat)
    requires Stands(read, c, o, v, p)
    ensures o < |c| && c[o] > 32 && c[o] != CLOSE && c[o] != END && o < p <= |c|
    ensures (c[o] == 110 <==> v.Null?) && (c[o] == 102 <==> v.False?) && (c[o] == 116 <==> v.True?)
    ensures (NumberStart(c[o]) <==> v.Num?) && (c[o] == QUOTE <==> v.Str?) && (c[o] == OPEN <==> v.Arr?) && (c[o] == BEGIN <==> v.Obj?)
  {
    match v
    case Null => SeesHead(c, o, NULL);
    case False => SeesHead(c, o, FALSE);
    case True => SeesHead(c, o, TRUE);
    case Num(t) =>
    case Str(s) =>
    case _ =>
  }

  /** An array or object is its brackets and the list between them. */
  lemma {:induction false} AsList(read: Strtod, c: seq<Byte>, o: nat, v: Json, p: nat)
    requires Nested(v)
    ensures Stands(read, c, o, v, p) <==>
      && o + 1 < p <= |c| && c[o] == Opener(v) && c[p - 1] == Closer(v)
      && if Count(v) == 0 then Gap(c, o + 1, p - 1) else Listed(read, c, o, v, Count(v), p - 1)
  {}

  // ---------------------------------------------------------------- the grammar is unambiguous

  lemma {:induction false} StringSame(c: seq<Byte>, o: nat, s: seq<Char>, p: nat, t: seq<Char>, q: nat)
    requires StandsString(c, o, s, p) && StandsString(c, o, t, q)
    ensures s == t && p == q
  {
    hide Closing, Spelled, CString;
    ClosingOnce(c, o + 1, p - 1, q - 1);
  }

  /** No text stands for two values. */
  lemma {:induction false} StandsSame(read: Strtod, c: seq<Byte>, o: nat, v: Json, p: nat, w: Json, q: nat)
    requires Stands(read, c, o, v, p) && Stands(read, c, o, w, q)
    ensures v == w && p == q
    decreases v, 3
  {
    StandsHead(read, c, o, v, p);
    StandsHead(read, c, o, w, q);
    if v.Str? {
      StringSame(c, o, v.text, p, w.text, q);
    } else if Nested(v) {
      NestedSame(read, c, o, v, p, w, q);
    }
  }

  lemma {:induction false} NestedSame(read: Strtod, c: seq<Byte>, o: nat, v: Json, p: nat, w: Json, q: nat)
    requires Stands(read, c, o, v, p) && Stands(read, c, o, w, q) && Nested(v) && (v.Arr? <==> w.Arr?) && (v.Obj? <==> w.Obj?)
    ensures v == w && p == q
    decreases v, 2
  {
    hide StandsString, StandsNumber;
    if Count(v) == 0 && Count(w) == 0 {
      GapOnce(c, o + 1, p - 1, q - 1);
    } else if Count(v) == 0 {
      NotEmpty(read, c, o, w, q - 1, p - 1);
    } else if Count(w) == 0 {
      NotEmpty(read, c, o, v, p - 1, q - 1);
    } else if Count(v) <= Count(w) {
      var d := ListedDown(read, c, o, w, Count(w), q - 1, Count(v));
      ListedSame(read, c, o, v, w, Count(v), p - 1, d);
      PartsEqual(v, w);
    } else {
      var d := ListedDown(read, c, o, v, Count(v), p - 1, Count(w));
      ListedSame(read, c, o, v, w, Count(w), d, q - 1);
    }
  }

  /** Two lists of the same length end at the same place and have the same parts. */
  lemma {:induction false} ListedSame(read: Strtod, c: seq<Byte>, o: nat, v: Json, w: Json, k: nat, d: nat, e: nat)
    requires Nested(v) && (v.Arr? <==> w.Arr?) && (v.Obj? <==> w.Obj?) && k <= Count(v) && k <= Count(w)
    requires Listed(read, c, o, v, k, d) && Listed(read, c, o, w, k, e)
    ensures d == e && SameParts(v, w, k)
    decreases v, 1, k
  {
    hide Stands, PartAt;
    if k > 0 {
      var i: nat :| Listed(read, c, o, v, k - 1, i) && PartAt(read, c, i, v, k - 1, d);
      var j: nat :| Listed(read, c, o, w, k - 1, j) && PartAt(read, c, j, w, k - 1, e);
      ListedSame(read, c, o, v, w, k - 1, i, j);
      PartSame(read, c, i, v, w, k - 1, d, e);
    }
  }

  ghost predicate SameParts(v: Json, w: Json, k: nat)
    requires Nested(v) && (v.Arr? <==> w.Arr?) && (v.Obj? <==> w.Obj?) && k <= Count(v) && k <= Count(w)
  {
    if v.Arr? then v.items[..k] == w.items[..k] else v.members[..k] == w.members[..k]
  }

  lemma {:induction false} PartSame(read: Strtod, c: seq<Byte>, i: nat, v: Json, w: Json, k: nat, d: nat, e: nat)
    requires Nested(v) && (v.Arr? <==> w.Arr?) && (v.Obj? <==> w.Obj?) && k < Count(v) && k < Count(w)
    requires PartAt(read, c, i, v, k, d) && PartAt(read, c, i, w, k, e)
    ensures d == e && if v.Arr? then v.items[k] == w.items[k] else v.members[k] == w.members[k]
    decreases v, 0
  {
    hide Stands, StandsString, Gap;
    if v.Arr? {
      var a: nat, b: nat :| ItemAt(read, c, i, v, k, d, a, b);
      var x: nat, y: nat :| ItemAt(read, c, i, w, k, e, x, y);
      GapOnce(c, i + 1, a, x);
      StandsSame(read, c, a, v.items[k], b, w.items[k], y);
      GapOnce(c, b, d, e);
    } else {
      var a: nat, b: nat, f: nat, g: nat, h: nat :| MemberAt(read, c, i, v, k, d, a, b, f, g, h);
      var l: nat, m: nat, n: nat, r: nat, s: nat :| MemberAt(read, c, i, w, k, e, l, m, n, r, s);
      GapOnce(c, i + 1, a, l);
      StringSame(c, a, v.members[k].name, b, w.members[k].name, m);
      GapOnce(c, b, f, n);
      GapOnce(c, f + 1, g, r);
      StandsSame(read, c, g, v.members[k].value, h, w.members[k].value, s);
      GapOnce(c, h, d, e);
    }
  }

  lemma {:induction false} PartsEqual(v: Json, w: Json)
    requires Nested(v) && (v.Arr? <==> w.Arr?) && (v.Obj? <==> w.Obj?) && Count(v) == Count(w) && SameParts(v, w, Count(v))
    ensures v == w
  {
    if v.Arr? {
      assert v.items[..Count(v)] == v.items && w.items[..Count(w)] == w.items;
    } else {
      assert v.members[..Count(v)] == v.members && w.members[..Count(w)] == w.members;
    }
  }

  /** A list with a shorter one inside it, followed by a comma. */
  lemma {:induction false} ListedDown(read: Strtod, c: seq<Byte>, o: nat, v: Json, n: nat, dn: nat, k: nat) returns (d: nat)
    requires Nested(v) && k <= n <= Count(v) && Listed(read, c, o, v, n, dn)
    ensures Listed(read, c, o, v, k, d) && (k == n ==> d == dn) && (0 < k < n ==> d < |c| && c[d] == COMMA)
    decreases n - k
  {
    hide PartAt, Stands;
    if k == n {
      d := dn;
    } else {
      var e: nat :| Listed(read, c, o, v, n - 1, e) && (n == 1 || (e < |c| && c[e] == COMMA)) && PartAt(read, c, e, v, n - 1, dn);
      d := ListedDown(read, c, o, v, n - 1, e, k);
    }
  }

  /** From the end of `k` parts of a longer list to the next part. */
  lemma {:induction false} NextPart(read: Strtod, c: seq<Byte>, o: nat, v: Json, n: nat, dn: nat, k: nat, d: nat) returns (next: nat)
    requires Nested(v) && k < n <= Count(v) && Listed(read, c, o, v, n, dn) && Listed(read, c, o, v, k, d)
    ensures PartAt(read, c, d, v, k, next) && Listed(read, c, o, v, k + 1, next) && (k == 0 || (d < |c| && c[d] == COMMA))
    ensures if k + 1 == n then next == dn else next < |c| && c[next] == COMMA
  {
    hide PartAt, Stands, SameParts;
    next := ListedDown(read, c, o, v, n, dn, k + 1);
    var e: nat :| Listed(read, c, o, v, k, e) && (k == 0 || (e < |c| && c[e] == COMMA)) && PartAt(read, c, e, v, k, next);
    ListedSame(read, c, o, v, v, k, d, e);
  }

  lemma {:induction false} FirstPart(read: Strtod, c: seq<Byte>, o: nat, v: Json, k: nat, d: nat)
    requires Nested(v) && k == 1 <= Count(v) && Listed(read, c, o, v, k, d)
    ensures PartAt(read, c, o, v, 0, d)
  {
    var e: nat :| Listed(read, c, o, v, k - 1, e) && PartAt(read, c, e, v, k - 1, d);
    NoParts(read, c, o, v, k - 1, e);
  }

  lemma {:induction false} NoParts(read: Strtod, c: seq<Byte>, o: nat, v: Json, k: nat, d: nat)
    requires Nested(v) && k == 0
    ensures Listed(read, c, o, v, k, d) <==> d == o
  {}

  /** Where a list starts there is no closing bracket. */
  lemma {:induction false} NotEmpty(read: Strtod, c: seq<Byte>, o: nat, v: Json, d: nat, e: nat)
    requires Nested(v) && Count(v) > 0 && Listed(read, c, o, v, Count(v), d) && Gap(c, o + 1, e)
    ensures c[e] != CLOSE && c[e] != END
  {
    hide Stands, Gap, StandsString;
    var f := ListedDown(read, c, o, v, Count(v), d, 1);
    FirstPart(read, c, o, v, 1, f);
    if v.Arr? {
      var a: nat, b: nat :| ItemAt(read, c, o, v, 0, f, a, b);
      GapOnce(c, o + 1, a, e);
      StandsHead(read, c, a, v.items[0], b);
    } else {
      var a: nat, b: nat, g: nat, h: nat, i: nat :| MemberAt(read, c, o, v, 0, f, a, b, g, h, i);
      GapOnce(c, o + 1, a, e);
      StringHead(c, a, v.members[0].name, b);
    }
  }

  lemma {:induction false} StringHead(c: seq<Byte>, o: nat, s: seq<Char>, p: nat)
    requires StandsString(c, o, s, p)
    ensures o + 1 < p <= |c| && c[o] == QUOTE
  {}

  lemma {:induction false} ListedOne(read: Strtod, c: seq<Byte>, o: nat, v: Json, k: nat, e: nat, d: nat)
    requires Nested(v) && 0 < k <= Count(v) && Listed(read, c, o, v, k - 1, e) && PartAt(read, c, e, v, k - 1, d)
    requires k == 1 || (e < |c| && c[e] == COMMA)
    ensures Listed(read, c, o, v, k, d)
  {}

  /** A list depends on its own parts only. */
  lemma {:induction false} ListedAlike(read: Strtod, c: seq<Byte>, o: nat, v: Json, w: Json, k: nat, d: nat)
    requires Nested(v) && (v.Arr? <==> w.Arr?) && (v.Obj? <==> w.Obj?) && k <= Count(v) && k <= Count(w) && SameParts(v, w, k)
    requires Listed(read, c, o, v, k, d)
    ensures Listed(read, c, o, w, k, d)
    decreases k
  {
    hide Stands, PartAt;
    if k > 0 {
      var e: nat :| Listed(read, c, o, v, k - 1, e) && (k == 1 || (e < |c| && c[e] == COMMA)) && PartAt(read, c, e, v, k - 1, d);
      SamePartsLess(v, w, k);
      ListedAlike(read, c, o, v, w, k - 1, e);
      PartAlike(read, c, e, v, w, k - 1, d);
      ListedOne(read, c, o, w, k, e, d);
    }
  }

  lemma {:induction false} SamePartsLess(v: Json, w: Json, k: nat)
    requires Nested(v) && (v.Arr? <==> w.Arr?) && (v.Obj? <==> w.Obj?) && 0 < k <= Count(v) && k <= Count(w) && SameParts(v, w, k)
    ensures SameParts(v, w, k - 1) && if v.Arr? then v.items[k - 1] == w.items[k - 1] else v.members[k - 1] == w.members[k - 1]
  {
    if v.Arr? {
      assert v.items[..k][..k - 1] == v.items[..k - 1] && w.items[..k][..k - 1] == w.items[..k - 1];
      assert v.items[..k][k - 1] == v.items[k - 1] && w.items[..k][k - 1] == w.items[k - 1];
    } else {
      assert v.members[..k][..k - 1] == v.members[..k - 1] && w.members[..k][..k - 1] == w.members[..k - 1];
      assert v.members[..k][k - 1] == v.members[k - 1] && w.members[..k][k - 1] == w.members[k - 1];
    }
  }

  lemma {:induction false} PartAlike(read: Strtod, c: seq<Byte>, e: nat, v: Json, w: Json, k: nat, d: nat)
    requires Nested(v) && (v.Arr? <==> w.Arr?) && (v.Obj? <==> w.Obj?) && k < Count(v) && k < Count(w)
    requires if v.Arr? then v.items[k] == w.items[k] else v.members[k] == w.members[k]
    requires PartAt(read, c, e, v, k, d)
    ensures PartAt(read, c, e, w, k, d)
  {
    hide Stands, StandsString, Gap;
    if v.Arr? {
      var a: nat, b: nat :| ItemAt(read, c, e, v, k, d, a, b);
      assert ItemAt(read, c, e, w, k, d, a, b);
    } else {
      var a: nat, b: nat, f: nat, g: nat, h: nat :| MemberAt(read, c, e, v, k, d, a, b, f, g, h);
      assert MemberAt(read, c, e, w, k, d, a, b, f, g, h);
    }
  }

  // ---------------------------------------------------------------- nesting

  /** There is room for each of the first `k` parts at `depth`. */
  ghost predicate Fits(v: Json, k: nat, depth: nat)
    requires Nested(v) && k <= Count(v)
  {
    forall j :: 0 <= j < k ==> depth + Nesting(PartValue(v, j)) <= LIMIT
  }

  lemma {:induction false} ItemsFit(v: Json, k: nat, depth: nat)
    requires v.Arr? && k <= |v.items| && depth <= LIMIT
    ensures depth + ItemsNesting(v, k) <= LIMIT <==> forall j :: k <= j < |v.items| ==> depth + Nesting(v.items[j]) <= LIMIT
    decreases |v.items| - k
  {
    if k < |v.items| {
      ItemsFit(v, k + 1, depth);
    }
  }

  lemma {:induction false} MembersFit(v: Json, k: nat, depth: nat)
    requires v.Obj? && k <= |v.members| && depth <= LIMIT
    ensures depth + MembersNesting(v, k) <= LIMIT <==> forall j :: k <= j < |v.members| ==> depth + Nesting(v.members[j].value) <= LIMIT
    decreases |v.members| - k
  {
    if k < |v.members| {
      MembersFit(v, k + 1, depth);
    }
  }

  /** An array or object fits at `depth` exactly when there is room for it and for each of its parts. */
  lemma {:induction false} NestedFits(v: Json, depth: nat)
    requires Nested(v)
    ensures depth + Nesting(v) <= LIMIT <==> depth < LIMIT && Fits(v, Count(v), depth + 1)
  {
    if depth < LIMIT {
      if v.Arr? {
        ItemsFit(v, 0, depth + 1);
        assert forall j :: 0 <= j < |v.items| ==> PartValue(v, j) == v.items[j];
      } else {
        MembersFit(v, 0, depth + 1);
        assert forall j :: 0 <= j < |v.members| ==> PartValue(v, j) == v.members[j].value;
      }
    }
  }
}
