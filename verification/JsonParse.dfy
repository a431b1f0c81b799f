/**
 * The parser of client/json-rpc/cJSON.c:267-330, 963-1080, 1213-1265, 1342-1433 and 1498-1604. It
 * reads exactly the texts of the grammar, up to the nesting limit; `read` is `strtod`.
 */
module JsonParse {
  import opened Common
  import opened JsonText
  import opened JsonString
  import opened JsonGrammar

  function Buffer(text: seq<Char>): seq<Byte> {
    var bytes: seq<Byte> := text;
    bytes + [0]
  }

  /** What the text is known to be: nothing in particular, or a value that ends at `end`. */
  datatype Expected = Any | Is(v: Json, end: nat)

  /** Where `buffer_skip_whitespace` stops. */
  ghost predicate Skipped(c: seq<Byte>, o: nat, p: nat) {
    && o <= p < |c|
    && Blanks(c, o, p)
    && (c[p] > 32 || p == |c| - 1)
  }

  ghost predicate Blanks(c: seq<Byte>, o: nat, p: nat)
    requires p <= |c|
  {
    forall i :: o <= i < p ==> c[i] <= 32
  }

  /** White space is skipped exactly. */
  lemma {:induction false} SkipsGap(c: seq<Byte>, o: nat, p: nat, b: nat)
    requires Skipped(c, o, p) && Gap(c, o, b)
    ensures p == b
  {}

  lemma {:induction false} SkippedGap(c: seq<Byte>, o: nat, p: nat)
    requires Skipped(c, o, p)
    ensures o <= p < |c| && (c[p] > 32 ==> Gap(c, o, p))
  {}

  /** More white space before a gap, or less. */
  lemma {:induction false} GapShift(c: seq<Byte>, o: nat, p: nat, b: nat)
    requires o <= p <= |c| && Blanks(c, o, p)
    ensures Gap(c, o, b) <==> Gap(c, p, b)
  {
    if Gap(c, o, b) {
      assert b >= p;
    }
  }

  lemma {:induction false} NotLast(c: seq<Byte>, o: nat)
    requires Terminated(c) && o < |c|
    ensures c[o] != 0 <==> o + 1 < |c|
  {}

  lemma {:induction false} SeesInside(c: seq<Byte>, o: nat, word: seq<Byte>)
    requires Terminated(c) && Sees(c, o, word) && |word| > 0 && word[|word| - 1] != 0
    ensures o + |word| < |c|
  {
    assert c[o + |word| - 1] == c[o..o + |word|][|word| - 1];
  }

  lemma {:induction false} RunChars(c: seq<Byte>, o: nat, n: nat)
    requires o <= |c| && n <= Run(c, o)
    ensures forall i :: o <= i < o + n ==> NumberChar(c[i])
    decreases n
  {
    if n > 0 {
      RunChars(c, o + 1, n - 1);
    }
  }

  lemma {:induction false} NumberInside(read: Strtod, c: seq<Byte>, o: nat, t: Digits, p: nat)
    requires Terminated(c) && StandsNumber(read, c, o, t, p)
    ensures o < p < |c|
  {
    RunChars(c, o, p - o);
    assert NumberChar(c[p - 1]);
  }

  class Parser {
    const content: seq<Byte>
    const read: Strtod
    var offset: nat
    var depth: nat

    ghost predicate Ready()
      reads this`offset
    {
      Terminated(content) && offset < |content|
    }

    constructor (text: seq<Char>, read: Strtod)
      ensures Ready() && content == Buffer(text) && this.read == read && offset == 0 && depth == 0
    {
      content, offset, depth := Buffer(text), 0, 0;
      this.read := read;
    }

    /** `buffer_skip_whitespace`. */
    method SkipWhitespace()
      requires Terminated(content) && offset <= |content|
      modifies this`offset
      ensures Ready()
      ensures old(offset) < |content| ==> Skipped(content, old(offset), offset)
    {
      while offset < |content| && content[offset] <= 32
        invariant old(offset) <= offset <= |content|
        invariant Blanks(content, old(offset), offset)
      {
        offset := offset + 1;
      }
      if offset == |content| {
        offset := offset - 1;
      }
    }

    /** `skip_utf8_bom`. */
    method SkipBom()
      requires Ready() && offset == 0
      modifies this`offset
      ensures Ready() && offset == Mark(content)
    {
      if offset + 4 < |content| && content[0] == 0xEF && content[1] == 0xBB && content[2] == 0xBF {
        offset := offset + 3;
      }
    }

    /** `parse_string`: it succeeds exactly where a string stands. */
    method ParseString() returns (ok: bool, text: seq<Char>)
      requires Ready()
      modifies this`offset
      ensures offset <= |content|
      ensures ok ==> Ready() && StandsString(content, old(offset), text, offset)
      ensures !ok ==> forall s, p: nat :: !StandsString(content, old(offset), s, p)
    {
      hide Spelled, CString, Second, Skips, Unclosed;
      text := [];
      if content[offset] != QUOTE {
        offset := offset + 1;
        return false, [];
      }
      var found, end, skipped := FindEnd(content, offset + 1);
      if !found {
        offset := offset + 1;
        return false, [];
      }
      SkipsUpTo(content, offset + 1, offset + 1, end);
      NoSkips(content, offset + 1);
      var good, p, out := Unescape(content, offset + 1, end, end - offset - skipped);
      if !good {
        NotSpelled(content, offset, end);
        offset := p;
        return false, [];
      }
      offset := end + 1;
      return true, CString(out);
    }

    /** `parse_number`: it succeeds exactly where `strtod` reads something. */
    method ParseNumber() returns (ok: bool, v: Json)
      requires Ready() && NumberStart(content[offset])
      modifies this`offset
      ensures offset <= |content|
      ensures ok ==> Ready() && v.Num? && StandsNumber(read, content, old(offset), v.digits, offset)
      ensures !ok ==> forall t: Digits, p: nat :: !StandsNumber(read, content, old(offset), t, p)
    {
      var i, o := 0, offset;
      while i < 63 && offset + i < |content| && NumberChar(content[offset + i])
        invariant 0 <= i <= 63 && o + i <= |content|
        invariant Run(content, o) == i + Run(content, o + i)
      {
        i := i + 1;
      }
      var lexeme := content[offset..offset + i];
      assert lexeme == Lexeme(content, o);
      var length := Consumed(read, lexeme);
      if length == 0 { return false, Null; }
      offset := offset + length;
      v := Num(read(lexeme).digits);
      NumberInside(read, content, o, v.digits, offset);
      ok := true;
    }

    /** `parse_value`: it succeeds exactly where a value stands for which there is room, and gives that value. */
    method ParseValue(ghost e: Expected) returns (ok: bool, v: Json)
      requires Ready() && depth <= LIMIT
      modifies this`offset, this`depth
      ensures offset <= |content|
      ensures ok ==> Ready() && depth == old(depth) && Stands(read, content, old(offset), v, offset) && depth + Nesting(v) <= LIMIT
      ensures e.Is? && Stands(read, content, old(offset), e.v, e.end) && old(depth) + Nesting(e.v) <= LIMIT ==> ok
      decreases |content| - offset, 3
    {
      hide Sees, Terminated, Listed, StandsString, StandsNumber, Gap;
      ghost var expecting := e.Is? && Stands(read, content, offset, e.v, e.end);
      if expecting {
        StandsHead(read, content, offset, e.v, e.end);
      }
      if Sees(content, offset, NULL) {
        SeesInside(content, offset, NULL);
        offset := offset + 4;
        return true, Null;
      }
      if Sees(content, offset, FALSE) {
        SeesInside(content, offset, FALSE);
        offset := offset + 5;
        return true, False;
      }
      if Sees(content, offset, TRUE) {
        SeesInside(content, offset, TRUE);
        offset := offset + 4;
        return true, True;
      }
      if content[offset] == QUOTE {
        var text;
        ok, text := ParseString();
        return ok, Str(text);
      }
      if NumberStart(content[offset]) {
        ok, v := ParseNumber();
        return;
      }
      if content[offset] == OPEN {
        ok, v := ParseArray(e);
        return;
      }
      if content[offset] == BEGIN {
        ok, v := ParseObject(e);
        return;
      }
      return false, Null;
    }

    // ---------------------------------------------------------------- arrays

    /** `parse_array`. */
    method ParseArray(ghost e: Expected) returns (ok: bool, v: Json)
      requires Ready() && depth <= LIMIT
      modifies this`offset, this`depth
      ensures offset <= |content|
      ensures ok ==> Ready() && depth == old(depth) && Stands(read, content, old(offset), v, offset) && depth + Nesting(v) <= LIMIT
      ensures e.Is? && e.v.Arr? && Stands(read, content, old(offset), e.v, e.end) && old(depth) + Nesting(e.v) <= LIMIT ==> ok
      decreases |content| - offset, 2
    {
      hide Terminated, Nesting, Skipped, Listed, Gap, Fits, Stands, Blanks;
      ghost var expecting := e.Is? && e.v.Arr? && Stands(read, content, offset, e.v, e.end) && depth + Nesting(e.v) <= LIMIT;
      ghost var o, d := offset, depth;
      if expecting {
        NestedFits(e.v, d);
        AsList(read, content, offset, e.v, e.end);
      }
      if depth >= LIMIT { return false, Null; }
      depth := depth + 1;
      NotLast(content, offset);
      if content[offset] != OPEN { return false, Null; }
      offset := offset + 1;
      SkipWhitespace();
      SkippedGap(content, o + 1, offset);
      if expecting && Count(e.v) > 0 {
        StartsList(read, content, o, e.v, e.end - 1, offset);
      }
      if expecting && Count(e.v) == 0 {
        SkipsGap(content, o + 1, offset, e.end - 1);
      }
      NotLast(content, offset);
      if content[offset] == CLOSE {
        depth := depth - 1;
        offset := offset + 1;
        EmptyFits(Arr([]), d);
        AsList(read, content, o, Arr([]), offset);
        return true, Arr([]);
      }
      SkippedBlanks(content, o + 1, offset);
      offset := offset - 1;
      var good, items := ParseItems(o, if expecting then Is(e.v, e.end - 1) else Any);
      if !good { return false, Null; }
      NotLast(content, offset);
      if content[offset] != CLOSE { return false, Null; }
      depth := depth - 1;
      offset := offset + 1;
      NestedFits(Arr(items), d);
      AsList(read, content, o, Arr(items), offset);
      return true, Arr(items);
    }

    /** The loop of `parse_array`; `o` is the place of the bracket. */
    method ParseItems(ghost o: nat, ghost e: Expected) returns (good: bool, items: seq<Json>)
      requires Terminated(content) && o <= offset && offset + 1 < |content| && depth <= LIMIT && Blanks(content, o + 1, offset + 1)
      requires e.Is? ==> e.v.Arr? && Count(e.v) > 0 && e.end < |content| && content[e.end] == CLOSE
      requires e.Is? ==> Listed(read, content, o, e.v, Count(e.v), e.end) && Fits(e.v, Count(e.v), depth)
      modifies this`offset, this`depth
      ensures offset <= |content|
      ensures good ==> Ready() && offset > old(offset) && depth == old(depth) && items != [] && Fits(Arr(items), |items|, depth)
      ensures good && content[offset] > 32 ==> Listed(read, content, o, Arr(items), |items|, offset)
      ensures e.Is? ==> good && content[offset] == CLOSE
      decreases |content| - offset, 1
    {
      hide Terminated, Listed, Fits, Stands, PartAt, Gap, Skipped, Nesting, Blanks;
      ghost var s, d := offset, depth;
      items := [];
      NoParts(read, content, o, Arr(items), 0, o);
      EmptyParts(Arr(items), d);
      if e.Is? {
        NoParts(read, content, o, e.v, 0, o);
        NoneSame(Arr(items), e.v);
      }
      ghost var from: nat := o;
      var more := true;
      while more
        invariant s <= offset < |content| && Terminated(content) && depth == d && from <= offset
        invariant if more then offset + 1 < |content| && Blanks(content, from + 1, offset + 1) else items != [] && offset > s
        invariant more ==> Listed(read, content, o, Arr(items), |items|, from) && (items == [] || content[from] == COMMA)
        invariant !more && content[offset] > 32 ==> Listed(read, content, o, Arr(items), |items|, offset)
        invariant Fits(Arr(items), |items|, d)
        invariant e.Is? ==> |items| <= Count(e.v) && SameParts(Arr(items), e.v, |items|)
        invariant e.Is? ==> if more then |items| < Count(e.v) && Listed(read, content, o, e.v, |items|, from)
                            else content[offset] == CLOSE
        decreases |content| - offset, more
      {
        ghost var k, p := |items|, offset;
        ghost var next, x, y: nat, z: nat := 0, Any, 0, 0;
        if e.Is? {
          next := NextPart(read, content, o, e.v, Count(e.v), e.end, k, from);
          y, z := ItemPlace(read, content, from, e.v, k, next);
          GapShift(content, from + 1, offset + 1, y);
          FitsOne(e.v, Count(e.v), k, depth);
          x := Is(e.v.items[k], next);
        }
        var ok, item, a, b := ParseItem(x, y, z);
        if !ok { return false, []; }
        ghost var was := items;
        items := items + [item];
        GapShift(content, from + 1, p + 1, a);
        SkippedGap(content, b, offset);
        ListedMore(read, content, o, was, item, from, a, b, offset);
        FitsMore(was, item, d);
        if e.Is? {
          SameMore(was, item, e.v);
        }
        NotLast(content, offset);
        more := content[offset] == COMMA;
        if more {
          NoBlanks(content, offset);
        }
        from := offset;
      }
      good := true;
    }

    /** One turn of the loop of `parse_array`: from a bracket or comma over an item to the next one. */
    method ParseItem(ghost x: Expected, ghost y: nat, ghost z: nat) returns (good: bool, item: Json, ghost a: nat, ghost b: nat)
      requires Terminated(content) && offset + 1 < |content| && depth <= LIMIT
      requires x.Is? ==> Gap(content, offset + 1, y) && Stands(read, content, y, x.v, z) && Gap(content, z, x.end)
      requires x.Is? ==> depth + Nesting(x.v) <= LIMIT
      modifies this`offset, this`depth
      ensures offset <= |content|
      ensures good ==> Ready() && offset > old(offset) && depth == old(depth) && depth + Nesting(item) <= LIMIT
      ensures good ==> Gap(content, old(offset) + 1, a) && Stands(read, content, a, item, b) && Skipped(content, b, offset)
      ensures x.Is? ==> good && item == x.v && offset == x.end
      decreases |content| - offset, 0
    {
      hide Terminated, Stands, Gap, Skipped, Nesting;
      ghost var p := offset;
      offset := offset + 1;
      SkipWhitespace();
      SkippedGap(content, p + 1, offset);
      if x.Is? {
        SkipsGap(content, p + 1, offset, y);
      }
      a, b := offset, offset;
      good, item := ParseValue(if x.Is? then Is(x.v, z) else Any);
      if good {
        b := offset;
        StandsHead(read, content, a, item, b);
        SkipWhitespace();
        SkippedGap(content, b, offset);
        if x.Is? {
          StandsSame(read, content, a, item, b, x.v, z);
          SkipsGap(content, b, offset, x.end);
        }
      }
    }

    // ---------------------------------------------------------------- objects

    /** `parse_object`. */
    method ParseObject(ghost e: Expected) returns (ok: bool, v: Json)
      requires Ready() && depth <= LIMIT
      modifies this`offset, this`depth
      ensures offset <= |content|
      ensures ok ==> Ready() && depth == old(depth) && Stands(read, content, old(offset), v, offset) && depth + Nesting(v) <= LIMIT
      ensures e.Is? && e.v.Obj? && Stands(read, content, old(offset), e.v, e.end) && old(depth) + Nesting(e.v) <= LIMIT ==> ok
      decreases |content| - offset, 2
    {
      hide Terminated, Nesting, Skipped, Listed, Gap, Fits, Stands, Blanks;
      ghost var expecting := e.Is? && e.v.Obj? && Stands(read, content, offset, e.v, e.end) && depth + Nesting(e.v) <= LIMIT;
      ghost var o, d := offset, depth;
      if expecting {
        NestedFits(e.v, d);
        AsList(read, content, offset, e.v, e.end);
      }
      if depth >= LIMIT { return false, Null; }
      depth := depth + 1;
      NotLast(content, offset);
      if content[offset] != BEGIN { return false, Null; }
      offset := offset + 1;
      SkipWhitespace();
      SkippedGap(content, o + 1, offset);
      if expecting && Count(e.v) > 0 {
        StartsList(read, content, o, e.v, e.end - 1, offset);
      }
      if expecting && Count(e.v) == 0 {
        SkipsGap(content, o + 1, offset, e.end - 1);
      }
      NotLast(content, offset);
      if content[offset] == END {
        depth := depth - 1;
        offset := offset + 1;
        EmptyFits(Obj([]), d);
        AsList(read, content, o, Obj([]), offset);
        return true, Obj([]);
      }
      SkippedBlanks(content, o + 1, offset);
      offset := offset - 1;
      var good, members := ParseMembers(o, if expecting then Is(e.v, e.end - 1) else Any);
      if !good { return false, Null; }
      NotLast(content, offset);
      if content[offset] != END { return false, Null; }
      depth := depth - 1;
      offset := offset + 1;
      NestedFits(Obj(members), d);
      AsList(read, content, o, Obj(members), offset);
      return true, Obj(members);
    }

    /** The loop of `parse_object`; `o` is the place of the brace. */
    method ParseMembers(ghost o: nat, ghost e: Expected) returns (good: bool, members: seq<Member>)
      requires Terminated(content) && o <= offset && offset + 1 < |content| && depth <= LIMIT && Blanks(content, o + 1, offset + 1)
      requires e.Is? ==> e.v.Obj? && Count(e.v) > 0 && e.end < |content| && content[e.end] == END
      requires e.Is? ==> Listed(read, content, o, e.v, Count(e.v), e.end) && Fits(e.v, Count(e.v), depth)
      modifies this`offset, this`depth
      ensures offset <= |content|
      ensures good ==> Ready() && offset > old(offset) && depth == old(depth) && members != [] && Fits(Obj(members), |members|, depth)
      ensures good && content[offset] > 32 ==> Listed(read, content, o, Obj(members), |members|, offset)
      ensures e.Is? ==> good && content[offset] == END
      decreases |content| - offset, 1
    {
      hide Terminated, Listed, Fits, Stands, StandsString, PartAt, Gap, Skipped, Nesting, Blanks;
      ghost var s, d := offset, depth;
      members := [];
      NoParts(read, content, o, Obj(members), 0, o);
      EmptyParts(Obj(members), d);
      if e.Is? {
        NoParts(read, content, o, e.v, 0, o);
        NoneSame(Obj(members), e.v);
      }
      ghost var from: nat := o;
      var more := true;
      while more
        invariant s <= offset < |content| && Terminated(content) && depth == d && from <= offset
        invariant if more then offset + 1 < |content| && Blanks(content, from + 1, offset + 1) else members != [] && offset > s
        invariant more ==> Listed(read, content, o, Obj(members), |members|, from) && (members == [] || content[from] == COMMA)
        invariant !more && content[offset] > 32 ==> Listed(read, content, o, Obj(members), |members|, offset)
        invariant Fits(Obj(members), |members|, d)
        invariant e.Is? ==> |members| <= Count(e.v) && SameParts(Obj(members), e.v, |members|)
        invariant e.Is? ==> if more then |members| < Count(e.v) && Listed(read, content, o, e.v, |members|, from)
                            else content[offset] == END
        decreases |content| - offset, more
      {
        ghost var k, p := |members|, offset;
        ghost var next, x, y: nat, z: nat, f: nat, g: nat, h: nat := 0, None, 0, 0, 0, 0, 0;
        if e.Is? {
          next := NextPart(read, content, o, e.v, Count(e.v), e.end, k, from);
          y, z, f, g, h := MemberPlace(read, content, from, e.v, k, next);
          GapShift(content, from + 1, offset + 1, y);
          FitsOne(e.v, Count(e.v), k, depth);
          x := Some(e.v.members[k]);
        }
        var ok, member, place := ParseMember(x, Place(y, z, f, g, h, next));
        if !ok { return false, []; }
        ghost var was := members;
        members := members + [member];
        GapShift(content, from + 1, p + 1, place.a);
        SkippedGap(content, place.h, offset);
        ListedMember(read, content, o, was, member, from, place, offset);
        FitsMember(was, member, d);
        if e.Is? {
          SameMember(was, member, e.v);
        }
        NotLast(content, offset);
        more := content[offset] == COMMA;
        if more {
          NoBlanks(content, offset);
        }
        from := offset;
      }
      good := true;
    }

    /** One turn of the loop of `parse_object`. */
    method ParseMember(ghost x: Option<Member>, ghost w: Place) returns (good: bool, member: Member, ghost place: Place)
      requires Terminated(content) && offset + 1 < |content| && depth <= LIMIT
      requires x.Some? ==> Placed(read, content, offset, x.value, w) && Gap(content, w.h, w.d) && depth + Nesting(x.value.value) <= LIMIT
      modifies this`offset, this`depth
      ensures offset <= |content|
      ensures good ==> Ready() && offset > old(offset) && depth == old(depth) && depth + Nesting(member.value) <= LIMIT
      ensures good ==> Placed(read, content, old(offset), member, place) && Skipped(content, place.h, offset)
      ensures x.Some? ==> good && member == x.value && offset == w.d
      decreases |content| - offset, 0
    {
      hide Terminated, Stands, StandsString, Gap, Skipped, Nesting;
      member, place := Member([], Null), Place(0, 0, 0, 0, 0, 0);
      ghost var p := offset;
      offset := offset + 1;
      SkipWhitespace();
      SkippedGap(content, p + 1, offset);
      if x.Some? {
        SkipsGap(content, p + 1, offset, w.a);
      }
      ghost var a := offset;
      var name, value;
      good, name := ParseString();
      if !good { return; }
      ghost var b := offset;
      StringHead(content, a, name, b);
      SkipWhitespace();
      SkippedGap(content, b, offset);
      if x.Some? {
        StringSame(content, a, name, b, x.value.name, w.b);
        SkipsGap(content, b, offset, w.f);
      }
      NotLast(content, offset);
      if content[offset] != COLON { return false, member, place; }
      ghost var f := offset;
      offset := offset + 1;
      SkipWhitespace();
      SkippedGap(content, f + 1, offset);
      if x.Some? {
        SkipsGap(content, f + 1, offset, w.g);
      }
      ghost var g := offset;
      good, value := ParseValue(if x.Some? then Is(x.value.value, w.h) else Any);
      if !good { return; }
      ghost var h := offset;
      StandsHead(read, content, g, value, h);
      SkipWhitespace();
      SkippedGap(content, h, offset);
      if x.Some? {
        StandsSame(read, content, g, value, h, x.value.value, w.h);
        SkipsGap(content, h, offset, w.d);
      }
      member, place := Member(name, value), Place(a, b, f, g, h, offset);
    }
  }

  // ---------------------------------------------------------------- places

  /** Where the name, the colon, the value and the end of a member are. */
  datatype Place = Place(a: nat, b: nat, f: nat, g: nat, h: nat, d: nat)

  ghost predicate Placed(read: Strtod, c: seq<Byte>, e: nat, m: Member, w: Place) {
    && Gap(c, e + 1, w.a) && StandsString(c, w.a, m.name, w.b) && Gap(c, w.b, w.f) && w.f < |c| && c[w.f] == COLON
    && Gap(c, w.f + 1, w.g) && Stands(read, c, w.g, m.value, w.h)
  }

  lemma {:induction false} ItemPlace(read: Strtod, c: seq<Byte>, e: nat, v: Json, k: nat, d: nat) returns (a: nat, b: nat)
    requires v.Arr? && k < |v.items| && PartAt(read, c, e, v, k, d)
    ensures Gap(c, e + 1, a) && Stands(read, c, a, v.items[k], b) && Gap(c, b, d)
  {
    a, b :| ItemAt(read, c, e, v, k, d, a, b);
  }

  lemma {:induction false} MemberPlace(read: Strtod, c: seq<Byte>, e: nat, v: Json, k: nat, d: nat) returns (a: nat, b: nat, f: nat, g: nat, h: nat)
    requires v.Obj? && k < |v.members| && PartAt(read, c, e, v, k, d)
    ensures Placed(read, c, e, v.members[k], Place(a, b, f, g, h, d)) && Gap(c, h, d)
  {
    a, b, f, g, h :| MemberAt(read, c, e, v, k, d, a, b, f, g, h);
  }

  lemma {:induction false} StartsList(read: Strtod, c: seq<Byte>, o: nat, v: Json, d: nat, p: nat)
    requires Nested(v) && Count(v) > 0 && Listed(read, c, o, v, Count(v), d) && Skipped(c, o + 1, p)
    ensures p < |c| && c[p] != CLOSE && c[p] != END
  {
    if c[p] > 32 {
      SkippedGap(c, o + 1, p);
      NotEmpty(read, c, o, v, d, p);
    }
  }

  lemma {:induction false} SkippedBlanks(c: seq<Byte>, o: nat, p: nat)
    requires Skipped(c, o, p)
    ensures o <= p < |c| && Blanks(c, o, p)
  {}

  lemma {:induction false} NoBlanks(c: seq<Byte>, o: nat)
    requires o < |c|
    ensures Blanks(c, o + 1, o + 1)
  {}

  // ---------------------------------------------------------------- lists that grow

  lemma {:induction false} EmptyFits(v: Json, depth: nat)
    requires Nested(v) && Count(v) == 0 && depth < LIMIT
    ensures depth + Nesting(v) <= LIMIT
  {
    NestedFits(v, depth);
  }

  lemma {:induction false} EmptyParts(v: Json, depth: nat)
    requires Nested(v)
    ensures Fits(v, 0, depth)
  {}

  lemma {:induction false} NoneSame(v: Json, w: Json)
    requires Nested(v) && (v.Arr? <==> w.Arr?) && (v.Obj? <==> w.Obj?)
    ensures SameParts(v, w, 0)
  {}

  lemma {:induction false} FitsOne(v: Json, n: nat, k: nat, depth: nat)
    requires Nested(v) && k < n <= Count(v) && Fits(v, n, depth)
    ensures depth + Nesting(PartValue(v, k)) <= LIMIT
  {}

  lemma {:induction false} FitsMore(items: seq<Json>, item: Json, depth: nat)
    requires Fits(Arr(items), |items|, depth) && depth + Nesting(item) <= LIMIT
    ensures Fits(Arr(items + [item]), |items| + 1, depth)
  {
    forall j | 0 <= j < |items| + 1 ensures depth + Nesting(PartValue(Arr(items + [item]), j)) <= LIMIT {
      if j < |items| {
        assert PartValue(Arr(items + [item]), j) == PartValue(Arr(items), j);
      }
    }
  }

  lemma {:induction false} FitsMember(members: seq<Member>, member: Member, depth: nat)
    requires Fits(Obj(members), |members|, depth) && depth + Nesting(member.value) <= LIMIT
    ensures Fits(Obj(members + [member]), |members| + 1, depth)
  {
    forall j | 0 <= j < |members| + 1 ensures depth + Nesting(PartValue(Obj(members + [member]), j)) <= LIMIT {
      if j < |members| {
        assert PartValue(Obj(members + [member]), j) == PartValue(Obj(members), j);
      }
    }
  }

  lemma {:induction false} SameMore(items: seq<Json>, item: Json, w: Json)
    requires w.Arr? && |items| < |w.items| && SameParts(Arr(items), w, |items|) && item == w.items[|items|]
    ensures SameParts(Arr(items + [item]), w, |items| + 1)
  {
    assert items[..|items|] == items;
    assert (items + [item])[..|items| + 1] == items + [item] == w.items[..|items| + 1];
  }

  lemma {:induction false} SameMember(members: seq<Member>, member: Member, w: Json)
    requires w.Obj? && |members| < |w.members| && SameParts(Obj(members), w, |members|) && member == w.members[|members|]
    ensures SameParts(Obj(members + [member]), w, |members| + 1)
  {
    assert members[..|members|] == members;
    assert (members + [member])[..|members| + 1] == members + [member] == w.members[..|members| + 1];
  }

  lemma {:induction false} ListedMore(read: Strtod, c: seq<Byte>, o: nat, items: seq<Json>, item: Json, e: nat, a: nat, b: nat, d: nat)
    requires Listed(read, c, o, Arr(items), |items|, e) && (items == [] || (e < |c| && c[e] == COMMA))
    requires Gap(c, e + 1, a) && Stands(read, c, a, item, b) && (d < |c| && c[d] > 32 ==> Gap(c, b, d))
    ensures d < |c| && c[d] > 32 ==> Listed(read, c, o, Arr(items + [item]), |items| + 1, d)
  {
    if d < |c| && c[d] > 32 {
      var v, w := Arr(items), Arr(items + [item]);
      assert (items + [item])[..|items|] == items[..|items|];
      ListedAlike(read, c, o, v, w, |items|, e);
      assert ItemAt(read, c, e, w, |items|, d, a, b);
      ListedOne(read, c, o, w, |items| + 1, e, d);
    }
  }

  lemma {:induction false} ListedMember(read: Strtod, c: seq<Byte>, o: nat, members: seq<Member>, m: Member, e: nat, w: Place, d: nat)
    requires Listed(read, c, o, Obj(members), |members|, e) && (members == [] || (e < |c| && c[e] == COMMA))
    requires Placed(read, c, e, m, w) && (d < |c| && c[d] > 32 ==> Gap(c, w.h, d))
    ensures d < |c| && c[d] > 32 ==> Listed(read, c, o, Obj(members + [m]), |members| + 1, d)
  {
    if d < |c| && c[d] > 32 {
      var u, v := Obj(members), Obj(members + [m]);
      assert (members + [m])[..|members|] == members[..|members|];
      ListedAlike(read, c, o, u, v, |members|, e);
      assert MemberAt(read, c, e, v, |members|, d, w.a, w.b, w.f, w.g, w.h);
      ListedOne(read, c, o, v, |members| + 1, e, d);
    }
  }

  lemma {:induction false} NotSpelled(c: seq<Byte>, o: nat, end: nat)
    requires Closing(c, o + 1, end) && Spelled(c[o + 1..end]).None?
    ensures forall s, p: nat :: !StandsString(c, o, s, p)
  {
    hide Spelled, Unclosed, Second;
    forall s, p: nat | StandsString(c, o, s, p) ensures false {
      ClosingOnce(c, o + 1, end, p - 1);
    }
  }

  // ---------------------------------------------------------------- documents

  /** How much of a byte order mark there is to skip. */
  function Mark(c: seq<Byte>): nat {
    if |c| > 4 && c[0] == 0xEF && c[1] == 0xBB && c[2] == 0xBF then 3 else 0
  }

  /** The text, after a byte order mark and white space, starts with the value; if it is read as a `whole`, nothing but white space follows. */
  ghost predicate Document(read: Strtod, text: seq<Char>, whole: bool, v: Json) {
    exists o: nat, p: nat :: DocumentAt(read, Buffer(text), whole, v, o, p)
  }

  ghost predicate DocumentAt(read: Strtod, c: seq<Byte>, whole: bool, v: Json, o: nat, p: nat) {
    Gap(c, Mark(c), o) && Stands(read, c, o, v, p) && p < |c| && (whole ==> Blanks(c, p, |c|))
  }

  lemma {:induction false} BufferEnds(text: seq<Char>)
    ensures Terminated(Buffer(text)) && Mark(Buffer(text)) < |Buffer(text)|
  {}

  /** A text has at most one meaning. */
  lemma {:induction false} DocumentOnce(read: Strtod, text: seq<Char>, whole: bool, v: Json, w: Json)
    requires Document(read, text, whole, v) && Document(read, text, whole, w)
    ensures v == w
  {
    hide Stands;
    var c := Buffer(text);
    var o: nat, p: nat :| DocumentAt(read, c, whole, v, o, p);
    var q: nat, r: nat :| DocumentAt(read, c, whole, w, q, r);
    GapOnce(c, Mark(c), o, q);
    StandsSame(read, c, o, v, p, w, r);
  }

  /** `cJSON_ParseWithOpts`; `whole` is `require_null_terminated`. It accepts exactly the texts that mean some value within the nesting limit. */
  method Parse(text: seq<Char>, whole: bool, read: Strtod) returns (ok: bool, v: Json)
    ensures ok <==> exists w :: Document(read, text, whole, w) && Nesting(w) <= LIMIT
    ensures ok ==> Document(read, text, whole, v)
  {
    hide Nesting, Stands, Skipped, Blanks, Gap, Terminated;
    ghost var c := Buffer(text);
    BufferEnds(text);
    ghost var e, at := Any, 0;
    if w :| Document(read, text, whole, w) && Nesting(w) <= LIMIT {
      ghost var o: nat, p: nat :| DocumentAt(read, c, whole, w, o, p);
      e, at := Is(w, p), o;
    }
    var parser := new Parser(text, read);
    parser.SkipBom();
    parser.SkipWhitespace();
    SkippedGap(c, Mark(c), parser.offset);
    ghost var o := parser.offset;
    if e.Is? {
      SkipsGap(c, Mark(c), o, at);
    }
    ok, v := parser.ParseValue(e);
    ghost var q := parser.offset;
    if ok {
      StandsHead(read, c, o, v, q);
      if e.Is? {
        StandsSame(read, c, o, v, q, e.v, e.end);
      }
      if whole {
        parser.SkipWhitespace();
        BlankEnd(c, q, parser.offset);
        if parser.content[parser.offset] != 0 {
          return false, Null;
        }
      }
      assert DocumentAt(read, c, whole, v, o, q);
    }
  }

  lemma {:induction false} BlankEnd(c: seq<Byte>, o: nat, p: nat)
    requires Terminated(c) && Skipped(c, o, p)
    ensures p < |c| && (c[p] == 0 <==> Blanks(c, o, |c|))
  {}
}
