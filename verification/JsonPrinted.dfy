/** What the printer writes stands for the value it was given (client/json-rpc/cJSON.c:472-535, 828-947, 1268-1339, 1436-1495, 1607-1718). */
module JsonPrinted {
  import opened Common
  import opened JsonText
  import opened JsonString
  import opened JsonGrammar

  /** `strtod` reads each number of `v` back from its printed form, which `print_number` makes sure of. */
  ghost predicate Steady(read: Strtod, v: Json)
    decreases v
  {
    match v
    case Num(t) => read(t) == Reading(|t|, t)
    case Arr(items) => forall j :: 0 <= j < |items| ==> Steady(read, items[j])
    case Obj(members) => forall j :: 0 <= j < |members| ==> Steady(read, members[j].value)
    case _ => true
  }

  // ---------------------------------------------------------------- tokens in a buffer

  lemma {:induction false} AtSees(c: seq<Byte>, o: nat, t: seq<Char>, word: seq<Byte>)
    requires At(c, o, t) && |word| == |t| && forall i :: 0 <= i < |t| ==> word[i] == t[i]
    ensures Sees(c, o, word)
  {
    Slice(c, o, t);
  }

  lemma {:induction false} Slice(c: seq<Byte>, o: nat, t: seq<Char>)
    requires At(c, o, t)
    ensures c[o..o + |t|] == t
  {
    var s := c[o..o + |t|];
    forall i | 0 <= i < |t| ensures s[i] == t[i] {
      assert c[o + i] == t[i];
    }
  }

  lemma {:induction false} RunIs(c: seq<Byte>, o: nat, n: nat)
    requires o + n < |c| && (forall i :: o <= i < o + n ==> NumberChar(c[i])) && !NumberChar(c[o + n])
    ensures Run(c, o) == n
    decreases n
  {
    if n > 0 {
      RunIs(c, o + 1, n - 1);
    }
  }

  lemma {:induction false} NumberStands(read: Strtod, c: seq<Byte>, o: nat, t: Digits)
    requires At(c, o, t) && read(t) == Reading(|t|, t) && !NumberChar(c[o + |t|])
    ensures StandsNumber(read, c, o, t, o + |t|)
  {
    AtHead(c, o, t);
    forall i | o <= i < o + |t| ensures NumberChar(c[i]) {
      assert c[o + (i - o)] == t[i - o];
    }
    RunIs(c, o, |t|);
    Slice(c, o, t);
    assert Lexeme(c, o) == t;
  }

  lemma {:induction false} StringStands(c: seq<Byte>, o: nat, s: seq<Char>)
    requires At(c, o, Quoted(s))
    ensures StandsString(c, o, s, o + |Quoted(s)|)
  {
    hide Escaped, Spelled, CString, Closing;
    assert Quoted(s) == [QUOTE] + (Escaped(s) + [QUOTE]);
    AtSplit(c, o, [QUOTE], Escaped(s) + [QUOTE]);
    AtHead(c, o, [QUOTE]);
    AtInside(c, o, Quoted(s));
    EscapedCloses(c, o + 1, s);
    EscapedSpells(s);
    CStringSame(s);
  }

  ghost predicate Blank(t: seq<Char>) { forall i :: 0 <= i < |t| ==> t[i] <= 32 }

  lemma {:induction false} BlankGap(c: seq<Byte>, o: nat, blank: seq<Char>, t: seq<Char>)
    requires At(c, o, blank + t) && Blank(blank) && t != [] && t[0] > 32
    ensures Gap(c, o, o + |blank|) && At(c, o + |blank|, t) && c[o + |blank|] == t[0]
  {
    AtSplit(c, o, blank, t);
    AtHead(c, o + |blank|, t);
    forall i | o <= i < o + |blank| ensures c[i] <= 32 {
      assert c[o + (i - o)] == blank[i - o];
    }
  }

  // ---------------------------------------------------------------- arrays

  /** The blank before item `k`. */
  function Lead(k: nat, format: bool): seq<Char> { if k > 0 && format then [SPACE] else [] }

  lemma {:induction false} ItemsUnfold(v: Json, k: nat, format: bool, depth: nat)
    requires v.Arr? && k <= |v.items|
    ensures Items(v, k, format, depth) ==
      if k == |v.items| then [CLOSE] else Text(v.items[k], format, depth + 1) + (Comma(v, k, format) + Items(v, k + 1, format, depth))
  {}

  /** What follows item `k`. */
  lemma {:induction false} AfterItem(v: Json, k: nat, format: bool, depth: nat)
    requires v.Arr? && k < |v.items|
    ensures Comma(v, k, format) + Items(v, k + 1, format, depth) ==
      if k + 1 == |v.items| then [CLOSE] else [COMMA] + (Lead(k + 1, format) + Items(v, k + 1, format, depth))
  {
    hide Items;
    ItemsUnfold(v, k + 1, format, depth);
  }

  /** From item `k` at `a` to the comma or the closing bracket. */
  lemma {:induction false} ItemStands(read: Strtod, c: seq<Byte>, v: Json, k: nat, e: nat, a: nat, format: bool, depth: nat) returns (d: nat)
    requires v.Arr? && k < |v.items| && Steady(read, v) && Gap(c, e + 1, a) && At(c, a, Items(v, k, format, depth))
    ensures PartAt(read, c, e, v, k, d) && d < |c|
    ensures if k + 1 == |v.items| then c[d] == CLOSE && d + 1 == a + |Items(v, k, format, depth)|
      else c[d] == COMMA && At(c, d + 1, Lead(k + 1, format) + Items(v, k + 1, format, depth))
           && d + 1 + |Lead(k + 1, format) + Items(v, k + 1, format, depth)| == a + |Items(v, k, format, depth)|
    decreases v, 0
  {
    hide At, Text, Items, Stands, Steady, Gap, Comma, Lead;
    var t, rest := Text(v.items[k], format, depth + 1), Comma(v, k, format) + Items(v, k + 1, format, depth);
    ItemsUnfold(v, k, format, depth);
    AtSplit(c, a, t, rest);
    d := a + |t|;
    ItemEnds(c, v, k, d, format, depth);
    SteadyInner(read, v, k);
    TextStands(read, c, a, v.items[k], format, depth + 1);
    assert ItemAt(read, c, e, v, k, d, a, d);
  }

  /** What stands behind item `k`. */
  lemma {:induction false} ItemEnds(c: seq<Byte>, v: Json, k: nat, d: nat, format: bool, depth: nat)
    requires v.Arr? && k < |v.items| && At(c, d, Comma(v, k, format) + Items(v, k + 1, format, depth))
    ensures d < |c| && Gap(c, d, d) && !NumberChar(c[d])
    ensures var rest := Comma(v, k, format) + Items(v, k + 1, format, depth);
      if k + 1 == |v.items| then c[d] == CLOSE && |rest| == 1
      else c[d] == COMMA && At(c, d + 1, Lead(k + 1, format) + Items(v, k + 1, format, depth))
           && |rest| == 1 + |Lead(k + 1, format) + Items(v, k + 1, format, depth)|
  {
    hide At, Items, Comma;
    AfterItem(v, k, format, depth);
    if k + 1 == |v.items| {
      VisibleHere(c, d, [CLOSE]);
    } else {
      var more := Lead(k + 1, format) + Items(v, k + 1, format, depth);
      Opened(c, d, COMMA, more);
      VisibleHere(c, d, [COMMA] + more);
    }
    AtInside(c, d, Comma(v, k, format) + Items(v, k + 1, format, depth));
  }

  lemma {:induction false} ItemsStart(v: Json, k: nat, format: bool, depth: nat)
    requires v.Arr? && k <= |v.items|
    ensures var t := Items(v, k, format, depth); t != [] && t[0] > 32
  {
    if k < |v.items| {
      TextStarts(v.items[k], format, depth + 1);
    }
  }

  lemma {:induction false} ItemsStand(read: Strtod, c: seq<Byte>, o: nat, v: Json, k: nat, d: nat, format: bool, depth: nat)
    requires v.Arr? && k < |v.items| && Steady(read, v) && Listed(read, c, o, v, k, d) && (k == 0 || (d < |c| && c[d] == COMMA))
    requires At(c, d + 1, Lead(k, format) + Items(v, k, format, depth))
    ensures var p := d + 1 + |Lead(k, format) + Items(v, k, format, depth)|;
      p <= |c| && c[p - 1] == CLOSE && Listed(read, c, o, v, |v.items|, p - 1)
    decreases v, 1, |v.items| - k
  {
    hide At, Text, Items, Stands, Steady, PartAt, Listed, Gap;
    ItemsStart(v, k, format, depth);
    BlankGap(c, d + 1, Lead(k, format), Items(v, k, format, depth));
    var e := ItemStands(read, c, v, k, d, d + 1 + |Lead(k, format)|, format, depth);
    ListedOne(read, c, o, v, k + 1, d, e);
    if k + 1 < |v.items| {
      ItemsStand(read, c, o, v, k + 1, e, format, depth);
    }
  }

  lemma {:induction false} SteadyInner(read: Strtod, v: Json, k: nat)
    requires Nested(v) && k < Count(v) && Steady(read, v)
    ensures Steady(read, PartValue(v, k))
  {}

  // ---------------------------------------------------------------- objects

  function Newline(format: bool): seq<Char> { if format then [NEWLINE] else [] }

  /** What follows the value, and the name, of member `k`. */
  function AfterValue(v: Json, k: nat, format: bool, depth: nat): seq<Char>
    requires v.Obj? && k < |v.members|
  {
    Ending(v, k, format) + Members(v, k + 1, format, depth)
  }

  function AfterName(v: Json, k: nat, format: bool, depth: nat): seq<Char>
    requires v.Obj? && k < |v.members|
  {
    Colon(format) + (Text(v.members[k].value, format, depth + 1) + AfterValue(v, k, format, depth))
  }

  lemma {:induction false} MembersUnfold(v: Json, k: nat, format: bool, depth: nat)
    requires v.Obj? && k <= |v.members|
    ensures Members(v, k, format, depth) ==
      if k == |v.members| then Indent(depth, format) + [END]
      else Indent(depth + 1, format) + (Quoted(v.members[k].name) + AfterName(v, k, format, depth))
  {
    hide Text, Quoted;
    if k < |v.members| {
      Reassociate(Indent(depth + 1, format), Quoted(v.members[k].name), Colon(format),
        Text(v.members[k].value, format, depth + 1), Ending(v, k, format), Members(v, k + 1, format, depth));
    }
  }

  lemma {:induction false} Reassociate(a: seq<Char>, b: seq<Char>, c: seq<Char>, d: seq<Char>, e: seq<Char>, f: seq<Char>)
    ensures (a + (b + (c + (d + e)))) + f == a + (b + (c + (d + (e + f))))
  {
    assert (d + e) + f == d + (e + f);
    assert (c + (d + e)) + f == c + ((d + e) + f);
    assert (b + (c + (d + e))) + f == b + ((c + (d + e)) + f);
    assert (a + (b + (c + (d + e)))) + f == a + ((b + (c + (d + e))) + f);
  }

  lemma {:induction false} ValueEnds(v: Json, k: nat, format: bool, depth: nat)
    requires v.Obj? && k < |v.members|
    ensures AfterValue(v, k, format, depth) ==
      if k + 1 == |v.members| then (Newline(format) + Indent(depth, format)) + [END]
      else [COMMA] + (Newline(format) + Members(v, k + 1, format, depth))
  {
    hide Members;
    MembersUnfold(v, k + 1, format, depth);
  }

  lemma {:induction false} BlankIndent(format: bool, n: nat)
    ensures Blank(Newline(format) + Indent(n, format))
  {}

  lemma {:induction false} QuotedStarts(s: seq<Char>)
    ensures Quoted(s) != [] && Quoted(s)[0] == QUOTE
  {}

  /** From a name at `a` to the value, over the colon. */
  lemma {:induction false} NameStands(c: seq<Byte>, v: Json, k: nat, a: nat, format: bool, depth: nat) returns (b: nat, g: nat)
    requires v.Obj? && k < |v.members| && At(c, a, Quoted(v.members[k].name) + AfterName(v, k, format, depth))
    ensures StandsString(c, a, v.members[k].name, b) && Gap(c, b, b) && c[b] == COLON && Gap(c, b + 1, g)
    ensures var t := Text(v.members[k].value, format, depth + 1) + AfterValue(v, k, format, depth);
      At(c, g, t) && g + |t| == a + |Quoted(v.members[k].name) + AfterName(v, k, format, depth)|
  {
    hide At, Text, Quoted, StandsString, AfterValue;
    var name, t := v.members[k].name, Text(v.members[k].value, format, depth + 1);
    var rest := AfterValue(v, k, format, depth);
    AtSplit(c, a, Quoted(name), AfterName(v, k, format, depth));
    StringStands(c, a, name);
    b := a + |Quoted(name)|;
    var tab: seq<Char> := if format then [TAB] else [];
    assert AfterName(v, k, format, depth) == [COLON] + (tab + (t + rest));
    AtSplit(c, b, [COLON], tab + (t + rest));
    AtHead(c, b, [COLON]);
    AtInside(c, b, [COLON]);
    TextStarts(v.members[k].value, format, depth + 1);
    BlankGap(c, b + 1, tab, t + rest);
    g := b + 1 + |tab|;
  }

  /** From the end of a value to the comma or the closing brace. */
  lemma {:induction false} EndingStands(c: seq<Byte>, v: Json, k: nat, h: nat, format: bool, depth: nat) returns (d: nat)
    requires v.Obj? && k < |v.members| && At(c, h, AfterValue(v, k, format, depth))
    ensures Gap(c, h, d) && !NumberChar(c[h])
    ensures if k + 1 == |v.members| then c[d] == END && d + 1 == h + |AfterValue(v, k, format, depth)|
      else c[d] == COMMA && At(c, d + 1, Newline(format) + Members(v, k + 1, format, depth))
           && d + 1 + |Newline(format) + Members(v, k + 1, format, depth)| == h + |AfterValue(v, k, format, depth)|
  {
    hide At, Members;
    var rest := AfterValue(v, k, format, depth);
    ValueEnds(v, k, format, depth);
    AtHead(c, h, rest);
    if k + 1 == |v.members| {
      BlankIndent(format, depth);
      BlankGap(c, h, Newline(format) + Indent(depth, format), [END]);
      d := h + |Newline(format) + Indent(depth, format)|;
    } else {
      AtSplit(c, h, [COMMA], Newline(format) + Members(v, k + 1, format, depth));
      AtInside(c, h, rest);
      d := h;
    }
  }

  /** From a name at `a` over the colon and the value to the comma or the closing brace. */
  lemma {:induction false} MemberStands(read: Strtod, c: seq<Byte>, v: Json, k: nat, e: nat, a: nat, format: bool, depth: nat) returns (d: nat)
    requires v.Obj? && k < |v.members| && Steady(read, v) && Gap(c, e + 1, a)
    requires At(c, a, Quoted(v.members[k].name) + AfterName(v, k, format, depth))
    ensures PartAt(read, c, e, v, k, d) && d < |c|
    ensures if k + 1 == |v.members| then c[d] == END && d + 1 == a + |Quoted(v.members[k].name) + AfterName(v, k, format, depth)|
      else c[d] == COMMA && At(c, d + 1, Newline(format) + Members(v, k + 1, format, depth))
           && d + 1 + |Newline(format) + Members(v, k + 1, format, depth)| == a + |Quoted(v.members[k].name) + AfterName(v, k, format, depth)|
    decreases v, 0
  {
    hide At, Text, Members, Stands, Steady, Quoted, StandsString, AfterName, AfterValue, Gap;
    var b, g := NameStands(c, v, k, a, format, depth);
    var t := Text(v.members[k].value, format, depth + 1);
    AtSplit(c, g, t, AfterValue(v, k, format, depth));
    var h := g + |t|;
    d := EndingStands(c, v, k, h, format, depth);
    SteadyInner(read, v, k);
    TextStands(read, c, g, v.members[k].value, format, depth + 1);
    GapInside(c, h, d);
    assert MemberAt(read, c, e, v, k, d, a, b, b, g, h);
  }

  lemma {:induction false} GapInside(c: seq<Byte>, a: nat, b: nat)
    requires Gap(c, a, b)
    ensures a <= b < |c| && c[b] > 32
  {}

  lemma {:induction false} MembersStand(read: Strtod, c: seq<Byte>, o: nat, v: Json, k: nat, d: nat, format: bool, depth: nat)
    requires v.Obj? && k < |v.members| && Steady(read, v) && Listed(read, c, o, v, k, d) && (k == 0 || (d < |c| && c[d] == COMMA))
    requires At(c, d + 1, Newline(format) + Members(v, k, format, depth))
    ensures var p := d + 1 + |Newline(format) + Members(v, k, format, depth)|;
      p <= |c| && c[p - 1] == END && Listed(read, c, o, v, |v.members|, p - 1)
    decreases v, 1, |v.members| - k
  {
    hide At, Text, Members, Stands, Steady, Quoted, PartAt, AfterName, Listed, Gap;
    MembersUnfold(v, k, format, depth);
    var blank, t := Newline(format) + Indent(depth + 1, format), Quoted(v.members[k].name) + AfterName(v, k, format, depth);
    assert Newline(format) + Members(v, k, format, depth) == blank + t;
    BlankIndent(format, depth + 1);
    QuotedStarts(v.members[k].name);
    BlankGap(c, d + 1, blank, t);
    var e := MemberStands(read, c, v, k, d, d + 1 + |blank|, format, depth);
    ListedOne(read, c, o, v, k + 1, d, e);
    if k + 1 < |v.members| {
      MembersStand(read, c, o, v, k + 1, e, format, depth);
    }
  }

  // ---------------------------------------------------------------- values

  /** A printed value, wherever it is in a buffer, stands for itself. */
  lemma {:induction false} TextStands(read: Strtod, c: seq<Byte>, o: nat, v: Json, format: bool, depth: nat)
    requires At(c, o, Text(v, format, depth)) && Steady(read, v)
    requires !NumberChar(c[o + |Text(v, format, depth)|])
    ensures Stands(read, c, o, v, o + |Text(v, format, depth)|)
    decreases v, 2
  {
    hide At;
    var t := Text(v, format, depth);
    AtInside(c, o, t);
    match v
    case Null => AtSees(c, o, t, NULL);
    case False => AtSees(c, o, t, FALSE);
    case True => AtSees(c, o, t, TRUE);
    case Num(n) => NumberStands(read, c, o, n);
    case Str(s) => StringStands(c, o, s);
    case Arr(items) => ArrayStands(read, c, o, v, format, depth);
    case Obj(members) => ObjectStands(read, c, o, v, format, depth);
  }

  lemma {:induction false} ArrayStands(read: Strtod, c: seq<Byte>, o: nat, v: Json, format: bool, depth: nat)
    requires v.Arr? && At(c, o, Text(v, format, depth)) && Steady(read, v)
    ensures Stands(read, c, o, v, o + |Text(v, format, depth)|)
    decreases v, 1, |v.items| + 1
  {
    hide At, Items, Steady, Stands, Listed, Gap, Text;
    ArrayText(v, format, depth);
    Opened(c, o, OPEN, Items(v, 0, format, depth));
    AsList(read, c, o, v, o + |Text(v, format, depth)|);
    if v.items == [] {
      ItemsUnfold(v, 0, format, depth);
      VisibleHere(c, o + 1, [CLOSE]);
    } else {
      NoParts(read, c, o, v, 0, o);
      NoLead(v, format, depth);
      ItemsStand(read, c, o, v, 0, o, format, depth);
    }
  }

  /** A bracket and what follows it. */
  lemma {:induction false} Opened(c: seq<Byte>, o: nat, bracket: Char, rest: seq<Char>)
    requires At(c, o, [bracket] + rest)
    ensures c[o] == bracket && At(c, o + 1, rest) && o + 1 + |rest| < |c|
  {
    AtSplit(c, o, [bracket], rest);
    AtHead(c, o, [bracket]);
  }

  lemma {:induction false} VisibleHere(c: seq<Byte>, o: nat, t: seq<Char>)
    requires At(c, o, t) && t != [] && t[0] > 32
    ensures Gap(c, o, o) && c[o] == t[0]
  {
    AtHead(c, o, t);
  }

  lemma {:induction false} NoLead(v: Json, format: bool, depth: nat)
    requires v.Arr?
    ensures Lead(0, format) + Items(v, 0, format, depth) == Items(v, 0, format, depth)
  {}

  lemma {:induction false} ArrayText(v: Json, format: bool, depth: nat)
    requires v.Arr?
    ensures Text(v, format, depth) == [OPEN] + Items(v, 0, format, depth)
  {}

  lemma {:induction false} ObjectText(v: Json, format: bool, depth: nat)
    requires v.Obj?
    ensures Text(v, format, depth) == [BEGIN] + (Newline(format) + Members(v, 0, format, depth))
  {
    hide Members;
  }

  lemma {:induction false} ObjectStands(read: Strtod, c: seq<Byte>, o: nat, v: Json, format: bool, depth: nat)
    requires v.Obj? && At(c, o, Text(v, format, depth)) && Steady(read, v)
    ensures Stands(read, c, o, v, o + |Text(v, format, depth)|)
    decreases v, 1, |v.members| + 1
  {
    hide At, Members, Steady, Stands, Listed, Gap, Text, Newline;
    ObjectText(v, format, depth);
    Opened(c, o, BEGIN, Newline(format) + Members(v, 0, format, depth));
    AsList(read, c, o, v, o + |Text(v, format, depth)|);
    if v.members == [] {
      NoMembers(v, format, depth);
      BlankIndent(format, depth);
      BlankGap(c, o + 1, Newline(format) + Indent(depth, format), [END]);
    } else {
      NoParts(read, c, o, v, 0, o);
      MembersStand(read, c, o, v, 0, o, format, depth);
    }
  }

  lemma {:induction false} NoMembers(v: Json, format: bool, depth: nat)
    requires v.Obj? && v.members == []
    ensures Newline(format) + Members(v, 0, format, depth) == (Newline(format) + Indent(depth, format)) + [END]
  {
    MembersUnfold(v, 0, format, depth);
  }

  // ---------------------------------------------------------------- the layout

  lemma {:induction false} ArrayLayout(format: bool, depth: nat)
    ensures Text(Arr([Null, True]), format, depth) ==
      [OPEN] + Literal(Null) + (if format then [COMMA, SPACE] else [COMMA]) + Literal(True) + [CLOSE]
  {
    var v := Arr([Null, True]);
    ItemsUnfold(v, 2, format, depth);
    ItemsUnfold(v, 1, format, depth);
    ItemsUnfold(v, 0, format, depth);
    assert Text(Null, format, depth + 1) == Literal(Null) && Text(True, format, depth + 1) == Literal(True);
  }

  /** An object with one member: on lines of their own and one tab further in, or without any white space. */
  lemma {:induction false} MemberLayout(name: seq<Char>, w: Json, depth: nat)
    ensures Text(Obj([Member(name, w)]), true, depth) ==
      [BEGIN] + ([NEWLINE] + (Tabs(depth + 1) + (Quoted(name) + ([COLON, TAB] + (Text(w, true, depth + 1) + ([NEWLINE] + (Tabs(depth) + [END])))))))
    ensures Text(Obj([Member(name, w)]), false, depth) == [BEGIN] + (Quoted(name) + ([COLON] + (Text(w, false, depth + 1) + [END])))
  {
    OneMember(Obj([Member(name, w)]), true, depth);
    OneMember(Obj([Member(name, w)]), false, depth);
    hide Text, Quoted, Tabs;
    assert Newline(false) + (Indent(depth + 1, false) + (Quoted(name) + ([COLON] + (Text(w, false, depth + 1) + (Newline(false) + (Indent(depth, false) + [END]))))))
        == Quoted(name) + ([COLON] + (Text(w, false, depth + 1) + [END]));
  }

  lemma {:induction false} OneMember(v: Json, format: bool, depth: nat)
    requires v.Obj? && |v.members| == 1
    ensures Text(v, format, depth) ==
      [BEGIN] + (Newline(format) + (Indent(depth + 1, format) + (Quoted(v.members[0].name) + (Colon(format)
      + (Text(v.members[0].value, format, depth + 1) + (Newline(format) + (Indent(depth, format) + [END])))))))
  {
    var members := Members(v, 0, format, depth);
    assert Text(v, format, depth) == [BEGIN] + (Newline(format) + members);
    MembersUnfold(v, 0, format, depth);
    ValueEnds(v, 0, format, depth);
    hide Text, Quoted, Members, Indent;
    assert (Newline(format) + Indent(depth, format)) + [END] == Newline(format) + (Indent(depth, format) + [END]);
  }
}
