/** The printer of client/json-rpc/cJSON.c:472-528, 828-947, 1268-1339, 1436-1495, 1607-1718 and its output buffer. */
module JsonPrint {
  import opened JsonText

  /** Additional characters that escaping needs. */
  function Extra(c: Char): nat {
    if Letter(c) != 0 then 1 else if c < 32 then 5 else 0
  }

  function Extras(s: seq<Char>): nat {
    if s == [] then 0 else Extras(s[..|s| - 1]) + Extra(s[|s| - 1])
  }

  lemma {:induction false} EscapedJoin(a: seq<Char>, b: seq<Char>)
    ensures Escaped(a + b) == Escaped(a) + Escaped(b)
  {
    if a == [] {
      assert a + b == b;
    } else {
      assert (a + b)[1..] == a[1..] + b;
      EscapedJoin(a[1..], b);
    }
  }

  lemma {:induction false} EscapedNext(s: seq<Char>, i: nat)
    requires i < |s|
    ensures Escaped(s[..i + 1]) == Escaped(s[..i]) + Escape(s[i])
    ensures Extras(s[..i + 1]) == Extras(s[..i]) + Extra(s[i])
  {
    assert s[..i + 1] == s[..i] + [s[i]] && s[..i + 1][..i] == s[..i];
    EscapedJoin(s[..i], [s[i]]);
    assert [s[i]][1..] == [];
    assert Escaped([s[i]]) == Escape(s[i]);
  }

  /** The space reserved is the space needed, and a string that needs no escapes prints as itself. */
  lemma {:induction false} EscapedLength(s: seq<Char>)
    ensures |Escaped(s)| == |s| + Extras(s)
    ensures Extras(s) == 0 ==> Escaped(s) == s
  {
    hide Escaped, Escape, Extra;
    if s == [] {
      Start();
    } else {
      var n := |s| - 1;
      EscapedLength(s[..n]);
      EscapedNext(s, n);
      EscapeLength(s[n]);
      assert s[..n + 1] == s && s == s[..n] + [s[n]];
    }
  }

  lemma {:induction false} EscapeLength(c: Char)
    ensures |Escape(c)| == 1 + Extra(c) && (Extra(c) == 0 ==> Escape(c) == [c])
  {}

  const INT_MAX: nat := 0x7fff_ffff

  class Printer {
    const format: bool
    const noalloc: bool
    var out: seq<Char>      // the text in the buffer
    var length: nat         // the size of the buffer
    var depth: nat

    /** The text and its terminator fit, except in a buffer of size 0 that was never written. */
    ghost predicate Valid()
      reads this
    {
      length <= INT_MAX && (|out| < length || (out == [] && length == 0))
    }

    /** How large the buffer can get. */
    ghost function Room(): nat
      reads this
    {
      if noalloc then length else INT_MAX
    }

    /** `print` starts with 256 bytes, the other entry points with a buffer of the caller's size. */
    constructor (format: bool, noalloc: bool, size: nat)
      requires size <= INT_MAX
      ensures Valid() && out == [] && depth == 0 && length == size && this.format == format && this.noalloc == noalloc
    {
      this.format, this.noalloc, out, length, depth := format, noalloc, [], size, 0;
    }

    /** `ensure` (client/json-rpc/cJSON.c:374-459). */
    method Ensure(needed: nat) returns (ok: bool)
      requires Valid()
      modifies this`length
      ensures Valid() && Room() == old(Room())
      ensures ok <==> |out| + needed + 1 <= Room()
      ensures ok ==> |out| + needed < length
    {
      if (length > 0 && |out| >= length) || needed > INT_MAX {
        return false;
      }
      var total := needed + |out| + 1;
      if total <= length {
        return true;
      }
      if noalloc {
        return false;
      }
      if total > INT_MAX / 2 {
        if total > INT_MAX {
          return false;
        }
        length := INT_MAX;
      } else {
        length := total * 2;
      }
      ok := true;
    }

    /** A write through the output pointer; a byte for the terminator is left. */
    method Write(s: seq<Char>)
      requires Valid() && |out| + |s| < length
      modifies this`out
      ensures Valid() && out == old(out) + s
    {
      out := out + s;
    }

    /** `print_string_ptr`. */
    method PrintString(s: seq<Char>) returns (ok: bool)
      requires Valid()
      modifies this`out, this`length
      ensures Valid() && Room() == old(Room())
      ensures ok <==> |old(out)| + |Quoted(s)| + 2 <= Room()
      ensures ok ==> out == old(out) + Quoted(s)
    {
      hide Escaped, Extras, Escape, Extra;
      var escapes, i := 0, 0;
      Start();
      assert s[..0] == [];
      while i < |s|
        modifies {}
        invariant 0 <= i <= |s| && escapes == Extras(s[..i])
      {
        EscapedNext(s, i);
        escapes := escapes + Extra(s[i]);
        i := i + 1;
      }
      assert s[..i] == s;
      EscapedLength(s);
      ok := Ensure(|s| + escapes + 3);
      if !ok {
        return;
      }
      if escapes == 0 {
        Write([QUOTE] + s + [QUOTE]);
        return;
      }
      CopyEscaped(s);
    }

    /** The copying loop (client/json-rpc/cJSON.c:898-944): it checks nothing, so the space must have been counted right. */
    method CopyEscaped(s: seq<Char>)
      requires Valid() && |out| + |Quoted(s)| < length
      modifies this`out
      ensures Valid() && out == old(out) + Quoted(s)
    {
      hide Escaped, Extras, Escape, Extra;
      ghost var was := out;
      Write([QUOTE]);
      var i := 0;
      Start();
      assert s[..0] == [];
      while i < |s|
        invariant 0 <= i <= |s| && Valid() && out == was + [QUOTE] + Escaped(s[..i])
      {
        EscapedNext(s, i);
        assert s == s[..i + 1] + s[i + 1..];
        EscapedJoin(s[..i + 1], s[i + 1..]);
        PrintChar(s[i]);
        i := i + 1;
      }
      assert s[..i] == s;
      Write([QUOTE]);
    }

    /** The body of the copying loop (client/json-rpc/cJSON.c:902-940). */
    method PrintChar(c: Char)
      requires Valid() && |out| + |Escape(c)| < length
      modifies this`out
      ensures Valid() && out == old(out) + Escape(c)
    {
      if c > 31 && c != QUOTE && c != BACKSLASH {
        Write([c]);
      } else {
        Write([BACKSLASH]);
        match c
        case 92 => Write([92]);
        case 34 => Write([34]);
        case 8 => Write([98]);
        case 12 => Write([102]);
        case 10 => Write([110]);
        case 13 => Write([114]);
        case 9 => Write([116]);
        case _ => Write([117, 48, 48, HexDigit(c / 16), HexDigit(c % 16)]);
      }
    }

    /** `print_value`: it succeeds exactly if the text, its terminator and one more byte fit. */
    method PrintValue(v: Json) returns (ok: bool)
      requires Valid()
      modifies this`out, this`length, this`depth
      ensures Valid() && Room() == old(Room())
      ensures ok <==> |old(out)| + |Text(v, format, old(depth))| + 2 <= Room()
      ensures ok ==> out == old(out) + Text(v, format, old(depth)) && depth == old(depth)
      decreases v, 2
    {
      hide Quoted, Items, Members;
      match v
      case Null => ok := PrintPiece([110, 117, 108, 108], 5);
      case False => ok := PrintPiece([102, 97, 108, 115, 101], 6);
      case True => ok := PrintPiece([116, 114, 117, 101], 5);
      case Num(t) => ok := PrintPiece(t, |t| + 1);
      case Str(s) => ok := PrintString(s);
      case Arr(_) => ok := PrintArray(v);
      case Obj(_) => ok := PrintObject(v);
    }

    /** `ensure` followed by writing `s`, with `needed` bytes asked for. */
    method PrintPiece(s: seq<Char>, needed: nat) returns (ok: bool)
      requires Valid() && |s| <= needed
      modifies this`out, this`length
      ensures Valid() && Room() == old(Room())
      ensures ok <==> |old(out)| + needed + 1 <= Room()
      ensures ok ==> out == old(out) + s
    {
      ok := Ensure(needed);
      if ok {
        Write(s);
      }
    }

    /** `print_array`. */
    method PrintArray(v: Json) returns (ok: bool)
      requires v.Arr? && Valid()
      modifies this`out, this`length, this`depth
      ensures Valid() && Room() == old(Room())
      ensures ok <==> |old(out)| + |Text(v, format, old(depth))| + 2 <= Room()
      ensures ok ==> out == old(out) + Text(v, format, old(depth)) && depth == old(depth)
      decreases v, 1
    {
      hide Text, Items;
      ghost var d := depth;
      ArrText(v, format, d);
      ok := PrintPiece([OPEN], 1);
      if !ok {
        return;
      }
      depth := depth + 1;
      var k := 0;
      while k < |v.items|
        invariant 0 <= k <= |v.items| && depth == d + 1 && Valid() && Room() == old(Room())
        invariant old(out) + Text(v, format, d) == out + Items(v, k, format, d)
      {
        ItemsText(v, k, format, d);
        ok := PrintValue(v.items[k]);
        if !ok {
          return;
        }
        if k + 1 < |v.items| {
          ok := PrintPiece(if format then [COMMA, SPACE] else [COMMA], if format then 3 else 2);
          if !ok {
            return;
          }
        }
        k := k + 1;
      }
      ItemsEnd(v, format, d);
      ok := PrintPiece([CLOSE], 2);
      depth := depth - 1;
    }

    /** `print_object`. */
    method PrintObject(v: Json) returns (ok: bool)
      requires v.Obj? && Valid()
      modifies this`out, this`length, this`depth
      ensures Valid() && Room() == old(Room())
      ensures ok <==> |old(out)| + |Text(v, format, old(depth))| + 2 <= Room()
      ensures ok ==> out == old(out) + Text(v, format, old(depth)) && depth == old(depth)
      decreases v, 1
    {
      hide Text, Members, MemberText, Quoted, Indent;
      ghost var d := depth;
      ObjText(v, format, d);
      ok := PrintPiece(if format then [BEGIN, NEWLINE] else [BEGIN], if format then 3 else 2);
      if !ok {
        return;
      }
      depth := depth + 1;
      var k := 0;
      while k < |v.members|
        invariant 0 <= k <= |v.members| && depth == d + 1 && Valid() && Room() == old(Room())
        invariant old(out) + Text(v, format, d) == out + Members(v, k, format, d)
      {
        MembersText(v, k, format, d);
        ok := PrintMember(v, k);
        if !ok {
          return;
        }
        k := k + 1;
      }
      MembersEnd(v, format, d);
      ok := PrintEnd();
      depth := depth - 1;
    }

    /** The closing brace on a line of its own (client/json-rpc/cJSON.c:1700-1714). */
    method PrintEnd() returns (ok: bool)
      requires Valid() && depth > 0
      modifies this`out, this`length
      ensures Valid() && Room() == old(Room())
      ensures ok <==> |old(out)| + |Indent(depth - 1, format) + [END]| + 2 <= Room()
      ensures ok ==> out == old(out) + (Indent(depth - 1, format) + [END])
    {
      ok := Ensure(if format then depth + 1 else 2);
      if !ok {
        return;
      }
      if format {
        WriteTabs(depth - 1);
      }
      Write([END]);
    }

    /** One turn of the loop of `print_object`. */
    method PrintMember(v: Json, k: nat) returns (ok: bool)
      requires v.Obj? && k < |v.members| && depth > 0 && Valid()
      modifies this`out, this`length, this`depth
      ensures Valid() && Room() == old(Room())
      ensures ok <==> |old(out)| + |MemberText(v, k, format, old(depth) - 1)| + 2 <= Room()
      ensures ok ==> out == old(out) + MemberText(v, k, format, old(depth) - 1) && depth == old(depth)
      decreases v, 0
    {
      hide Text, MemberText, NameText;
      MemberParts(v, k, format, depth - 1);
      ok := PrintName(v.members[k].name);
      if !ok {
        return;
      }
      ok := PrintValue(v.members[k].value);
      if !ok {
        return;
      }
      var comma: seq<Char> := if k + 1 < |v.members| then [COMMA] else [];
      var line: seq<Char> := if format then [NEWLINE] else [];
      ok := PrintPiece(comma + line, |comma + line| + 1);
    }

    /** The indentation, the key and the colon (client/json-rpc/cJSON.c:1636-1668). */
    method PrintName(name: seq<Char>) returns (ok: bool)
      requires Valid()
      modifies this`out, this`length
      ensures Valid() && Room() == old(Room())
      ensures ok <==> |old(out)| + |NameText(name, format, depth)| + 1 <= Room()
      ensures ok ==> out == old(out) + NameText(name, format, depth)
    {
      hide Quoted;
      if format {
        ok := Ensure(depth);
        if !ok {
          return;
        }
        WriteTabs(depth);
      }
      ok := PrintString(name);
      if !ok {
        return;
      }
      ok := PrintPiece(Colon(format), if format then 2 else 1);
    }

    method WriteTabs(n: nat)
      requires Valid() && |out| + n < length
      modifies this`out
      ensures Valid() && out == old(out) + Tabs(n)
    {
      var i := 0;
      while i < n
        invariant 0 <= i <= n && Valid() && out == old(out) + Tabs(i)
      {
        Write([TAB]);
        i := i + 1;
      }
    }
  }

  lemma {:induction false} Start()
    ensures Escaped([]) == [] && Extras([]) == 0
  {}

  function NameText(name: seq<Char>, format: bool, depth: nat): seq<Char> {
    Indent(depth, format) + Quoted(name) + Colon(format)
  }

  lemma {:induction false} MemberParts(v: Json, k: nat, format: bool, depth: nat)
    requires v.Obj? && k < |v.members|
    ensures MemberText(v, k, format, depth)
            == NameText(v.members[k].name, format, depth + 1) + (Text(v.members[k].value, format, depth + 1) + Ending(v, k, format))
  {
    hide Text, Indent, Quoted, Colon, Ending;
  }

  lemma {:induction false} MembersText(v: Json, k: nat, format: bool, depth: nat)
    requires v.Obj? && k < |v.members|
    ensures Members(v, k, format, depth) == MemberText(v, k, format, depth) + Members(v, k + 1, format, depth)
  {
    hide MemberText;
  }

  lemma {:induction false} MembersEnd(v: Json, format: bool, depth: nat)
    requires v.Obj?
    ensures Members(v, |v.members|, format, depth) == Indent(depth, format) + [END]
  {}

  lemma {:induction false} ArrText(v: Json, format: bool, depth: nat)
    requires v.Arr?
    ensures Text(v, format, depth) == [OPEN] + Items(v, 0, format, depth)
  {}

  lemma {:induction false} ObjText(v: Json, format: bool, depth: nat)
    requires v.Obj?
    ensures Text(v, format, depth) == [BEGIN] + (if format then [NEWLINE] else []) + Members(v, 0, format, depth)
  {}

  lemma {:induction false} ItemsText(v: Json, k: nat, format: bool, depth: nat)
    requires v.Arr? && k < |v.items|
    ensures Items(v, k, format, depth) == Text(v.items[k], format, depth + 1) + (Comma(v, k, format) + Items(v, k + 1, format, depth))
  {}

  lemma {:induction false} ItemsEnd(v: Json, format: bool, depth: nat)
    requires v.Arr?
    ensures Items(v, |v.items|, format, depth) == [CLOSE]
  {}
}
