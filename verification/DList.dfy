/** Doubly linked lists as client/block.c keeps them: null-terminated both ways, with a first and a last pointer. */
module DList {
  import opened Common

  const NIL: int := -1

  datatype Cell = Cell(prev: int, next: int)

  function Before(l: seq<nat>, i: nat): int
    requires i < |l|
  {
    if i == 0 then NIL else l[i - 1]
  }

  function After(l: seq<nat>, i: nat): int
    requires i < |l|
  {
    if i == |l| - 1 then NIL else l[i + 1]
  }

  ghost predicate At(cells: map<nat, Cell>, l: seq<nat>, i: nat) {
    i < |l| && l[i] in cells && cells[l[i]] == Cell(Before(l, i), After(l, i))
  }

  /** The pointers spell out `l`, forwards and backwards. */
  ghost predicate Strung(cells: map<nat, Cell>, first: int, last: int, l: seq<nat>) {
    && NoRepeat(l)
    && (forall i :: 0 <= i < |l| ==> At(cells, l, i))
    && first == (if l == [] then NIL else l[0])
    && last == (if l == [] then NIL else l[|l| - 1])
  }

  function Swapped(l: seq<nat>, i: nat): seq<nat>
    requires i + 1 < |l|
  {
    l[i := l[i + 1]][i + 1 := l[i]]
  }

  lemma {:induction false} Spread(cells: map<nat, Cell>, first: int, last: int, l: seq<nat>)
    requires Strung(cells, first, last, l)
    ensures NoRepeat(l)
  {}

  // ---------------------------------------------------------------- pointer writes

  /** `*(k ? &k->next : &first) = v`, as far as the cells are concerned. */
  function SetNext(cells: map<nat, Cell>, k: int, v: int): map<nat, Cell>
    requires k == NIL || (k >= 0 && k in cells)
  {
    if k == NIL then cells else cells[k := cells[k].(next := v)]
  }

  function SetPrev(cells: map<nat, Cell>, k: int, v: int): map<nat, Cell>
    requires k == NIL || (k >= 0 && k in cells)
  {
    if k == NIL then cells else cells[k := cells[k].(prev := v)]
  }

  /** What the pointers around position `i` are. */
  lemma {:induction false} Around(cells: map<nat, Cell>, first: int, last: int, l: seq<nat>, i: nat)
    requires Strung(cells, first, last, l) && i < |l|
    ensures l[i] in cells && cells[l[i]] == Cell(Before(l, i), After(l, i))
    ensures i > 0 ==> Before(l, i) == l[i - 1] && l[i - 1] in cells && l[i - 1] != l[i]
    ensures i + 1 < |l| ==> After(l, i) == l[i + 1] && l[i + 1] in cells && l[i + 1] != l[i]
    ensures 0 < i < |l| - 1 ==> l[i - 1] != l[i + 1]
    ensures first == NIL || first >= 0
    ensures i == 0 ==> Before(l, i) == NIL
    ensures i == |l| - 1 ==> After(l, i) == NIL
  {
    assert At(cells, l, i);
    assert i > 0 ==> At(cells, l, i - 1);
    assert i + 1 < |l| ==> At(cells, l, i + 1);
  }

  /** A cell of the list is found at one position only. */
  lemma {:induction false} Place(l: seq<nat>, i: nat, k: nat)
    requires NoRepeat(l) && i < |l| && k < |l|
    ensures l[k] == l[i] <==> k == i
    ensures l[k] == Before(l, i) <==> k + 1 == i
    ensures l[k] == After(l, i) <==> k == i + 1
  {}

  /** The cells after `next` of `p` and `prev` of `q` are redirected. */
  ghost predicate Patched(m: map<nat, Cell>, n: map<nat, Cell>, p: int, q: int, toP: int, toQ: int) {
    forall x :: x in m ==> x in n && n[x] == Cell(if x == q then toQ else m[x].prev, if x == p then toP else m[x].next)
  }

  lemma {:induction false} Patch(m: map<nat, Cell>, p: int, q: int, toP: int, toQ: int)
    requires (p == NIL || (p >= 0 && p in m)) && (q == NIL || (q >= 0 && q in m))
    ensures q == NIL || q in SetNext(m, p, toP)
    ensures Patched(m, SetPrev(SetNext(m, p, toP), q, toQ), p, q, toP, toQ)
  {}

  lemma {:induction false} RemoveStrung(cells: map<nat, Cell>, first: int, last: int, l: seq<nat>, i: nat, n: map<nat, Cell>)
    requires Strung(cells, first, last, l) && i < |l|
    requires Patched(cells, n, Before(l, i), After(l, i), After(l, i), Before(l, i))
    ensures var p, q := Before(l, i), After(l, i);
      Strung(n, if p == NIL then q else first, if q == NIL then p else last, Removed(l, i))
  {
    var r := Removed(l, i);
    forall k | 0 <= k < |r| ensures At(n, r, k) {
      var o := if k < i then k else k + 1;
      assert r[k] == l[o];
      Place(l, i, o);
      assert At(cells, l, o);
    }
  }

  lemma {:induction false} SwapStrung(cells: map<nat, Cell>, first: int, last: int, l: seq<nat>, j: nat, n: map<nat, Cell>)
    requires Strung(cells, first, last, l) && j + 1 < |l|
    requires var u, v, a, b := l[j], l[j + 1], Before(l, j), After(l, j + 1);
      Patched(cells[v := Cell(a, u)][u := Cell(v, b)], n, a, b, v, u)
    ensures var u, v, a, b := l[j], l[j + 1], Before(l, j), After(l, j + 1);
      Strung(n, if a == NIL then v else first, if b == NIL then u else last, Swapped(l, j))
  {
    hide Patched;
    var w := Swapped(l, j);
    SwapNoRepeat(l, j);
    forall k | 0 <= k < |w| ensures At(n, w, k) {
      SwapPoint(cells, l, j, n, k);
    }
  }

  lemma {:induction false} SwapNoRepeat(l: seq<nat>, j: nat)
    requires NoRepeat(l) && j + 1 < |l|
    ensures NoRepeat(Swapped(l, j)) && |Swapped(l, j)| == |l|
  {}

  lemma {:induction false} SwapPoint(cells: map<nat, Cell>, l: seq<nat>, j: nat, n: map<nat, Cell>, k: nat)
    requires NoRepeat(l) && j + 1 < |l| && k < |l|
    requires forall i :: 0 <= i < |l| ==> At(cells, l, i)
    requires var u, v, a, b := l[j], l[j + 1], Before(l, j), After(l, j + 1);
      Patched(cells[v := Cell(a, u)][u := Cell(v, b)], n, a, b, v, u)
    ensures At(n, Swapped(l, j), k)
  {
    var o := if k == j then j + 1 else if k == j + 1 then j else k;
    assert Swapped(l, j)[k] == l[o];
    assert At(cells, l, o);
    Place(l, j, o);
    Place(l, j + 1, o);
  }

  class List {
    var first: int
    var last: int
    var cells: map<nat, Cell>
    ghost var list: seq<nat>

    ghost predicate Valid()
      reads this
    {
      Strung(cells, first, last, list)
    }

    constructor ()
      ensures Valid() && list == []
    {
      first, last, cells, list := NIL, NIL, map[], [];
    }

    /** `add_ourblock`, and the linking part of `add_orphan`. */
    method Append(x: nat)
      requires Valid() && x !in list
      modifies this
      ensures Valid() && list == old(list) + [x]
    {
      ghost var m, l := cells, list;
      assert l != [] ==> At(m, l, |l| - 1);
      cells := cells[x := Cell(last, NIL)];
      if last != NIL {
        cells := cells[last := cells[last].(next := x)];
      } else {
        first := x;
      }
      last := x;
      list := list + [x];
      forall i | 0 <= i < |list| ensures At(cells, list, i) {
        assert i < |l| ==> At(m, l, i);
      }
    }

    /** The unlinking part of `remove_orphan`. */
    method Unlink(x: nat, ghost i: nat)
      requires Valid() && i < |list| && list[i] == x
      modifies this
      ensures Valid() && list == Removed(old(list), i)
    {
      hide Strung, Patched;
      Around(cells, first, last, list, i);
      ghost var m := cells;
      var prev, next := cells[x].prev, cells[x].next;
      Patch(m, prev, next, next, prev);
      if prev != NIL {
        cells := cells[prev := cells[prev].(next := next)];
      } else {
        first := next;
      }
      if next != NIL {
        cells := cells[next := cells[next].(prev := prev)];
      } else {
        last := prev;
      }
      RemoveStrung(m, old(first), old(last), list, i, cells);
      list := Removed(list, i);
    }

    /** One turn of the first loop of `order_ourblocks_by_amount`: `x` changes places with its predecessor. */
    method MoveUp(x: nat, ghost i: nat)
      requires Valid() && 0 < i < |list| && list[i] == x
      modifies this
      ensures Valid() && list == Swapped(old(list), i - 1)
    {
      hide Strung, Swapped, Patched;
      Around(cells, first, last, list, i);
      Around(cells, first, last, list, i - 1);
      ghost var m, a, b := cells, Before(list, i - 1), After(list, i);
      var ti := cells[x].prev;
      cells := cells[x := cells[x].(prev := cells[ti].prev)];
      cells := cells[ti := cells[ti].(next := cells[x].next)];
      cells := cells[x := cells[x].(next := ti)];
      cells := cells[ti := cells[ti].(prev := x)];
      ghost var c: map<nat, Cell> := m[x := Cell(a, ti)][ti := Cell(x, b)];
      assert cells == c;
      if cells[x].prev != NIL {
        cells := cells[cells[x].prev := cells[cells[x].prev].(next := x)];
      } else {
        first := x;
      }
      if cells[ti].next != NIL {
        cells := cells[cells[ti].next := cells[cells[ti].next].(prev := ti)];
      } else {
        last := ti;
      }
      Patch(c, a, b, x, ti);
      assert cells == SetPrev(SetNext(c, a, x), b, ti);
      SwapStrung(m, old(first), old(last), list, i - 1, cells);
      list := Swapped(list, i - 1);
    }

    /** One turn of the second loop: `x` changes places with its successor. */
    method MoveDown(x: nat, ghost i: nat)
      requires Valid() && i + 1 < |list| && list[i] == x
      modifies this
      ensures Valid() && list == Swapped(old(list), i)
    {
      hide Strung, Swapped, Patched;
      Around(cells, first, last, list, i);
      Around(cells, first, last, list, i + 1);
      ghost var m, a, b := cells, Before(list, i), After(list, i + 1);
      var ti := cells[x].next;
      cells := cells[x := cells[x].(next := cells[ti].next)];
      cells := cells[ti := cells[ti].(prev := cells[x].prev)];
      cells := cells[x := cells[x].(prev := ti)];
      cells := cells[ti := cells[ti].(next := x)];
      ghost var c: map<nat, Cell> := m[ti := Cell(a, x)][x := Cell(ti, b)];
      assert cells == c;
      Rejoin(x, ti);
      SwapStrung(m, old(first), old(last), list, i, cells);
      list := Swapped(list, i);
    }

    /** The neighbours of the exchanged pair are made to point at it (client/block.c:2388-2389). */
    method Rejoin(x: nat, t: nat)
      requires x in cells && t in cells && x != t && cells[t].prev != x && cells[x].next != t
      requires cells[x].next != NIL ==> cells[x].next >= 0 && cells[x].next in cells
      requires cells[t].prev != NIL ==> cells[t].prev >= 0 && cells[t].prev in cells
      modifies this`cells, this`first, this`last
      ensures Patched(old(cells), cells, old(cells[t].prev), old(cells[x].next), t, x)
      ensures first == (if old(cells[t].prev) == NIL then t else old(first))
      ensures last == (if old(cells[x].next) == NIL then x else old(last))
    {
      hide Patched;
      ghost var c, a, b := cells, cells[t].prev, cells[x].next;
      if cells[x].next != NIL {
        cells := cells[cells[x].next := cells[cells[x].next].(prev := x)];
      } else {
        last := x;
      }
      if cells[t].prev != NIL {
        cells := cells[cells[t].prev := cells[cells[t].prev].(next := t)];
      } else {
        first := t;
      }
      Patch(c, a, b, t, x);
      assert cells == SetPrev(SetNext(c, a, t), b, x);
    }
  }
}
