/**
 * The balancing rules of the red-black tree (ldus/rbtree.h) on tree values. The
 * C file holds every routine twice, once for each side; here a `Side` says
 * which of the two is meant.
 */
module RedBlack {
  import opened Common

  /** A node is its address; the key that `lessthan` compares never changes while the node is linked. */
  datatype Id = Id(addr: int, key: int)

  datatype Side = Left | Right

  datatype Tree = Leaf | Node(red: bool, left: Tree, id: Id, right: Tree)

  function Other(s: Side): Side { if s == Left then Right else Left }

  predicate Red(t: Tree) { t.Node? && t.red }

  function Kid(t: Tree, s: Side): Tree
    requires t.Node?
  {
    if s == Left then t.left else t.right
  }

  function WithKid(t: Tree, s: Side, k: Tree): Tree
    requires t.Node?
  {
    if s == Left then t.(left := k) else t.(right := k)
  }

  /** `t` with another node in place of its own and another child on side `s`. */
  function Put(t: Tree, x: Id, s: Side, k: Tree): Tree
    requires t.Node?
  {
    if s == Left then Node(t.red, k, x, t.right) else Node(t.red, t.left, x, k)
  }

  function Painted(t: Tree, red: bool): Tree
    requires t.Node? || !red
  {
    if t.Leaf? then t else t.(red := red)
  }

  // ---------------------------------------------------------------- what a tree must satisfy

  function Ids(t: Tree): set<Id> {
    if t.Leaf? then {} else Ids(t.left) + {t.id} + Ids(t.right)
  }

  /** Number of black nodes on the leftmost path. */
  function BlackHeight(t: Tree): nat {
    if t.Leaf? then 0 else BlackHeight(t.left) + (if t.red then 0 else 1)
  }

  /** No red node has a red child and all paths have the same number of black nodes. */
  predicate Balanced(t: Tree) {
    t.Node? ==>
      && Balanced(t.left) && Balanced(t.right)
      && BlackHeight(t.left) == BlackHeight(t.right)
      && (t.red ==> !Red(t.left) && !Red(t.right))
  }

  ghost predicate Below(t: Tree, key: int) { forall i :: i in Ids(t) ==> i.key < key }

  ghost predicate Above(t: Tree, key: int) { forall i :: i in Ids(t) ==> key < i.key }

  /** Search order. */
  ghost predicate Ordered(t: Tree) {
    t.Node? ==>
      && Ordered(t.left) && Ordered(t.right)
      && Below(t.left, t.id.key) && Above(t.right, t.id.key)
  }

  /** What a whole index tree satisfies between operations. */
  ghost predicate Proper(t: Tree) { Ordered(t) && Balanced(t) && !Red(t) }

  ghost predicate HasKey(t: Tree, key: int) { exists i :: i in Ids(t) && i.key == key }

  // ---------------------------------------------------------------- rotations and balancing

  /** `_rbtree_rotate_left`, `_rbtree_rotate_right`: `t` sinks to side `s`. */
  function Rotate(t: Tree, s: Side): (u: Tree)
    requires t.Node? && Kid(t, Other(s)).Node?
  {
    var n := Kid(t, Other(s));
    WithKid(n, s, WithKid(t, Other(s), Kid(n, s)).(red := n.red)).(red := t.red)
  }

  /** The code by which an insertion reports a red root whose child on side `s` is red too. */
  function Clash(s: Side): int { if s == Left then 2 else 3 }

  /** The nodes `_rbtree_insert_balance_*` dereferences exist. */
  predicate InsertShape(t: Tree, s: Side, res: int) {
    res > 0 ==>
      && t.Node? && Kid(t, s).Node?
      && (res != 1 && res == Clash(Other(s)) && !Red(Kid(t, Other(s))) ==> Kid(Kid(t, s), Other(s)).Node?)
  }

  /** `_rbtree_insert_balance_left`, `_rbtree_insert_balance_right`. */
  function InsertBalance(t: Tree, s: Side, res: int): (Tree, int)
    requires InsertShape(t, s, res)
  {
    if res <= 0 then (t, res)
    else if res == 1 then
      (WithKid(t, s, Painted(Kid(t, s), true)), if !t.red then 0 else Clash(s))
    else if Red(Kid(t, Other(s))) then
      (WithKid(WithKid(t, s, Painted(Kid(t, s), false)), Other(s), Painted(Kid(t, Other(s)), false)), 1)
    else
      var u := if res == Clash(Other(s)) then WithKid(t, s, Rotate(Kid(t, s), s)) else t;
      (Rotate(u, Other(s)), 0)
  }

  /** The nodes the second half of `_rbtree_remove_balance_*` dereferences exist. */
  predicate StepShape(t: Tree, s: Side) {
    t.Node? && Kid(t, Other(s)).Node?
  }

  /** `_rbtree_remove_balance_*` once the sibling of the short side is black. */
  function RemoveStep(t: Tree, s: Side): (Tree, int)
    requires StepShape(t, s)
  {
    var o := Other(s);
    var q := Kid(t, o);
    if !Red(Kid(q, o)) && !Red(Kid(q, s)) then
      var u := WithKid(t, o, Painted(q, true));
      if !t.red then (u, 1) else (Painted(u, false), 0)
    else
      var u := if !Red(Kid(q, o)) then WithKid(t, o, Rotate(q, o)) else t;
      var v := Rotate(u, s);
      (WithKid(v, o, Painted(Kid(v, o), false)), 0)
  }

  predicate RemoveShape(t: Tree, s: Side, res: int) {
    res > 0 ==>
      && StepShape(t, s)
      && (Red(Kid(t, Other(s))) ==> Kid(Kid(t, Other(s)), s).Node?)
  }

  /** `_rbtree_remove_balance_left`, `_rbtree_remove_balance_right`. */
  function RemoveBalance(t: Tree, s: Side, res: int): (Tree, int)
    requires RemoveShape(t, s, res)
  {
    if res <= 0 then (t, res)
    else if Red(Kid(t, Other(s))) then
      var u := Rotate(t, s);
      var r := RemoveStep(Kid(u, s), s);
      (WithKid(u, s, r.0), r.1)
    else RemoveStep(t, s)
  }

  // ---------------------------------------------------------------- what the codes mean

  /** What an insertion may leave of the subtree `t`, by return code. */
  predicate Grown(t: Tree, u: Tree, res: int) {
    match res
    case -1 => u == t
    case 0 => Balanced(u) && BlackHeight(u) == BlackHeight(t) && Red(u) == Red(t)
    case 1 =>
      && !Red(t) && u.Node? && !u.red
      && Balanced(Painted(u, true)) && BlackHeight(u.left) == BlackHeight(t)
    case 2 => RedPair(t, u, Left)
    case 3 => RedPair(t, u, Right)
    case _ => false
  }

  predicate RedPair(t: Tree, u: Tree, s: Side) {
    && Red(t) && Red(u) && Red(Kid(u, s)) && !Red(Kid(u, Other(s)))
    && Balanced(u.left) && Balanced(u.right)
    && BlackHeight(u.left) == BlackHeight(u.right) == BlackHeight(t)
  }

  /** What a removal may leave of the subtree `t`, by return code: 1 reports a missing black node. */
  predicate Shrunk(t: Tree, u: Tree, res: int) {
    match res
    case -1 => u == t
    case 0 => Balanced(u) && BlackHeight(u) == BlackHeight(t) && (Red(u) ==> Red(t))
    case 1 => Balanced(u) && BlackHeight(u) == BlackHeight(t) - 1 && !Red(u)
    case _ => false
  }

  lemma {:induction false} GrownStep(t: Tree, s: Side, k: Tree, res: int)
    requires t.Node? && Balanced(t) && Grown(Kid(t, s), k, res)
    ensures InsertShape(WithKid(t, s, k), s, res)
    ensures var r := InsertBalance(WithKid(t, s, k), s, res); Grown(t, r.0, r.1)
  {}

  lemma {:induction false} PaintBlack(t: Tree)
    requires Balanced(t)
    ensures Balanced(Painted(t, false))
    ensures BlackHeight(Painted(t, false)) == BlackHeight(t) + if Red(t) then 1 else 0
  {}

  /** The second half of the rebalancing, with both children black and side `s` one black node short. */
  lemma {:induction false} StepShrinks(t: Tree, s: Side)
    requires t.Node? && Balanced(t.left) && Balanced(t.right) && !Red(t.left) && !Red(t.right)
    requires BlackHeight(Kid(t, Other(s))) == BlackHeight(Kid(t, s)) + 1
    ensures StepShape(t, s)
    ensures var r := RemoveStep(t, s);
      && Balanced(r.0) && (Red(r.0) ==> t.red) && r.1 in {0, 1}
      && (r.1 == 1 ==> !t.red && !Red(r.0))
      && BlackHeight(r.0) == BlackHeight(Kid(t, Other(s))) + (if t.red then 0 else 1) - r.1
  {
    var q := Kid(t, Other(s));
    PaintBlack(Kid(q, Other(s)));
    PaintBlack(Kid(q, s));
    if s == Left {
      assert q == t.right;
    } else {
      assert q == t.left;
    }
  }

  lemma {:induction false} ShrunkStep(t: Tree, x: Id, s: Side, k: Tree, res: int)
    requires t.Node? && Balanced(t) && Shrunk(Kid(t, s), k, res) && (res == -1 ==> x == t.id)
    ensures RemoveShape(Put(t, x, s, k), s, res)
    ensures var r := RemoveBalance(Put(t, x, s, k), s, res); Shrunk(t, r.0, r.1) && (res >= 0 ==> r.1 >= 0)
  {
    hide RemoveStep;
    var w := Put(t, x, s, k);
    if res == 1 {
      if Red(Kid(t, Other(s))) {
        StepShrinks(Kid(Rotate(w, s), s), s);
      } else {
        StepShrinks(w, s);
      }
    }
  }

  // ---------------------------------------------------------------- the operations

  /** `ldus_rbtree_insert` on the subtree `t`. */
  function Insert(t: Tree, x: Id): (r: (Tree, int))
    requires Balanced(t)
    ensures Grown(t, r.0, r.1)
  {
    if t.Leaf? then (Node(false, Leaf, x, Leaf), 1)
    else if x.key < t.id.key then InsertUnder(t, Left, Insert(t.left, x))
    else if t.id.key < x.key then InsertUnder(t, Right, Insert(t.right, x))
    else (t, -1)
  }

  function InsertUnder(t: Tree, s: Side, k: (Tree, int)): (r: (Tree, int))
    requires t.Node? && Balanced(t) && Grown(Kid(t, s), k.0, k.1)
    ensures Grown(t, r.0, r.1)
  {
    GrownStep(t, s, k.0, k.1);
    InsertBalance(WithKid(t, s, k.0), s, k.1)
  }

  function RemoveUnder(t: Tree, x: Id, s: Side, k: (Tree, int)): (r: (Tree, int))
    requires t.Node? && Balanced(t) && Shrunk(Kid(t, s), k.0, k.1) && (k.1 == -1 ==> x == t.id)
    ensures Shrunk(t, r.0, r.1) && (k.1 >= 0 ==> r.1 >= 0)
  {
    ShrunkStep(t, x, s, k.0, k.1);
    RemoveBalance(Put(t, x, s, k.0), s, k.1)
  }

  /** The outermost node of `t` on side `s`. */
  function End(t: Tree, s: Side): Id
    requires t.Node?
  {
    if Kid(t, s).Node? then End(Kid(t, s), s) else t.id
  }

  /**
   * `t` without its outermost node on side `s`: what `_rbtree_remove_left` (side
   * Right) and `_rbtree_remove_right` (side Left) leave below the node they replace.
   */
  function RemoveEnd(t: Tree, s: Side): (r: (Tree, int))
    requires t.Node? && Balanced(t)
    ensures Shrunk(t, r.0, r.1) && r.1 >= 0
  {
    if Kid(t, s).Node? then
      RemoveUnder(t, t.id, s, RemoveEnd(Kid(t, s), s))
    else
      var u := Kid(t, Other(s));
      PaintBlack(u);
      if t.red then (u, 0) else if Red(u) then (Painted(u, false), 0) else (u, 1)
  }

  /** `ldus_rbtree_remove` on the subtree `t`. */
  function Remove(t: Tree, key: int): (r: (Tree, int))
    requires Balanced(t)
    ensures Shrunk(t, r.0, r.1)
  {
    if t.Leaf? then (t, -1)
    else if key < t.id.key then RemoveUnder(t, t.id, Left, Remove(t.left, key))
    else if t.id.key < key then RemoveUnder(t, t.id, Right, Remove(t.right, key))
    else if t.left.Node? then RemoveUnder(t, End(t.left, Right), Left, RemoveEnd(t.left, Right))
    else if t.right.Node? then RemoveUnder(t, End(t.right, Left), Right, RemoveEnd(t.right, Left))
    else (Leaf, if t.red then 0 else 1)
  }

  // ---------------------------------------------------------------- order and contents

  lemma {:induction false} RotateKeeps(t: Tree, s: Side)
    requires t.Node? && Kid(t, Other(s)).Node?
    ensures Ids(Rotate(t, s)) == Ids(t)
    ensures Ordered(t) ==> Ordered(Rotate(t, s))
  {
    var u := Rotate(t, s);
    if s == Left {
      assert Ids(t) == Ids(t.left) + {t.id} + (Ids(t.right.left) + {t.right.id} + Ids(t.right.right));
      if Ordered(t) {
        assert Ordered(t.right) && t.right.id in Ids(t.right);
        assert Ordered(u.left);
      }
    } else {
      assert Ids(t) == (Ids(t.left.left) + {t.left.id} + Ids(t.left.right)) + {t.id} + Ids(t.right);
      if Ordered(t) {
        assert Ordered(t.left) && t.left.id in Ids(t.left);
        assert Ordered(u.right);
      }
    }
  }

  lemma {:induction false} SwapKid(t: Tree, s: Side, k: Tree)
    requires t.Node? && Ids(k) == Ids(Kid(t, s))
    ensures Ids(WithKid(t, s, k)) == Ids(t)
    ensures Ordered(t) && Ordered(k) ==> Ordered(WithKid(t, s, k))
  {}

  lemma {:induction false} PaintKeeps(t: Tree, red: bool)
    requires t.Node? || !red
    ensures Ids(Painted(t, red)) == Ids(t) && Ordered(Painted(t, red)) == Ordered(t)
  {}

  lemma {:induction false} PaintKid(t: Tree, s: Side, red: bool)
    requires t.Node? && (Kid(t, s).Node? || !red)
    ensures var u := WithKid(t, s, Painted(Kid(t, s), red)); Ids(u) == Ids(t) && (Ordered(t) ==> Ordered(u))
  {
    PaintKeeps(Kid(t, s), red);
    SwapKid(t, s, Painted(Kid(t, s), red));
  }

  lemma {:induction false} InsertBalanceKeeps(t: Tree, s: Side, res: int)
    requires InsertShape(t, s, res) && Ordered(t)
    ensures var u := InsertBalance(t, s, res).0; Ids(u) == Ids(t) && Ordered(u)
  {
    hide Ids, Ordered;
    if res <= 0 {
    } else if res == 1 {
      PaintKid(t, s, true);
    } else if Red(Kid(t, Other(s))) {
      PaintKid(t, s, false);
      PaintKid(WithKid(t, s, Painted(Kid(t, s), false)), Other(s), false);
    } else {
      var u := if res == Clash(Other(s)) then WithKid(t, s, Rotate(Kid(t, s), s)) else t;
      if res == Clash(Other(s)) {
        KidOrdered(t, s);
        RotateKeeps(Kid(t, s), s);
        SwapKid(t, s, Rotate(Kid(t, s), s));
      }
      RotateKeeps(u, Other(s));
    }
  }

  lemma {:induction false} KidOrdered(t: Tree, s: Side)
    requires t.Node? && Ordered(t)
    ensures Ordered(Kid(t, s))
  {}

  lemma {:induction false} RemoveStepKeeps(t: Tree, s: Side)
    requires StepShape(t, s) && Ordered(t)
    ensures var u := RemoveStep(t, s).0; Ids(u) == Ids(t) && Ordered(u)
  {
    hide Ids, Ordered;
    var o := Other(s);
    var q := Kid(t, o);
    if !Red(Kid(q, o)) && !Red(Kid(q, s)) {
      PaintKid(t, o, true);
      PaintKeeps(WithKid(t, o, Painted(q, true)), false);
    } else {
      var u := if !Red(Kid(q, o)) then WithKid(t, o, Rotate(q, o)) else t;
      if !Red(Kid(q, o)) {
        KidOrdered(t, o);
        RotateKeeps(q, o);
        SwapKid(t, o, Rotate(q, o));
      }
      RotateKeeps(u, s);
      PaintKid(Rotate(u, s), o, false);
    }
  }

  lemma {:induction false} RemoveBalanceKeeps(t: Tree, s: Side, res: int)
    requires RemoveShape(t, s, res) && Ordered(t)
    ensures var u := RemoveBalance(t, s, res).0; Ids(u) == Ids(t) && Ordered(u)
  {
    hide Ids, Ordered, RemoveStep;
    if res <= 0 {
    } else if Red(Kid(t, Other(s))) {
      var u := Rotate(t, s);
      RotateKeeps(t, s);
      KidOrdered(u, s);
      RemoveStepKeeps(Kid(u, s), s);
      SwapKid(u, s, RemoveStep(Kid(u, s), s).0);
    } else {
      RemoveStepKeeps(t, s);
    }
  }

  /**
   * Insertion adds exactly the node, unless its key is present: then it reports
   * -1 and changes nothing.
   */
  lemma {:induction false} InsertContents(t: Tree, x: Id)
    requires Balanced(t) && Ordered(t)
    ensures var r := Insert(t, x);
      && Ordered(r.0)
      && (r.1 == -1 <==> HasKey(t, x.key))
      && Ids(r.0) == if r.1 == -1 then Ids(t) else Ids(t) + {x}
  {
    if t.Leaf? {
    } else if x.key < t.id.key {
      InsertContents(t.left, x);
      InsertUnderContents(t, Left, x, Insert(t.left, x));
      assert HasKey(t, x.key) <==> HasKey(t.left, x.key);
    } else if t.id.key < x.key {
      InsertContents(t.right, x);
      InsertUnderContents(t, Right, x, Insert(t.right, x));
      assert HasKey(t, x.key) <==> HasKey(t.right, x.key);
    } else {
      assert t.id in Ids(t);
    }
  }

  lemma {:induction false} InsertUnderContents(t: Tree, s: Side, x: Id, k: (Tree, int))
    requires t.Node? && Balanced(t) && Ordered(t)
    requires Grown(Kid(t, s), k.0, k.1) && Ordered(k.0)
    requires Ids(k.0) == if k.1 == -1 then Ids(Kid(t, s)) else Ids(Kid(t, s)) + {x}
    requires if s == Left then x.key < t.id.key else t.id.key < x.key
    ensures var r := InsertUnder(t, s, k);
      && Ordered(r.0) && (r.1 == -1 <==> k.1 == -1)
      && Ids(r.0) == if r.1 == -1 then Ids(t) else Ids(t) + {x}
  {
    GrownStep(t, s, k.0, k.1);
    assert Ordered(WithKid(t, s, k.0));
    InsertBalanceKeeps(WithKid(t, s, k.0), s, k.1);
  }

  lemma {:induction false} EndIsExtreme(t: Tree, s: Side)
    requires t.Node? && Ordered(t)
    ensures End(t, s) in Ids(t)
    ensures forall i :: i in Ids(t) ==> i == End(t, s) || (if s == Right then i.key < End(t, s).key else End(t, s).key < i.key)
  {
    if Kid(t, s).Node? {
      EndIsExtreme(Kid(t, s), s);
    }
  }

  lemma {:induction false} RemoveUnderContents(t: Tree, x: Id, s: Side, k: (Tree, int))
    requires t.Node? && Balanced(t) && Shrunk(Kid(t, s), k.0, k.1) && (k.1 == -1 ==> x == t.id)
    requires Ordered(Put(t, x, s, k.0))
    ensures var r := RemoveUnder(t, x, s, k);
      && Ordered(r.0) && (r.1 == -1 <==> k.1 == -1)
      && Ids(r.0) == Ids(k.0) + {x} + Ids(Kid(t, Other(s)))
  {
    ShrunkStep(t, x, s, k.0, k.1);
    RemoveBalanceKeeps(Put(t, x, s, k.0), s, k.1);
  }

  lemma {:induction false} RemoveEndContents(t: Tree, s: Side)
    requires t.Node? && Balanced(t) && Ordered(t)
    ensures Ordered(RemoveEnd(t, s).0) && Ids(RemoveEnd(t, s).0) == Ids(t) - {End(t, s)}
  {
    hide Balanced, BlackHeight;
    var c := Kid(t, s);
    if c.Node? {
      BalancedKid(t, s);
      RemoveEndContents(c, s);
      EndIsExtreme(c, s);
      RemoveUnderContents(t, t.id, s, RemoveEnd(c, s));
    } else {
      PaintKeeps(Kid(t, Other(s)), false);
    }
  }

  lemma {:induction false} BalancedKid(t: Tree, s: Side)
    requires t.Node? && Balanced(t)
    ensures Balanced(Kid(t, s))
  {}

  /**
   * Removal takes out exactly the nodes with the key; without such a node it
   * reports -1 and changes nothing.
   */
  lemma {:induction false} RemoveContents(t: Tree, key: int)
    requires Balanced(t) && Ordered(t)
    ensures var r := Remove(t, key);
      && Ordered(r.0)
      && (r.1 == -1 <==> !HasKey(t, key))
      && Ids(r.0) == Without(t, key)
  {
    if t.Leaf? {
    } else if key < t.id.key {
      RemoveContents(t.left, key);
      RemoveInKid(t, Left, key, Remove(t.left, key));
    } else if t.id.key < key {
      RemoveContents(t.right, key);
      RemoveInKid(t, Right, key, Remove(t.right, key));
    } else {
      assert t.id in Ids(t);
      if t.left.Node? {
        ReplaceNode(t, Left);
      } else if t.right.Node? {
        ReplaceNode(t, Right);
      }
    }
  }

  ghost function Without(t: Tree, key: int): set<Id> { set i | i in Ids(t) && i.key != key }

  lemma {:induction false} RemoveInKid(t: Tree, s: Side, key: int, k: (Tree, int))
    requires t.Node? && Balanced(t) && Ordered(t) && Shrunk(Kid(t, s), k.0, k.1)
    requires Ordered(k.0) && (k.1 == -1 <==> !HasKey(Kid(t, s), key)) && Ids(k.0) == Without(Kid(t, s), key)
    requires if s == Left then key < t.id.key else t.id.key < key
    ensures var r := RemoveUnder(t, t.id, s, k);
      && Ordered(r.0)
      && (r.1 == -1 <==> !HasKey(t, key))
      && Ids(r.0) == Without(t, key)
  {
    hide Balanced, BlackHeight, Shrunk;
    RemoveUnderContents(t, t.id, s, k);
    assert HasKey(t, key) <==> HasKey(Kid(t, s), key);
    assert Without(t, key) == Without(Kid(t, s), key) + {t.id} + Ids(Kid(t, Other(s)));
  }

  /** The root gives way to its neighbour in key order on side `s`. */
  lemma {:induction false} ReplaceNode(t: Tree, s: Side)
    requires t.Node? && Balanced(t) && Ordered(t) && Kid(t, s).Node?
    ensures var r := RemoveUnder(t, End(Kid(t, s), Other(s)), s, RemoveEnd(Kid(t, s), Other(s)));
      && Ordered(r.0) && r.1 != -1
      && Ids(r.0) == Without(t, t.id.key)
  {
    hide Balanced, BlackHeight, Shrunk, Ordered, Ids, End, RemoveEnd, RemoveUnder, Without;
    var c := Kid(t, s);
    var x := End(c, Other(s));
    BalancedKid(t, s);
    KidOrdered(t, s);
    EndIsExtreme(c, Other(s));
    RemoveEndContents(c, Other(s));
    NeighbourFits(t, x, s, RemoveEnd(c, Other(s)).0);
    RemoveUnderContents(t, x, s, RemoveEnd(c, Other(s)));
  }

  lemma {:induction false} NeighbourFits(t: Tree, x: Id, s: Side, k: Tree)
    requires t.Node? && Ordered(t) && Ordered(k) && x in Ids(Kid(t, s)) && Ids(k) == Ids(Kid(t, s)) - {x}
    requires forall i :: i in Ids(Kid(t, s)) ==> i == x || (if s == Left then i.key < x.key else x.key < i.key)
    ensures Ordered(Put(t, x, s, k))
    ensures Ids(k) + {x} + Ids(Kid(t, Other(s))) == Without(t, t.id.key)
  {
    assert Ids(k) + {x} == Ids(Kid(t, s));
  }

  // ---------------------------------------------------------------- depth

  function Depth(t: Tree): nat {
    if t.Leaf? then 0
    else 1 + (if Depth(t.left) > Depth(t.right) then Depth(t.left) else Depth(t.right))
  }

  /**
   * A proper tree of n nodes is at most 2*log2(n + 1) deep, which bounds the
   * recursion of every operation.
   */
  lemma {:induction false} DepthIsLogarithmic(t: Tree)
    requires Balanced(t) && Ordered(t)
    ensures Depth(t) <= 2 * BlackHeight(t) + if Red(t) then 1 else 0
    ensures Pow2(BlackHeight(t)) <= |Ids(t)| + 1
  {
    hide Ids;
    if t.Leaf? {
      LeafIds(t);
    }
    if t.Node? {
      DepthIsLogarithmic(t.left);
      DepthIsLogarithmic(t.right);
      CountNodes(t);
    }
  }

  lemma {:induction false} LeafIds(t: Tree)
    requires t.Leaf?
    ensures Ids(t) == {}
  {}

  lemma {:induction false} CountNodes(t: Tree)
    requires Ordered(t) && t.Node?
    ensures |Ids(t)| == |Ids(t.left)| + 1 + |Ids(t.right)|
  {
    assert Ids(t.left) !! {t.id} && Ids(t.left) + {t.id} !! Ids(t.right);
  }
}
