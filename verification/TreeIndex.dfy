/**
 * The red-black tree as the C code keeps it: nodes with a `left` and a `right`
 * field, each holding a pointer whose low bit is the colour of the node pointed
 * to, changed in place through pointers to such fields (ldus/rbtree.h).
 */
module TreeIndex {
  import opened RedBlack

  /** A tagged pointer. */
  datatype Ptr = Nil | To(node: Id, red: bool)

  /** A place that holds a pointer: the caller's root variable or a field of a node. */
  datatype Loc = Root | Child(of: Id, side: Side)

  type Memory = map<Loc, Ptr>

  predicate IsRed(p: Ptr) { p.To? && p.red }

  /** `_rbtree_set_color`; a null pointer with the colour bit set never arises. */
  function SetColor(p: Ptr, red: bool): Ptr
    requires p.To? || !red
  {
    if p.Nil? then p else p.(red := red)
  }

  /** The place `p` is the root of a linked structure that spells out `t`. */
  ghost predicate Holds(m: Memory, p: Loc, t: Tree)
    decreases t
  {
    && p in m
    && match t
       case Leaf => m[p] == Nil
       case Node(red, l, id, r) =>
         m[p] == To(id, red) && Holds(m, Child(id, Left), l) && Holds(m, Child(id, Right), r)
  }

  ghost predicate Outside(p: Loc, ids: set<Id>) { p.Child? ==> p.of !in ids }

  ghost predicate Placed(m: Memory, p: Loc, t: Tree) {
    p in m && Holds(m, p, t) && Ordered(t) && Outside(p, Ids(t))
  }

  /** Only `p` and the fields of `ids` may differ. */
  ghost predicate Frame(m: Memory, n: Memory, p: Loc, ids: set<Id>) {
    forall k :: k in m && k != p && Outside(k, ids) ==> k in n && n[k] == m[k]
  }

  // ---------------------------------------------------------------- what a write leaves alone

  /** A structure survives writes elsewhere, and may be hung up at another place. */
  lemma {:induction false} Moved(m: Memory, p: Loc, n: Memory, q: Loc, t: Tree)
    requires Holds(m, p, t) && q in n && n[q] == m[p]
    requires forall k :: k in m && !Outside(k, Ids(t)) ==> k in n && n[k] == m[k]
    ensures Holds(n, q, t)
    decreases t
  {
    if t.Node? {
      Moved(m, Child(t.id, Left), n, Child(t.id, Left), t.left);
      Moved(m, Child(t.id, Right), n, Child(t.id, Right), t.right);
    }
  }

  lemma {:induction false} Apart(t: Tree)
    requires t.Node? && Ordered(t)
    ensures t.id !in Ids(t.left) && t.id !in Ids(t.right) && Ids(t.left) !! Ids(t.right)
  {}

  lemma {:induction false} KidPlaced(m: Memory, p: Loc, t: Tree, s: Side)
    requires Placed(m, p, t) && t.Node?
    ensures p in m && Child(t.id, s) in m
    ensures Placed(m, Child(t.id, s), Kid(t, s)) && m[p] == To(t.id, t.red) && p != Child(t.id, s)
    ensures Ids(t) == Ids(Kid(t, s)) + {t.id} + Ids(Kid(t, Other(s)))
    ensures t.id !in Ids(Kid(t, s)) && Ids(Kid(t, s)) !! Ids(Kid(t, Other(s)))
    ensures m[Child(t.id, s)].To? == Kid(t, s).Node? && IsRed(m[Child(t.id, s)]) == Red(Kid(t, s))
  {
    assert Holds(m, Child(t.id, s), Kid(t, s));
    Apart(t);
  }

  lemma {:induction false} NodeHolds(m: Memory, p: Loc, t: Tree, s: Side)
    requires t.Node? && p in m && m[p] == To(t.id, t.red)
    requires Holds(m, Child(t.id, s), Kid(t, s)) && Holds(m, Child(t.id, Other(s)), Kid(t, Other(s)))
    ensures Holds(m, p, t)
  {}

  /** A change confined to one child of a placed node, seen from the node. */
  lemma {:induction false} KidChanged(m: Memory, n: Memory, p: Loc, t: Tree, s: Side, k: Tree, ids: set<Id>)
    requires Placed(m, p, t) && t.Node? && p in n && n[p] == m[p]
    requires Holds(n, Child(t.id, s), k) && Frame(m, n, Child(t.id, s), ids)
    requires t.id !in ids && ids !! Ids(Kid(t, Other(s)))
    ensures Holds(n, p, WithKid(t, s, k))
  {
    hide Ordered, Ids;
    KidPlaced(m, p, t, s);
    KidPlaced(m, p, t, Other(s));
    var q := Child(t.id, Other(s));
    assert Outside(q, ids) && q != Child(t.id, s);
    Moved(m, q, n, q, Kid(t, Other(s)));
  }

  lemma {:induction false} PaintedHolds(m: Memory, p: Loc, t: Tree, red: bool)
    requires Placed(m, p, t) && (t.Node? || !red)
    ensures Placed(m[p := SetColor(m[p], red)], p, Painted(t, red))
    ensures Ids(Painted(t, red)) == Ids(t)
  {
    var n := m[p := SetColor(m[p], red)];
    PaintKeeps(t, red);
    if t.Node? {
      Moved(m, Child(t.id, Left), n, Child(t.id, Left), t.left);
      Moved(m, Child(t.id, Right), n, Child(t.id, Right), t.right);
    }
  }

  lemma {:induction false} FrameTwo(m: Memory, p: Loc, v: Ptr, q: Loc, w: Ptr, r: Loc, x: Ptr, ids: set<Id>)
    requires !Outside(q, ids) && !Outside(r, ids)
    ensures Frame(m, m[p := v][q := w][r := x], p, ids)
  {}

  lemma {:induction false} FrameJoin(m: Memory, n: Memory, o: Memory, p: Loc, q: Loc, big: set<Id>, small: set<Id>)
    requires Frame(m, n, p, big) && Frame(n, o, q, small) && small <= big
    requires q == p || !Outside(q, big)
    ensures Frame(m, o, p, big)
  {
    forall k | k in m && k != p && Outside(k, big) ensures k in o && o[k] == m[k] {
      assert Outside(k, small) && k != q;
    }
  }

  /** Recolouring a child, seen from the node. */
  lemma {:induction false} KidPainted(m: Memory, p: Loc, t: Tree, s: Side, red: bool)
    requires Placed(m, p, t) && t.Node? && (Kid(t, s).Node? || !red)
    ensures Child(t.id, s) in m && (m[Child(t.id, s)].To? || !red)
    ensures var c := Child(t.id, s); var n := m[c := SetColor(m[c], red)];
      && Placed(n, p, WithKid(t, s, Painted(Kid(t, s), red)))
      && Frame(m, n, p, Ids(t)) && n[p] == m[p]
      && Ids(WithKid(t, s, Painted(Kid(t, s), red))) == Ids(t)
  {
    hide Ordered, Ids;
    var c := Child(t.id, s);
    KidPlaced(m, p, t, s);
    var n := m[c := SetColor(m[c], red)];
    PaintedHolds(m, c, Kid(t, s), red);
    KidChanged(m, n, p, t, s, Painted(Kid(t, s), red), {});
    PaintKid(t, s, red);
  }

  lemma {:induction false} LeafPlaced(m: Memory, p: Loc, t: Tree)
    requires Holds(m, p, t) && m[p].Nil?
    ensures t == Leaf && Ids(t) == {}
  {}

  lemma {:induction false} NodePlaced(m: Memory, p: Loc, t: Tree)
    requires Holds(m, p, t) && m[p].To?
    ensures t.Node? && m[p] == To(t.id, t.red)
  {}

  lemma {:induction false} SingleHolds(m: Memory, p: Loc, x: Id)
    requires p in m && m[p] == To(x, false) && Outside(p, {x})
    requires Child(x, Left) in m && Child(x, Right) in m && m[Child(x, Left)] == m[Child(x, Right)] == Nil
    ensures Placed(m, p, Node(false, Leaf, x, Leaf))
  {}

  /** A node whose child on side `s` was replaced by `k`, after an insertion of `x` below it. */
  lemma {:induction false} InsertedBelow(m: Memory, n: Memory, p: Loc, t: Tree, s: Side, x: Id, k: Tree)
    requires Placed(m, p, t) && t.Node? && Outside(p, {x})
    requires if s == Left then x.key < t.id.key else t.id.key < x.key
    requires Placed(n, Child(t.id, s), k) && Frame(m, n, Child(t.id, s), Ids(Kid(t, s)) + {x})
    requires Ids(k) <= Ids(Kid(t, s)) + {x}
    ensures Placed(n, p, WithKid(t, s, k)) && Ids(WithKid(t, s, k)) <= Ids(t) + {x}
    ensures Frame(m, n, p, Ids(t) + {x})
  {
    KidPlaced(m, p, t, s);
    var ids := Ids(Kid(t, s)) + {x};
    assert ids !! Ids(Kid(t, Other(s))) && t.id !in ids;
    assert Outside(p, ids);
    KidChanged(m, n, p, t, s, k, ids);
  }

  // ---------------------------------------------------------------- replacing a node by its neighbour

  /**
   * The subtree `t` at `p` lies below the child on side Other(s) of the node at
   * `pnode`, either as that child itself or deeper.
   */
  ghost predicate Replaceable(m: Memory, p: Loc, pnode: Loc, s: Side, t: Tree) {
    && pnode in m && m[pnode].To? && pnode != p && Outside(pnode, Ids(t) + {m[pnode].node})
    && var node := m[pnode].node;
    && node !in Ids(t) && Child(node, Left) in m && Child(node, Right) in m
    && (p != Child(node, Other(s)) ==>
          && Outside(p, {node}) && m[Child(node, Other(s))].To?
          && m[Child(node, Other(s))].node !in Ids(t))
  }

  /** The place of the shortened subtree once `x` has replaced `node`. */
  function Place(p: Loc, node: Id, x: Id, s: Side): Loc {
    if p == Child(node, Other(s)) then Child(x, Other(s)) else p
  }

  /**
   * The outermost node `x` of `t` stands at `pnode` with the colour and the
   * children of the node that stood there, and `u` is what is left of `t`.
   */
  ghost predicate Replaced(m: Memory, n: Memory, p: Loc, pnode: Loc, s: Side, t: Tree, u: Tree)
    requires t.Node? && pnode in m && m[pnode].To?
  {
    var x, node := End(t, s), m[pnode].node;
    && x in Ids(t) && Ids(u) == Ids(t) - {x}
    && Child(node, s) in m && Child(node, Other(s)) in m
    && pnode in n && n[pnode] == To(x, IsRed(m[pnode]))
    && Placed(n, Place(p, node, x, s), u)
    && Child(x, s) in n && n[Child(x, s)] == m[Child(node, s)]
    && (p != Child(node, Other(s)) ==>
          Child(x, Other(s)) in n && n[Child(x, Other(s))] == m[Child(node, Other(s))])
    && (forall k :: k in m && k != p && k != pnode && Outside(k, Ids(t)) ==> k in n && n[k] == m[k])
  }

  lemma {:induction false} EndInside(t: Tree, s: Side)
    requires t.Node? && Ordered(t)
    ensures End(t, s) in Ids(t)
  {
    EndIsExtreme(t, s);
  }

  /** The pointer writes that replace the node by `t`'s own root, place by place. */
  ghost predicate Spliced(m: Memory, n: Memory, p: Loc, pnode: Loc, s: Side, x: Id)
    requires pnode in m && m[pnode].To?
  {
    var o, node := Other(s), m[pnode].node;
    && Child(x, o) in m && Child(node, Left) in m && Child(node, Right) in m
    && p in n && n[p] == m[Child(x, o)]
    && Child(x, o) in n && n[Child(x, o)] == m[if p == Child(node, o) then Child(x, o) else Child(node, o)]
    && Child(x, s) in n && n[Child(x, s)] == m[Child(node, s)]
    && pnode in n && n[pnode] == To(x, IsRed(m[pnode]))
    && (forall k :: k in m && k != p && k != pnode && Outside(k, {x}) ==> k in n && n[k] == m[k])
  }

  lemma {:induction false} SpliceWrites(m: Memory, p: Loc, pnode: Loc, s: Side, x: Id)
    requires pnode in m && m[pnode].To? && pnode != p && Outside(pnode, {x, m[pnode].node})
    requires Child(x, Other(s)) in m && Child(m[pnode].node, Left) in m && Child(m[pnode].node, Right) in m
    requires x != m[pnode].node && Outside(p, {x}) && p != Child(m[pnode].node, s)
    ensures var o, node := Other(s), m[pnode].node;
      var a := m[p := m[Child(x, o)]];
      var b := a[Child(x, o) := a[Child(node, o)]];
      Spliced(m, b[Child(x, s) := b[Child(node, s)]][pnode := To(x, IsRed(m[pnode]))], p, pnode, s, x)
  {}

  /** When `t`'s root is its outermost node, those writes replace the node by it. */
  lemma {:induction false} ReplacedEnd(m: Memory, n: Memory, p: Loc, pnode: Loc, s: Side, t: Tree)
    requires t.Node? && Placed(m, p, t) && Replaceable(m, p, pnode, s, t) && Kid(t, s).Leaf?
    requires Spliced(m, n, p, pnode, s, t.id)
    ensures Replaced(m, n, p, pnode, s, t, Kid(t, Other(s)))
    ensures Placed(n, Place(p, m[pnode].node, t.id, s), Kid(t, Other(s)))
  {
    hide Ordered, Ids, Holds;
    var o, node := Other(s), m[pnode].node;
    KidPlaced(m, p, t, s);
    KidPlaced(m, p, t, o);
    LeafIds(Kid(t, s));
    Moved(m, Child(t.id, o), n, Place(p, node, t.id, s), Kid(t, o));
  }

  /** Comparing the values of the two fields tells whether the subtree hung directly below the node. */
  lemma {:induction false} SplicedPlace(m: Memory, n: Memory, p: Loc, pnode: Loc, s: Side, t: Tree)
    requires t.Node? && Placed(m, p, t) && Replaceable(m, p, pnode, s, t) && Kid(t, Other(s)).Node?
    requires Spliced(m, n, p, pnode, s, t.id)
    ensures n[p] == n[Child(t.id, Other(s))] <==> p == Child(m[pnode].node, Other(s))
  {
    hide Ordered, Ids, Holds;
    var o := Other(s);
    KidPlaced(m, p, t, o);
    KidPlaced(m, Child(t.id, o), Kid(t, o), Left);
  }

  /** Replacement in the child on side `s`, seen from the root of `t`. */
  lemma {:induction false} ReplacedBelow(m: Memory, n: Memory, p: Loc, pnode: Loc, s: Side, t: Tree, k: Tree)
    requires t.Node? && Placed(m, p, t) && Replaceable(m, p, pnode, s, t) && Kid(t, s).Node?
    requires Replaced(m, n, Child(t.id, s), pnode, s, Kid(t, s), k)
    ensures Replaced(m, n, p, pnode, s, t, WithKid(t, s, k))
  {
    hide Ordered, Ids, Holds;
    var o, node, x := Other(s), m[pnode].node, End(t, s);
    KidPlaced(m, p, t, s);
    KidPlaced(m, p, t, o);
    var q, r := Place(p, node, x, s), Child(t.id, o);
    assert Place(Child(t.id, s), node, x, s) == Child(t.id, s);
    Moved(m, r, n, r, Kid(t, o));
    NodeHolds(n, q, WithKid(t, s, k), s);
    FewerOrdered(t, s, k);
  }

  lemma {:induction false} FewerOrdered(t: Tree, s: Side, k: Tree)
    requires t.Node? && Ordered(t) && Ordered(k) && Ids(k) <= Ids(Kid(t, s))
    ensures Ordered(WithKid(t, s, k)) && Ids(WithKid(t, s, k)) == Ids(k) + {t.id} + Ids(Kid(t, Other(s)))
  {}

  /** Rebalancing or recolouring what is left of `t` keeps the replacement in place. */
  lemma {:induction false} ReplacedBalanced(m: Memory, n: Memory, o: Memory, p: Loc, pnode: Loc, s: Side, t: Tree, u: Tree, v: Tree)
    requires t.Node? && Placed(m, p, t) && Replaceable(m, p, pnode, s, t) && Replaced(m, n, p, pnode, s, t, u)
    requires var q := Place(p, m[pnode].node, End(t, s), s); Frame(n, o, q, Ids(u)) && Placed(o, q, v)
    requires Ids(v) == Ids(u)
    ensures Replaced(m, o, p, pnode, s, t, v)
  {
    hide Ordered, Ids, Holds, End;
  }

  /** The replacement at the root of `t` itself. */
  lemma {:induction false} NodeReplaced(m: Memory, n: Memory, p: Loc, s: Side, t: Tree, k: Tree)
    requires t.Node? && Placed(m, p, t) && Kid(t, s).Node?
    requires m[p] == To(t.id, t.red) && Replaced(m, n, Child(t.id, s), p, Other(s), Kid(t, s), k)
    ensures var x := End(Kid(t, s), Other(s));
      Placed(n, p, Put(t, x, s, k)) && Ids(Put(t, x, s, k)) <= Ids(t) && Frame(m, n, p, Ids(t))
  {
    hide Ordered, Ids, Holds, End;
    var o := Other(s);
    var x := End(Kid(t, s), o);
    KidPlaced(m, p, t, s);
    KidPlaced(m, p, t, o);
    KidOrdered(t, s);
    EndIsExtreme(Kid(t, s), o);
    Moved(m, Child(t.id, o), n, Child(x, o), Kid(t, o));
    NodeHolds(n, p, Put(t, x, s, k), s);
    NeighbourFits(t, x, s, k);
    PutIds(t, x, s, k);
  }

  lemma {:induction false} PutIds(t: Tree, x: Id, s: Side, k: Tree)
    requires t.Node?
    ensures Ids(Put(t, x, s, k)) == Ids(k) + {x} + Ids(Kid(t, Other(s)))
  {}

  lemma {:induction false} LeafHolds(m: Memory, p: Loc)
    requires p in m && m[p] == Nil
    ensures Placed(m, p, Leaf)
  {}

  // ---------------------------------------------------------------- in-order walk

  function InOrder(t: Tree): seq<Id> {
    if t.Leaf? then [] else InOrder(t.left) + [t.id] + InOrder(t.right)
  }

  /** The walk order is strictly increasing in key and meets every node. */
  lemma {:induction false} InOrderSorted(t: Tree)
    requires Ordered(t)
    ensures forall i :: i in InOrder(t) <==> i in Ids(t)
    ensures forall i, j :: 0 <= i < j < |InOrder(t)| ==> InOrder(t)[i].key < InOrder(t)[j].key
  {
    if t.Node? {
      InOrderSorted(t.left);
      InOrderSorted(t.right);
      var l, r := InOrder(t.left), InOrder(t.right);
      assert forall i :: 0 <= i < |l| ==> l[i] in Ids(t.left);
      assert forall i :: 0 <= i < |r| ==> r[i] in Ids(t.right);
    }
  }

  // ---------------------------------------------------------------- the code

  /** The memory `n` after the three writes of a rotation holds the rotated tree. */
  lemma {:induction false} Turned(m: Memory, p: Loc, s: Side, t: Tree, n: Memory)
    requires Placed(m, p, t) && t.Node? && Kid(t, Other(s)).Node?
    requires var root, node := t.id, Kid(t, Other(s)).id;
             && Child(root, Other(s)) in m && Child(node, s) in m
             && n == m[p := To(node, t.red)][Child(root, Other(s)) := m[Child(node, s)]][Child(node, s) := To(root, Kid(t, Other(s)).red)]
    ensures Holds(n, p, Rotate(t, s))
  {
    hide Ordered, Ids, Holds;
    var o := Other(s);
    var c := Kid(t, o);
    KidPlaced(m, p, t, o);
    KidPlaced(m, p, t, s);
    KidPlaced(m, Child(t.id, o), c, s);
    KidPlaced(m, Child(t.id, o), c, o);
    Moved(m, Child(t.id, s), n, Child(t.id, s), Kid(t, s));
    Moved(m, Child(c.id, s), n, Child(t.id, o), Kid(c, s));
    Moved(m, Child(c.id, o), n, Child(c.id, o), Kid(c, o));
    NodeHolds(n, Child(c.id, s), Kid(Rotate(t, s), s), s);
    NodeHolds(n, p, Rotate(t, s), s);
  }

  class Index {
    var mem: Memory
    ghost var tree: Tree

    /** The root variable holds a proper red-black tree. */
    ghost predicate Valid()
      reads this
    {
      Holds(mem, Root, tree) && Proper(tree)
    }

    /** The nodes stored. */
    ghost function Nodes(): set<Id>
      reads this
    {
      Ids(tree)
    }

    /** `ldus_rbtree_init`. */
    constructor ()
      ensures Valid() && Nodes() == {}
    {
      mem := map[Root := Nil];
      tree := Leaf;
    }

    method RotateAt(p: Loc, s: Side, ghost t: Tree)
      requires Placed(mem, p, t) && t.Node? && Kid(t, Other(s)).Node?
      modifies this`mem
      ensures Placed(mem, p, Rotate(t, s)) && Frame(old(mem), mem, p, Ids(t))
    {
      hide Ordered, Ids, Holds, Frame;
      var o := Other(s);
      ghost var c := Kid(t, o);
      KidPlaced(mem, p, t, o);
      KidPlaced(mem, p, t, s);
      KidPlaced(mem, Child(t.id, o), c, s);
      KidPlaced(mem, Child(t.id, o), c, o);
      ghost var m := mem;
      var root := mem[p].node;
      var node := mem[Child(root, o)].node;
      var color := IsRed(mem[Child(root, o)]);
      mem := mem[p := To(node, IsRed(mem[p]))];
      mem := mem[Child(root, o) := mem[Child(node, s)]];
      mem := mem[Child(node, s) := To(root, color)];
      Turned(m, p, s, t, mem);
      RotateKeeps(t, s);
      FrameTwo(m, p, To(node, IsRed(m[p])), Child(root, o), m[Child(node, s)], Child(node, s), To(root, color), Ids(t));
    }

    method InsertBalanceAt(p: Loc, s: Side, res: int, ghost t: Tree) returns (r: int)
      requires Placed(mem, p, t) && t.Node? && InsertShape(t, s, res)
      modifies this`mem
      ensures r == InsertBalance(t, s, res).1 && (res <= 0 ==> mem == old(mem)) && (res >= 0 ==> r >= 0)
      ensures Placed(mem, p, InsertBalance(t, s, res).0) && Frame(old(mem), mem, p, Ids(t))
    {
      hide Ordered, Ids, Holds;
      if res <= 0 { return res; }
      var o := Other(s);
      KidPlaced(mem, p, t, s);
      KidPlaced(mem, p, t, o);
      var root := mem[p].node;
      if res == 1 {
        KidPainted(mem, p, t, s, true);
        mem := mem[Child(root, s) := SetColor(mem[Child(root, s)], true)];
        if !IsRed(mem[p]) { return 0; }
        return Clash(s);
      }
      if IsRed(mem[Child(root, o)]) {
        KidPainted(mem, p, t, s, false);
        mem := mem[Child(root, s) := SetColor(mem[Child(root, s)], false)];
        ghost var u := WithKid(t, s, Painted(Kid(t, s), false));
        KidPainted(mem, p, u, o, false);
        mem := mem[Child(root, o) := SetColor(mem[Child(root, o)], false)];
        return 1;
      }
      ghost var u := t;
      if res == Clash(o) {
        RotateKid(p, s, s, t);
        u := WithKid(t, s, Rotate(Kid(t, s), s));
      }
      ghost var m := mem;
      RotateAt(p, o, u);
      FrameJoin(old(mem), m, mem, p, p, Ids(t), Ids(u));
      return 0;
    }

    /** Rotation through the field `&root->left` or `&root->right`, seen from the root. */
    method RotateKid(p: Loc, s: Side, dir: Side, ghost t: Tree)
      requires Placed(mem, p, t) && t.Node? && Kid(t, s).Node? && Kid(Kid(t, s), Other(dir)).Node?
      modifies this`mem
      ensures Placed(mem, p, WithKid(t, s, Rotate(Kid(t, s), dir)))
      ensures Frame(old(mem), mem, p, Ids(t)) && mem[p] == old(mem[p])
      ensures Ids(WithKid(t, s, Rotate(Kid(t, s), dir))) == Ids(t)
    {
      hide Ordered, Ids, Rotate;
      KidPlaced(mem, p, t, s);
      ghost var m := mem;
      ghost var k := Kid(t, s);
      RotateAt(Child(mem[p].node, s), dir, k);
      RotateKeeps(k, dir);
      SwapKid(t, s, Rotate(k, dir));
      KidChanged(m, mem, p, t, s, Rotate(k, dir), Ids(k));
    }

    /** `_rbtree_remove_balance_*` from the point where the sibling is known to be black. */
    method RemoveStepAt(p: Loc, s: Side, ghost t: Tree) returns (r: int)
      requires Placed(mem, p, t) && StepShape(t, s)
      modifies this`mem
      ensures r == RemoveStep(t, s).1 && r >= 0
      ensures Placed(mem, p, RemoveStep(t, s).0) && Frame(old(mem), mem, p, Ids(t))
    {
      hide Ordered, Ids, Holds;
      var o := Other(s);
      ghost var q := Kid(t, o);
      KidPlaced(mem, p, t, o);
      var root := mem[p].node;
      var sib := mem[Child(root, o)].node;
      KidPlaced(mem, Child(root, o), q, o);
      KidPlaced(mem, Child(root, o), q, s);
      ghost var u := t;
      if !IsRed(mem[Child(sib, o)]) {
        if !IsRed(mem[Child(sib, s)]) {
          KidPainted(mem, p, t, o, true);
          mem := mem[Child(root, o) := To(sib, true)];
          if !IsRed(mem[p]) { return 1; }
          u := WithKid(t, o, Painted(q, true));
          PaintedHolds(mem, p, u, false);
          mem := mem[p := To(root, false)];
          return 0;
        }
        RotateKid(p, o, o, t);
        u := WithKid(t, o, Rotate(q, o));
        KidPlaced(mem, p, u, o);
        KidPlaced(mem, Child(root, o), Kid(u, o), o);
        sib := mem[Child(root, o)].node;
      }
      ghost var m := mem;
      RotateAt(p, s, u);
      FrameJoin(old(mem), m, mem, p, p, Ids(t), Ids(u));
      ghost var v := Rotate(u, s);
      RotateKeeps(u, s);
      assert v.id == sib;
      KidPainted(mem, p, v, o, false);
      m := mem;
      mem := mem[Child(sib, o) := SetColor(mem[Child(sib, o)], false)];
      FrameJoin(old(mem), m, mem, p, p, Ids(t), Ids(v));
      return 0;
    }

    method RemoveBalanceAt(p: Loc, s: Side, res: int, ghost t: Tree) returns (r: int)
      requires Placed(mem, p, t) && t.Node? && RemoveShape(t, s, res)
      modifies this`mem
      ensures r == RemoveBalance(t, s, res).1 && (res <= 0 ==> mem == old(mem)) && (res >= 0 ==> r >= 0)
      ensures Placed(mem, p, RemoveBalance(t, s, res).0) && Frame(old(mem), mem, p, Ids(t))
    {
      hide Ordered, Ids, Holds, RemoveStep;
      if res <= 0 { return res; }
      var o := Other(s);
      KidPlaced(mem, p, t, o);
      var root := mem[p].node;
      if !IsRed(mem[Child(root, o)]) {
        r := RemoveStepAt(p, s, t);
        return;
      }
      RotateAt(p, s, t);
      ghost var u := Rotate(t, s);
      RotateKeeps(t, s);
      KidPlaced(mem, p, u, s);
      ghost var m := mem;
      ghost var k := Kid(u, s);
      r := RemoveStepAt(Child(mem[p].node, s), s, k);
      RemoveStepKeeps(k, s);
      KidChanged(m, mem, p, u, s, RemoveStep(k, s).0, Ids(k));
      SwapKid(u, s, RemoveStep(k, s).0);
      FrameJoin(old(mem), m, mem, p, Child(u.id, s), Ids(t), Ids(k));
    }

    /** `ldus_rbtree_insert`. */
    method InsertAt(p: Loc, x: Id, ghost t: Tree) returns (r: int)
      requires Placed(mem, p, t) && Balanced(t) && Outside(p, {x})
      modifies this`mem
      ensures r == Insert(t, x).1 && (r < 0 ==> mem == old(mem))
      ensures Placed(mem, p, Insert(t, x).0) && Frame(old(mem), mem, p, Ids(t) + {x})
      decreases t
    {
      hide Ordered, Ids, Holds, Balanced;
      if mem[p].Nil? {
        LeafPlaced(mem, p, t);
        mem := mem[p := To(x, false)];
        mem := mem[Child(x, Left) := Nil][Child(x, Right) := Nil];
        SingleHolds(mem, p, x);
        return 1;
      }
      NodePlaced(mem, p, t);
      var root := mem[p].node;
      if x.key < root.key {
        r := InsertBelow(p, Left, x, t);
      } else if root.key < x.key {
        r := InsertBelow(p, Right, x, t);
      } else {
        r := -1;
      }
    }

    method InsertBelow(p: Loc, s: Side, x: Id, ghost t: Tree) returns (r: int)
      requires Placed(mem, p, t) && Balanced(t) && Outside(p, {x}) && t.Node?
      requires if s == Left then x.key < t.id.key else t.id.key < x.key
      modifies this`mem
      ensures r == Insert(t, x).1 && (r < 0 ==> mem == old(mem))
      ensures Placed(mem, p, Insert(t, x).0) && Frame(old(mem), mem, p, Ids(t) + {x})
      decreases t, 0
    {
      hide Ordered, Ids, Holds, Balanced, InsertBalance;
      KidPlaced(mem, p, t, s);
      BalancedKid(t, s);
      ghost var c := Kid(t, s);
      var res := InsertAt(Child(mem[p].node, s), x, c);
      ghost var k := Insert(c, x).0;
      InsertContents(c, x);
      GrownStep(t, s, k, res);
      InsertedBelow(old(mem), mem, p, t, s, x, k);
      ghost var m := mem;
      r := InsertBalanceAt(p, s, res, WithKid(t, s, k));
      FrameJoin(old(mem), m, mem, p, p, Ids(t) + {x}, Ids(WithKid(t, s, k)));
      InsertBalanceKeeps(WithKid(t, s, k), s, res);
    }

    /**
     * `_rbtree_remove_left` (side Right) and `_rbtree_remove_right` (side Left):
     * takes the outermost node on side `s` out of the subtree at `p` and puts it in
     * place of the node at `pnode`. The field `p` may belong to the node replaced;
     * the subtree is then found in the replacement's field.
     */
    method RemoveEndAt(p: Loc, pnode: Loc, s: Side, ghost t: Tree) returns (r: int)
      requires t.Node? && Placed(mem, p, t) && Balanced(t) && Replaceable(mem, p, pnode, s, t)
      modifies this`mem
      ensures r == RemoveEnd(t, s).1
      ensures Replaced(old(mem), mem, p, pnode, s, t, RemoveEnd(t, s).0)
      decreases t
    {
      hide Ordered, Ids, Holds, Balanced;
      var o := Other(s);
      ghost var m := mem;
      KidPlaced(mem, p, t, s);
      KidPlaced(mem, p, t, o);
      var root, node := mem[p].node, mem[pnode].node;
      if mem[Child(root, s)].To? {
        BalancedKid(t, s);
        ghost var c := Kid(t, s);
        EndInside(c, s);
        r := RemoveEndAt(Child(root, s), pnode, s, c);
        ghost var k := RemoveEnd(c, s).0;
        var q := p;
        if p == Child(node, o) {
          q := Child(mem[pnode].node, o);
        }
        ReplacedBelow(m, mem, p, pnode, s, t, k);
        ShrunkStep(t, t.id, s, k, r);
        ghost var n := mem;
        ghost var res := r;
        r := RemoveBalanceAt(q, s, r, WithKid(t, s, k));
        RemoveBalanceKeeps(WithKid(t, s, k), s, res);
        ReplacedBalanced(m, n, mem, p, pnode, s, t, WithKid(t, s, k), RemoveBalance(WithKid(t, s, k), s, res).0);
      } else {
        r := SpliceAt(p, pnode, s, t);
      }
    }

    /** The last step of `_rbtree_remove_left` and `_rbtree_remove_right`. */
    method SpliceAt(p: Loc, pnode: Loc, s: Side, ghost t: Tree) returns (r: int)
      requires t.Node? && Placed(mem, p, t) && Balanced(t) && Replaceable(mem, p, pnode, s, t) && Kid(t, s).Leaf?
      modifies this`mem
      ensures r == RemoveEnd(t, s).1
      ensures Replaced(old(mem), mem, p, pnode, s, t, RemoveEnd(t, s).0)
    {
      hide Ordered, Ids, Holds, Balanced, Replaced, Spliced;
      var o := Other(s);
      KidPlaced(mem, p, t, o);
      var root, node := mem[p].node, mem[pnode].node;
      SpliceWrites(mem, p, pnode, s, root);
      var color := IsRed(mem[p]);
      mem := mem[p := mem[Child(root, o)]];
      mem := mem[Child(root, o) := mem[Child(node, o)]];
      mem := mem[Child(root, s) := mem[Child(node, s)]];
      mem := mem[pnode := To(root, IsRed(mem[pnode]))];
      ReplacedEnd(old(mem), mem, p, pnode, s, t);
      if color { return 0; }
      if IsRed(mem[p]) {
        var q := p;
        SplicedPlace(old(mem), mem, p, pnode, s, t);
        if mem[p] == mem[Child(root, o)] {
          q := Child(root, o);
        }
        ghost var n := mem;
        PaintedHolds(mem, q, Kid(t, o), false);
        mem := mem[q := SetColor(mem[q], false)];
        ReplacedBalanced(old(mem), n, mem, p, pnode, s, t, Kid(t, o), Painted(Kid(t, o), false));
        return 0;
      }
      return 1;
    }

    /** `ldus_rbtree_remove`. */
    method RemoveAt(p: Loc, key: int, ghost t: Tree) returns (r: int)
      requires Placed(mem, p, t) && Balanced(t)
      modifies this`mem
      ensures r == Remove(t, key).1 && (r < 0 ==> mem == old(mem))
      ensures Placed(mem, p, Remove(t, key).0) && Frame(old(mem), mem, p, Ids(t))
      decreases t
    {
      hide Ordered, Ids, Holds, Balanced;
      if mem[p].Nil? {
        LeafPlaced(mem, p, t);
        return -1;
      }
      NodePlaced(mem, p, t);
      KidPlaced(mem, p, t, Left);
      KidPlaced(mem, p, t, Right);
      var root := mem[p].node;
      if key < root.key {
        r := RemoveBelow(p, Left, key, t);
      } else if root.key < key {
        r := RemoveBelow(p, Right, key, t);
      } else if mem[Child(root, Left)].To? {
        r := ReplaceAt(p, Left, t);
      } else if mem[Child(root, Right)].To? {
        r := ReplaceAt(p, Right, t);
      } else {
        var color := IsRed(mem[p]);
        mem := mem[p := Nil];
        LeafIds(Leaf);
        LeafHolds(mem, p);
        r := if color then 0 else 1;
      }
    }

    method RemoveBelow(p: Loc, s: Side, key: int, ghost t: Tree) returns (r: int)
      requires Placed(mem, p, t) && Balanced(t) && t.Node?
      requires if s == Left then key < t.id.key else t.id.key < key
      modifies this`mem
      ensures r == Remove(t, key).1 && (r < 0 ==> mem == old(mem))
      ensures Placed(mem, p, Remove(t, key).0) && Frame(old(mem), mem, p, Ids(t))
      decreases t, 0
    {
      hide Ordered, Ids, Holds, Balanced, RemoveBalance;
      KidPlaced(mem, p, t, s);
      BalancedKid(t, s);
      ghost var c := Kid(t, s);
      var res := RemoveAt(Child(mem[p].node, s), key, c);
      ghost var k := Remove(c, key).0;
      RemoveContents(c, key);
      ShrunkStep(t, t.id, s, k, res);
      KidChanged(old(mem), mem, p, t, s, k, Ids(c));
      FewerOrdered(t, s, k);
      ghost var m := mem;
      r := RemoveBalanceAt(p, s, res, WithKid(t, s, k));
      FrameJoin(old(mem), m, mem, p, p, Ids(t), Ids(WithKid(t, s, k)));
      RemoveBalanceKeeps(WithKid(t, s, k), s, res);
    }

    /** Removal of a node that has a child on side `s`: its neighbour on that side takes its place. */
    method ReplaceAt(p: Loc, s: Side, ghost t: Tree) returns (r: int)
      requires Placed(mem, p, t) && Balanced(t) && t.Node? && Kid(t, s).Node?
      modifies this`mem
      ensures var u := RemoveUnder(t, End(Kid(t, s), Other(s)), s, RemoveEnd(Kid(t, s), Other(s)));
        r == u.1 && Placed(mem, p, u.0) && Frame(old(mem), mem, p, Ids(t))
    {
      hide Ordered, Ids, Holds, Balanced, RemoveBalance, RemoveEnd, End;
      KidPlaced(mem, p, t, s);
      KidPlaced(mem, p, t, Other(s));
      BalancedKid(t, s);
      ghost var c := Kid(t, s);
      ghost var x := End(c, Other(s));
      var res := RemoveEndAt(Child(mem[p].node, s), p, Other(s), c);
      ghost var k := RemoveEnd(c, Other(s)).0;
      NodeReplaced(old(mem), mem, p, s, t, k);
      ShrunkStep(t, x, s, k, res);
      ghost var m := mem;
      r := RemoveBalanceAt(p, s, res, Put(t, x, s, k));
      FrameJoin(old(mem), m, mem, p, p, Ids(t), Ids(Put(t, x, s, k)));
      RemoveBalanceKeeps(Put(t, x, s, k), s, res);
    }

    /** `ldus_rbtree_find`. */
    method FindAt(p: Loc, key: int, ghost t: Tree) returns (r: Ptr)
      requires Holds(mem, p, t) && Ordered(t)
      ensures r.To? <==> HasKey(t, key)
      ensures r.To? ==> r.node in Ids(t) && r.node.key == key
      decreases t
    {
      if mem[p].Nil? { return Nil; }
      var root := mem[p].node;
      assert Holds(mem, Child(root, Left), t.left) && Holds(mem, Child(root, Right), t.right);
      if key < root.key {
        r := FindAt(Child(root, Left), key, t.left);
        assert HasKey(t, key) <==> HasKey(t.left, key);
      } else if root.key < key {
        r := FindAt(Child(root, Right), key, t.right);
        assert HasKey(t, key) <==> HasKey(t.right, key);
      } else {
        assert root in Ids(t);
        r := To(root, false);
      }
    }

    /** `ldus_rbtree_walk_right`: the nodes in the order of the callbacks. */
    method WalkAt(p: Loc, ghost t: Tree) returns (out: seq<Id>)
      requires Holds(mem, p, t)
      ensures out == InOrder(t)
      decreases t
    {
      out := [];
      var q := p;
      ghost var rest := t;
      while mem[q].To?
        modifies {}
        invariant Holds(mem, q, rest) && InOrder(t) == out + InOrder(rest)
        invariant rest == t || rest < t
        decreases rest
      {
        var root := mem[q].node;
        assert Holds(mem, Child(root, Left), rest.left) && Holds(mem, Child(root, Right), rest.right);
        if mem[Child(root, Left)].To? {
          var l := WalkAt(Child(root, Left), rest.left);
          out := out + l;
        }
        out := out + [root];
        q := Child(root, Right);
        rest := rest.right;
      }
    }

    // -------------------------------------------------------------- on the whole index

    /** Stores `x` unless its key is present. */
    method Add(x: Id) returns (r: int)
      requires Valid()
      modifies this
      ensures Valid()
      ensures r == -1 <==> exists i :: i in old(Nodes()) && i.key == x.key
      ensures r == -1 ==> tree == old(tree) && mem == old(mem)
      ensures r != -1 ==> Nodes() == old(Nodes()) + {x}
    {
      r := InsertAt(Root, x, tree);
      InsertContents(tree, x);
      tree := Insert(tree, x).0;
    }

    /** Removes the node with the key of `x`. */
    method Delete(x: Id) returns (r: int)
      requires Valid()
      modifies this
      ensures Valid()
      ensures r == -1 <==> !exists i :: i in old(Nodes()) && i.key == x.key
      ensures r == -1 ==> tree == old(tree) && mem == old(mem)
      ensures Nodes() == set i | i in old(Nodes()) && i.key != x.key
    {
      r := RemoveAt(Root, x.key, tree);
      RemoveContents(tree, x.key);
      tree := Remove(tree, x.key).0;
    }

    /** Agrees with membership; what is found is the one stored node with the key. */
    method Find(x: Id) returns (r: Ptr)
      requires Valid()
      ensures r.To? <==> exists i :: i in Nodes() && i.key == x.key
      ensures r.To? ==> r.node in Nodes() && r.node.key == x.key
    {
      r := FindAt(Root, x.key, tree);
    }

    /** Meets every stored node once, in strictly increasing key order. */
    method Walk() returns (out: seq<Id>)
      requires Valid()
      ensures forall i :: i in out <==> i in Nodes()
      ensures forall i, j :: 0 <= i < j < |out| ==> out[i].key < out[j].key
    {
      out := WalkAt(Root, tree);
      InOrderSorted(tree);
    }
  }
}
