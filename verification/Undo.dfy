/**
  What `unapply_block` does to a ledger in which the block was applied:
  the exact change of every account, and when that is a perfect undo.
 */
module Undo {
  import opened Common
  import opened Ledger

  // ------------------------------------------------------------ congruence mod 2^64

  ghost function Words(k: int): int {
    k * WORD
  }

  ghost predicate Cong(a: int, b: int) {
    exists k :: a - b == Words(k)
  }

  lemma {:induction false} CongSame(a: int)
    ensures Cong(a, a)
  {
    assert a - a == Words(0);
  }

  lemma {:induction false} CongWrap(v: int)
    ensures Cong(Wrap(v), v)
  {
    assert Wrap(v) - v == Words(0 - v / WORD);
  }

  /** Congruences add up; `a - b` may be written in any way. */
  lemma {:induction false} CongAdd(a: int, b: int, c: int, d: int, e: int, f: int)
    requires Cong(a, b) && Cong(c, d) && e - f == (a - b) + (c - d)
    ensures Cong(e, f)
  {
    var k :| a - b == Words(k);
    var j :| c - d == Words(j);
    assert e - f == Words(k + j);
  }

  lemma {:induction false} CongEqual(a: Amount, b: Amount)
    requires Cong(a, b)
    ensures a == b
  {}

  // ----------------------------------------------------------------- frame of apply

  /** `x` became referenced by the main chain between `s` and `s1`. */
  ghost predicate New(s: seq<Account>, s1: seq<Account>, x: int) {
    0 <= x < |s| && x < |s1| && s1[x].mainRef && !s[x].mainRef
  }

  /** A block that no main block references is neither applied nor adopted. */
  ghost predicate Clean(s: seq<Account>) {
    forall x :: 0 <= x < |s| && !s[x].mainRef ==> !s[x].applied && s[x].ref == -1
  }

  /** Between `s` and `s1` only unreferenced blocks changed flags, and what stayed unreferenced did not change at all. */
  ghost predicate Extends(s: seq<Account>, s1: seq<Account>) {
    && |s1| == |s|
    && (forall x :: 0 <= x < |s| && s[x].mainRef ==>
          s1[x].mainRef && s1[x].applied == s[x].applied && s1[x].ref == s[x].ref)
    && (forall x :: 0 <= x < |s| && !s1[x].mainRef ==> s1[x] == s[x])
  }

  lemma {:induction false} MoveKeepsFlags(g: seq<Block>, s: seq<Account>, b: nat, n: nat, back: bool)
    requires Accounts(g, s) && b < |g| && n <= |g[b].links|
    ensures var s' := Move(g, s, b, n, back);
            forall x :: 0 <= x < |s| ==> s'[x] == s[x].(amount := s'[x].amount)
    ensures var s' := Move(g, s, b, n, back);
            forall x :: 0 <= x < |s| && (forall i :: 0 <= i < n ==> g[b].links[i].target != x) ==> s'[x] == s[x]
  {
    if n > 0 {
      MoveKeepsFlags(g, s, b, n - 1, back);
    }
  }

  /** Everything newly referenced lies strictly below `b` in the DAG. */
  ghost predicate Below(g: seq<Block>, s: seq<Account>, s1: seq<Account>, b: nat) {
    |s| == |s1| == |g| && b < |g| && forall x :: New(s, s1, x) ==> x < b && g[x].time < g[b].time
  }

  lemma {:induction false} ExtendsTransitive(g: seq<Block>, s: seq<Account>, s1: seq<Account>, s2: seq<Account>, b: nat)
    requires Extends(s, s1) && Extends(s1, s2) && Below(g, s, s1, b) && Below(g, s1, s2, b)
    ensures Extends(s, s2) && Below(g, s, s2, b)
  {
    forall x | New(s, s2, x) ensures x < b && g[x].time < g[b].time {
      assert New(s, s1, x) || New(s1, s2, x);
    }
  }

  /** `apply_block` only marks blocks reachable from `b`, and leaves every link of `b` marked. */
  lemma {:induction false} ApplyFrame(g: seq<Block>, s: seq<Account>, b: nat)
    requires Accounts(g, s) && b < |g|
    ensures var s1 := Apply(g, s, b).0;
            Extends(s, s1) && s1[b].mainRef && forall x :: New(s, s1, x) ==> x <= b && g[x].time <= g[b].time
    decreases b, 1, 0
  {
    if !s[b].mainRef {
      var s0 := s[b := s[b].(mainRef := true)];
      ApplyLinksFrame(g, s0, b, 0);
      var s2 := ApplyLinks(g, s0, b, 0);
      SettleFrame(g, s2, b);
      var s1 := Settle(g, s2, b).0;
      forall x | New(s, s1, x) ensures x <= b && g[x].time <= g[b].time {
        assert x == b || New(s0, s2, x);
      }
    }
  }

  lemma {:induction false} SettleFrame(g: seq<Block>, s: seq<Account>, b: nat)
    requires Accounts(g, s) && b < |g| && s[b].mainRef
    requires forall i :: 0 <= i < |g[b].links| ==> s[g[b].links[i].target].mainRef
    ensures var s1 := Settle(g, s, b).0;
            forall x :: 0 <= x < |s| ==>
              && s1[x].mainRef == s[x].mainRef && s1[x].ref == s[x].ref
              && (x != b ==> s1[x].applied == s[x].applied)
              && (!s[x].mainRef ==> s1[x] == s[x])
    ensures s[b].applied || (Settle(g, s, b).0[b].applied <==> Check(g, s, b).Sums?)
  {
    MoveKeepsFlags(g, s, b, |g[b].links|, false);
  }

  lemma {:induction false} VisitLinkFrame(g: seq<Block>, s: seq<Account>, b: nat, i: nat)
    requires Accounts(g, s) && b < |g| && i < |g[b].links| && s[b].mainRef
    ensures var s1 := VisitLink(g, s, b, i);
            Extends(s, s1) && Below(g, s, s1, b) && s1[g[b].links[i].target].mainRef
    decreases b, 0, 0
  {
    var t := g[b].links[i].target;
    ApplyFrame(g, s, t);
    var (sa, r) := Apply(g, s, t);
    var s1 := VisitLink(g, s, b, i);
    assert s1 == if r == ALREADY then sa else Adopt(sa, b, t, r);
    hide Apply, VisitLink;
    forall x | New(s, s1, x) ensures x < b && g[x].time < g[b].time {
      assert New(s, sa, x);
    }
  }

  lemma {:induction false} ApplyLinksFrame(g: seq<Block>, s: seq<Account>, b: nat, i: nat)
    requires Accounts(g, s) && b < |g| && i <= |g[b].links| && s[b].mainRef
    ensures var s1 := ApplyLinks(g, s, b, i);
            && Extends(s, s1) && Below(g, s, s1, b)
            && (forall j :: i <= j < |g[b].links| ==> s1[g[b].links[j].target].mainRef)
    decreases b, 0, 1 + |g[b].links| - i
  {
    if i < |g[b].links| {
      var s1 := VisitLink(g, s, b, i);
      VisitLinkFrame(g, s, b, i);
      ApplyLinksFrame(g, s1, b, i + 1);
      ExtendsTransitive(g, s, s1, ApplyLinks(g, s1, b, i + 1), b);
    }
  }

  /** The block was applied with the fee 2^64 - 1, which `apply_block` also returns for "already referenced". */
  predicate Collides(g: seq<Block>, s: seq<Account>, x: nat)
    requires x < |g| && x < |s|
  {
    s[x].applied && g[x].fee == ALREADY
  }

  /** No block newly referenced between `s` and `s1`, other than `root`, is mistaken for one already referenced. */
  ghost predicate NoCollision(g: seq<Block>, s: seq<Account>, s1: seq<Account>, root: int) {
    |s| == |s1| == |g| && forall x :: New(s, s1, x) && x != root ==> !Collides(g, s1, x)
  }

  lemma {:induction false} NoCollisionSplit(g: seq<Block>, s: seq<Account>, s1: seq<Account>, s2: seq<Account>)
    requires Extends(s, s1) && Extends(s1, s2) && NoCollision(g, s, s2, -1)
    ensures NoCollision(g, s, s1, -1) && NoCollision(g, s1, s2, -1)
  {
    assert forall x :: New(s, s1, x) ==> New(s, s2, x) && (Collides(g, s1, x) <==> Collides(g, s2, x));
  }

  lemma {:induction false} CleanExtends(s: seq<Account>, s1: seq<Account>)
    requires Clean(s) && Extends(s, s1)
    ensures Clean(s1)
  {}

  /** Every block newly referenced below `b` was adopted by `b` or by another newly referenced block, unless it collides. */
  ghost predicate Adopted(g: seq<Block>, s: seq<Account>, s1: seq<Account>, b: nat) {
    && |s| == |s1| == |g|
    && forall x :: New(s, s1, x) ==>
         if Collides(g, s1, x) then s1[x].ref == -1 else s1[x].ref == b || New(s, s1, s1[x].ref)
  }

  lemma {:induction false} AdoptedTransitive(g: seq<Block>, s: seq<Account>, s1: seq<Account>, s2: seq<Account>, b: nat)
    requires Extends(s, s1) && Extends(s1, s2) && Adopted(g, s, s1, b) && Adopted(g, s1, s2, b)
    ensures Adopted(g, s, s2, b)
  {
    forall x | New(s, s2, x)
      ensures if Collides(g, s2, x) then s2[x].ref == -1 else s2[x].ref == b || New(s, s2, s2[x].ref)
    {
      if New(s, s1, x) {
        assert Collides(g, s1, x) || s1[x].ref == b || New(s, s1, s1[x].ref);
      } else {
        assert New(s1, s2, x);
        assert Collides(g, s2, x) || s2[x].ref == b || New(s1, s2, s2[x].ref);
      }
    }
  }

  /**
    Every block that `apply_block(b)` newly references, except `b`, was adopted by another such block, or it
    collides and has no adopter.
   */
  lemma {:induction false} ApplyRefs(g: seq<Block>, s: seq<Account>, b: nat)
    requires Accounts(g, s) && b < |g| && Clean(s) && !s[b].mainRef
    ensures var s1 := Apply(g, s, b).0;
            && s1[b].ref == -1
            && forall x :: New(s, s1, x) && x != b ==> if Collides(g, s1, x) then s1[x].ref == -1 else New(s, s1, s1[x].ref)
    decreases b, 1, 0
  {
    var s0 := s[b := s[b].(mainRef := true)];
    var s2 := ApplyLinks(g, s0, b, 0);
    var s1 := Settle(g, s2, b).0;
    ApplyLinksFrame(g, s0, b, 0);
    SettleFrame(g, s2, b);
    ApplyLinksRefs(g, s0, b, 0);
    forall x | New(s, s1, x) && x != b ensures if Collides(g, s1, x) then s1[x].ref == -1 else New(s, s1, s1[x].ref) {
      assert New(s0, s2, x);
      assert Collides(g, s2, x) || s1[x].ref == b || New(s0, s2, s1[x].ref);
    }
  }

  lemma {:induction false} VisitLinkRefs(g: seq<Block>, s: seq<Account>, b: nat, i: nat)
    requires Accounts(g, s) && b < |g| && i < |g[b].links| && Clean(s) && s[b].mainRef
    ensures Adopted(g, s, VisitLink(g, s, b, i), b)
    ensures var t := g[b].links[i].target; !s[t].mainRef ==>
              && (Apply(g, s, t).1 == ALREADY <==> Collides(g, VisitLink(g, s, b, i), t))
              && (Apply(g, s, t).1 != ALREADY ==> VisitLink(g, s, b, i)[t].ref == b)
    decreases b, 0, 0
  {
    var t := g[b].links[i].target;
    var s1 := VisitLink(g, s, b, i);
    if !s[t].mainRef {
      var (sa, r) := Apply(g, s, t);
      ApplyFrame(g, s, t);
      ApplyRefs(g, s, t);
      ApplyResult(g, s, t);
      assert s1 == if r == ALREADY then sa else Adopt(sa, b, t, r);
      hide Apply, VisitLink;
      forall x | New(s, s1, x) ensures if Collides(g, s1, x) then s1[x].ref == -1 else s1[x].ref == b || New(s, s1, s1[x].ref) {
        assert New(s, sa, x);
        if x != t {
          assert Collides(g, sa, x) || New(s, sa, sa[x].ref);
        }
      }
    }
  }

  /** The return value of `apply_block` on an unreferenced block: its fee if it was applied, else 0. */
  lemma {:induction false} ApplyResult(g: seq<Block>, s: seq<Account>, b: nat)
    requires Accounts(g, s) && b < |g| && Clean(s) && !s[b].mainRef
    ensures var (s1, r) := Apply(g, s, b); r == if s1[b].applied then g[b].fee else 0
  {
    var s0 := s[b := s[b].(mainRef := true)];
    ApplyLinksFrame(g, s0, b, 0);
    SettleFrame(g, ApplyLinks(g, s0, b, 0), b);
  }

  lemma {:induction false} ApplyLinksRefs(g: seq<Block>, s: seq<Account>, b: nat, i: nat)
    requires Accounts(g, s) && b < |g| && i <= |g[b].links| && Clean(s) && s[b].mainRef
    ensures Adopted(g, s, ApplyLinks(g, s, b, i), b)
    decreases b, 0, 1 + |g[b].links| - i
  {
    if i < |g[b].links| {
      var s1 := VisitLink(g, s, b, i);
      var s2 := ApplyLinks(g, s1, b, i + 1);
      VisitLinkFrame(g, s, b, i);
      ApplyLinksFrame(g, s1, b, i + 1);
      CleanExtends(s, s1);
      VisitLinkRefs(g, s, b, i);
      ApplyLinksRefs(g, s1, b, i + 1);
      AdoptedTransitive(g, s, s1, s2, b);
    }
  }

  // ---------------------------------------------------------------- flags of unapply

  /**
    `u` still carries everything that applying `root` did between `s` and `s1`
    (whatever happened to the amounts since), and no other referenced block was
    adopted by one of those blocks.
   */
  ghost predicate Holds(u: seq<Account>, s: seq<Account>, s1: seq<Account>, root: int) {
    && |u| == |s| == |s1|
    && (forall x :: New(s, s1, x) ==>
          u[x].mainRef && u[x].applied == s1[x].applied && (x != root ==> u[x].ref == s1[x].ref))
    && (forall x :: 0 <= x < |u| && u[x].mainRef && !New(s, s1, x) ==> !New(s, s1, u[x].ref))
  }

  /** `u1` is `u` with the flags of everything that was new between `s` and `s1` cleared. */
  ghost predicate Undone(u: seq<Account>, u1: seq<Account>, s: seq<Account>, s1: seq<Account>) {
    && |u1| == |u| == |s| == |s1|
    && forall x :: 0 <= x < |u| ==>
         if New(s, s1, x) then !u1[x].mainRef && !u1[x].applied && u1[x].ref == -1
         else u1[x].mainRef == u[x].mainRef && u1[x].applied == u[x].applied && u1[x].ref == u[x].ref
  }

  lemma {:induction false} UndoneTransitive(u: seq<Account>, u1: seq<Account>, u2: seq<Account>,
                         s: seq<Account>, s1: seq<Account>, s2: seq<Account>)
    requires Extends(s, s1) && Extends(s1, s2)
    requires Undone(u, u1, s, s1) && Undone(u1, u2, s1, s2)
    ensures Undone(u, u2, s, s2)
  {}

  /** No block outside the ones still to be left counts `b` as its adopter. */
  ghost predicate Detached(u: seq<Account>, s: seq<Account>, s1: seq<Account>, b: nat) {
    forall x :: 0 <= x < |u| && u[x].mainRef && !New(s, s1, x) ==> u[x].ref != b
  }

  lemma {:induction false} HoldsSplit(g: seq<Block>, u: seq<Account>, s: seq<Account>, s1: seq<Account>, s2: seq<Account>, b: nat)
    requires Extends(s, s1) && Extends(s1, s2) && Adopted(g, s1, s2, b) && b < |s| && s[b].mainRef
    requires Holds(u, s, s2, -1) && Detached(u, s, s2, b)
    ensures Holds(u, s, s1, -1)
  {
    forall x | 0 <= x < |u| && u[x].mainRef && !New(s, s1, x) ensures !New(s, s1, u[x].ref) {
      if New(s1, s2, x) {
        assert New(s, s2, x);
        assert s2[x].ref == -1 || s2[x].ref == b || New(s1, s2, s2[x].ref);
      } else {
        assert !New(s, s2, x);
      }
    }
  }

  lemma {:induction false} HoldsRest(u: seq<Account>, u1: seq<Account>, s: seq<Account>, s1: seq<Account>, s2: seq<Account>, b: nat)
    requires Extends(s, s1) && Extends(s1, s2)
    requires Holds(u, s, s2, -1) && Detached(u, s, s2, b) && Undone(u, u1, s, s1)
    ensures Holds(u1, s1, s2, -1) && Detached(u1, s1, s2, b)
  {
    forall x | 0 <= x < |u1| && u1[x].mainRef && !New(s1, s2, x)
      ensures !New(s1, s2, u1[x].ref) && u1[x].ref != b
    {
      assert !New(s, s1, x);
      assert !New(s, s2, x);
    }
  }

  /**
    `u1` is `u` with the flags of some of what was new between `s` and `s1` cleared, and with nothing that
    `b` adopted left.
   */
  ghost predicate Loosened(u: seq<Account>, u1: seq<Account>, s: seq<Account>, s1: seq<Account>, b: int) {
    && |u1| == |u| == |s| == |s1|
    && forall x :: 0 <= x < |u| ==>
         if u1[x].mainRef == u[x].mainRef && u1[x].applied == u[x].applied && u1[x].ref == u[x].ref
         then b >= 0 && New(s, s1, x) ==> u[x].ref != b
         else New(s, s1, x) && !u1[x].mainRef
  }

  lemma {:induction false} LooseRest(g: seq<Block>, u: seq<Account>, u1: seq<Account>, s: seq<Account>, s1: seq<Account>, s2: seq<Account>, b: nat)
    requires Extends(s, s1) && Extends(s1, s2) && Adopted(g, s, s1, b)
    requires Holds(u, s, s2, -1) && Detached(u, s, s2, b) && Loosened(u, u1, s, s1, b)
    ensures Holds(u1, s1, s2, -1) && Detached(u1, s1, s2, b)
  {
    forall x | 0 <= x < |u1| && u1[x].mainRef && !New(s1, s2, x)
      ensures !New(s1, s2, u1[x].ref) && u1[x].ref != b
    {
      if New(s, s1, x) {
        assert New(s, s2, x);
        assert s1[x].ref == -1 || s1[x].ref == b || New(s, s1, s1[x].ref);
      } else {
        assert !New(s, s2, x);
      }
    }
  }

  lemma {:induction false} LoosenedTransitive(u: seq<Account>, u1: seq<Account>, u2: seq<Account>,
                                              s: seq<Account>, s1: seq<Account>, s2: seq<Account>, b: nat)
    requires Extends(s, s1) && Extends(s1, s2)
    requires Loosened(u, u1, s, s1, b) && Loosened(u1, u2, s1, s2, b)
    ensures Loosened(u, u2, s, s2, b)
  {
    assert forall x :: New(s, s2, x) <==> New(s, s1, x) || New(s1, s2, x);
  }

  lemma {:induction false} UnsettleFrame(g: seq<Block>, u: seq<Account>, b: nat)
    requires Accounts(g, u) && b < |g|
    ensures var u0 := Unsettle(g, u, b);
            && (forall x :: 0 <= x < |u| && x != b ==> u0[x] == u[x].(amount := u0[x].amount))
            && !u0[b].mainRef && !u0[b].applied && u0[b].ref == -1
  {
    MoveKeepsFlags(g, u, b, |g[b].links|, true);
  }

  /** What applying `b` newly references is `b` and what its link loop newly references. */
  lemma {:induction false} NewInside(g: seq<Block>, s: seq<Account>, b: nat)
    requires Accounts(g, s) && b < |g| && Clean(s) && !s[b].mainRef
    ensures var s0 := s[b := s[b].(mainRef := true)]; var s2 := ApplyLinks(g, s0, b, 0); var s1 := Apply(g, s, b).0;
            && |s1| == |s2| == |s| && (forall x :: New(s0, s2, x) <==> New(s, s1, x) && x != b) && New(s, s1, b)
            && (forall x :: 0 <= x < |s| && x != b ==> s1[x].applied == s2[x].applied && s1[x].ref == s2[x].ref)
  {
    var s0 := s[b := s[b].(mainRef := true)];
    ApplyLinksFrame(g, s0, b, 0);
    SettleFrame(g, ApplyLinks(g, s0, b, 0), b);
  }

  /** After `Unsettle`, what is left to undo is exactly what the link loop of `apply_block` did. */
  lemma {:induction false} HoldsInside(g: seq<Block>, s: seq<Account>, b: nat, u: seq<Account>)
    requires Accounts(g, s) && b < |g| && Clean(s) && !s[b].mainRef && |u| == |s|
    requires Holds(u, s, Apply(g, s, b).0, b)
    ensures var s0 := s[b := s[b].(mainRef := true)]; var s2 := ApplyLinks(g, s0, b, 0);
            var u0 := Unsettle(g, u, b);
            && Holds(u0, s0, s2, -1) && Detached(u0, s0, s2, b) && Clean(s0)
            && (NoCollision(g, s, Apply(g, s, b).0, b) ==> NoCollision(g, s0, s2, -1))
  {
    hide Apply, ApplyLinks, Unsettle;
    NewInside(g, s, b);
    UnsettleFrame(g, u, b);
  }

  /** Undoing the link loop after `Unsettle` undoes the application. */
  lemma {:induction false} UndoneOutside(g: seq<Block>, s: seq<Account>, b: nat, u: seq<Account>, u1: seq<Account>)
    requires Accounts(g, s) && b < |g| && Clean(s) && !s[b].mainRef && |u| == |s|
    requires var s0 := s[b := s[b].(mainRef := true)]; Undone(Unsettle(g, u, b), u1, s0, ApplyLinks(g, s0, b, 0))
    ensures Undone(u, u1, s, Apply(g, s, b).0)
  {
    hide Apply, ApplyLinks, Unsettle;
    NewInside(g, s, b);
    UnsettleFrame(g, u, b);
  }

  lemma {:induction false} LoosenedOutside(g: seq<Block>, s: seq<Account>, b: nat, u: seq<Account>, u1: seq<Account>)
    requires Accounts(g, s) && b < |g| && Clean(s) && !s[b].mainRef && |u| == |s|
    requires var s0 := s[b := s[b].(mainRef := true)]; Loosened(Unsettle(g, u, b), u1, s0, ApplyLinks(g, s0, b, 0), b)
    ensures Loosened(u, u1, s, Apply(g, s, b).0, -1) && !u1[b].mainRef
  {
    hide Apply, ApplyLinks, Unsettle;
    NewInside(g, s, b);
    UnsettleFrame(g, u, b);
  }

  /** Without collisions `unapply_block` clears exactly the marks that `apply_block` set. */
  lemma {:induction false} UnapplyClears(g: seq<Block>, s: seq<Account>, b: nat, u: seq<Account>)
    requires Accounts(g, s) && b < |g| && Clean(s) && !s[b].mainRef && |u| == |s|
    requires NoCollision(g, s, Apply(g, s, b).0, b) && Holds(u, s, Apply(g, s, b).0, b)
    ensures Undone(u, Unapply(g, u, b), s, Apply(g, s, b).0)
    decreases b, 1, 0
  {
    HoldsInside(g, s, b, u);
    UnapplyLinksFlags(g, s[b := s[b].(mainRef := true)], b, 0, Unsettle(g, u, b));
    UndoneOutside(g, s, b, u, Unapply(g, u, b));
  }

  lemma {:induction false} LeaveLinkFlags(g: seq<Block>, s: seq<Account>, b: nat, i: nat, u: seq<Account>)
    requires Accounts(g, s) && b < |g| && i < |g[b].links| && Clean(s) && s[b].mainRef && |u| == |s|
    requires NoCollision(g, s, VisitLink(g, s, b, i), -1) && Holds(u, s, VisitLink(g, s, b, i), -1)
    requires var t := g[b].links[i].target; s[t].mainRef && u[t].mainRef ==> u[t].ref != b
    ensures Undone(u, LeaveLink(g, u, b, i), s, VisitLink(g, s, b, i))
    decreases b, 0, 0
  {
    var t := g[b].links[i].target;
    if !s[t].mainRef {
      LeaveInside(g, s, b, i, u);
      UnapplyClears(g, s, t, u);
    }
  }

  /** `unapply_block` leaves blocks without an adopter alone. */
  ghost predicate Spared(u: seq<Account>, u1: seq<Account>, b: nat) {
    |u1| == |u| && forall x :: 0 <= x < |u| && x != b && u[x].ref == -1 ==> u1[x].mainRef == u[x].mainRef && u1[x].ref == -1
  }

  lemma {:induction false} UnapplySpares(g: seq<Block>, u: seq<Account>, b: nat)
    requires Accounts(g, u) && b < |g|
    ensures Spared(u, Unapply(g, u, b), b)
    decreases b, 1, 0
  {
    UnsettleFrame(g, u, b);
    UnapplyLinksSpare(g, Unsettle(g, u, b), b, 0);
  }

  lemma {:induction false} UnapplyLinksSpare(g: seq<Block>, u: seq<Account>, b: nat, i: nat)
    requires Accounts(g, u) && b < |g| && i <= |g[b].links|
    ensures Spared(u, UnapplyLinks(g, u, b, i), b)
    decreases b, 0, 1 + |g[b].links| - i
  {
    if i < |g[b].links| {
      var t := g[b].links[i].target;
      if u[t].ref == b && u[t].mainRef {
        UnapplySpares(g, u, t);
      }
      var u1 := LeaveLink(g, u, b, i);
      assert Spared(u, u1, b);
      UnapplyLinksSpare(g, u1, b, i + 1);
    }
  }

  /**
    `unapply_block` clears exactly the marks that `apply_block` set if and only if none of the blocks below it
    was applied with the fee 2^64 - 1: such a block was not adopted, and stays referenced.
   */
  lemma {:induction false} UnapplyFlags(g: seq<Block>, s: seq<Account>, b: nat, u: seq<Account>)
    requires Accounts(g, s) && b < |g| && Clean(s) && !s[b].mainRef && |u| == |s|
    requires Holds(u, s, Apply(g, s, b).0, b)
    ensures Undone(u, Unapply(g, u, b), s, Apply(g, s, b).0) <==> NoCollision(g, s, Apply(g, s, b).0, b)
  {
    hide Apply, Unapply;
    if NoCollision(g, s, Apply(g, s, b).0, b) {
      UnapplyClears(g, s, b, u);
    } else {
      ApplyRefs(g, s, b);
      UnapplySpares(g, u, b);
    }
  }

  /** The link was adopted by `b`, so that `unapply_block` recurses into it, or it collides and is passed over. */
  lemma {:induction false} LeaveInside(g: seq<Block>, s: seq<Account>, b: nat, i: nat, u: seq<Account>)
    requires Accounts(g, s) && b < |g| && i < |g[b].links| && Clean(s) && s[b].mainRef && |u| == |s|
    requires Holds(u, s, VisitLink(g, s, b, i), -1) && !s[g[b].links[i].target].mainRef
    ensures var t := g[b].links[i].target; var (sa, r) := Apply(g, s, t); var s1 := VisitLink(g, s, b, i);
            && u[t].mainRef && u[t].ref == (if r == ALREADY then -1 else b) && Extends(s, sa)
            && (r != ALREADY ==> Holds(u, s, sa, t))
            && (forall x :: New(s, sa, x) <==> New(s, s1, x))
            && (forall x :: New(s, sa, x) && x != t ==> u[x].ref == sa[x].ref)
            && (NoCollision(g, s, s1, -1) ==> NoCollision(g, s, sa, t) && r != ALREADY)
  {
    var t := g[b].links[i].target;
    var (sa, r) := Apply(g, s, t);
    var s1 := VisitLink(g, s, b, i);
    ApplyFrame(g, s, t);
    ApplyRefs(g, s, t);
    VisitLinkRefs(g, s, b, i);
    VisitLinkFrame(g, s, b, i);
    assert s1 == if r == ALREADY then sa else Adopt(sa, b, t, r);
    hide Apply, VisitLink;
    assert New(s, s1, t);
    assert forall x :: New(s, sa, x) <==> New(s, s1, x);
  }

  lemma {:induction false} UnapplyLinksFlags(g: seq<Block>, s: seq<Account>, b: nat, i: nat, u: seq<Account>)
    requires Accounts(g, s) && b < |g| && i <= |g[b].links| && Clean(s) && s[b].mainRef && |u| == |s|
    requires NoCollision(g, s, ApplyLinks(g, s, b, i), -1)
    requires Holds(u, s, ApplyLinks(g, s, b, i), -1) && Detached(u, s, ApplyLinks(g, s, b, i), b)
    ensures Undone(u, UnapplyLinks(g, u, b, i), s, ApplyLinks(g, s, b, i))
    decreases b, 0, 1 + |g[b].links| - i
  {
    if i < |g[b].links| {
      var s1 := VisitLink(g, s, b, i);
      var s2 := ApplyLinks(g, s1, b, i + 1);
      var u1 := LeaveLink(g, u, b, i);
      LinkStep(g, s, b, i, u);
      NoCollisionSplit(g, s, s1, s2);
      LeaveLinkFlags(g, s, b, i, u);
      HoldsRest(u, u1, s, s1, s2, b);
      UnapplyLinksFlags(g, s1, b, i + 1, u1);
      UndoneTransitive(u, u1, UnapplyLinks(g, u1, b, i + 1), s, s1, s2);
    }
  }

  /** Whatever collides, `unapply_block` only clears marks that `apply_block` set. */
  lemma {:induction false} UnapplyLoosens(g: seq<Block>, s: seq<Account>, b: nat, u: seq<Account>)
    requires Accounts(g, s) && b < |g| && Clean(s) && !s[b].mainRef && |u| == |s|
    requires Holds(u, s, Apply(g, s, b).0, b)
    ensures Loosened(u, Unapply(g, u, b), s, Apply(g, s, b).0, -1) && !Unapply(g, u, b)[b].mainRef
    decreases b, 1, 0
  {
    HoldsInside(g, s, b, u);
    UnapplyLinksLoosen(g, s[b := s[b].(mainRef := true)], b, 0, Unsettle(g, u, b));
    LoosenedOutside(g, s, b, u, Unapply(g, u, b));
  }

  lemma {:induction false} LeaveLinkLoosens(g: seq<Block>, s: seq<Account>, b: nat, i: nat, u: seq<Account>)
    requires Accounts(g, s) && b < |g| && i < |g[b].links| && Clean(s) && s[b].mainRef && |u| == |s|
    requires Holds(u, s, VisitLink(g, s, b, i), -1)
    requires var t := g[b].links[i].target; s[t].mainRef && u[t].mainRef ==> u[t].ref != b
    ensures Loosened(u, LeaveLink(g, u, b, i), s, VisitLink(g, s, b, i), b)
    decreases b, 0, 0
  {
    var t := g[b].links[i].target;
    if !s[t].mainRef {
      var s1, u1 := VisitLink(g, s, b, i), LeaveLink(g, u, b, i);
      LeaveInside(g, s, b, i, u);
      ApplyRefs(g, s, t);
      if Apply(g, s, t).1 != ALREADY {
        UnapplyLoosens(g, s, t, u);
      }
      var sa := Apply(g, s, t).0;
      assert u1 == if Apply(g, s, t).1 == ALREADY then u else Accept(Unapply(g, u, t), b, 0 - g[t].fee);
      hide Apply, Unapply, VisitLink, LeaveLink, ApplyLinks;
      forall x | 0 <= x < |u| && New(s, s1, x) && x != t ensures u[x].ref != b {
        assert New(s, sa, x) && u[x].ref == sa[x].ref;
      }
    }
  }

  lemma {:induction false} UnapplyLinksLoosen(g: seq<Block>, s: seq<Account>, b: nat, i: nat, u: seq<Account>)
    requires Accounts(g, s) && b < |g| && i <= |g[b].links| && Clean(s) && s[b].mainRef && |u| == |s|
    requires Holds(u, s, ApplyLinks(g, s, b, i), -1) && Detached(u, s, ApplyLinks(g, s, b, i), b)
    ensures Loosened(u, UnapplyLinks(g, u, b, i), s, ApplyLinks(g, s, b, i), b)
    decreases b, 0, 1 + |g[b].links| - i
  {
    if i < |g[b].links| {
      var s1 := VisitLink(g, s, b, i);
      var s2 := ApplyLinks(g, s1, b, i + 1);
      var u1 := LeaveLink(g, u, b, i);
      LinkStep(g, s, b, i, u);
      VisitLinkRefs(g, s, b, i);
      LeaveLinkLoosens(g, s, b, i, u);
      LooseRest(g, u, u1, s, s1, s2, b);
      UnapplyLinksLoosen(g, s1, b, i + 1, u1);
      LoosenedTransitive(u, u1, UnapplyLinks(g, u1, b, i + 1), s, s1, s2, b);
    }
  }

  /** What one round of the two link loops may rely on. */
  lemma {:induction false} LinkStep(g: seq<Block>, s: seq<Account>, b: nat, i: nat, u: seq<Account>)
    requires Accounts(g, s) && b < |g| && i < |g[b].links| && Clean(s) && s[b].mainRef && |u| == |s|
    requires Holds(u, s, ApplyLinks(g, s, b, i), -1) && Detached(u, s, ApplyLinks(g, s, b, i), b)
    ensures var s1 := VisitLink(g, s, b, i); var s2 := ApplyLinks(g, s1, b, i + 1);
            && Extends(s, s1) && Extends(s1, s2) && Clean(s1) && Holds(u, s, s1, -1)
            && (var t := g[b].links[i].target; s[t].mainRef && u[t].mainRef ==> u[t].ref != b)
  {
    var s1 := VisitLink(g, s, b, i);
    var s2 := ApplyLinks(g, s1, b, i + 1);
    VisitLinkFrame(g, s, b, i);
    ApplyLinksFrame(g, s1, b, i + 1);
    CleanExtends(s, s1);
    ApplyLinksRefs(g, s1, b, i + 1);
    HoldsSplit(g, u, s, s1, s2, b);
  }

  // -------------------------------------------------------------- amounts of unapply

  /** What `b` was actually paid for adopting a link that returned `fee`: nothing if its balance would overflow. */
  function Paid(s: seq<Account>, b: nat, fee: Amount): Amount
    requires b < |s|
  {
    if s[b].amount + fee < WORD then fee else 0
  }

  /**
    The fees that account `x` should have earned while `apply_block(b)` ran on `s`
    and did not: `unapply_block` takes the whole fee back from the adopter although
    a rejected link (or an overflowing balance) paid nothing. What a colliding link moved counts against
    them, because `unapply_block` passes it over.
   */
  function Unearned(g: seq<Block>, s: seq<Account>, b: nat, x: nat): int
    requires Accounts(g, s) && b < |g|
    decreases b, 1, 0
  {
    if s[b].mainRef then 0 else UnearnedLinks(g, s[b := s[b].(mainRef := true)], b, 0, x)
  }

  function UnearnedLink(g: seq<Block>, s: seq<Account>, b: nat, i: nat, x: nat): int
    requires Accounts(g, s) && b < |g| && i < |g[b].links|
    decreases b, 0, 0
  {
    var t := g[b].links[i].target;
    var (s1, r) := Apply(g, s, t);
    if s[t].mainRef then 0
    else if r == ALREADY then (if x < |g| then s[x].amount - s1[x].amount else 0)
    else Unearned(g, s, t, x) + if x == b then g[t].fee - Paid(s1, b, r) else 0
  }

  function UnearnedLinks(g: seq<Block>, s: seq<Account>, b: nat, i: nat, x: nat): int
    requires Accounts(g, s) && b < |g| && i <= |g[b].links|
    decreases b, 0, 1 + |g[b].links| - i
  {
    if i == |g[b].links| then 0
    else UnearnedLink(g, s, b, i, x) + UnearnedLinks(g, VisitLink(g, s, b, i), b, i + 1, x)
  }

  /** Account `x` in `u1` is `u` minus what it gained between `s` and `s1`, minus `extra`, modulo 2^64. */
  ghost predicate TakenBack(u: seq<Account>, u1: seq<Account>, s: seq<Account>, s1: seq<Account>, x: nat, extra: int) {
    && |u| == |u1| == |s| == |s1| && x < |s|
    && Cong(u1[x].amount, u[x].amount - (s1[x].amount - s[x].amount) - extra)
  }

  lemma {:induction false} TakenBackTransitive(u: seq<Account>, u1: seq<Account>, u2: seq<Account>,
                            s: seq<Account>, s1: seq<Account>, s2: seq<Account>, x: nat, e1: int, e2: int)
    requires TakenBack(u, u1, s, s1, x, e1) && TakenBack(u1, u2, s1, s2, x, e2)
    ensures TakenBack(u, u2, s, s2, x, e1 + e2)
  {
    CongAdd(u1[x].amount, u[x].amount - (s1[x].amount - s[x].amount) - e1,
            u2[x].amount, u1[x].amount - (s2[x].amount - s1[x].amount) - e2,
            u2[x].amount, u[x].amount - (s2[x].amount - s[x].amount) - (e1 + e2));
  }

  /** The net credit that `links` carry to account `x`, or take `back` from it. */
  function Moved(links: seq<Link>, x: nat, back: bool): int {
    if links == [] then 0
    else
      var l := links[|links| - 1];
      Moved(links[..|links| - 1], x, back) + if l.target == x then Credit(l, back) else 0
  }

  lemma {:induction false} MovedBack(links: seq<Link>, x: nat)
    ensures Moved(links, x, true) == 0 - Moved(links, x, false)
  {
    if links != [] {
      MovedBack(links[..|links| - 1], x);
    }
  }

  lemma {:induction false} MoveAmount(g: seq<Block>, s: seq<Account>, b: nat, n: nat, back: bool, x: nat)
    requires Accounts(g, s) && b < |g| && n <= |g[b].links| && x < |g|
    ensures Cong(Move(g, s, b, n, back)[x].amount, s[x].amount + Moved(g[b].links[..n], x, back))
  {
    if n > 0 {
      var l := g[b].links[n - 1];
      assert g[b].links[..n][..n - 1] == g[b].links[..n - 1];
      MoveAmount(g, s, b, n - 1, back, x);
      var m, c, moved := Move(g, s, b, n - 1, back)[x].amount, Credit(l, back), Moved(g[b].links[..n - 1], x, back);
      if l.target == x {
        assert Move(g, s, b, n, back)[x].amount == Wrap(m + c);
        CongWrap(m + c);
        CongAdd(m, s[x].amount + moved, Wrap(m + c), m + c, Wrap(m + c), s[x].amount + (moved + c));
      }
    } else {
      CongSame(s[x].amount);
    }
  }

  /** The two sums of an accepted block differ by its fee and the net credit of its links. */
  lemma {:induction false} CheckLinksSums(g: seq<Block>, s: seq<Account>, b: nat, i: nat, sumIn: Amount, sumOut: Amount)
    requires Accounts(g, s) && b < |g| && i <= |g[b].links|
    ensures var c := CheckLinks(g, s, b, i, sumIn, sumOut); c.Sums? ==>
              c.sumIn - c.sumOut == sumIn - sumOut - (Returned(g[b].links) - Returned(g[b].links[..i]))
    decreases |g[b].links| - i
  {
    var links := g[b].links;
    if i == |links| {
      assert links[..i] == links;
    } else {
      var l := links[i];
      assert links[..i + 1][..i] == links[..i];
      if l.isInput {
        if !(s[l.target].amount < l.amount || sumIn + l.amount >= WORD) {
          CheckLinksSums(g, s, b, i + 1, sumIn + l.amount, sumOut);
        }
      } else if !(sumOut + l.amount >= WORD) {
        CheckLinksSums(g, s, b, i + 1, sumIn, sumOut + l.amount);
      }
    }
  }

  /** Balances right after `Settle` accepted `b`, and right after `Unsettle` reversed it, before reducing to 64 bits. */
  lemma {:induction false} SettleAmounts(g: seq<Block>, s: seq<Account>, b: nat, u: seq<Account>, x: nat)
    requires Accounts(g, s) && b < |g| && x < |g| && |u| == |s| && u[b].applied && Check(g, s, b).Sums?
    ensures var n := |g[b].links|; var ret := if x == b then g[b].fee + Returned(g[b].links) else 0;
            && Settle(g, s, b).0[x].amount == Wrap(Move(g, s, b, n, false)[x].amount - ret)
            && Unsettle(g, u, b)[x].amount == Wrap(Move(g, u, b, n, true)[x].amount + ret)
  {
    assert g[b].links[..0] == [];
    CheckLinksSums(g, s, b, 0, 0, g[b].fee);
    var Sums(sumIn, sumOut) := Check(g, s, b);
    assert sumIn - sumOut == 0 - g[b].fee - Returned(g[b].links);
  }

  /** Undoing the money movement of `b` itself (client/block.c:271-285 against 253-263). */
  lemma {:induction false} UnsettleAmount(g: seq<Block>, s: seq<Account>, b: nat, u: seq<Account>, x: nat)
    requires Accounts(g, s) && b < |g| && x < |g| && |u| == |s| && s[b].mainRef && !s[b].applied
    requires forall i :: 0 <= i < |g[b].links| ==> s[g[b].links[i].target].mainRef
    requires u[b].applied == Settle(g, s, b).0[b].applied
    ensures TakenBack(u, Unsettle(g, u, b), s, Settle(g, s, b).0, x, 0)
  {
    hide Cong, Wrap, Move;
    SettleFrame(g, s, b);
    if Check(g, s, b).Rejected? {
      CongSame(u[x].amount);
    } else {
      hide Settle, Unsettle, Check;
      var n := |g[b].links|;
      assert g[b].links[..n] == g[b].links;
      SettleAmounts(g, s, b, u, x);
      MoveAmount(g, s, b, n, false, x);
      MoveAmount(g, u, b, n, true, x);
      MovedBack(g[b].links, x);
      OppositeMoves(u[x].amount, s[x].amount, Moved(g[b].links, x, false),
                    Move(g, u, b, n, true)[x].amount, Move(g, s, b, n, false)[x].amount,
                    if x == b then g[b].fee + Returned(g[b].links) else 0);
    }
  }

  lemma {:induction false} OppositeMoves(u: Amount, s: Amount, moved: int, um: Amount, sm: Amount, ret: int)
    requires Cong(um, u - moved) && Cong(sm, s + moved)
    ensures Cong(Wrap(um + ret), u - (Wrap(sm - ret) - s) - 0)
  {
    CongWrap(um + ret);
    CongWrap(sm - ret);
    CongAdd(um, u - moved, sm, s + moved, um + sm, u + s);
    CongAdd(Wrap(um + ret), um + ret, Wrap(sm - ret), sm - ret, Wrap(um + ret) + Wrap(sm - ret), um + sm);
    CongAdd(um + sm, u + s, Wrap(um + ret) + Wrap(sm - ret), um + sm,
            Wrap(um + ret), u - (Wrap(sm - ret) - s) - 0);
  }

  /** The exact effect of `unapply_block` on every balance. */
  lemma {:induction false} UnapplyAmount(g: seq<Block>, s: seq<Account>, b: nat, u: seq<Account>, x: nat)
    requires Accounts(g, s) && b < |g| && Clean(s) && !s[b].mainRef && |u| == |s| && x < |g|
    requires Holds(u, s, Apply(g, s, b).0, b)
    ensures TakenBack(u, Unapply(g, u, b), s, Apply(g, s, b).0, x, Unearned(g, s, b, x))
    decreases b, 1, 0
  {
    var s0 := s[b := s[b].(mainRef := true)];
    var s2 := ApplyLinks(g, s0, b, 0);
    var s1 := Settle(g, s2, b).0;
    var u0 := Unsettle(g, u, b);
    HoldsInside(g, s, b, u);
    ApplyLinksFrame(g, s0, b, 0);
    ApplyFrame(g, s, b);
    UnsettleAmount(g, s2, b, u, x);
    UnapplyLinksAmount(g, s0, b, 0, u0, x);
    assert TakenBack(u, u0, s2, s1, x, 0);
    assert TakenBack(u0, UnapplyLinks(g, u0, b, 0), s0, s2, x, UnearnedLinks(g, s0, b, 0, x));
    var e := UnearnedLinks(g, s0, b, 0, x);
    var u2 := UnapplyLinks(g, u0, b, 0);
    CongAdd(u0[x].amount, u[x].amount - (s1[x].amount - s2[x].amount) - 0,
            u2[x].amount, u0[x].amount - (s2[x].amount - s0[x].amount) - e,
            u2[x].amount, u[x].amount - (s1[x].amount - s[x].amount) - e);
  }

  lemma {:induction false} LeaveLinkAmount(g: seq<Block>, s: seq<Account>, b: nat, i: nat, u: seq<Account>, x: nat)
    requires Accounts(g, s) && b < |g| && i < |g[b].links| && Clean(s) && s[b].mainRef && |u| == |s| && x < |g|
    requires Holds(u, s, VisitLink(g, s, b, i), -1)
    requires var t := g[b].links[i].target; s[t].mainRef && u[t].mainRef ==> u[t].ref != b
    ensures TakenBack(u, LeaveLink(g, u, b, i), s, VisitLink(g, s, b, i), x, UnearnedLink(g, s, b, i, x))
    decreases b, 0, 0
  {
    var t := g[b].links[i].target;
    if s[t].mainRef {
      CongSame(u[x].amount);
    } else if Apply(g, s, t).1 == ALREADY {
      LeaveInside(g, s, b, i, u);
      CongSame(u[x].amount);
    } else {
      var (sa, r) := Apply(g, s, t);
      LeaveInside(g, s, b, i, u);
      UnapplyAmount(g, s, t, u, x);
      var u1 := Unapply(g, u, t);
      assert LeaveLink(g, u, b, i) == Accept(u1, b, 0 - g[t].fee);
      assert VisitLink(g, s, b, i) == Adopt(sa, b, t, r);
      hide Unapply, Apply, LeaveLink, VisitLink;
      AdoptAmount(u, u1, s, sa, b, t, r, g[t].fee, x, Unearned(g, s, t, x));
    }
  }

  lemma {:induction false} AdoptAmount(u: seq<Account>, u1: seq<Account>, s: seq<Account>, sa: seq<Account>,
                    b: nat, t: nat, r: Amount, fee: Amount, x: nat, e: int)
    requires TakenBack(u, u1, s, sa, x, e) && b < |s| && t < |s| && b != t
    ensures TakenBack(u, Accept(u1, b, 0 - fee), s, Adopt(sa, b, t, r), x, e + if x == b then fee - Paid(sa, b, r) else 0)
  {
    if x == b {
      var paid, after := Paid(sa, b, r), Wrap(u1[b].amount - fee);
      assert Adopt(sa, b, t, r)[b].amount == sa[b].amount + paid;
      CongWrap(u1[b].amount - fee);
      CongAdd(u1[b].amount, u[b].amount - (sa[b].amount - s[b].amount) - e, after, u1[b].amount - fee,
              after, u[b].amount - (sa[b].amount + paid - s[b].amount) - (e + (fee - paid)));
    }
  }

  lemma {:induction false} UnapplyLinksAmount(g: seq<Block>, s: seq<Account>, b: nat, i: nat, u: seq<Account>, x: nat)
    requires Accounts(g, s) && b < |g| && i <= |g[b].links| && Clean(s) && s[b].mainRef && |u| == |s| && x < |g|
    requires Holds(u, s, ApplyLinks(g, s, b, i), -1) && Detached(u, s, ApplyLinks(g, s, b, i), b)
    ensures TakenBack(u, UnapplyLinks(g, u, b, i), s, ApplyLinks(g, s, b, i), x, UnearnedLinks(g, s, b, i, x))
    decreases b, 0, 1 + |g[b].links| - i
  {
    if i == |g[b].links| {
      CongSame(u[x].amount);
    } else {
      var s1 := VisitLink(g, s, b, i);
      var s2 := ApplyLinks(g, s1, b, i + 1);
      var u1 := LeaveLink(g, u, b, i);
      LinkStep(g, s, b, i, u);
      VisitLinkRefs(g, s, b, i);
      LeaveLinkLoosens(g, s, b, i, u);
      LeaveLinkAmount(g, s, b, i, u, x);
      LooseRest(g, u, u1, s, s1, s2, b);
      UnapplyLinksAmount(g, s1, b, i + 1, u1, x);
      TakenBackTransitive(u, u1, UnapplyLinks(g, u1, b, i + 1), s, s1, s2, x,
                          UnearnedLink(g, s, b, i, x), UnearnedLinks(g, s1, b, i + 1, x));
    }
  }
}
