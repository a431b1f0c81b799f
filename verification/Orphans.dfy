/**
 * The two lists of blocks nobody refers to yet, ordinary and extra ones
 * (client/block.c:866-880, 2153-2209), and the union of `ref` and `oref`.
 */
module Orphans {
  import opened Ledger
  import opened Undo
  import opened MainBlocks
  import opened Common
  import opened DList

  /** The flags BI_REF and BI_EXTRA. */
  datatype Flags = Flags(ref: bool, extra: bool)

  datatype Action = Normal | Extra

  /**
   * A block is on the list that its BI_EXTRA selects exactly when it lacks BI_REF; the
   * blocks of `out` have been taken off the extra list and still carry their flags.
   */
  ghost predicate Listed(flags: seq<Flags>, plain: seq<nat>, extra: seq<nat>, out: set<nat>) {
    && (forall x :: x in plain <==> 0 <= x < |flags| && !flags[x].ref && !flags[x].extra)
    && (forall x :: x in extra <==> 0 <= x < |flags| && !flags[x].ref && flags[x].extra && x !in out)
    && (forall x :: x in out ==> 0 <= x < |flags| && !flags[x].ref && flags[x].extra)
  }

  /** Links of a block that is not extra carry BI_REF; a referenced block is not extra. */
  ghost predicate Closed(g: seq<Block>, flags: seq<Flags>) {
    && |flags| == |g|
    && (forall b :: 0 <= b < |g| && !flags[b].extra ==> LinksReferenced(g, flags, b))
    && (forall b :: 0 <= b < |g| && flags[b].ref ==> !flags[b].extra)
  }

  ghost predicate LinksReferenced(g: seq<Block>, flags: seq<Flags>, b: nat)
    requires b < |g| == |flags|
  {
    forall i :: 0 <= i < |g[b].links| ==> g[b].links[i].target < |g| && flags[g[b].links[i].target].ref
  }

  /** Flags only move towards "referenced". */
  ghost predicate Grew(a: seq<Flags>, b: seq<Flags>) {
    && |a| == |b|
    && forall x :: 0 <= x < |a| ==> b[x] == a[x] || b[x] == Flags(true, false)
  }

  predicate Links(g: seq<Block>, z: nat, y: nat)
    requires z < |g|
  {
    exists i :: 0 <= i < |g[z].links| && g[z].links[i].target == y
  }

  ghost function Targets(links: seq<Link>): set<nat> { set i | 0 <= i < |links| :: links[i].target }

  /** `y` is a link of an extra block that ceased to be one. */
  ghost predicate Dragged(g: seq<Block>, a: seq<Flags>, b: seq<Flags>, y: nat)
    requires |a| == |b| == |g|
  {
    exists z :: 0 <= z < |g| && a[z].extra && b[z] != a[z] && Links(g, z, y)
  }

  /**
   * From flags `a` to flags `b` only the blocks of `roots` and what extra blocks among the
   * changed ones drag along became referenced, and exactly the changed extra blocks were saved.
   */
  ghost predicate Freed(g: seq<Block>, a: seq<Flags>, b: seq<Flags>, roots: set<nat>, saved: seq<nat>, now: seq<nat>) {
    && |a| == |g| && Grew(a, b)
    && (forall y :: 0 <= y < |a| && b[y] != a[y] ==> y in roots || Dragged(g, a, b, y))
    && (forall y :: y in now <==> y in saved || (0 <= y < |a| && a[y].extra && b[y] != a[y]))
  }

  lemma {:induction false} FreedNone(g: seq<Block>, a: seq<Flags>, roots: set<nat>, saved: seq<nat>)
    requires |a| == |g|
    ensures Freed(g, a, a, roots, saved, saved)
  {}

  lemma {:induction false} FreedJoin(g: seq<Block>, a: seq<Flags>, b: seq<Flags>, c: seq<Flags>, roots: set<nat>, more: set<nat>,
                                     saved: seq<nat>, mid: seq<nat>, now: seq<nat>)
    requires Freed(g, a, b, roots, saved, mid) && Freed(g, b, c, more, mid, now)
    ensures Freed(g, a, c, roots + more, saved, now)
  {
    hide Links;
    forall y | 0 <= y < |a| && c[y] != a[y] ensures y in roots + more || Dragged(g, a, c, y) {
      if b[y] != a[y] {
        if Dragged(g, a, b, y) {
          var z :| 0 <= z < |g| && a[z].extra && b[z] != a[z] && Links(g, z, y);
          assert c[z] != a[z];
        }
      } else if Dragged(g, b, c, y) {
        var z :| 0 <= z < |g| && b[z].extra && c[z] != b[z] && Links(g, z, y);
        assert a[z].extra && c[z] != a[z];
      }
    }
  }

  /** The block itself follows the links that were freed on its behalf. */
  lemma {:induction false} FreedSelf(g: seq<Block>, a: seq<Flags>, b: seq<Flags>, x: nat, saved: seq<nat>, now: seq<nat>)
    requires x < |g| && Freed(g, a, b, Targets(g[x].links), saved + [x], now)
    requires a[x].extra && !a[x].ref && b[x] == a[x]
    ensures Freed(g, a, b[x := Flags(true, false)], {x}, saved, now)
  {
    var c := b[x := Flags(true, false)];
    forall y | 0 <= y < |a| && c[y] != a[y] ensures y in {x} || Dragged(g, a, c, y) {
      if y != x {
        if y in Targets(g[x].links) {
          assert Links(g, x, y) && c[x] != a[x];
        } else {
          var z :| 0 <= z < |g| && a[z].extra && b[z] != a[z] && Links(g, z, y);
          assert c[z] != a[z];
        }
      }
    }
  }

  /** What is referenced stays so, what is extra was extra. */
  lemma {:induction false} FreedKeeps(g: seq<Block>, a: seq<Flags>, b: seq<Flags>, roots: set<nat>, saved: seq<nat>, now: seq<nat>)
    requires Freed(g, a, b, roots, saved, now)
    ensures |a| == |b| == |g|
    ensures forall x :: 0 <= x < |a| ==> b[x] == a[x] || b[x] == Flags(true, false)
  {}

  lemma {:induction false} ClosedSize(g: seq<Block>, flags: seq<Flags>)
    requires Closed(g, flags)
    ensures |flags| == |g|
  {}

  lemma {:induction false} FreedPlain(g: seq<Block>, a: seq<Flags>, x: nat, saved: seq<nat>)
    requires x < |g| == |a| && !a[x].extra
    ensures Freed(g, a, a[x := Flags(true, false)], {x}, saved, saved)
  {}

  lemma {:induction false} Marked(g: seq<Block>, flags: seq<Flags>, x: nat)
    requires Closed(g, flags) && x < |g| && (flags[x].extra ==> LinksReferenced(g, flags, x))
    ensures Closed(g, flags[x := Flags(true, false)])
  {
    var fs := flags[x := Flags(true, false)];
    forall b | 0 <= b < |g| && !fs[b].extra ensures LinksReferenced(g, fs, b) {
      assert LinksReferenced(g, flags, b);
    }
  }

  lemma {:induction false} Settled(flags: seq<Flags>, plain: seq<nat>, extra: seq<nat>, out: set<nat>, x: nat)
    requires Listed(flags, plain, extra, out + {x}) && x !in out
    ensures x < |flags| && Listed(flags[x := Flags(true, false)], plain, extra, out)
  {}

  lemma {:induction false} Extended(g: seq<Block>, nb: Block, flags: seq<Flags>, extra: bool)
    requires IsDag(g + [nb]) && Closed(g, flags)
    requires !extra ==> forall j :: 0 <= j < |nb.links| ==> nb.links[j].target < |g| && flags[nb.links[j].target].ref
    ensures Closed(g + [nb], flags + [Flags(false, extra)])
  {
    var all, fs := g + [nb], flags + [Flags(false, extra)];
    forall b | 0 <= b < |all| && !fs[b].extra ensures LinksReferenced(all, fs, b) {
      assert b < |g| ==> LinksReferenced(g, flags, b);
    }
  }

  class Orphanage {
    const plain: List       // g_orphan_first[0], g_orphan_last[0]
    const extras: List      // g_orphan_first[1], g_orphan_last[1]
    var flags: seq<Flags>
    var nnoref: int
    var nextra: int
    var saved: seq<nat>     // blocks written to the storage when they ceased to be extra

    ghost predicate Tables(out: set<nat>)
      reads this, plain, extras
    {
      && plain != extras && plain.Valid() && extras.Valid()
      && Listed(flags, plain.list, extras.list, out)
      && nnoref == |plain.list| && nextra == |extras.list| + |out|
    }

    ghost predicate Valid(g: seq<Block>)
      reads this, plain, extras
    {
      IsDag(g) && Tables({}) && Closed(g, flags)
    }

    constructor ()
      ensures Valid([]) && flags == [] && fresh(plain) && fresh(extras)
    {
      plain := new List();
      extras := new List();
      flags, nnoref, nextra, saved := [], 0, 0, [];
    }

    /** `remove_orphan`: an extra block becomes an ordinary one, is saved, and refers to its links. */
    method RemoveOrphan(g: seq<Block>, x: nat, action: Action, ghost out: set<nat>)
      requires IsDag(g) && Tables(out) && Closed(g, flags) && x < |g| && forall y :: y in out ==> x < y
      modifies this, plain, extras
      ensures Tables(out) && Closed(g, flags) && Freed(g, old(flags), flags, {x}, old(saved), saved)
      ensures action == Normal || old(flags[x]).extra ==> flags[x].ref
      ensures action == Extra && !old(flags[x]).extra ==> flags == old(flags)
      decreases x, 1
    {
      hide Strung, Removed, Listed, LinksReferenced, Freed;
      FreedNone(g, flags, {x}, saved);
      if flags[x].ref || (action == Extra && !flags[x].extra) { return; }
      if flags[x].extra {
        TakeExtra(x, out);
        saved := saved + [x];
        RemoveLinks(g, x, out + {x});
        LastOut(out, x);
        Marked(g, flags, x);
        Settled(flags, plain.list, extras.list, out, x);
        FreedSelf(g, old(flags), flags, x, old(saved), saved);
        nextra := nextra - 1;
        flags := flags[x := Flags(true, false)];
      } else {
        Marked(g, flags, x);
        FreedPlain(g, flags, x, saved);
        TakePlain(x, out);
      }
    }

    method TakePlain(x: nat, ghost out: set<nat>)
      requires Tables(out) && x < |flags| && !flags[x].ref && !flags[x].extra
      modifies this, plain
      ensures Tables(out) && flags == old(flags)[x := Flags(true, false)] && saved == old(saved)
    {
      hide Strung, Removed;
      ghost var i :| 0 <= i < |plain.list| && plain.list[i] == x;
      Spread(plain.cells, plain.first, plain.last, plain.list);
      RemovedMembers(plain.list, i);
      plain.Unlink(x, i);
      nnoref := nnoref - 1;
      flags := flags[x := Flags(true, false)];
    }

    method TakeExtra(x: nat, ghost out: set<nat>)
      requires Tables(out) && x < |flags| && !flags[x].ref && flags[x].extra && x !in out
      modifies extras
      ensures Tables(out + {x})
    {
      hide Strung, Removed;
      ghost var i :| 0 <= i < |extras.list| && extras.list[i] == x;
      Spread(extras.cells, extras.first, extras.last, extras.list);
      RemovedMembers(extras.list, i);
      extras.Unlink(x, i);
    }

    /** The end of `add_block_nolock`: links cease to be orphans, the new block becomes one (`add_orphan`). */
    method AddBlock(g: seq<Block>, nb: Block, extra: bool)
      requires Valid(g) && IsDag(g + [nb])
      modifies this, plain, extras
      ensures Valid(g + [nb])
      ensures flags[|g|] == Flags(false, extra)
      ensures Freed(g, old(flags), flags[..|g|], Targets(nb.links), old(saved), saved)
      ensures forall j :: 0 <= j < |nb.links| ==>
        nb.links[j].target < |g| && (!extra || old(flags)[nb.links[j].target].extra ==> flags[nb.links[j].target].ref)
    {
      hide Strung, Freed, Closed;
      ghost var all, links := g + [nb], nb.links;
      var i := 0;
      ClosedSize(g, flags);
      FreedNone(g, flags, {}, saved);
      assert Targets(links[..0]) == {};
      assert forall j :: 0 <= j < |links| ==> all[|g|].links[j].target < |g|;
      while i < |nb.links|
        invariant 0 <= i <= |nb.links|
        invariant Tables({}) && Closed(g, flags) && Freed(g, old(flags), flags, Targets(links[..i]), old(saved), saved)
        invariant |flags| == |g|
        invariant forall j :: 0 <= j < i && (!extra || old(flags)[links[j].target].extra) ==> flags[links[j].target].ref
      {
        ghost var was, kept := flags, saved;
        FreedKeeps(g, old(flags), flags, Targets(links[..i]), old(saved), saved);
        RemoveOrphan(g, nb.links[i].target, if extra then Extra else Normal, {});
        ClosedSize(g, flags);
        FreedKeeps(g, was, flags, {links[i].target}, kept, saved);
        FreedJoin(g, old(flags), was, flags, Targets(links[..i]), {links[i].target}, old(saved), kept, saved);
        assert Targets(links[..i + 1]) == Targets(links[..i]) + {links[i].target};
        i := i + 1;
      }
      assert links[..i] == links;
      AddOrphan(|g|, extra);
      Extended(g, nb, flags[..|g|], extra);
      assert flags == flags[..|g|] + [Flags(false, extra)];
    }

    method AddOrphan(b: nat, extra: bool)
      requires Tables({}) && b == |flags|
      modifies this, plain, extras
      ensures Tables({}) && flags == old(flags) + [Flags(false, extra)] && saved == old(saved)
    {
      hide Strung;
      if extra {
        extras.Append(b);
        nextra := nextra + 1;
      } else {
        plain.Append(b);
        nnoref := nnoref + 1;
      }
      flags := flags + [Flags(false, extra)];
    }

    /** The loop over the links of a block that ceases to be extra. */
    method RemoveLinks(g: seq<Block>, x: nat, ghost out: set<nat>)
      requires IsDag(g) && Tables(out) && Closed(g, flags) && x < |g| && forall y :: y in out ==> x <= y
      modifies this, plain, extras
      ensures Tables(out) && Closed(g, flags) && Freed(g, old(flags), flags, Targets(g[x].links), old(saved), saved)
      ensures forall y :: y in out ==> y < |flags| && flags[y] == old(flags)[y]
      ensures LinksReferenced(g, flags, x)
      decreases x, 0
    {
      hide Strung, Freed, Closed;
      var i := 0;
      ghost var links := g[x].links;
      ClosedSize(g, flags);
      FreedNone(g, flags, {}, saved);
      assert Targets(links[..0]) == {};
      while i < |g[x].links|
        invariant 0 <= i <= |g[x].links|
        invariant Tables(out) && Closed(g, flags) && Freed(g, old(flags), flags, Targets(links[..i]), old(saved), saved)
        invariant forall j :: 0 <= j < i ==> links[j].target < |g| && links[j].target < |flags| && flags[links[j].target].ref
      {
        ghost var was, kept := flags, saved;
        RemoveOrphan(g, g[x].links[i].target, Normal, out);
        FreedKeeps(g, was, flags, {links[i].target}, kept, saved);
        FreedJoin(g, old(flags), was, flags, Targets(links[..i]), {links[i].target}, old(saved), kept, saved);
        assert Targets(links[..i + 1]) == Targets(links[..i]) + {links[i].target};
        i := i + 1;
      }
      assert links[..i] == links;
      FreedKeeps(g, old(flags), flags, Targets(links), old(saved), saved);
    }
  }

  // ---------------------------------------------------------------- the union of `ref` and `oref`

  /** Where the accounts' `ref` differs, the block carries BI_REF, so the field does not hold an orphan's `oref`. */
  ghost predicate WritesReferenced(flags: seq<Flags>, s: seq<Account>, s1: seq<Account>) {
    && |s| == |s1| == |flags|
    && forall x :: 0 <= x < |s| && s1[x].ref != s[x].ref ==> flags[x].ref
  }

  /** `apply_block` of a referenced block adopts only referenced blocks. */
  lemma {:induction false} ApplySparesOrphans(g: seq<Block>, flags: seq<Flags>, s: seq<Account>, b: nat)
    requires Accounts(g, s) && Closed(g, flags) && b < |g| && flags[b].ref
    ensures WritesReferenced(flags, s, Apply(g, s, b).0)
    decreases b, 1, 0
  {
    if !s[b].mainRef {
      var s0 := s[b := s[b].(mainRef := true)];
      ApplyLinksSpares(g, flags, s0, b, 0);
      MoveKeepsFlags(g, ApplyLinks(g, s0, b, 0), b, |g[b].links|, false);
    }
  }

  lemma {:induction false} ApplyLinksSpares(g: seq<Block>, flags: seq<Flags>, s: seq<Account>, b: nat, i: nat)
    requires Accounts(g, s) && Closed(g, flags) && b < |g| && flags[b].ref && i <= |g[b].links|
    ensures WritesReferenced(flags, s, ApplyLinks(g, s, b, i))
    decreases b, 0, |g[b].links| - i
  {
    if i < |g[b].links| {
      assert LinksReferenced(g, flags, b);
      ApplySparesOrphans(g, flags, s, g[b].links[i].target);
      ApplyLinksSpares(g, flags, VisitLink(g, s, b, i), b, i + 1);
    }
  }

  /** `unapply_block` of a referenced block clears `ref` only on referenced blocks. */
  lemma {:induction false} UnapplySparesOrphans(g: seq<Block>, flags: seq<Flags>, s: seq<Account>, b: nat)
    requires Accounts(g, s) && Closed(g, flags) && b < |g| && flags[b].ref
    ensures WritesReferenced(flags, s, Unapply(g, s, b))
    decreases b, 1, 0
  {
    MoveKeepsFlags(g, s, b, |g[b].links|, true);
    UnapplyLinksSpares(g, flags, Unsettle(g, s, b), b, 0);
  }

  lemma {:induction false} UnapplyLinksSpares(g: seq<Block>, flags: seq<Flags>, s: seq<Account>, b: nat, i: nat)
    requires Accounts(g, s) && Closed(g, flags) && b < |g| && flags[b].ref && i <= |g[b].links|
    ensures WritesReferenced(flags, s, UnapplyLinks(g, s, b, i))
    decreases b, 0, |g[b].links| - i
  {
    if i < |g[b].links| {
      assert LinksReferenced(g, flags, b);
      UnapplySparesOrphans(g, flags, s, g[b].links[i].target);
      UnapplyLinksSpares(g, flags, LeaveLink(g, s, b, i), b, i + 1);
    }
  }

  /** Promoting and demoting a referenced main block never writes to the `oref` of an orphan. */
  lemma {:induction false} MainSparesOrphans(g: seq<Block>, flags: seq<Flags>, s: seq<Account>, m: nat, reward: nat)
    requires Accounts(g, s) && Closed(g, flags) && m < |g| && flags[m].ref
    ensures WritesReferenced(flags, s, SetMain(g, s, m, reward))
    ensures WritesReferenced(flags, s, UnsetMain(g, s, m, reward))
  {
    hide Apply, Unapply;
    ApplySparesOrphans(g, flags, Accept(s, m, reward), m);
    UnapplySparesOrphans(g, flags, Accept(s, m, 0 - reward), m);
  }

  lemma {:induction false} WritesNone(flags: seq<Flags>, s: seq<Account>)
    requires |s| == |flags|
    ensures WritesReferenced(flags, s, s)
  {}

  lemma {:induction false} WritesJoin(flags: seq<Flags>, s: seq<Account>, s1: seq<Account>, s2: seq<Account>)
    requires WritesReferenced(flags, s, s1) && WritesReferenced(flags, s1, s2)
    ensures WritesReferenced(flags, s, s2)
  {}

  /** A newly indexed block, not referenced itself, changes nothing about the older ones. */
  lemma {:induction false} WritesGrown(flags: seq<Flags>, f: Flags, s: seq<Account>, a: Account, s1: seq<Account>)
    requires |s| == |flags| && WritesReferenced(flags + [f], s + [a], s1)
    ensures |s1| == |s| + 1 && WritesReferenced(flags, s, s1[..|s|]) && (!f.ref ==> s1[|s|].ref == a.ref)
  {
    forall x | 0 <= x < |s| && s1[x].ref != s[x].ref ensures flags[x].ref {
      assert (s + [a])[x] == s[x] && (flags + [f])[x] == flags[x];
    }
  }

  /** A block without BI_REF has no `ref`, so its field is free for `oref`. */
  ghost predicate NoRef(flags: seq<Flags>, s: seq<Account>) {
    |s| == |flags| && forall x :: 0 <= x < |s| && !flags[x].ref ==> s[x].ref == -1
  }

  /** BI_REF only comes, and `ref` is written only where it stood already. */
  lemma {:induction false} NoRefKept(a: seq<Flags>, s: seq<Account>, b: seq<Flags>, s1: seq<Account>)
    requires NoRef(a, s) && |s1| == |b| == |a| + 1 && WritesReferenced(a, s, s1[..|a|]) && s1[|a|].ref == -1
    requires forall x :: 0 <= x < |a| ==> b[..|a|][x] == a[x] || b[..|a|][x] == Flags(true, false)
    ensures NoRef(b, s1)
  {
    forall x | 0 <= x < |a| && !b[x].ref ensures s1[x].ref == -1 {
      assert b[..|a|][x] == b[x] && s1[..|a|][x] == s1[x];
    }
  }

  lemma {:induction false} NoRefSame(a: seq<Flags>, s: seq<Account>, s1: seq<Account>)
    requires NoRef(a, s) && WritesReferenced(a, s, s1)
    ensures NoRef(a, s1)
  {}

  lemma {:induction false} LastOut(out: set<nat>, x: nat)
    requires x !in out
    ensures |out + {x}| == |out| + 1
  {}
}
