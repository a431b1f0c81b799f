/**
  How `add_block_nolock` ranks a new block (client/block.c:677, 722-744), and what
  the rank means: the work along a chain of blocks in distinct epochs.
 */
module Difficulty {
  import opened Ledger
  import opened Chain

  /** The walk of client/block.c:732-734: follow `max_diff_link` while the epoch is `e`. */
  function Skip(g: seq<Block>, rk: seq<Rank>, x: int, e: nat): (r: int)
    requires |g| == |rk| && Linked(rk) && -1 <= x < |rk|
    ensures -1 <= r <= x && (r >= 0 ==> Epoch(g[r]) != e)
    decreases x + 1
  {
    if x >= 0 && Epoch(g[x]) == e then Skip(g, rk, rk[x].next, e) else x
  }

  /** The difficulty a block of epoch `e` and own work `work` can reach through link target `t`. */
  function Via(g: seq<Block>, rk: seq<Rank>, e: nat, work: nat, t: nat): (d: nat)
    requires |g| == |rk| && Linked(rk) && t < |rk|
    ensures d >= rk[t].diff
  {
    if Epoch(g[t]) < e then work + rk[t].diff
    else
      var r := Skip(g, rk, t, e);
      if r >= 0 && work + rk[r].diff > rk[t].diff then work + rk[r].diff else rk[t].diff
  }

  /** Link `i` is the first that reaches the rank `r`. */
  ghost predicate FirstBest(g: seq<Block>, rk: seq<Rank>, nb: Block, i: nat, r: Rank)
    requires |g| == |rk| && Linked(rk) && i < |nb.links|
    requires forall i :: 0 <= i < |nb.links| ==> nb.links[i].target < |g|
  {
    && r.next == nb.links[i].target && r.diff == Via(g, rk, Epoch(nb), nb.work, nb.links[i].target)
    && forall j :: 0 <= j < i ==> Via(g, rk, Epoch(nb), nb.work, nb.links[j].target) < r.diff
  }

  /** `r` is the best of the block's own work and what its first `n` links offer; `next` is where the best was first met. */
  ghost predicate BestOf(g: seq<Block>, rk: seq<Rank>, nb: Block, n: nat, r: Rank)
    requires |g| == |rk| && Linked(rk) && n <= |nb.links|
    requires forall i :: 0 <= i < |nb.links| ==> nb.links[i].target < |g|
  {
    && r.diff >= nb.work
    && (forall i :: 0 <= i < n ==> Via(g, rk, Epoch(nb), nb.work, nb.links[i].target) <= r.diff)
    && (r.diff > nb.work ==> exists i :: 0 <= i < n && FirstBest(g, rk, nb, i, r))
    && (r.diff == nb.work ==> r.next == if nb.links == [] then -1 else nb.links[0].target)
  }

  /** The ranking loop of `add_block_nolock`. */
  method Weigh(g: seq<Block>, rk: seq<Rank>, nb: Block) returns (r: Rank)
    requires Ranked(g, rk)
    requires forall i :: 0 <= i < |nb.links| ==> nb.links[i].target < |g|
    ensures BestOf(g, rk, nb, |nb.links|, r)
  {
    r := Rank(nb.work, if nb.links == [] then -1 else nb.links[0].target);
    var i := 0;
    while i < |nb.links|
      invariant i <= |nb.links|
      invariant BestOf(g, rk, nb, i, r)
    {
      var t := nb.links[i].target;
      var diff := rk[t].diff;
      if Epoch(g[t]) < Epoch(nb) {
        diff := nb.work + rk[t].diff;
      } else {
        var x: int := t;
        while x >= 0 && Epoch(g[x]) == Epoch(nb)
          invariant -1 <= x < |g|
          invariant Skip(g, rk, x, Epoch(nb)) == Skip(g, rk, t, Epoch(nb))
          decreases x
        {
          x := rk[x].next;
        }
        if x >= 0 && nb.work + rk[x].diff > diff {
          diff := nb.work + rk[x].diff;
        }
      }
      assert diff == Via(g, rk, Epoch(nb), nb.work, t);
      if diff > r.diff {
        r := Rank(diff, t);
        assert FirstBest(g, rk, nb, i, r);
      }
      i := i + 1;
    }
  }

  // --------------------------------------------------------------- what it means

  /** Block `y` is referenced by block `x`: reachable along links (README.md:37). */
  ghost predicate Reaches(g: seq<Block>, x: nat, y: nat)
    requires IsDag(g) && x < |g|
    decreases x
  {
    x == y || exists i :: 0 <= i < |g[x].links| && Reaches(g, g[x].links[i].target, y)
  }

  ghost predicate Step(g: seq<Block>, x: nat, y: nat) {
    IsDag(g) && x < |g| && y < |g| && Reaches(g, x, y) && Epoch(g[y]) < Epoch(g[x])
  }

  /** A distinct chain (README.md:38-39): each block references the next, in an earlier epoch. */
  ghost predicate DistinctChain(g: seq<Block>, c: seq<nat>) {
    && (forall i :: 0 <= i < |c| ==> c[i] < |g|)
    && (forall i :: 0 <= i < |c| - 1 ==> Step(g, c[i], c[i + 1]))
  }

  ghost function Work(g: seq<Block>, c: seq<nat>): nat
    requires forall i :: 0 <= i < |c| ==> c[i] < |g|
  {
    if c == [] then 0 else g[c[0]].work + Work(g, c[1..])
  }

  /** `c` is a distinct chain referenced by `x` whose blocks' own difficulties add up to `d`. */
  ghost predicate Witness(g: seq<Block>, x: nat, d: nat, c: seq<nat>) {
    && IsDag(g) && x < |g|
    && c != [] && DistinctChain(g, c) && Reaches(g, x, c[0]) && Work(g, c) == d
  }

  ghost predicate HasWitness(g: seq<Block>, x: nat, d: nat) {
    exists c :: Witness(g, x, d, c)
  }

  /** Every difficulty is the work along a distinct chain referenced by the block. */
  ghost predicate Witnessed(g: seq<Block>, rk: seq<Rank>) {
    |rk| == |g| && forall x :: 0 <= x < |g| ==> HasWitness(g, x, rk[x].diff)
  }

  lemma {:induction false} ReachesGrow(g: seq<Block>, nb: Block, x: nat, y: nat)
    requires IsDag(g) && IsDag(g + [nb]) && x < |g|
    ensures Reaches(g + [nb], x, y) == Reaches(g, x, y)
    decreases x
  {
    assert (g + [nb])[x] == g[x];
    forall i | 0 <= i < |g[x].links|
      ensures Reaches(g + [nb], g[x].links[i].target, y) == Reaches(g, g[x].links[i].target, y)
    {
      ReachesGrow(g, nb, g[x].links[i].target, y);
    }
  }

  lemma {:induction false} ReachesOlder(g: seq<Block>, x: nat, y: nat)
    requires IsDag(g) && x < |g| && Reaches(g, x, y)
    ensures y < |g| && g[y].time <= g[x].time
    decreases x
  {
    if x != y {
      var i :| 0 <= i < |g[x].links| && Reaches(g, g[x].links[i].target, y);
      ReachesOlder(g, g[x].links[i].target, y);
    }
  }

  lemma {:induction false} ReachesTransitive(g: seq<Block>, x: nat, y: nat, z: nat)
    requires IsDag(g) && x < |g| && y < |g| && Reaches(g, x, y) && Reaches(g, y, z)
    ensures Reaches(g, x, z)
    decreases x
  {
    if x != y {
      var i :| 0 <= i < |g[x].links| && Reaches(g, g[x].links[i].target, y);
      ReachesTransitive(g, g[x].links[i].target, y, z);
    }
  }

  lemma {:induction false} WorkGrow(g: seq<Block>, nb: Block, c: seq<nat>)
    requires forall i :: 0 <= i < |c| ==> c[i] < |g|
    ensures Work(g + [nb], c) == Work(g, c)
  {
    if c != [] {
      WorkGrow(g, nb, c[1..]);
    }
  }

  lemma {:induction false} WitnessGrow(g: seq<Block>, nb: Block, x: nat, d: nat, c: seq<nat>)
    requires IsDag(g + [nb]) && Witness(g, x, d, c)
    ensures Witness(g + [nb], x, d, c)
  {
    var g1 := g + [nb];
    ReachesGrow(g, nb, x, c[0]);
    WorkGrow(g, nb, c);
    forall i | 0 <= i < |c| - 1 ensures Step(g1, c[i], c[i + 1]) {
      assert Step(g, c[i], c[i + 1]);
      ReachesGrow(g, nb, c[i], c[i + 1]);
    }
  }

  /** Following `max_diff_link` stays among referenced blocks. */
  lemma {:induction false} SkipReaches(g: seq<Block>, rk: seq<Rank>, x: nat, e: nat)
    requires Ranked(g, rk) && x < |g|
    ensures var r := Skip(g, rk, x, e); r >= 0 ==> Reaches(g, x, r)
    decreases x
  {
    var n := rk[x].next;
    if Epoch(g[x]) == e && n >= 0 {
      assert RankFits(g, rk, x);
      SkipReaches(g, rk, n, e);
    }
  }

  /** Extending a witnessed chain by a block of a later epoch. */
  lemma {:induction false} WitnessExtend(g: seq<Block>, x: nat, y: nat, d: nat, c: seq<nat>)
    requires Witness(g, y, d, c) && x < |g| && Reaches(g, x, y) && Epoch(g[y]) < Epoch(g[x])
    ensures Witness(g, x, g[x].work + d, [x] + c)
  {
    ReachesTransitive(g, x, y, c[0]);
    ReachesOlder(g, y, c[0]);
    var c1 := [x] + c;
    assert c1[1..] == c;
    assert Epoch(g[c[0]]) <= Epoch(g[y]);
    forall i | 0 <= i < |c1| - 1 ensures Step(g, c1[i], c1[i + 1]) {
      if i > 0 {
        assert Step(g, c[i - 1], c[i]);
      }
    }
  }

  /** The difficulty of a newly ranked block is witnessed, like all before it. */
  lemma {:induction false} RankWitnessed(g: seq<Block>, rk: seq<Rank>, nb: Block, r: Rank)
    requires Ranked(g, rk) && Witnessed(g, rk) && IsDag(g + [nb])
    requires forall i :: 0 <= i < |nb.links| ==> nb.links[i].target < |g|
    requires BestOf(g, rk, nb, |nb.links|, r)
    ensures Witnessed(g + [nb], rk + [r])
  {
    var g1, rk1, b := g + [nb], rk + [r], |g|;
    forall x | 0 <= x < |g1| ensures HasWitness(g1, x, rk1[x].diff) {
      if x < |g| {
        assert HasWitness(g, x, rk[x].diff);
        var c :| Witness(g, x, rk[x].diff, c);
        WitnessGrow(g, nb, x, rk[x].diff, c);
        assert Witness(g1, x, rk1[x].diff, c);
      } else {
        var c := NewWitness(g, rk, nb, r);
        assert Witness(g1, x, rk1[x].diff, c);
      }
    }
  }

  lemma {:induction false} NewWitness(g: seq<Block>, rk: seq<Rank>, nb: Block, r: Rank) returns (c: seq<nat>)
    requires Ranked(g, rk) && Witnessed(g, rk) && IsDag(g + [nb])
    requires forall i :: 0 <= i < |nb.links| ==> nb.links[i].target < |g|
    requires BestOf(g, rk, nb, |nb.links|, r)
    ensures Witness(g + [nb], |g|, r.diff, c)
  {
    var g1, b, e := g + [nb], |g|, Epoch(nb);
    assert g1[b] == nb;
    if r.diff == nb.work {
      c := [b];
    } else {
      var i :| 0 <= i < |nb.links| && FirstBest(g, rk, nb, i, r);
      var t := nb.links[i].target;
      assert g1[b].links[i].target == t && g1[t] == g[t];
      assert Reaches(g1, b, t) by { assert Reaches(g1, t, t); }
      var s := Skip(g, rk, t, e);
      if Epoch(g[t]) < e {
        c := Lower(g, rk, nb, t);
      } else if r.diff == rk[t].diff {
        assert HasWitness(g, t, rk[t].diff);
        c :| Witness(g, t, rk[t].diff, c);
        WitnessGrow(g, nb, t, rk[t].diff, c);
        ReachesTransitive(g1, b, t, c[0]);
      } else {
        assert s >= 0 && r.diff == nb.work + rk[s].diff;
        BelowEpoch(g, rk, nb, t);
        c := Lower(g, rk, nb, s);
      }
    }
  }

  /** The block found by skipping the new block's epoch is referenced by it and lies in an earlier epoch. */
  lemma {:induction false} BelowEpoch(g: seq<Block>, rk: seq<Rank>, nb: Block, t: nat)
    requires Ranked(g, rk) && IsDag(g + [nb]) && t < |g| && Reaches(g + [nb], |g|, t)
    ensures var s := Skip(g, rk, t, Epoch(nb)); s >= 0 ==> Reaches(g + [nb], |g|, s) && Epoch(g[s]) < Epoch(nb)
  {
    var s := Skip(g, rk, t, Epoch(nb));
    if s >= 0 {
      SkipReaches(g, rk, t, Epoch(nb));
      ReachesGrow(g, nb, t, s);
      ReachesTransitive(g + [nb], |g|, t, s);
      ReachesOlder(g + [nb], |g|, s);
    }
  }

  lemma {:induction false} Lower(g: seq<Block>, rk: seq<Rank>, nb: Block, y: nat) returns (c: seq<nat>)
    requires Witnessed(g, rk) && IsDag(g + [nb]) && y < |g| && Reaches(g + [nb], |g|, y) && Epoch(g[y]) < Epoch(nb)
    ensures Witness(g + [nb], |g|, nb.work + rk[y].diff, c)
  {
    assert HasWitness(g, y, rk[y].diff);
    c :| Witness(g, y, rk[y].diff, c);
    WitnessGrow(g, nb, y, rk[y].diff, c);
    assert (g + [nb])[|g|] == nb && (g + [nb])[y] == g[y];
    WitnessExtend(g + [nb], |g|, y, rk[y].diff, c);
    c := [|g|] + c;
  }

  /** Ranks stay consistent: no link of the new block outranks it. */
  lemma {:induction false} RankedGrow(g: seq<Block>, rk: seq<Rank>, nb: Block, r: Rank)
    requires Ranked(g, rk) && IsDag(g + [nb])
    requires forall i :: 0 <= i < |nb.links| ==> nb.links[i].target < |g|
    requires BestOf(g, rk, nb, |nb.links|, r)
    ensures Ranked(g + [nb], rk + [r])
  {
    var g1, rk1 := g + [nb], rk + [r];
    forall b | 0 <= b < |g1| ensures RankFits(g1, rk1, b) {
      if b < |g| {
        assert RankFits(g, rk, b) && g1[b] == g[b] && rk1[b] == rk[b];
        forall i | 0 <= i < |g[b].links| ensures rk1[g1[b].links[i].target].diff <= rk1[b].diff {
          assert rk1[g[b].links[i].target] == rk[g[b].links[i].target];
        }
      } else {
        assert g1[b] == nb && rk1[b] == r;
        forall i | 0 <= i < |nb.links| ensures rk1[nb.links[i].target].diff <= r.diff {
          assert Via(g, rk, Epoch(nb), nb.work, nb.links[i].target) <= r.diff;
        }
      }
    }
  }

  // ------------------------------------------------------------- what the rank is

  /** Difficulty does not grow along `max_diff_link`. */
  lemma {:induction false} PathDiff(g: seq<Block>, rk: seq<Rank>, x: nat, y: nat)
    requires Ranked(g, rk) && x < |g| && y < |g| && OnPath(rk, x, y)
    ensures rk[y].diff <= rk[x].diff && Epoch(g[y]) <= Epoch(g[x])
  {
    if x != y {
      assert RankFits(g, rk, x);
      OnPathBelow(rk, rk[x].next, y);
      NextOlder(g, rk, x);
      PathDiff(g, rk, rk[x].next, y);
    }
  }

  /** The walk over the blocks of one epoch stops before any block of another. */
  lemma {:induction false} SkipMeets(g: seq<Block>, rk: seq<Rank>, x: nat, y: nat, e: nat)
    requires Ranked(g, rk) && x < |g| && y < |g| && OnPath(rk, x, y) && Epoch(g[y]) != e
    ensures Skip(g, rk, x, e) >= 0 && OnPath(rk, Skip(g, rk, x, e), y)
  {
    if Epoch(g[x]) == e {
      OnPathBelow(rk, rk[x].next, y);
      SkipMeets(g, rk, rk[x].next, y, e);
    }
  }

  lemma {:induction false} SkipOnPath(g: seq<Block>, rk: seq<Rank>, x: int, e: nat)
    requires |g| == |rk| && Linked(rk) && -1 <= x < |rk|
    ensures OnPath(rk, x, Skip(g, rk, x, e))
    decreases x + 1
  {
    if x >= 0 && Epoch(g[x]) == e {
      SkipOnPath(g, rk, rk[x].next, e);
    }
  }

  /** Block `y` of an earlier epoch can be met from one of the links of `nb`. */
  ghost predicate Met(g: seq<Block>, rk: seq<Rank>, nb: Block, i: nat, y: nat) {
    && |g| == |rk| && Linked(rk) && i < |nb.links| && nb.links[i].target < |g| && y < |g|
    && OnPath(rk, nb.links[i].target, y) && Epoch(g[y]) < Epoch(nb)
  }

  /** A link counts at least what its own work adds to any block of an earlier epoch below it. */
  lemma {:induction false} ViaAtLeast(g: seq<Block>, rk: seq<Rank>, nb: Block, i: nat, y: nat)
    requires Ranked(g, rk) && Met(g, rk, nb, i, y) && Epoch(g[nb.links[i].target]) <= Epoch(nb)
    ensures Via(g, rk, Epoch(nb), nb.work, nb.links[i].target) >= nb.work + rk[y].diff
  {
    var t := nb.links[i].target;
    PathDiff(g, rk, t, y);
    if Epoch(g[t]) == Epoch(nb) {
      SkipMeets(g, rk, t, y, Epoch(nb));
      PathDiff(g, rk, Skip(g, rk, t, Epoch(nb)), y);
    }
  }

  lemma {:induction false} ViaIsOne(g: seq<Block>, rk: seq<Rank>, nb: Block, i: nat)
    requires Ranked(g, rk) && i < |nb.links| && nb.links[i].target < |g| && Epoch(g[nb.links[i].target]) <= Epoch(nb)
    ensures var t := nb.links[i].target; var d := Via(g, rk, Epoch(nb), nb.work, t);
            d == rk[t].diff || exists y: nat :: Met(g, rk, nb, i, y) && d == nb.work + rk[y].diff
  {
    var t := nb.links[i].target;
    var r := Skip(g, rk, t, Epoch(nb));
    SkipOnPath(g, rk, t, Epoch(nb));
    if Epoch(g[t]) < Epoch(nb) {
      assert Met(g, rk, nb, i, t);
    } else if r >= 0 {
      PathDiff(g, rk, t, r);
      assert Met(g, rk, nb, i, r);
    }
  }

  /**
    The difficulty of a new block is the greatest of its own work, the difficulties of its links, and its own work
    on top of any block of an earlier epoch that the chosen links of its links lead to.
   */
  lemma {:induction false} RankIsGreatest(g: seq<Block>, rk: seq<Rank>, nb: Block, r: Rank)
    requires Ranked(g, rk) && IsDag(g + [nb]) && forall i :: 0 <= i < |nb.links| ==> nb.links[i].target < |g|
    requires BestOf(g, rk, nb, |nb.links|, r)
    ensures r.diff >= nb.work && forall i :: 0 <= i < |nb.links| ==> rk[nb.links[i].target].diff <= r.diff
    ensures forall i: nat, y: nat :: Met(g, rk, nb, i, y) ==> nb.work + rk[y].diff <= r.diff
    ensures || r.diff == nb.work
            || (exists i :: 0 <= i < |nb.links| && r.diff == rk[nb.links[i].target].diff)
            || (exists i: nat, y: nat :: Met(g, rk, nb, i, y) && r.diff == nb.work + rk[y].diff)
  {
    hide Via, OnPath;
    forall i | 0 <= i < |nb.links| ensures Epoch(g[nb.links[i].target]) <= Epoch(nb) {
      LinkOlder(g, nb, i);
    }
    forall i: nat, y: nat | Met(g, rk, nb, i, y) ensures nb.work + rk[y].diff <= r.diff {
      ViaAtLeast(g, rk, nb, i, y);
    }
    if r.diff > nb.work {
      var i :| 0 <= i < |nb.links| && FirstBest(g, rk, nb, i, r);
      ViaIsOne(g, rk, nb, i);
    }
  }

  lemma {:induction false} LinkOlder(g: seq<Block>, nb: Block, i: nat)
    requires IsDag(g + [nb]) && i < |nb.links| && nb.links[i].target < |g|
    ensures Epoch(g[nb.links[i].target]) <= Epoch(nb)
  {
    assert (g + [nb])[|g|] == nb && (g + [nb])[nb.links[i].target] == g[nb.links[i].target];
    assert (g + [nb])[|g|].links[i].target == nb.links[i].target;
  }
}
