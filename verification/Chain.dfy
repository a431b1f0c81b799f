/**
  Difficulty and the main chain (client/block.c:677-744 and 805-864): which blocks
  carry BI_MAIN_CHAIN, as a function of the DAG alone.
 */
module Chain {
  import opened Ledger

  /** `MAIN_TIME`: the 64-second interval of a block (client/time.h:16). */
  function Epoch(b: Block): nat {
    b.time / 0x1_0000
  }

  /** `difficulty` of a block and the target of its `max_diff_link`, -1 for a null pointer. */
  datatype Rank = Rank(diff: nat, next: int)

  /** `max_diff_link` leads to blocks indexed before. */
  ghost predicate Linked(rk: seq<Rank>) {
    forall b :: 0 <= b < |rk| ==> -1 <= rk[b].next < b
  }

  /** Ranks fit the DAG: the chosen link exists, is older, and no link has a greater difficulty. */
  ghost predicate Ranked(g: seq<Block>, rk: seq<Rank>) {
    && IsDag(g) && |rk| == |g| && Linked(rk)
    && forall b :: 0 <= b < |g| ==> RankFits(g, rk, b)
  }

  ghost predicate RankFits(g: seq<Block>, rk: seq<Rank>, b: nat)
    requires IsDag(g) && b < |g| && b < |rk|
  {
    && (rk[b].next >= 0 ==> exists i :: 0 <= i < |g[b].links| && g[b].links[i].target == rk[b].next)
    && (rk[b].next < 0 <==> g[b].links == [])
    && (forall i :: 0 <= i < |g[b].links| ==> rk[g[b].links[i].target].diff <= rk[b].diff)
  }

  // ------------------------------------------------------------------------ marks

  /** The test of client/block.c:823: the block adds difficulty to its chosen link. */
  predicate Gains(rk: seq<Rank>, x: nat)
    requires x < |rk| && -1 <= rk[x].next < |rk|
  {
    rk[x].next < 0 || rk[x].diff > rk[rk[x].next].diff
  }

  /** `y` is met when following `max_diff_link` from `x`. */
  ghost predicate OnPath(rk: seq<Rank>, x: int, y: int)
    requires Linked(rk) && -1 <= x < |rk|
    decreases x + 1
  {
    x == y || (x >= 0 && OnPath(rk, rk[x].next, y))
  }

  /**
    The greedy marking of the path from `x`: a block is marked if it gains difficulty
    and lies in an earlier epoch than the last marked one (`bound`).
   */
  ghost function Marks(g: seq<Block>, rk: seq<Rank>, x: int, bound: int): (m: seq<nat>)
    requires |g| == |rk| && Linked(rk) && -1 <= x < |rk|
    ensures forall i :: 0 <= i < |m| ==> m[i] <= x && m[i] < |g| && Epoch(g[m[i]]) < bound
    decreases x + 1
  {
    if x < 0 then []
    else if Gains(rk, x) && Epoch(g[x]) < bound then [x] + Marks(g, rk, rk[x].next, Epoch(g[x]))
    else Marks(g, rk, rk[x].next, bound)
  }

  /** The marking of the chain that ends in `top`. */
  ghost function MarksFrom(g: seq<Block>, rk: seq<Rank>, top: int): (m: seq<nat>)
    requires |g| == |rk| && Linked(rk) && -1 <= top < |rk|
    ensures forall i :: 0 <= i < |m| ==> m[i] <= top && m[i] < |g|
  {
    if top < 0 then [] else Marks(g, rk, top, Epoch(g[top]) + 1)
  }

  /** Marked blocks get strictly older, one per epoch. */
  ghost predicate Descending(g: seq<Block>, m: seq<nat>) {
    && (forall i :: 0 <= i < |m| ==> m[i] < |g|)
    && (forall i, j :: 0 <= i < j < |m| ==>
          m[j] < m[i] && Epoch(g[m[j]]) < Epoch(g[m[i]]) && g[m[j]].time < g[m[i]].time)
  }

  lemma {:induction false} EpochOrder(a: Block, b: Block)
    requires Epoch(a) < Epoch(b)
    ensures a.time < b.time
  {}

  lemma {:induction false} MarksDescending(g: seq<Block>, rk: seq<Rank>, x: int, bound: int)
    requires |g| == |rk| && Linked(rk) && -1 <= x < |rk|
    ensures Descending(g, Marks(g, rk, x, bound))
    ensures forall y :: y in Marks(g, rk, x, bound) ==> OnPath(rk, x, y) && Gains(rk, y)
    decreases x + 1
  {
    if x >= 0 {
      var m := Marks(g, rk, x, bound);
      if Gains(rk, x) && Epoch(g[x]) < bound {
        var rest := Marks(g, rk, rk[x].next, Epoch(g[x]));
        MarksDescending(g, rk, rk[x].next, Epoch(g[x]));
        hide Marks, Gains;
        assert m == [x] + rest;
        forall j | 0 <= j < |rest| ensures rest[j] < x && g[rest[j]].time < g[x].time {
          EpochOrder(g[rest[j]], g[x]);
        }
      } else {
        MarksDescending(g, rk, rk[x].next, bound);
      }
    }
  }

  /** Times count 1024ths of a second, so an epoch is 64 seconds. */
  lemma {:induction false} EpochSpan(b: Block, e: nat)
    ensures Epoch(b) == e <==> 64 * 1024 * e <= b.time < 64 * 1024 * (e + 1)
  {}

  lemma {:induction false} PathEpochs(g: seq<Block>, rk: seq<Rank>, x: nat, y: nat)
    requires Ranked(g, rk) && x < |g| && y < |g| && OnPath(rk, x, y)
    ensures y <= x && Epoch(g[y]) <= Epoch(g[x])
  {
    OnPathBelow(rk, x, y);
    if x != y {
      OnPathBelow(rk, rk[x].next, y);
      NextOlder(g, rk, x);
      PathEpochs(g, rk, rk[x].next, y);
    }
  }

  /** No later block on the path from `x` that adds difficulty lies in the epoch of `y`. */
  ghost predicate FirstOfEpoch(g: seq<Block>, rk: seq<Rank>, x: int, y: nat)
    requires |g| == |rk| && Linked(rk) && -1 <= x < |rk| && y < |rk|
  {
    forall z :: y < z < |g| && OnPath(rk, x, z) && (rk[z].next < 0 || rk[z].diff > rk[rk[z].next].diff) ==> Epoch(g[z]) != Epoch(g[y])
  }

  /**
    Which blocks the marking takes: those on the path whose difficulty is strictly greater than that of their chosen
    link (or that have none), in an epoch below the bound, and the latest such block of their epoch.
   */
  lemma {:induction false} MarkedWhen(g: seq<Block>, rk: seq<Rank>, x: int, bound: int, y: nat)
    requires Ranked(g, rk) && -1 <= x < |g| && y < |g|
    ensures y in Marks(g, rk, x, bound) <==>
              && OnPath(rk, x, y) && (rk[y].next < 0 || rk[y].diff > rk[rk[y].next].diff)
              && Epoch(g[y]) < bound && FirstOfEpoch(g, rk, x, y)
    decreases x + 1
  {
    if x >= 0 {
      var next := rk[x].next;
      var marked := Gains(rk, x) && Epoch(g[x]) < bound;
      MarkedWhen(g, rk, next, if marked then Epoch(g[x]) else bound, y);
      if y == x {
        forall z | x < z < |g| && OnPath(rk, x, z) ensures false {
          OnPathBelow(rk, x, z);
        }
      } else if OnPath(rk, x, y) {
        PathEpochs(g, rk, x, y);
        assert FirstOfEpoch(g, rk, x, y) <==> FirstOfEpoch(g, rk, next, y) && (Gains(rk, x) ==> Epoch(g[x]) != Epoch(g[y]));
      }
    }
  }

  /** Every epoch in which the path adds difficulty has a mark. */
  lemma {:induction false} EpochMarked(g: seq<Block>, rk: seq<Rank>, x: int, bound: int, y: nat)
    requires Ranked(g, rk) && -1 <= x < |g| && y < |g| && OnPath(rk, x, y) && Epoch(g[y]) < bound
    requires rk[y].next < 0 || rk[y].diff > rk[rk[y].next].diff
    ensures exists m :: m in Marks(g, rk, x, bound) && m >= y && Epoch(g[m]) == Epoch(g[y])
    decreases |g| - y
  {
    MarkedWhen(g, rk, x, bound, y);
    if !FirstOfEpoch(g, rk, x, y) {
      var z :| y < z < |g| && OnPath(rk, x, z) && (rk[z].next < 0 || rk[z].diff > rk[rk[z].next].diff) && Epoch(g[z]) == Epoch(g[y]);
      EpochMarked(g, rk, x, bound, z);
    }
  }

  /** Below a marked block the marking depends only on that block. */
  lemma {:induction false} MarksBelow(g: seq<Block>, rk: seq<Rank>, x: int, bound: int, j: nat)
    requires |g| == |rk| && Linked(rk) && -1 <= x < |rk| && j < |Marks(g, rk, x, bound)|
    ensures var m := Marks(g, rk, x, bound); m[j + 1..] == Marks(g, rk, rk[m[j]].next, Epoch(g[m[j]]))
    decreases x + 1
  {
    var m := Marks(g, rk, x, bound);
    if Gains(rk, x) && Epoch(g[x]) < bound {
      var rest := Marks(g, rk, rk[x].next, Epoch(g[x]));
      assert m == [x] + rest;
      if j > 0 {
        MarksBelow(g, rk, rk[x].next, Epoch(g[x]), j - 1);
        assert m[j + 1..] == rest[j..];
      }
    } else {
      MarksBelow(g, rk, rk[x].next, bound, j);
    }
  }

  /** A new block changes neither ranks nor marks of older ones. */
  lemma {:induction false} MarksGrow(g: seq<Block>, rk: seq<Rank>, nb: Block, r: Rank, x: int, bound: int)
    requires |g| == |rk| && Linked(rk) && Linked(rk + [r]) && -1 <= x < |rk|
    ensures Marks(g + [nb], rk + [r], x, bound) == Marks(g, rk, x, bound)
    decreases x + 1
  {
    if x >= 0 {
      assert (g + [nb])[x] == g[x] && (rk + [r])[x] == rk[x];
      assert rk[x].next >= 0 ==> (rk + [r])[rk[x].next] == rk[rk[x].next];
      MarksGrow(g, rk, nb, r, rk[x].next, Epoch(g[x]));
      MarksGrow(g, rk, nb, r, rk[x].next, bound);
    }
  }

  lemma {:induction false} OnPathGrow(rk: seq<Rank>, r: Rank, x: int, y: int)
    requires Linked(rk) && Linked(rk + [r]) && -1 <= x < |rk|
    ensures OnPath(rk + [r], x, y) == OnPath(rk, x, y)
    decreases x + 1
  {
    if x >= 0 {
      OnPathGrow(rk, r, rk[x].next, y);
    }
  }

  /** The `n` oldest marks by height: entry `h` is the main block at height `h + 1`. */
  ghost function Oldest(m: seq<nat>, n: nat): (ms: seq<nat>)
    requires n <= |m|
    ensures |ms| == n && forall h :: 0 <= h < n ==> ms[h] == m[|m| - 1 - h]
  {
    seq(n, h requires 0 <= h < n => m[|m| - 1 - h])
  }

  // ------------------------------------------------------------- switching chains

  /** Some block that only the new chain marks is passed by the old one without being marked. */
  ghost predicate Loses(g: seq<Block>, rk: seq<Rank>, top: int, b: nat)
    requires |g| == |rk| && Linked(rk) && -1 <= top < |rk| && b < |rk|
  {
    exists x :: x in MarksFrom(g, rk, b) && x !in MarksFrom(g, rk, top) && OnPath(rk, top, x)
  }

  /** Both chains mark the same `n` oldest blocks. */
  ghost predicate SameOldest(a: seq<nat>, b: seq<nat>, n: nat) {
    n <= |a| && n <= |b| && a[|a| - n..] == b[|b| - n..]
  }

  /**
    When a switch from `top` to `b` with `n` main blocks leaves the marking of the new chain. From the
    fork height on the roll-back must not reach below it (client/block.c:842); before, marks set ahead of
    the roll-back must not lie on the path that it clears.
   */
  ghost predicate SwitchMarks(g: seq<Block>, rk: seq<Rank>, top: int, b: nat, n: nat, fork: nat)
    requires |g| == |rk| && Linked(rk) && -1 <= top < |rk| && b < |rk|
  {
    if n >= fork then SameOldest(MarksFrom(g, rk, top), MarksFrom(g, rk, b), fork) else !Loses(g, rk, top, b)
  }

  // ------------------------------------------------------- facts used by the walks

  lemma {:induction false} NextOlder(g: seq<Block>, rk: seq<Rank>, x: nat)
    requires Ranked(g, rk) && x < |g| && rk[x].next >= 0
    ensures g[rk[x].next].time < g[x].time && Epoch(g[rk[x].next]) <= Epoch(g[x])
  {
    assert RankFits(g, rk, x);
  }

  lemma {:induction false} OnPathStep(rk: seq<Rank>, x: int, y: nat)
    requires Linked(rk) && -1 <= x < |rk| && y < |rk| && OnPath(rk, x, y)
    ensures OnPath(rk, x, rk[y].next)
    decreases x + 1
  {
    if x != y {
      OnPathStep(rk, rk[x].next, y);
    }
  }

  lemma {:induction false} OnPathEnd(rk: seq<Rank>, x: int)
    requires Linked(rk) && -1 <= x < |rk|
    ensures OnPath(rk, x, -1)
    decreases x + 1
  {
    if x >= 0 {
      OnPathEnd(rk, rk[x].next);
    }
  }

  lemma {:induction false} OnPathBelow(rk: seq<Rank>, x: int, y: int)
    requires Linked(rk) && -1 <= x < |rk| && OnPath(rk, x, y)
    ensures y <= x
    decreases x + 1
  {
    if x != y {
      OnPathBelow(rk, rk[x].next, y);
    }
  }

  /** Of two blocks on a path the lower index comes later. */
  lemma {:induction false} OnPathOrder(rk: seq<Rank>, x: int, y: nat, z: int)
    requires Linked(rk) && -1 <= x < |rk| && y < |rk| && OnPath(rk, x, y) && OnPath(rk, x, z) && z < y
    ensures z <= rk[y].next
    decreases x + 1
  {
    OnPathBelow(rk, x, y);
    if x == y {
      OnPathBelow(rk, rk[x].next, z);
    } else {
      OnPathOrder(rk, rk[x].next, y, z);
    }
  }

  /** If `x` heads its own marking, the rest of the marking does not depend on the bound. */
  lemma {:induction false} MarksHead(g: seq<Block>, rk: seq<Rank>, x: nat, bound: int)
    requires |g| == |rk| && Linked(rk) && x < |rk|
    ensures x in Marks(g, rk, x, bound) <==> Gains(rk, x) && Epoch(g[x]) < bound
    ensures x in Marks(g, rk, x, bound) ==>
              Marks(g, rk, x, bound) == [x] + Marks(g, rk, rk[x].next, Epoch(g[x]))
    ensures x !in Marks(g, rk, x, bound) ==> Marks(g, rk, x, bound) == Marks(g, rk, rk[x].next, bound)
  {}

  /**
    The common ancestor (client/block.c:822-832): `br` is a marked block of the old chain,
    `b0` the last block marked on the new one. Whether or not the walk steps over `br`,
    what is left marked below `stop` is what the new chain marks there.
   */
  lemma {:induction false} SameTail(g: seq<Block>, rk: seq<Rank>, top: nat, br: nat, b0: nat, stop: int, bound: int, cut: nat)
    requires Ranked(g, rk) && top < |g| && br < |g| && b0 < |g| && -1 <= stop < |g|
    requires br in MarksFrom(g, rk, top) && Epoch(g[br]) <= Epoch(g[b0])
    requires stop == if Epoch(g[br]) == Epoch(g[b0]) then rk[br].next else br
    requires var m := MarksFrom(g, rk, top);
             && cut <= |m| && m[cut..] == Marks(g, rk, stop, bound) && forall i :: 0 <= i < cut ==> m[i] > stop
    ensures Marks(g, rk, br, Epoch(g[b0])) == Marks(g, rk, stop, bound)
  {
    hide Marks, OnPath, RankFits, Descending;
    var m := MarksFrom(g, rk, top);
    MarksDescending(g, rk, top, Epoch(g[top]) + 1);
    var j :| 0 <= j < |m| && m[j] == br;
    MarksBelow(g, rk, top, Epoch(g[top]) + 1, j);
    if stop == br {
      SameBlock(g, rk, m, br, j, Epoch(g[b0]), bound, cut);
    } else {
      SameEpoch(g, rk, m, br, j, Epoch(g[b0]), bound, cut);
    }
  }

  /** The walk stopped at the marked block itself. */
  lemma {:induction false} SameBlock(g: seq<Block>, rk: seq<Rank>, m: seq<nat>, br: nat, j: nat, e: nat, bound: int, cut: nat)
    requires |g| == |rk| && Linked(rk) && br < |g| && j < |m| && m[j] == br && Gains(rk, br) && Epoch(g[br]) < e
    requires cut <= |m| && m[cut..] == Marks(g, rk, br, bound) && forall i :: 0 <= i < cut ==> m[i] > br
    ensures Marks(g, rk, br, e) == Marks(g, rk, br, bound)
  {
    hide Marks;
    assert br == m[cut..][j - cut];
    MarksHead(g, rk, br, bound);
    MarksHead(g, rk, br, e);
  }

  /** The walk stepped over a marked block of its own epoch. */
  lemma {:induction false} SameEpoch(g: seq<Block>, rk: seq<Rank>, m: seq<nat>, br: nat, j: nat, e: nat, bound: int, cut: nat)
    requires |g| == |rk| && Linked(rk) && br < |g| && j < |m| && m[j] == br && Epoch(g[br]) == e
    requires m[j + 1..] == Marks(g, rk, rk[br].next, e)
    requires cut <= |m| && m[cut..] == Marks(g, rk, rk[br].next, bound) && forall i :: 0 <= i < cut ==> m[i] > rk[br].next
    ensures Marks(g, rk, br, e) == Marks(g, rk, rk[br].next, bound)
  {
    hide Marks;
    Splice(m, j, Marks(g, rk, rk[br].next, e), cut, Marks(g, rk, rk[br].next, bound), rk[br].next);
    MarksHead(g, rk, br, e);
  }

  lemma {:induction false} Splice(m: seq<nat>, j: nat, below: seq<nat>, cut: nat, rest: seq<nat>, stop: int)
    requires j < |m| && cut <= |m| && m[j] > stop && rest == m[cut..] && below == m[j + 1..]
    requires forall i :: 0 <= i < |rest| ==> rest[i] <= stop
    requires forall i :: 0 <= i < |below| ==> below[i] <= stop
    requires forall i :: 0 <= i < cut ==> m[i] > stop
    ensures cut == j + 1
  {
    forall i | cut <= i < |m| ensures m[i] <= stop {
      assert m[i] == rest[i - cut];
    }
    forall i | j < i < |m| ensures m[i] <= stop {
      assert m[i] == below[i - j - 1];
    }
    assert j + 1 < |m| ==> m[j + 1] <= stop;
  }

  /** A walk along `max_diff_link` that has passed the first `cut` marks of `m` and stands at `b`. */
  ghost predicate Walk(g: seq<Block>, rk: seq<Rank>, m: seq<nat>, b: int, bound: int, cut: nat) {
    && |g| == |rk| && Linked(rk) && -1 <= b < |rk| && Descending(g, m)
    && cut <= |m| && m[cut..] == Marks(g, rk, b, bound) && forall i :: 0 <= i < cut ==> m[i] > b
  }

  lemma {:induction false} WalkStart(g: seq<Block>, rk: seq<Rank>, top: int) returns (bound: int)
    requires |g| == |rk| && Linked(rk) && -1 <= top < |rk|
    ensures Walk(g, rk, MarksFrom(g, rk, top), top, bound, 0)
    ensures top >= 0 ==> bound == Epoch(g[top]) + 1
  {
    bound := if top < 0 then 0 else Epoch(g[top]) + 1;
    var m := MarksFrom(g, rk, top);
    assert m[0..] == m;
    MarksDescending(g, rk, top, bound);
  }

  /** Standing at a marked block means standing at the next mark. */
  lemma {:induction false} WalkHere(g: seq<Block>, rk: seq<Rank>, m: seq<nat>, b: nat, bound: int, cut: nat)
    requires Walk(g, rk, m, b, bound, cut)
    ensures b in m <==> cut < |m| && m[cut] == b
  {
    forall i | cut <= i < |m| ensures m[i] <= b {
      assert m[i] == m[cut..][i - cut];
    }
    if b in m {
      var j :| 0 <= j < |m| && m[j] == b;
      assert cut <= j && m[cut] <= b;
    }
  }

  /** One step of the walk. */
  lemma {:induction false} WalkStep(g: seq<Block>, rk: seq<Rank>, m: seq<nat>, b: nat, bound: int, cut: nat)
    requires Walk(g, rk, m, b, bound, cut)
    ensures b in m ==> cut < |m| && Walk(g, rk, m, rk[b].next, Epoch(g[b]), cut + 1)
    ensures b !in m ==> Walk(g, rk, m, rk[b].next, bound, cut)
  {
    WalkHere(g, rk, m, b, bound, cut);
    MarksHead(g, rk, b, bound);
    hide Marks;
    if b in m {
      assert m[cut..][0] == b;
      assert m[cut + 1..] == m[cut..][1..];
    } else {
      assert b !in m[cut..];
    }
  }
}
