/**
  The main-chain state of a node and the procedures of client/block.c that change
  it in place. `Valid` says that BI_MAIN_CHAIN is the greedy marking of the heaviest
  chain, BI_MAIN its oldest part by height, and that, as long as inputs are distinct and
  no promotion rejected a block with a fee (`honest`), the accounts are the replay of exactly
  those main blocks. A chain switch can lose marks, and only those: `Switched`.
 */
module Node {
  import opened Common
  import opened Ledger
  import opened Undo
  import opened Conservation
  import opened Supply
  import opened MainBlocks
  import opened History
  import opened Chain
  import opened Difficulty
  import Orphans

  /** The C test `a + b >= a` on 64-bit words. */
  lemma {:induction false} OverflowTest(a: Amount, b: Amount)
    ensures Wrap(a + b) >= a <==> a + b < WORD
    ensures a + b < WORD ==> Wrap(a + b) == a + b
  {}

  /** Flags and heights are those of the marking `m` with its `n` oldest blocks promoted. */
  ghost predicate Flagged(onChain: seq<bool>, isMain: seq<bool>, height: seq<nat>, m: seq<nat>, n: nat) {
    && |onChain| == |isMain| == |height| && n <= |m|
    && (forall i :: 0 <= i < |m| ==> m[i] < |onChain| && onChain[m[i]])
    && (forall x :: 0 <= x < |onChain| && onChain[x] ==> x in m)
    && (forall x :: 0 <= x < |isMain| && isMain[x] ==> onChain[x])
    && (forall i :: 0 <= i < |m| ==> (isMain[m[i]] <==> i >= |m| - n))
    && (forall i :: |m| - n <= i < |m| ==> height[m[i]] == |m| - i)
  }

  lemma {:induction false} OldestAscending(g: seq<Block>, m: seq<nat>, n: nat)
    requires Descending(g, m) && n <= |m|
    ensures MainList(g, Oldest(m, n))
  {}

  /** Promoting the next oldest mark. */
  lemma {:induction false} FlaggedPromote(g: seq<Block>, onChain: seq<bool>, isMain: seq<bool>, height: seq<nat>,
                                          m: seq<nat>, n: nat, p: nat)
    requires Flagged(onChain, isMain, height, m, n) && n < |m| && p == m[|m| - 1 - n] && |onChain| == |g| && Descending(g, m)
    ensures Flagged(onChain, isMain[p := true], height[p := n + 1], m, n + 1)
  {
    var k := |m| - 1 - n;
    var isMain1, height1 := isMain[p := true], height[p := n + 1];
    forall i | 0 <= i < |m| ensures (isMain1[m[i]] <==> i >= k) && (i >= k ==> height1[m[i]] == |m| - i) {
      assert i < k ==> m[k] < m[i];
      assert i > k ==> m[i] < m[k];
    }
  }

  /** Dropping the newest mark `t`. */
  lemma {:induction false} DropMark(g: seq<Block>, onChain: seq<bool>, isMain: seq<bool>, height: seq<nat>,
                                    t: nat, rest: seq<nat>, n: nat)
    requires Flagged(onChain, isMain, height, [t] + rest, n) && |onChain| == |g| && Descending(g, [t] + rest)
    ensures t < |g| && (isMain[t] <==> n == |rest| + 1)
    ensures var isMain1 := isMain[t := false];
            n == |rest| + 1 ==> Flagged(onChain[t := false], isMain1, height, rest, n - 1)
    ensures n <= |rest| ==> Flagged(onChain[t := false], isMain, height, rest, n)
  {
    var m := [t] + rest;
    assert m[0] == t;
    var onChain1, isMain1 := onChain[t := false], isMain[t := false];
    forall i | 0 <= i < |rest|
      ensures rest[i] < t && rest[i] < |onChain| && onChain1[rest[i]] && isMain1[rest[i]] == isMain[rest[i]]
      ensures isMain[rest[i]] <==> i >= |rest| - n
      ensures i >= |rest| - n ==> height[rest[i]] == |rest| - i
    {
      assert rest[i] == m[i + 1];
    }
    forall x | 0 <= x < |onChain| && onChain1[x] ensures x in rest {
      assert x in m;
    }
  }

  lemma {:induction false} OldestRest(t: nat, rest: seq<nat>, n: nat)
    requires n <= |rest|
    ensures Oldest([t] + rest, n) == Oldest(rest, n)
  {}

  lemma {:induction false} Unmarked(onChain: seq<bool>, isMain: seq<bool>, height: seq<nat>, m: seq<nat>, n: nat, t: nat)
    requires Flagged(onChain, isMain, height, m, n) && t < |onChain| && t !in m
    ensures !isMain[t] && onChain[t := false] == onChain
  {}

  lemma {:induction false} FlaggedLength(onChain: seq<bool>, isMain: seq<bool>, height: seq<nat>, m: seq<nat>, n: nat)
    requires Flagged(onChain, isMain, height, m, n)
    ensures n <= |m|
  {}

  const MAX_WAITING_MAIN := 1

  lemma {:induction false} MarksHere(g: seq<Block>, rk: seq<Rank>, top: int, bound: int)
    requires |g| == |rk| && Linked(rk) && -1 <= top < |rk| && bound == if top < 0 then 0 else Epoch(g[top]) + 1
    ensures MarksFrom(g, rk, top) == Marks(g, rk, top, bound)
  {}

  /** One step of a walk down the chosen links passes the next mark or none. */
  lemma {:induction false} PassMark(g: seq<Block>, rk: seq<Rank>, m: seq<nat>, t: nat, bound: int, bound1: int, cut: nat)
    requires |g| == |rk| && Linked(rk) && t < |rk| && cut <= |m| && m[cut..] == Marks(g, rk, t, bound)
    requires var m1 := Marks(g, rk, rk[t].next, bound1); m[cut..] == m1 || m[cut..] == [t] + m1
    requires forall i :: 0 <= i < cut ==> m[i] > t
    ensures rk[t].next < t
    ensures var c := if m[cut..] != Marks(g, rk, rk[t].next, bound1) then cut + 1 else cut;
            && c <= |m| && m[c..] == Marks(g, rk, rk[t].next, bound1) && forall i :: 0 <= i < c ==> m[i] > rk[t].next
  {
    hide Marks;
    var m1 := Marks(g, rk, rk[t].next, bound1);
    if m[cut..] != m1 {
      assert m[cut..][0] == t == m[cut];
      assert m[cut + 1..] == m[cut..][1..] == m1;
    }
  }

  /** What the flags of the block under a walk say about its place among the marks. */
  lemma {:induction false} WalkFlags(g: seq<Block>, rk: seq<Rank>, m: seq<nat>, b: nat, bound: int, cut: nat,
                                     onChain: seq<bool>, isMain: seq<bool>, height: seq<nat>, n: nat)
    requires Walk(g, rk, m, b, bound, cut) && Flagged(onChain, isMain, height, m, n) && |onChain| == |g|
    ensures onChain[b] ==> cut < |m| && m[cut] == b && Walk(g, rk, m, rk[b].next, Epoch(g[b]), cut + 1)
    ensures onChain[b] ==> (isMain[b] <==> cut >= |m| - n) && (isMain[b] ==> height[b] == |m| - cut)
    ensures !onChain[b] ==> !isMain[b] && Walk(g, rk, m, rk[b].next, bound, cut)
  {
    WalkHere(g, rk, m, b, bound, cut);
    WalkStep(g, rk, m, b, bound, cut);
    hide Walk;
  }

  /** A walk that fell off the end has passed every mark; one that met a main block has passed all that are not main. */
  lemma {:induction false} WalkEnd(g: seq<Block>, rk: seq<Rank>, m: seq<nat>, b: int, bound: int, cut: nat,
                                   onChain: seq<bool>, isMain: seq<bool>, height: seq<nat>, n: nat)
    requires Walk(g, rk, m, b, bound, cut) && Flagged(onChain, isMain, height, m, n) && |onChain| == |g|
    requires b >= 0 ==> isMain[b]
    ensures b < 0 ==> cut == |m|
    ensures b >= 0 ==> cut >= |m| - n
  {
    if b < 0 {
      assert m[cut..] == [];
    } else {
      WalkHere(g, rk, m, b, bound, cut);
    }
  }

  /** The marking test of the walks is exactly "this block is in the greedy marking". */
  lemma {:induction false} GreedyTest(g: seq<Block>, rk: seq<Rank>, m: seq<nat>, b: nat, bound: int, cut: nat)
    requires Ranked(g, rk) && Walk(g, rk, m, b, bound, cut)
    ensures Gains(rk, b) && Epoch(g[b]) < bound ==> b in m && Walk(g, rk, m, rk[b].next, Epoch(g[b]), cut + 1)
    ensures !(Gains(rk, b) && Epoch(g[b]) < bound) ==> b !in m && Walk(g, rk, m, rk[b].next, bound, cut)
    ensures rk[b].next >= 0 ==> Epoch(g[rk[b].next]) <= Epoch(g[b])
  {
    if rk[b].next >= 0 {
      NextOlder(g, rk, b);
    }
    WalkHere(g, rk, m, b, bound, cut);
    WalkStep(g, rk, m, b, bound, cut);
    MarksHead(g, rk, b, bound);
    assert b in m <==> b in m[cut..] by {
      hide Marks;
      if b in m {
        assert m[cut..][0] == b;
      }
    }
  }

  lemma {:induction false} OldestSuffix(a: seq<nat>, t: seq<nat>, n: nat)
    requires n <= |t|
    ensures Oldest(a + t, n) == Oldest(t, n)
  {}

  lemma {:induction false} InsertMark(onChain: seq<bool>, isMain: seq<bool>, height: seq<nat>,
                                      a: seq<nat>, t: seq<nat>, x: nat, n: nat)
    requires Flagged(onChain, isMain, height, a + t, n) && n <= |t| && x < |onChain| && !onChain[x]
    ensures Flagged(onChain[x := true], isMain, height, a + [x] + t, n)
  {
    var o, p, c, onChain1 := a + t, a + [x] + t, |a|, onChain[x := true];
    forall i | 0 <= i < |p|
      ensures p[i] < |onChain1| && onChain1[p[i]] && (isMain[p[i]] <==> i >= |p| - n)
      ensures i >= |p| - n ==> height[p[i]] == |p| - i
    {
      if i < c {
        assert p[i] == o[i];
      } else if i > c {
        assert p[i] == o[i - 1];
      }
    }
    forall y | 0 <= y < |onChain1| && onChain1[y] ensures y in p {
      if y != x {
        assert y in o;
      }
    }
  }

  lemma {:induction false} OnlyMarked(onChain: seq<bool>, isMain: seq<bool>, height: seq<nat>, m: seq<nat>, n: nat, x: nat)
    requires Flagged(onChain, isMain, height, m, n) && x < |onChain| && onChain[x]
    ensures x in m
  {}

  lemma {:induction false} GainsMost(g: seq<Block>, rk: seq<Rank>, b: nat, d: nat)
    requires Ranked(g, rk) && b < |g| && rk[b].diff > d && forall x :: 0 <= x < |rk| && x != b ==> rk[x].diff <= d
    ensures Gains(rk, b)
  {}

  /** The first `cut` marks followed by those from `k` on. */
  ghost function Spliced(m: seq<nat>, cut: nat, k: nat): seq<nat>
    requires cut <= k <= |m|
  {
    m[..cut] + m[k..]
  }

  lemma {:induction false} SplicedEnds(m: seq<nat>, k: nat)
    requires k <= |m|
    ensures Spliced(m, 0, k) == m[k..] && Spliced(m, k, k) == m[..k] + m[k..] == m
  {}

  /** Marking the next block of the new chain `m`, whose tail from `k` on is already marked. */
  lemma {:induction false} AddMark(g: seq<Block>, rk: seq<Rank>, onChain: seq<bool>, isMain: seq<bool>, height: seq<nat>,
                                   m: seq<nat>, b: nat, bound: int, cut: nat, k: nat, n: nat)
    requires Walk(g, rk, m, b, bound, cut) && b in m && cut <= k <= |m| && n <= |m| - k && |onChain| == |g|
    requires Flagged(onChain, isMain, height, Spliced(m, cut, k), n) && !onChain[b]
    ensures cut < k && Flagged(onChain[b := true], isMain, height, Spliced(m, cut + 1, k), n)
  {
    WalkHere(g, rk, m, b, bound, cut);
    hide Walk;
    var o := m[..cut] + m[k..];
    assert cut == k ==> o == m;
    InsertMark(onChain, isMain, height, m[..cut], m[k..], b, n);
    assert m[..cut] + [b] == m[..cut + 1];
  }

  /** When the marking walk stops, it has marked everything above the old tail. */
  lemma {:induction false} MarkEnd(g: seq<Block>, rk: seq<Rank>, onChain: seq<bool>, isMain: seq<bool>, height: seq<nat>,
                                   m: seq<nat>, b: int, bound: int, cut: nat, k: nat, n: nat)
    requires Walk(g, rk, m, b, bound, cut) && cut <= k <= |m| && |onChain| == |g|
    requires Flagged(onChain, isMain, height, Spliced(m, cut, k), n)
    requires b >= 0 ==> onChain[b]
    ensures cut == k
  {
    hide Flagged, Walk;
    if b < 0 {
      WalkPast(g, rk, m, b, bound, cut);
    } else {
      WalkMarks(g, rk, m, b, bound, cut);
      OnlyMarked(onChain, isMain, height, m[..cut] + m[k..], n, b);
      WalkHere(g, rk, m, b, bound, cut);
      TailMark(m, b, cut, k);
    }
  }

  lemma {:induction false} WalkPast(g: seq<Block>, rk: seq<Rank>, m: seq<nat>, b: int, bound: int, cut: nat)
    requires Walk(g, rk, m, b, bound, cut) && b < 0
    ensures cut == |m|
  {
    assert m[cut..] == [];
  }

  lemma {:induction false} WalkMarks(g: seq<Block>, rk: seq<Rank>, m: seq<nat>, b: int, bound: int, cut: nat)
    requires Walk(g, rk, m, b, bound, cut)
    ensures cut <= |m| && b < |g|
    ensures forall i :: 0 <= i < cut ==> m[i] > b
    ensures forall i, j :: 0 <= i < j < |m| ==> m[j] < m[i]
  {
    hide Marks;
  }

  /** A marked block at the head of the rest of a falling list, which is also in its tail from `k` on. */
  lemma {:induction false} TailMark(m: seq<nat>, b: nat, cut: nat, k: nat)
    requires cut <= k <= |m| && b in m[..cut] + m[k..] && (b in m ==> cut < |m| && m[cut] == b)
    requires forall i :: 0 <= i < cut ==> m[i] > b
    requires forall i, j :: 0 <= i < j < |m| ==> m[j] < m[i]
    ensures cut == k
  {
    var o := m[..cut] + m[k..];
    var i :| 0 <= i < |o| && o[i] == b;
    assert i >= cut && o[i] == m[k + i - cut];
    assert b in m;
  }

  lemma {:induction false} StopOnPath(g: seq<Block>, rk: seq<Rank>, top: int, br: int, stop: int)
    requires |g| == |rk| && Linked(rk) && -1 <= top < |rk| && -1 <= br < |rk|
    requires br >= 0 ==> br in MarksFrom(g, rk, top) && (stop == br || stop == rk[br].next)
    requires br < 0 ==> stop == -1
    ensures -1 <= stop < |rk| && OnPath(rk, top, stop) && (br >= 0 ==> top >= 0)
  {
    if br < 0 {
      OnPathEnd(rk, top);
    } else {
      MarksDescending(g, rk, top, Epoch(g[top]) + 1);
      OnPathStep(rk, top, br);
    }
  }

  /** After the roll-back, exactly the common tail of both chains is still marked. */
  lemma {:induction false} TailAgrees(g: seq<Block>, rk: seq<Rank>, top: int, b: nat, br: int, b0: nat, k: nat,
                                      stop: int, bound: int, cut: nat)
    requires Ranked(g, rk) && -1 <= top < |g| && b < |g| && -1 <= br < |g| && b0 < |g| && -1 <= stop < |g|
    requires Walk(g, rk, MarksFrom(g, rk, b), br, Epoch(g[b0]), k)
    requires br >= 0 ==> top >= 0 && br in MarksFrom(g, rk, top) && Epoch(g[br]) <= Epoch(g[b0])
                         && stop == if Epoch(g[br]) == Epoch(g[b0]) then rk[br].next else br
    requires br < 0 ==> stop == -1
    requires var m := MarksFrom(g, rk, top);
             && cut <= |m| && m[cut..] == Marks(g, rk, stop, bound) && forall i :: 0 <= i < cut ==> m[i] > stop
    ensures k <= |MarksFrom(g, rk, b)| && MarksFrom(g, rk, b)[k..] == MarksFrom(g, rk, top)[cut..]
  {
    if br >= 0 {
      SameTail(g, rk, top, br, b0, stop, bound, cut);
    }
  }

  // ---------------------------------------------------- marks set before the roll-back

  /** The flags with the blocks of `ms` marked as well. */
  ghost function Painted(on: seq<bool>, ms: seq<nat>): (r: seq<bool>)
    ensures |r| == |on| && forall x :: 0 <= x < |on| ==> r[x] == (on[x] || x in ms)
  {
    seq(|on|, x requires 0 <= x < |on| => on[x] || x in ms)
  }

  /** The flags after the path from `top` down to `stop`, without `stop`, is cleared. */
  ghost function Cleared(rk: seq<Rank>, top: int, stop: int, on: seq<bool>): (r: seq<bool>)
    requires Linked(rk) && -1 <= top < |rk|
    ensures |r| == |on| && forall x :: 0 <= x < |on| ==> r[x] == (on[x] && !(x > stop && OnPath(rk, top, x)))
  {
    seq(|on|, x requires 0 <= x < |on| => on[x] && !(x > stop && OnPath(rk, top, x)))
  }

  lemma {:induction false} PaintNone(on: seq<bool>)
    ensures Painted(on, []) == on
  {}

  lemma {:induction false} PaintNext(on: seq<bool>, m: seq<nat>, k: nat, b: nat)
    requires k < |m| && m[k] == b < |on|
    ensures Painted(on, m[..k])[b := true] == Painted(on, m[..k + 1])
  {
    assert m[..k + 1] == m[..k] + [b];
  }

  /** A walk has not reached the marks it will set. */
  lemma {:induction false} PaintAbove(g: seq<Block>, rk: seq<Rank>, m: seq<nat>, b: nat, bound: int, k: nat, on: seq<bool>)
    requires Walk(g, rk, m, b, bound, k) && |on| == |g|
    ensures Painted(on, m[..k])[b] == on[b]
  {}

  lemma {:induction false} PathTop(rk: seq<Rank>, top: int)
    requires Linked(rk) && -1 <= top < |rk|
    ensures OnPath(rk, top, top)
  {}

  lemma {:induction false} PathNext(rk: seq<Rank>, t: nat, stop: int)
    requires Linked(rk) && t < |rk| && OnPath(rk, t, stop) && t != stop
    ensures OnPath(rk, rk[t].next, stop)
  {}

  lemma {:induction false} PathBottom(rk: seq<Rank>, t: int, stop: int)
    requires Linked(rk) && -1 <= t < |rk| && OnPath(rk, t, stop) && (t < 0 || t == stop)
    ensures t == stop
  {}

  lemma {:induction false} ClearNone(rk: seq<Rank>, top: int, on: seq<bool>)
    requires Linked(rk) && -1 <= top < |rk|
    ensures Cleared(rk, top, top, on) == on
  {
    forall x | 0 <= x < |on| && OnPath(rk, top, x) ensures x <= top {
      OnPathBelow(rk, top, x);
    }
  }

  lemma {:induction false} ClearNext(rk: seq<Rank>, top: int, t: nat, on: seq<bool>)
    requires Linked(rk) && -1 <= top < |rk| == |on| && t < |rk| && OnPath(rk, top, t)
    ensures Cleared(rk, top, t, on)[t := false] == Cleared(rk, top, rk[t].next, on)
  {
    forall x | 0 <= x < t && OnPath(rk, top, x) ensures x <= rk[t].next {
      OnPathOrder(rk, top, t, x);
    }
  }

  /**
    Marks set before the roll-back: `base` holds the old marks, the first `k` marks of the new chain were
    added, and the path of the old top was cleared down to `stop`. The new chain is marked if and only if
    none of the added marks lay on that path.
   */
  lemma {:induction false} EarlyMarks(g: seq<Block>, rk: seq<Rank>, top: int, b: nat, stop: int, k: nat, base: seq<bool>,
                                      isMain: seq<bool>, height: seq<nat>, n: nat)
    requires |g| == |rk| == |base| && Linked(rk) && -1 <= top < |rk| && b < |rk| && k <= |MarksFrom(g, rk, b)|
    requires forall x :: 0 <= x < |base| ==> (base[x] <==> x in MarksFrom(g, rk, top))
    requires forall i :: 0 <= i < k ==> !base[MarksFrom(g, rk, b)[i]] && MarksFrom(g, rk, b)[i] > stop
    requires Flagged(Cleared(rk, top, stop, base), isMain, height, MarksFrom(g, rk, b)[k..], n)
    ensures Flagged(Cleared(rk, top, stop, Painted(base, MarksFrom(g, rk, b)[..k])), isMain, height, MarksFrom(g, rk, b), n)
            <==> !Loses(g, rk, top, b)
  {
    hide MarksFrom, OnPath, Painted, Cleared, Flagged;
    var m, old1 := MarksFrom(g, rk, b), Cleared(rk, top, stop, base);
    var on1 := Cleared(rk, top, stop, Painted(base, m[..k]));
    if Loses(g, rk, top, b) {
      var x :| x in m && x !in MarksFrom(g, rk, top) && OnPath(rk, top, x);
      LostMark(m, k, old1, base, isMain, height, n, x);
      MissingMark(on1, isMain, height, m, n, x);
    } else {
      forall i | 0 <= i < k ensures !OnPath(rk, top, m[i]) {
        assert m[i] in m && m[i] !in MarksFrom(g, rk, top);
      }
      KeptMarks(m, k, old1, on1, isMain, height, n);
    }
  }

  lemma {:induction false} LostMark(m: seq<nat>, k: nat, old1: seq<bool>, base: seq<bool>, isMain: seq<bool>, height: seq<nat>, n: nat, x: nat)
    requires k <= |m| && Flagged(old1, isMain, height, m[k..], n) && |base| == |old1| && x in m
    requires forall y :: 0 <= y < |old1| && old1[y] ==> base[y]
    requires x < |base| && !base[x]
    ensures exists i :: 0 <= i < k && m[i] == x
  {
    assert m == m[..k] + m[k..];
    assert x !in m[k..];
  }

  lemma {:induction false} KeptMarks(m: seq<nat>, k: nat, old1: seq<bool>, on1: seq<bool>, isMain: seq<bool>, height: seq<nat>, n: nat)
    requires k <= |m| && Flagged(old1, isMain, height, m[k..], n) && |on1| == |old1|
    requires forall i :: 0 <= i < k ==> m[i] < |old1| && !old1[m[i]]
    requires forall x :: 0 <= x < |on1| ==> on1[x] == (old1[x] || x in m[..k])
    ensures Flagged(on1, isMain, height, m, n)
  {
    forall i | 0 <= i < |m| ensures m[i] < |on1| && on1[m[i]] && (isMain[m[i]] <==> i >= |m| - n) && (i >= |m| - n ==> height[m[i]] == |m| - i) {
      if i >= k {
        assert m[k..][i - k] == m[i];
      } else {
        assert m[..k][i] == m[i];
      }
    }
    forall x | 0 <= x < |on1| && on1[x] ensures x in m {
      if old1[x] {
        assert x in m[k..];
      }
    }
  }

  /** After the roll-back `fork` main blocks are left if and only if both chains share as many. */
  lemma {:induction false} ForkKept(a: seq<nat>, b: seq<nat>, cut: nat, k: nat, fork: nat)
    requires cut <= |a| && 0 < k <= |b| && a[cut..] == b[k..] && b[k - 1] !in a
    ensures SameOldest(a, b, fork) <==> fork <= |a| - cut
  {
    if fork <= |a| - cut {
      assert a[|a| - fork..] == a[cut..][|a| - cut - fork..];
      assert b[|b| - fork..] == b[k..][|b| - k - fork..];
    } else if fork <= |a| && fork <= |b| {
      var i := k - 1 - (|b| - fork);
      assert b[|b| - fork..][i] == b[k - 1];
      assert a[|a| - fork..][i] in a;
    }
  }

  lemma {:induction false} MarkedOnly(onChain: seq<bool>, isMain: seq<bool>, height: seq<nat>, m: seq<nat>, n: nat)
    requires Flagged(onChain, isMain, height, m, n)
    ensures forall x :: 0 <= x < |onChain| ==> (onChain[x] <==> x in m)
  {}

  /** Block `x` is marked after a switch from `top` to `b` with `n` main blocks. */
  ghost predicate MarkStays(g: seq<Block>, rk: seq<Rank>, top: int, b: nat, n: nat, fork: nat, x: nat)
    requires |g| == |rk| && Linked(rk) && -1 <= top < |rk| && b < |rk|
  {
    && x in MarksFrom(g, rk, b)
    && (SwitchMarks(g, rk, top, b, n, fork) || x in MarksFrom(g, rk, top) || (n < fork && !OnPath(rk, top, x)))
  }

  /**
    The flags after a switch from `top` to `b`: `n` and `n1` count the main blocks before and after. Main
    blocks and heights are those of the new marking in any case, and exactly the marks of `MarkStays` are set.
   */
  ghost predicate Switched(g: seq<Block>, rk: seq<Rank>, top: int, b: nat, n: nat, fork: nat,
                           onChain: seq<bool>, isMain: seq<bool>, height: seq<nat>, n1: nat)
    requires |g| == |rk| && Linked(rk) && -1 <= top < |rk| && b < |rk|
  {
    && |onChain| == |g| && (forall x :: 0 <= x < |onChain| ==> (onChain[x] <==> MarkStays(g, rk, top, b, n, fork, x)))
    && Flagged(Painted(onChain, MarksFrom(g, rk, b)), isMain, height, MarksFrom(g, rk, b), n1)
    && (Flagged(onChain, isMain, height, MarksFrom(g, rk, b), n1) <==> SwitchMarks(g, rk, top, b, n, fork))
  }

  lemma {:induction false} SwitchedMarks(g: seq<Block>, rk: seq<Rank>, top: int, b: nat, n: nat, fork: nat,
                                         onChain: seq<bool>, isMain: seq<bool>, height: seq<nat>, n1: nat)
    requires |g| == |rk| && Linked(rk) && -1 <= top < |rk| && b < |rk|
    requires Switched(g, rk, top, b, n, fork, onChain, isMain, height, n1)
    ensures Flagged(onChain, isMain, height, MarksFrom(g, rk, b), n1) <==> SwitchMarks(g, rk, top, b, n, fork)
  {}

  /** A switch after which everything is marked. */
  lemma {:induction false} SwitchedWell(g: seq<Block>, rk: seq<Rank>, top: int, b: nat, n: nat, fork: nat,
                                        onChain: seq<bool>, isMain: seq<bool>, height: seq<nat>, n1: nat)
    requires |g| == |rk| == |onChain| && Linked(rk) && -1 <= top < |rk| && b < |rk| && SwitchMarks(g, rk, top, b, n, fork)
    requires Flagged(onChain, isMain, height, MarksFrom(g, rk, b), n1)
    ensures Switched(g, rk, top, b, n, fork, onChain, isMain, height, n1)
  {
    hide MarksFrom, SwitchMarks;
    MarkedOnly(onChain, isMain, height, MarksFrom(g, rk, b), n1);
    assert Painted(onChain, MarksFrom(g, rk, b)) == onChain;
  }

  /** The marks that are left when step 3 does not run. */
  lemma {:induction false} MarksLeft(g: seq<Block>, rk: seq<Rank>, top: int, b: nat, stop: int, k: nat, base: seq<bool>, on1: seq<bool>,
                                     isMain: seq<bool>, height: seq<nat>, n: nat, n1: nat, fork: nat)
    requires |g| == |rk| == |base| && Linked(rk) && -1 <= top < |rk| && b < |rk| && k <= |MarksFrom(g, rk, b)|
    requires forall x :: 0 <= x < |base| ==> (base[x] <==> x in MarksFrom(g, rk, top))
    requires forall i :: 0 <= i < k ==> !base[MarksFrom(g, rk, b)[i]] && MarksFrom(g, rk, b)[i] > stop
    requires Flagged(Cleared(rk, top, stop, base), isMain, height, MarksFrom(g, rk, b)[k..], n1)
    requires on1 == Cleared(rk, top, stop, if n < fork then Painted(base, MarksFrom(g, rk, b)[..k]) else base)
    requires Flagged(on1, isMain, height, MarksFrom(g, rk, b), n1) <==> SwitchMarks(g, rk, top, b, n, fork)
    ensures Switched(g, rk, top, b, n, fork, on1, isMain, height, n1)
  {
    hide MarksFrom, OnPath, Painted, Cleared, Flagged, SwitchMarks;
    var m, old1 := MarksFrom(g, rk, b), Cleared(rk, top, stop, base);
    MarkedOnly(old1, isMain, height, m[k..], n1);
    if SwitchMarks(g, rk, top, b, n, fork) {
      SwitchedWell(g, rk, top, b, n, fork, on1, isMain, height, n1);
    } else {
      assert m == m[..k] + m[k..];
      assert forall x :: x in m[..k] ==> exists i :: 0 <= i < k && m[i] == x;
      forall x | 0 <= x < |on1| ensures on1[x] <==> MarkStays(g, rk, top, b, n, fork, x) {
        assert x in m <==> x in m[..k] || x in m[k..];
      }
      KeptMarks(m, k, old1, Painted(on1, m), isMain, height, n1);
    }
  }

  /**
    What the flags are after the roll-back: `n` and `n1` count the main blocks before and after it, `base`
    holds the old marks. Unless step 3 is still to mark the new chain, it is marked exactly if `SwitchMarks` says so.
   */
  lemma {:induction false} MarksOutcome(g: seq<Block>, rk: seq<Rank>, top: int, b: nat, br: int, stop: int, k: nat, cut: nat,
                                        base: seq<bool>, isMain: seq<bool>, height: seq<nat>, n: nat, n1: nat, bound: int, fork: nat)
    requires |g| == |rk| == |base| && Linked(rk) && -1 <= top < |rk| && b < |rk| && Gains(rk, b) && -1 <= stop <= br
    requires forall x :: 0 <= x < |base| ==> (base[x] <==> x in MarksFrom(g, rk, top))
    requires Walk(g, rk, MarksFrom(g, rk, b), br, bound, k) && 0 < k <= |MarksFrom(g, rk, b)|
    requires forall i :: 0 <= i < k ==> !base[MarksFrom(g, rk, b)[i]]
    requires cut <= |MarksFrom(g, rk, top)| && MarksFrom(g, rk, top)[cut..] == MarksFrom(g, rk, b)[k..]
    requires Flagged(Cleared(rk, top, stop, base), isMain, height, MarksFrom(g, rk, b)[k..], n1)
    requires n1 == if n <= |MarksFrom(g, rk, top)| - cut then n else |MarksFrom(g, rk, top)| - cut
    ensures n >= fork ==> (n1 >= fork <==> SwitchMarks(g, rk, top, b, n, fork))
    ensures n1 < fork ==> var on1 := Cleared(rk, top, stop, if n < fork then Painted(base, MarksFrom(g, rk, b)[..k]) else base);
                          Switched(g, rk, top, b, n, fork, on1, isMain, height, n1)
  {
    hide Walk, Flagged, Painted, MarksFrom, Cleared, Switched, Loses, Gains;
    var m := MarksFrom(g, rk, b);
    WalkAbove(g, rk, m, br, bound, k);
    if n >= fork {
      assert m[k - 1] in m;
      ForkKept(MarksFrom(g, rk, top), m, cut, k, fork);
      MissingMark(Cleared(rk, top, stop, base), isMain, height, m, n1, m[0]);
    } else {
      EarlyMarks(g, rk, top, b, stop, k, base, isMain, height, n1);
    }
    if n1 < fork {
      hide SwitchMarks;
      MarksLeft(g, rk, top, b, stop, k, base, Cleared(rk, top, stop, if n < fork then Painted(base, m[..k]) else base),
                isMain, height, n, n1, fork);
    }
  }

  lemma {:induction false} WalkAbove(g: seq<Block>, rk: seq<Rank>, m: seq<nat>, b: int, bound: int, cut: nat)
    requires Walk(g, rk, m, b, bound, cut)
    ensures cut <= |m| && forall i :: 0 <= i < cut ==> m[i] > b
  {}

  lemma {:induction false} MissingMark(onChain: seq<bool>, isMain: seq<bool>, height: seq<nat>, m: seq<nat>, n: nat, x: nat)
    requires x in m && (x < |onChain| ==> !onChain[x])
    ensures !Flagged(onChain, isMain, height, m, n)
  {}

  lemma {:induction false} MarksFromGrow(g: seq<Block>, rk: seq<Rank>, nb: Block, r: Rank, top: int)
    requires |g| == |rk| && Linked(rk) && Linked(rk + [r]) && -1 <= top < |rk|
    ensures MarksFrom(g + [nb], rk + [r], top) == MarksFrom(g, rk, top)
  {
    if top >= 0 {
      MarksGrow(g, rk, nb, r, top, Epoch(g[top]) + 1);
    }
  }

  lemma {:induction false} FlaggedGrow(onChain: seq<bool>, isMain: seq<bool>, height: seq<nat>, m: seq<nat>, n: nat)
    requires Flagged(onChain, isMain, height, m, n)
    ensures Flagged(onChain + [false], isMain + [false], height + [0], m, n)
  {}

  lemma {:induction false} DistinctGrow(g: seq<Block>, nb: Block)
    requires DistinctInputs(g)
    ensures DistinctInputs(g + [nb]) <==> Distinct(nb.links)
  {
    assert (g + [nb])[|g|] == nb;
  }

  /** Every link names an indexed block that is strictly older. */
  ghost predicate LinksOk(g: seq<Block>, nb: Block) {
    forall i :: 0 <= i < |nb.links| ==> nb.links[i].target < |g| && g[nb.links[i].target].time < nb.time
  }

  lemma {:induction false} LinksOkDag(g: seq<Block>, nb: Block)
    requires IsDag(g) && LinksOk(g, nb)
    ensures IsDag(g + [nb])
  {
    var g1 := g + [nb];
    forall b, i | 0 <= b < |g1| && 0 <= i < |g1[b].links|
      ensures g1[b].links[i].target < b && g1[g1[b].links[i].target].time < g1[b].time
    {
      if b < |g| {
        assert g1[b] == g[b] && g[b].links[i].target < b;
      }
    }
  }

  /** `add_block_nolock` answers: accepted, refused, or the first link field that is missing or not older. */
  datatype Outcome = Added | Refused | NotIndexed(field: nat) | NotOlder(field: nat)

  /** The DAG with its ranks, the sizes of what is kept for each block, and the difficulty of the top. */
  ghost predicate Shaped(g: seq<Block>, rk: seq<Rank>, accounts: nat, chain: nat, mains: nat, heights: nat, top: int, difficulty: nat) {
    && IsDag(g) && Linked(rk) && Ranked(g, rk) && Witnessed(g, rk) && |rk| == accounts == |g| && -1 <= top < |g|
    && chain == mains == heights == |g|
    && difficulty == if top < 0 then 0 else rk[top].diff
  }

  lemma {:induction false} ShapeFacts(g: seq<Block>, rk: seq<Rank>, accounts: nat, chain: nat, mains: nat, heights: nat, top: int, difficulty: nat)
    requires Shaped(g, rk, accounts, chain, mains, heights, top, difficulty)
    ensures IsDag(g) && Linked(rk) && Ranked(g, rk) && |rk| == accounts == chain == mains == heights == |g| && -1 <= top < |g|
  {}

  lemma {:induction false} NewTop(g: seq<Block>, rk: seq<Rank>, accounts: nat, chain: nat, mains: nat, heights: nat, top: int, difficulty: nat, b: nat)
    requires Shaped(g, rk, accounts, chain, mains, heights, top, difficulty) && b < |g|
    ensures |rk| == |g| && Shaped(g, rk, accounts, chain, mains, heights, b, rk[b].diff)
  {}

  class MainChain {
    const testnet: bool
    const syncForkHeight: nat

    var dag: seq<Block>
    var rank: seq<Rank>
    var acc: seq<Account>
    var onChain: seq<bool>
    var isMain: seq<bool>
    var height: seq<nat>
    var nmain: nat
    var top: int
    var difficulty: nat

    /** All blocks have distinct inputs, and every promotion so far rejected only blocks without a fee. */
    ghost var honest: bool

    /** The shape of the indexed DAG and the difficulty of the current top. */
    ghost predicate Shape()
      reads this
    {
      Shaped(dag, rank, |acc|, |onChain|, |isMain|, |height|, top, difficulty)
    }

    /** `top_main_chain` carries the greatest difficulty of all indexed blocks. */
    ghost predicate Heaviest()
      reads this
    {
      && (dag != [] ==> top >= 0)
      && forall x :: 0 <= x < |rank| ==> rank[x].diff <= difficulty
    }

    /** The marked blocks, newest first. */
    ghost function Marked(): (m: seq<nat>)
      requires Shape()
      reads this
      ensures forall i :: 0 <= i < |m| ==> m[i] < |dag|
    {
      MarksFrom(dag, rank, top)
    }

    /** The money is what replaying the main blocks gives. */
    ghost predicate Books(ms: seq<nat>)
      requires IsDag(dag)
      reads this
    {
      honest ==> DistinctInputs(dag) && MainList(dag, ms) && acc == Replay(testnet, dag, ms) && FeeFreeRun(testnet, dag, ms)
    }

    /** `base` marks `m` and nothing else, the `nmain` oldest of `m` are the main blocks, and the money agrees. */
    ghost predicate AgreesAs(base: seq<bool>, m: seq<nat>)
      requires IsDag(dag)
      reads this
    {
      Flagged(base, isMain, height, m, nmain) && Books(Oldest(m, nmain))
    }

    /** The same of the marks as they are. */
    ghost predicate Agrees(m: seq<nat>)
      requires IsDag(dag)
      reads this
    {
      AgreesAs(onChain, m)
    }

    ghost predicate Valid()
      reads this
    {
      Shape() && Heaviest() && Agrees(Marked())
    }

    lemma {:induction false} HeldSize(flags: seq<Orphans.Flags>)
      requires Held(flags)
      ensures |flags| == |dag|
    {}

    /** Every main block carries BI_REF, and so do the links of all blocks that are not extra. */
    ghost predicate Held(flags: seq<Orphans.Flags>)
      reads this`dag, this`isMain
    {
      && |flags| == |dag| == |isMain| && Orphans.Closed(dag, flags)
      && forall x :: 0 <= x < |isMain| && isMain[x] ==> flags[x].ref
    }

    constructor (testnet: bool, syncForkHeight: nat)
      ensures Valid() && dag == [] && rank == [] && acc == [] && isMain == [] && nmain == 0 && top == -1 && difficulty == 0 && honest
      ensures Held([])
      ensures this.testnet == testnet && this.syncForkHeight == syncForkHeight
    {
      hide Replay, FeeFreeRun, Ranked, Witnessed, Flagged, Oldest, MarksFrom, MainList, DistinctInputs, Orphans.LinksReferenced;
      this.testnet := testnet;
      this.syncForkHeight := syncForkHeight;
      dag, rank, acc, onChain, isMain, height := [], [], [], [], [], [];
      nmain, top, difficulty, honest := 0, -1, 0, true;
      new;
      EmptyBooks(testnet, dag, rank, acc, onChain, isMain, height);
    }

    // ------------------------------------------------------------ apply and unapply

    method AcceptAmount(b: nat, sum: Amount)
      requires b < |acc|
      modifies this`acc
      ensures acc == Accept(old(acc), b, sum)
    {
      if sum != 0 {
        acc := acc[b := acc[b].(amount := Wrap(acc[b].amount + sum))];
      } else {
        assert acc[b].(amount := Wrap(acc[b].amount)) == acc[b];
        assert acc[b := acc[b]] == acc;
      }
    }

    method ApplyBlock(b: nat) returns (r: Amount)
      requires Accounts(dag, acc) && b < |dag|
      modifies this`acc
      ensures (acc, r) == Apply(dag, old(acc), b)
      decreases b
    {
      if acc[b].mainRef {
        return ALREADY;
      }
      acc := acc[b := acc[b].(mainRef := true)];
      ghost var s0 := acc;
      var i := 0;
      while i < |dag[b].links|
        invariant i <= |dag[b].links| && |acc| == |dag|
        invariant ApplyLinks(dag, acc, b, i) == ApplyLinks(dag, s0, b, 0)
      {
        ghost var before := acc;
        var t := dag[b].links[i].target;
        var refAmount := ApplyBlock(t);
        if refAmount != ALREADY {
          acc := acc[t := acc[t].(ref := b)];
          OverflowTest(acc[b].amount, refAmount);
          if Wrap(acc[b].amount + refAmount) >= acc[b].amount {
            AcceptAmount(b, refAmount);
          }
        }
        assert acc == VisitLink(dag, before, b, i);
        i := i + 1;
      }
      r := SettleBlock(b);
    }

    /** The part of `apply_block` after its recursive calls (client/block.c:227-265). */
    method SettleBlock(b: nat) returns (r: Amount)
      requires Accounts(dag, acc) && b < |dag|
      modifies this`acc
      ensures (acc, r) == Settle(dag, old(acc), b)
    {
      hide Wrap, Move;
      var sumIn: Amount, sumOut: Amount := 0, dag[b].fee;
      var i := 0;
      while i < |dag[b].links|
        invariant i <= |dag[b].links| && acc == old(acc)
        invariant CheckLinks(dag, acc, b, i, sumIn, sumOut) == CheckLinks(dag, acc, b, 0, 0, dag[b].fee)
      {
        var l := dag[b].links[i];
        if l.isInput {
          OverflowTest(sumIn, l.amount);
          if acc[l.target].amount < l.amount {
            return 0;
          }
          if Wrap(sumIn + l.amount) < sumIn {
            return 0;
          }
          sumIn := Wrap(sumIn + l.amount);
        } else {
          OverflowTest(sumOut, l.amount);
          if Wrap(sumOut + l.amount) < sumOut {
            return 0;
          }
          sumOut := Wrap(sumOut + l.amount);
        }
        i := i + 1;
      }
      OverflowTest(sumIn, acc[b].amount);
      assert dag[b].links[..0] == [];
      if Wrap(sumIn + acc[b].amount) < sumIn || Wrap(sumIn + acc[b].amount) < sumOut {
        return 0;
      }
      MoveMoney(b);
      WrapOnce(acc[b].amount, sumIn - sumOut);
      AcceptAmount(b, Wrap(sumIn - sumOut));
      acc := acc[b := acc[b].(applied := true)];
      r := dag[b].fee;
    }

    /** The transfer loop of `apply_block` (client/block.c:253-259). */
    method MoveMoney(b: nat)
      requires Accounts(dag, acc) && b < |dag|
      modifies this`acc
      ensures acc == Move(dag, old(acc), b, |dag[b].links|, false)
    {
      var i := 0;
      while i < |dag[b].links|
        invariant i <= |dag[b].links| && acc == Move(dag, old(acc), b, i, false)
      {
        var l := dag[b].links[i];
        WrapOnce(acc[l.target].amount, Credit(l, false));
        AcceptAmount(l.target, if l.isInput then Wrap(0 - l.amount) else l.amount);
        i := i + 1;
      }
    }

    /** The loop of `unapply_block` that gives the transfers back and adds up what the block had kept (client/block.c:272-280). */
    method ReturnMoney(b: nat) returns (sum: Amount)
      requires Accounts(dag, acc) && b < |dag|
      modifies this`acc
      ensures acc == Move(dag, old(acc), b, |dag[b].links|, true) && |acc| == |dag|
      ensures sum == Wrap(dag[b].fee + Returned(dag[b].links))
    {
      hide Wrap, Accept;
      var links := dag[b].links;
      ghost var total: int := dag[b].fee;
      sum := dag[b].fee;
      var i := 0;
      while i < |links|
        invariant i <= |links| && |acc| == |dag| && acc == Move(dag, old(acc), b, i, true)
        invariant total == dag[b].fee + Returned(links[..i]) && sum == Wrap(total)
      {
        var l := links[i];
        ReturnedStep(links, i);
        AcceptWrapped(acc, l.target, Credit(l, true));
        WrapAdd(total, Credit(l, false));
        AcceptAmount(l.target, if l.isInput then l.amount else Wrap(0 - l.amount));
        sum := if l.isInput then Wrap(sum - l.amount) else Wrap(sum + l.amount);
        total := total + Credit(l, false);
        i := i + 1;
      }
      assert links[..i] == links;
    }

    /** The part of `unapply_block` before its recursive calls (client/block.c:271-289). */
    method UnsettleBlock(b: nat)
      requires Accounts(dag, acc) && b < |dag|
      modifies this`acc
      ensures acc == Unsettle(dag, old(acc), b)
    {
      hide Wrap, Move, Returned;
      if acc[b].applied {
        var sum := ReturnMoney(b);
        WrapOnce(acc[b].amount, dag[b].fee + Returned(dag[b].links));
        AcceptAmount(b, sum);
      }
      acc := acc[b := acc[b].(applied := false, mainRef := false, ref := -1)];
    }

    method UnapplyBlock(b: nat) returns (r: Amount)
      requires Accounts(dag, acc) && b < |dag|
      modifies this`acc
      ensures acc == Unapply(dag, old(acc), b) && r == Wrap(0 - dag[b].fee)
      decreases b
    {
      UnsettleBlock(b);
      ghost var u0 := acc;
      var i := 0;
      while i < |dag[b].links|
        invariant i <= |dag[b].links| && |acc| == |dag|
        invariant UnapplyLinks(dag, acc, b, i) == UnapplyLinks(dag, u0, b, 0)
      {
        ghost var before := acc;
        var t := dag[b].links[i].target;
        if acc[t].ref == b && acc[t].mainRef {
          var back := UnapplyBlock(t);
          WrapOnce(acc[b].amount, 0 - dag[t].fee);
          AcceptAmount(b, back);
        }
        assert acc == LeaveLink(dag, before, b, i);
        i := i + 1;
      }
      r := Wrap(0 - dag[b].fee);
    }

    // ------------------------------------------------------- promotion and roll-back

    /** The money side of `set_main` (client/block.c:350-361). */
    method Promote(p: nat, amount: Amount)
      requires Accounts(dag, acc) && p < |dag|
      modifies this`acc
      ensures acc == SetMain(dag, old(acc), p, amount)
    {
      AcceptAmount(p, amount);
      var r := ApplyBlock(p);
      AcceptAmount(p, r);
      acc := acc[p := acc[p].(ref := p)];
    }

    /** The money side of `unset_main` (client/block.c:372-373). */
    method Demote(t: nat, amount: Amount)
      requires Accounts(dag, acc) && t < |dag|
      modifies this`acc
      ensures acc == UnsetMain(dag, old(acc), t, amount)
    {
      hide Wrap;
      WrapOnce(acc[t].amount, 0 - amount);
      AcceptAmount(t, Wrap(0 - amount));
      var r := UnapplyBlock(t);
      WrapOnce(acc[t].amount, 0 - dag[t].fee);
      AcceptAmount(t, r);
    }

    /** `set_main` on the next marked block. */
    method SetMainBlock(p: nat, ghost m: seq<nat>, ghost flags: seq<Orphans.Flags>)
      requires Shape() && Agrees(m) && Descending(dag, m) && nmain < |m| && p == m[|m| - 1 - nmain]
      requires p < |dag| && Held(flags) && flags[p].ref
      modifies this`acc, this`isMain, this`height, this`nmain, this`honest
      ensures Shape() && Agrees(m) && nmain == old(nmain) + 1
      ensures honest == (old(honest) && FeeFreePromotion(dag, old(acc), p, Reward(testnet, nmain)))
      ensures isMain == old(isMain)[p := true]
      ensures Held(flags) && Orphans.WritesReferenced(flags, old(acc), acc)
    {
      hide Ranked, Witnessed, Flagged, SetMain, Replay, Reward, FeeFreeRun, FeeFreePromotion, DistinctInputs, MainList, Oldest;
      hide Orphans.Closed, Orphans.WritesReferenced, Shaped;
      ShapeFacts(dag, rank, |acc|, |onChain|, |isMain|, |height|, top, difficulty);
      FlaggedPromote(dag, onChain, isMain, height, m, nmain, p);
      height := height[p := nmain + 1];
      RewardFits(testnet, height[p]);
      var amount := Reward(testnet, height[p]);
      isMain := isMain[p := true];
      honest := honest && FeeFreePromotion(dag, acc, p, amount);
      if honest {
        NextBooks(testnet, dag, acc, m, nmain, p);
      }
      Orphans.MainSparesOrphans(dag, flags, acc, p, amount);
      Promote(p, amount);
      nmain := nmain + 1;
    }

    /** `unset_main` on the newest main block. */
    method UnsetMainBlock(t: nat, ghost m: seq<nat>, ghost flags: seq<Orphans.Flags>)
      requires Shape() && nmain == |m| > 0 && t == m[0] && t < |dag| && Books(Oldest(m, nmain)) && isMain[t] && Held(flags)
      modifies this`acc, this`isMain, this`nmain
      ensures Shape() && nmain == old(nmain) - 1 && isMain == old(isMain)[t := false]
      ensures Books(Oldest(m[1..], nmain))
      ensures Held(flags) && Orphans.WritesReferenced(flags, old(acc), acc)
    {
      hide Ranked, Witnessed, UnsetMain, Replay, Reward, FeeFreeRun, DistinctInputs, MainList;
      hide Orphans.Closed, Orphans.WritesReferenced;
      ghost var ms := Oldest(m, nmain);
      RewardFits(testnet, nmain);
      var amount: Amount := Reward(testnet, nmain);
      if honest {
        RollBack(testnet, dag, ms);
        FeeFreePrefix(testnet, dag, ms);
      }
      nmain := nmain - 1;
      assert Oldest(m[1..], nmain) == ms[..nmain];
      Orphans.MainSparesOrphans(dag, flags, acc, t, amount);
      isMain := isMain[t := false];
      Demote(t, amount);
    }

    /** One round of `unwind_main` (client/block.c:398-401). `base` holds the marks of the old chain alone. */
    method UnwindOne(t: nat, ghost bound: int, ghost base: seq<bool>, ghost flags: seq<Orphans.Flags>) returns (ghost bound1: int)
      requires Shape() && t < |dag| && |base| == |dag| && AgreesAs(base, Marks(dag, rank, t, bound)) && Held(flags)
      modifies this`acc, this`onChain, this`isMain, this`nmain
      ensures Shape() && onChain == old(onChain)[t := false]
      ensures var m, m1 := Marks(dag, rank, t, bound), Marks(dag, rank, rank[t].next, bound1);
              && AgreesAs(base[t := false], m1) && (m == m1 || m == [t] + m1)
              && nmain == if old(nmain) <= |m1| then old(nmain) else |m1|
      ensures Held(flags) && Orphans.WritesReferenced(flags, old(acc), acc)
    {
      hide Marks, Replay, FeeFreeRun, Ranked, Witnessed, Flagged, DistinctInputs, MainList, Oldest;
      hide Orphans.Closed, Orphans.WritesReferenced;
      Orphans.WritesNone(flags, acc);
      ghost var m := Marks(dag, rank, t, bound);
      ghost var below := Marks(dag, rank, rank[t].next, Epoch(dag[t]));
      MarksDescending(dag, rank, t, bound);
      MarksHead(dag, rank, t, bound);
      FlaggedLength(base, isMain, height, m, nmain);
      bound1 := if t in m then Epoch(dag[t]) else bound;
      if t in m {
        DropMark(dag, base, isMain, height, t, below, nmain);
      } else {
        Unmarked(base, isMain, height, m, nmain, t);
      }
      onChain := onChain[t := false];
      if isMain[t] {
        assert m[1..] == below;
        UnsetMainBlock(t, m, flags);
      } else if t in m {
        OldestRest(t, below, nmain);
      }
    }

    /** `unwind_main`: clear the marks above `stop`, demoting every main block on the way. */
    method UnwindMain(stop: int, ghost base: seq<bool>, ghost flags: seq<Orphans.Flags>) returns (ghost bound: int, ghost cut: nat)
      requires Shape() && |base| == |dag| && AgreesAs(base, Marked()) && -1 <= stop < |dag| && OnPath(rank, top, stop) && Held(flags)
      modifies this`acc, this`onChain, this`isMain, this`nmain
      ensures Shape() && onChain == Cleared(rank, top, stop, old(onChain))
      ensures cut <= |Marked()| && Marked()[cut..] == Marks(dag, rank, stop, bound)
      ensures AgreesAs(Cleared(rank, top, stop, base), Marked()[cut..])
      ensures nmain == if old(nmain) <= |Marked()| - cut then old(nmain) else |Marked()| - cut
      ensures forall i :: 0 <= i < cut ==> Marked()[i] > stop
      ensures Held(flags) && Orphans.WritesReferenced(flags, old(acc), acc)
    {
      hide Marks, Replay, FeeFreeRun, Flagged, DistinctInputs, MainList, Oldest, AgreesAs, Held, Shaped, Orphans.WritesReferenced, Epoch, Cleared, OnPath;
      ShapeFacts(dag, rank, |acc|, |onChain|, |isMain|, |height|, top, difficulty);
      HeldSize(flags);
      Orphans.WritesNone(flags, acc);
      ghost var m := Marked();
      AgreesLength(base, m);
      var t := top;
      bound := if top < 0 then 0 else Epoch(dag[top]) + 1;
      cut := 0;
      MarksHere(dag, rank, top, bound);
      ClearNone(rank, top, onChain);
      ClearNone(rank, top, base);
      PathTop(rank, top);
      assert m[0..] == m;
      while t >= 0 && t != stop
        invariant Shape() && -1 <= t < |dag| && OnPath(rank, t, stop) && OnPath(rank, top, t)
        invariant onChain == Cleared(rank, top, t, old(onChain))
        invariant Marked() == m && cut <= |m| && m[cut..] == Marks(dag, rank, t, bound)
        invariant nmain == if old(nmain) <= |m| - cut then old(nmain) else |m| - cut
        invariant forall i :: 0 <= i < cut ==> m[i] > t
        invariant AgreesAs(Cleared(rank, top, t, base), m[cut..])
        invariant Held(flags) && Orphans.WritesReferenced(flags, old(acc), acc)
        decreases t
      {
        ghost var was := acc;
        ghost var here := bound;
        bound := UnwindOne(t, bound, Cleared(rank, top, t, base), flags);
        Orphans.WritesJoin(flags, old(acc), was, acc);
        PassMark(dag, rank, m, t, here, bound, cut);
        if m[cut..] != Marks(dag, rank, rank[t].next, bound) {
          cut := cut + 1;
        }
        ClearNext(rank, top, t, old(onChain));
        ClearNext(rank, top, t, base);
        OnPathStep(rank, top, t);
        PathNext(rank, t, stop);
        t := rank[t].next;
      }
      PathBottom(rank, t, stop);
    }

    lemma {:induction false} AgreesLength(base: seq<bool>, m: seq<nat>)
      requires IsDag(dag) && AgreesAs(base, m)
      ensures nmain <= |m|
    {}

    /** The oldest mark that is not main is referenced and old enough, and a newer mark exists. */
    ghost predicate Due(now: nat, flags: seq<Orphans.Flags>)
      requires Shape() && |flags| == |dag|
      reads this
    {
      var m := Marked();
      && |m| > nmain + MAX_WAITING_MAIN && flags[m[|m| - 1 - nmain]].ref
      && now >= dag[m[|m| - 1 - nmain]].time + 2 * 1024
    }

    /** Promoting the next mark rejects no block with a fee. */
    ghost predicate FeeFreeNext()
      requires Shape()
      reads this
    {
      var m := Marked();
      |m| > nmain ==> FeeFreePromotion(dag, acc, m[|m| - 1 - nmain], Reward(testnet, nmain + 1))
    }

    /**
      `check_new_main`: promote the oldest marked block that is not yet main, once it is referenced,
      a newer marked block exists and two quarter-minutes have passed. `flags` holds BI_REF and BI_EXTRA.
     */
    method CheckNewMain(now: nat, flags: seq<Orphans.Flags>)
      requires Valid() && Held(flags)
      modifies this`acc, this`isMain, this`height, this`nmain, this`honest
      ensures Valid() && old(nmain) <= nmain <= old(nmain) + 1
      ensures nmain > old(nmain) <==> old(Due(now, flags))
      ensures honest == (old(honest) && old(Due(now, flags) ==> FeeFreeNext()))
      ensures Held(flags) && Orphans.WritesReferenced(flags, old(acc), acc)
    {
      hide Held, Orphans.WritesReferenced, Marks, MarksFrom, Walk, Replay, FeeFreeRun, Ranked, Witnessed, DistinctInputs;
      hide MainList, Books, Oldest, Flagged;
      HeldSize(flags);
      Orphans.WritesNone(flags, acc);
      ghost var m := Marked();
      MarkedDescending();
      var p, i := Candidate();
      if p >= 0 && flags[p].ref && i > MAX_WAITING_MAIN && now >= dag[p].time + 2 * 1024 {
        SetMainBlock(p, m, flags);
      }
    }

    /** The marks are in strictly falling time order. */
    lemma {:induction false} MarkedDescending()
      requires Shape()
      ensures Descending(dag, Marked())
    {
      hide Marks, Witnessed, Ranked;
      if top >= 0 {
        MarksDescending(dag, rank, top, Epoch(dag[top]) + 1);
      }
    }

    /** The walk of `check_new_main`: the oldest mark that is not main, or -1, and how many there are. */
    method Candidate() returns (p: int, i: nat)
      requires Valid()
      ensures i == |Marked()| - nmain
      ensures p == if i == 0 then -1 else Marked()[i - 1]
    {
      hide Marks, MarksFrom, Walk, Replay, FeeFreeRun, Ranked, Witnessed, DistinctInputs, MainList, Books, Oldest, Flagged;
      ghost var m, cut := Marked(), 0;
      FlaggedLength(onChain, isMain, height, m, nmain);
      ghost var bound := WalkStart(dag, rank, top);
      var b := top;
      p, i := -1, 0;
      while b >= 0 && !isMain[b]
        modifies {}
        invariant -1 <= b < |dag| && Walk(dag, rank, m, b, bound, cut) && i == cut
        invariant 0 <= cut <= |m| - nmain && p == if cut == 0 then -1 else m[cut - 1]
        decreases b
      {
        WalkFlags(dag, rank, m, b, bound, cut, onChain, isMain, height, nmain);
        if onChain[b] {
          p := b;
          i := i + 1;
          bound, cut := Epoch(dag[b]), cut + 1;
        }
        b := rank[b].next;
      }
      WalkEnd(dag, rank, m, b, bound, cut, onChain, isMain, height, nmain);
    }

    /**
      `block_by_height`: finds every main block, answers null above the newest, and for height 0
      runs one step past the oldest main block.
     */
    method BlockByHeight(h: nat) returns (bi: int)
      requires Valid()
      ensures h > nmain ==> bi == -1
      ensures 1 <= h <= nmain ==> 0 <= bi < |dag| && isMain[bi] && height[bi] == h && bi == Marked()[|Marked()| - h]
      ensures h == 0 ==> bi == if nmain == 0 then top else rank[Marked()[|Marked()| - 1]].next
    {
      hide Marks, MarksFrom, Walk, Replay, FeeFreeRun, Ranked, Witnessed, DistinctInputs, MainList, Books, Flagged;
      if h > nmain {
        return -1;
      }
      ghost var m, cut := Marked(), 0;
      FlaggedLength(onChain, isMain, height, m, nmain);
      ghost var bound := WalkStart(dag, rank, top);
      bi := top;
      var i := 0;
      while bi >= 0 && i < nmain
        invariant -1 <= bi < |dag| && Walk(dag, rank, m, bi, bound, cut)
        invariant 0 <= cut <= |m| - h && i == if cut <= |m| - nmain then 0 else cut - (|m| - nmain)
        invariant i == nmain > 0 ==> bi == rank[m[|m| - 1]].next
        invariant nmain == 0 ==> bi == top
        decreases bi
      {
        WalkFlags(dag, rank, m, bi, bound, cut, onChain, isMain, height, nmain);
        if isMain[bi] {
          if h == height[bi] {
            break;
          }
          i := i + 1;
        }
        if onChain[bi] {
          bound, cut := Epoch(dag[bi]), cut + 1;
        }
        bi := rank[bi].next;
      }
      if bi < 0 {
        WalkEnd(dag, rank, m, bi, bound, cut, onChain, isMain, height, nmain);
      }
    }

    // -------------------------------------------------------------- chain selection

    /**
      Step 1 of the chain switch (client/block.c:822-832): where the chain of `b` meets the marked one.
      Below the fork height the new chain is marked on the way.
     */
    method FindAncestor(b: nat) returns (br: int, b0: int, ghost cut: nat)
      requires Shape() && b < |dag| && Gains(rank, b) && !onChain[b]
      modifies this`onChain
      ensures Shape() && -1 <= br < |dag| && (br >= 0 ==> old(onChain)[br])
      ensures 0 <= b0 < |dag| && !old(onChain)[b0] && (br >= 0 ==> Epoch(dag[br]) <= Epoch(dag[b0]))
      ensures Walk(dag, rank, MarksFrom(dag, rank, b), br, Epoch(dag[b0]), cut) && 0 < cut <= |MarksFrom(dag, rank, b)|
      ensures forall i :: 0 <= i < cut ==> !old(onChain)[MarksFrom(dag, rank, b)[i]]
      ensures onChain == if nmain < syncForkHeight then Painted(old(onChain), MarksFrom(dag, rank, b)[..cut]) else old(onChain)
    {
      hide Marks, MarksFrom, Walk, Ranked, Witnessed, Epoch, Shaped, Painted;
      ShapeFacts(dag, rank, |acc|, |onChain|, |isMain|, |height|, top, difficulty);
      ghost var mb := MarksFrom(dag, rank, b);
      ghost var bound := WalkStart(dag, rank, b);
      br, b0, cut := b, -1, 0;
      PaintNone(onChain);
      assert mb[..0] == [];
      while br >= 0 && !onChain[br]
        invariant Shape() && -1 <= br < |dag| && -1 <= b0 < |dag| && Walk(dag, rank, mb, br, bound, cut)
        invariant bound == if b0 < 0 then Epoch(dag[b]) + 1 else Epoch(dag[b0])
        invariant if b0 < 0 then br == b && cut == 0 else !old(onChain)[b0] && 0 < cut
        invariant br >= 0 ==> Epoch(dag[br]) < bound + 1
        invariant cut <= |mb| && forall i :: 0 <= i < cut ==> !old(onChain)[mb[i]]
        invariant onChain == if nmain < syncForkHeight then Painted(old(onChain), mb[..cut]) else old(onChain)
        decreases br
      {
        PaintAbove(dag, rank, mb, br, bound, cut, old(onChain));
        GreedyTest(dag, rank, mb, br, bound, cut);
        if (rank[br].next < 0 || rank[br].diff > rank[rank[br].next].diff) && (b0 < 0 || Epoch(dag[b0]) > Epoch(dag[br])) {
          WalkHere(dag, rank, mb, br, bound, cut);
          PaintNext(old(onChain), mb, cut, br);
          if nmain < syncForkHeight {
            onChain := onChain[br := true];
          }
          b0 := br;
          bound, cut := Epoch(dag[br]), cut + 1;
        }
        br := rank[br].next;
      }
      if br >= 0 {
        PaintAbove(dag, rank, mb, br, bound, cut, old(onChain));
      }
    }

    /** Step 3 of the chain switch (client/block.c:842-850): mark the new chain down to the first marked block. */
    method MarkChain(b: nat, ghost k: nat)
      requires Shape() && b < |dag| && Gains(rank, b)
      requires k <= |MarksFrom(dag, rank, b)| && Agrees(MarksFrom(dag, rank, b)[k..])
      modifies this`onChain
      ensures Shape() && Agrees(MarksFrom(dag, rank, b))
    {
      hide Marks, MarksFrom, Walk, Replay, FeeFreeRun, Ranked, Witnessed, DistinctInputs, MainList, Flagged, Oldest, IsDag, Epoch, Shaped, Spliced;
      ShapeFacts(dag, rank, |acc|, |onChain|, |isMain|, |height|, top, difficulty);
      ghost var mb := MarksFrom(dag, rank, b);
      ghost var bound := WalkStart(dag, rank, b);
      ghost var cut: nat := 0;
      FlaggedLength(onChain, isMain, height, mb[k..], nmain);
      SplicedEnds(mb, k);
      OldestSuffix(mb[..k], mb[k..], nmain);
      var br: int, b0 := b, -1;
      while br >= 0 && !onChain[br]
        invariant Shape() && |onChain| == |dag| && -1 <= br < |dag| && -1 <= b0 < |dag| && Walk(dag, rank, mb, br, bound, cut)
        invariant bound == if b0 < 0 then Epoch(dag[b]) + 1 else Epoch(dag[b0])
        invariant b0 < 0 ==> br == b
        invariant br >= 0 ==> Epoch(dag[br]) < bound + 1
        invariant cut <= k && Flagged(onChain, isMain, height, Spliced(mb, cut, k), nmain)
        decreases br
      {
        GreedyTest(dag, rank, mb, br, bound, cut);
        if (rank[br].next < 0 || rank[br].diff > rank[rank[br].next].diff) && (b0 < 0 || Epoch(dag[b0]) > Epoch(dag[br])) {
          AddMark(dag, rank, onChain, isMain, height, mb, br, bound, cut, k, nmain);
          onChain := onChain[br := true];
          b0 := br;
          bound, cut := Epoch(dag[br]), cut + 1;
        }
        br := rank[br].next;
      }
      MarkEnd(dag, rank, onChain, isMain, height, mb, br, bound, cut, k, nmain);
    }

    /**
      Making the newly indexed, heaviest block `b` the top of the main chain (client/block.c:805-857). The new
      chain ends up marked if and only if `SwitchMarks` holds.
     */
    method SwitchTo(b: nat, ghost flags: seq<Orphans.Flags>)
      requires Shape() && Agrees(Marked()) && b < |dag| && !onChain[b] && Held(flags)
      requires rank[b].diff > difficulty && forall x :: 0 <= x < |rank| && x != b ==> rank[x].diff <= difficulty
      modifies this`acc, this`onChain, this`isMain, this`nmain, this`top, this`difficulty
      ensures Shape() && Heaviest() && nmain <= old(nmain) && top == b
      ensures |dag| == |rank| && Linked(rank) && -1 <= old(top) < |rank|
      ensures Switched(dag, rank, old(top), b, old(nmain), syncForkHeight, onChain, isMain, height, nmain)
      ensures nmain <= |Marked()| && Books(Oldest(Marked(), nmain))
      ensures Valid() <==> SwitchMarks(dag, rank, old(top), b, old(nmain), syncForkHeight)
      ensures Held(flags) && Orphans.WritesReferenced(flags, old(acc), acc)
    {
      hide Held, Orphans.WritesReferenced, Shaped, IsDag, SwitchMarks, Switched;
      hide Marks, MarksFrom, Walk, Replay, FeeFreeRun, Ranked, Witnessed, DistinctInputs, MainList, Oldest, Flagged;
      ShapeFacts(dag, rank, |acc|, |onChain|, |isMain|, |height|, top, difficulty);
      GainsMost(dag, rank, b, difficulty);
      ghost var k := RollBackFor(b, flags);
      if nmain >= syncForkHeight {
        MarkChain(b, k);
        ShapeFacts(dag, rank, |acc|, |onChain|, |isMain|, |height|, top, difficulty);
        SwitchedWell(dag, rank, top, b, old(nmain), syncForkHeight, onChain, isMain, height, nmain);
        FlaggedLength(onChain, isMain, height, MarksFrom(dag, rank, b), nmain);
      }
      SwitchedMarks(dag, rank, top, b, old(nmain), syncForkHeight, onChain, isMain, height, nmain);
      NewTop(dag, rank, |acc|, |onChain|, |isMain|, |height|, top, difficulty, b);
      top := b;
      difficulty := rank[b].diff;
    }

    /**
      Steps 1 and 2 of the switch (client/block.c:821-838). If enough main blocks are left, step 3 is still to
      mark the new chain above the common tail; otherwise the marks are final.
     */
    method RollBackFor(b: nat, ghost flags: seq<Orphans.Flags>) returns (ghost k: nat)
      requires Shape() && Agrees(Marked()) && b < |dag| && !onChain[b] && Gains(rank, b) && Held(flags)
      modifies this`acc, this`onChain, this`isMain, this`nmain
      ensures Shape() && nmain <= old(nmain) && k <= |MarksFrom(dag, rank, b)|
      ensures nmain >= syncForkHeight ==>
                Agrees(MarksFrom(dag, rank, b)[k..]) && SwitchMarks(dag, rank, top, b, old(nmain), syncForkHeight)
      ensures nmain < syncForkHeight ==>
                && Switched(dag, rank, top, b, old(nmain), syncForkHeight, onChain, isMain, height, nmain)
                && nmain <= |MarksFrom(dag, rank, b)| && Books(Oldest(MarksFrom(dag, rank, b), nmain))
      ensures Held(flags) && Orphans.WritesReferenced(flags, old(acc), acc)
    {
      hide Held, Orphans.WritesReferenced, Shaped, IsDag, Epoch, Gains, Painted, Cleared, SwitchMarks, Switched;
      hide Marks, MarksFrom, Walk, Replay, FeeFreeRun, Ranked, Witnessed, DistinctInputs, MainList, Oldest, Flagged;
      ShapeFacts(dag, rank, |acc|, |onChain|, |isMain|, |height|, top, difficulty);
      ghost var base, m, n := onChain, Marked(), nmain;
      var br, b0;
      br, b0, k := FindAncestor(b);
      var stop := br;
      if br >= 0 && b0 >= 0 && br != b0 && Epoch(dag[br]) == Epoch(dag[b0]) {
        stop := rank[br].next;
      }
      if br >= 0 {
        OnlyMarked(base, isMain, height, m, nmain, br);
      }
      StopOnPath(dag, rank, top, br, stop);
      MarkedOnly(base, isMain, height, m, nmain);
      ghost var bound, cut := UnwindMain(stop, base, flags);
      TailAgrees(dag, rank, top, b, br, b0, k, stop, bound, cut);
      MarksOutcome(dag, rank, top, b, br, stop, k, cut, base, isMain, height, n, nmain, Epoch(dag[b0]), syncForkHeight);
      TailBooks(MarksFrom(dag, rank, b), k);
    }

    lemma {:induction false} TailBooks(m: seq<nat>, k: nat)
      requires IsDag(dag) && k <= |m| && nmain <= |m| - k
      ensures Books(Oldest(m, nmain)) == Books(Oldest(m[k..], nmain))
    {
      assert m[..k] + m[k..] == m;
      OldestSuffix(m[..k], m[k..], nmain);
    }

    /** Entering a ranked block into the index; a fresh block carries no flags and no money. */
    method Insert(nb: Block, r: Rank)
      requires Shape() && Agrees(Marked()) && IsDag(dag + [nb])
      requires forall i :: 0 <= i < |nb.links| ==> nb.links[i].target < |dag|
      requires BestOf(dag, rank, nb, |nb.links|, r)
      modifies this`dag, this`rank, this`acc, this`onChain, this`isMain, this`height, this`honest
      ensures dag == old(dag) + [nb] && rank == old(rank) + [r]
      ensures Shape() && Agrees(Marked()) && !onChain[|old(dag)|] && honest == (old(honest) && Distinct(nb.links))
      ensures isMain == old(isMain) + [false] && acc == old(acc) + [FRESH]
    {
      hide Marks, MarksFrom, Replay, FeeFreeRun, Ranked, Witnessed, DistinctInputs, MainList, Oldest, Flagged;
      RankedGrow(dag, rank, nb, r);
      RankWitnessed(dag, rank, nb, r);
      MarksFromGrow(dag, rank, nb, r, top);
      FlaggedGrow(onChain, isMain, height, Marked(), nmain);
      FlaggedLength(onChain, isMain, height, Marked(), nmain);
      if honest {
        ReplayGrow(testnet, dag, nb, Oldest(Marked(), nmain));
        DistinctGrow(dag, nb);
      }
      honest := honest && Distinct(nb.links);
      dag, rank, acc := dag + [nb], rank + [r], acc + [FRESH];
      onChain, isMain, height := onChain + [false], isMain + [false], height + [0];
    }

    /** Ranking, indexing and, if it is the heaviest, switching to a block (client/block.c:722-857). */
    method Index(nb: Block, ghost flags: seq<Orphans.Flags>)
      requires Held(flags) && Valid() && IsDag(dag + [nb]) && nb.work > 0
      requires forall i :: 0 <= i < |nb.links| ==> nb.links[i].target < |dag|
      modifies this
      ensures dag == old(dag) + [nb] && |rank| == |dag| && rank[..|old(dag)|] == old(rank)
      ensures BestOf(old(dag), old(rank), nb, |nb.links|, rank[|old(dag)|])
      ensures Shape() && Heaviest() && Linked(rank) && -1 <= old(top) < |rank|
      ensures top == if rank[|old(dag)|].diff > old(difficulty) then |old(dag)| else old(top)
      ensures top != old(top) ==> Switched(dag, rank, old(top), |old(dag)|, old(nmain), syncForkHeight, onChain, isMain, height, nmain)
      ensures nmain <= |Marked()| && Books(Oldest(Marked(), nmain))
      ensures Valid() <==> (top == old(top) || SwitchMarks(dag, rank, old(top), |old(dag)|, old(nmain), syncForkHeight))
      ensures nmain <= old(nmain) && honest == (old(honest) && Distinct(nb.links))
      ensures Held(flags + [Orphans.Flags(false, true)])
      ensures |acc| == |dag| && Orphans.WritesReferenced(flags, old(acc), acc[..|flags|]) && acc[|old(dag)|].ref == -1
    {
      hide Orphans.Closed, Orphans.WritesReferenced;
      hide Marks, MarksFrom, Replay, FeeFreeRun, Ranked, Witnessed, DistinctInputs, MainList, Oldest, Flagged, Books;
      var r := Weigh(dag, rank, nb);
      assert r.diff >= nb.work;
      hide BestOf;
      Orphans.Extended(dag, nb, flags, true);
      Insert(nb, r);
      FlaggedLength(onChain, isMain, height, Marked(), nmain);
      ghost var grown := flags + [Orphans.Flags(false, true)];
      Orphans.WritesNone(grown, acc);
      if r.diff > difficulty {
        SwitchTo(|dag| - 1, grown);
      }
      Orphans.WritesGrown(flags, Orphans.Flags(false, true), old(acc), FRESH, acc);
    }

    /**
      The part of `add_block_nolock` that decides about links, rank and the main chain.
      `admissible` is the verdict of the checks that only refuse a block (header, time limit,
      remark, signatures, amount sums).
     */
    method AddBlock(nb: Block, now: nat, flags: seq<Orphans.Flags>, admissible: bool) returns (outcome: Outcome)
      requires Valid() && Held(flags) && nb.work > 0
      modifies this
      ensures outcome.NotIndexed? || outcome.NotOlder? ==>
                && outcome.field < |nb.links| && dag == old(dag) && acc == old(acc) && nmain == old(nmain) && Valid()
                && (outcome.NotIndexed? <==> nb.links[outcome.field].target >= |dag|)
                && (outcome.NotOlder? ==> dag[nb.links[outcome.field].target].time >= nb.time)
                && forall j :: 0 <= j < outcome.field ==> nb.links[j].target < |dag| && dag[nb.links[j].target].time < nb.time
      ensures outcome.Added? || outcome.Refused? <==> LinksOk(old(dag), nb)
      ensures outcome.Refused? ==> !admissible && dag == old(dag) && Valid()
      ensures outcome.Added? ==>
                && admissible && dag == old(dag) + [nb] && |acc| == |dag| && acc[|old(dag)|].ref == -1 && |rank| == |dag| && rank[..|old(dag)|] == old(rank)
                && Shape() && Heaviest() && Linked(rank) && -1 <= old(top) < |rank|
                && BestOf(old(dag), old(rank), nb, |nb.links|, rank[|old(dag)|])
                && top == (if rank[|old(dag)|].diff > old(difficulty) then |old(dag)| else old(top))
                && var n := old(nmain) + if old(Due(now, flags)) then 1 else 0;
                   && nmain <= n
                   && nmain <= |Marked()| && Books(Oldest(Marked(), nmain))
                   && (top != old(top) ==>
                         Switched(dag, rank, old(top), |old(dag)|, n, syncForkHeight, onChain, isMain, height, nmain))
                   && (Valid() <==> (top == old(top) || SwitchMarks(dag, rank, old(top), |old(dag)|, n, syncForkHeight)))
      ensures honest == (&& old(honest) && (LinksOk(old(dag), nb) ==> old(Due(now, flags) ==> FeeFreeNext()))
                         && (outcome.Added? ==> Distinct(nb.links)))
      ensures Held(if outcome.Added? then flags + [Orphans.Flags(false, true)] else flags)
      ensures |acc| == (if outcome.Added? then |flags| + 1 else |flags|)
      ensures Orphans.WritesReferenced(flags, old(acc), acc[..|flags|])
    {
      hide Held, Orphans.WritesReferenced;
      hide Marks, MarksFrom, Replay, FeeFreeRun, Ranked, Witnessed, DistinctInputs, MainList, Oldest, Flagged, BestOf, Books, Agrees;
      HeldSize(flags);
      Orphans.WritesNone(flags, acc);
      assert acc[..|flags|] == acc;
      var i := 0;
      while i < |nb.links|
        modifies {}
        invariant i <= |nb.links|
        invariant forall j :: 0 <= j < i ==> nb.links[j].target < |dag| && dag[nb.links[j].target].time < nb.time
      {
        if nb.links[i].target >= |dag| {
          return NotIndexed(i);
        }
        if dag[nb.links[i].target].time >= nb.time {
          return NotOlder(i);
        }
        i := i + 1;
      }
      CheckNewMain(now, flags);
      assert acc[..|flags|] == acc;
      if !admissible {
        return Refused;
      }
      LinksOkDag(dag, nb);
      ghost var was := acc;
      Index(nb, flags);
      Orphans.WritesJoin(flags, old(acc), was, acc[..|flags|]);
      outcome := Added;
    }
  }

  /** Rewards are 64-bit amounts. */
  lemma {:induction false} RewardFits(testnet: bool, h: nat)
    ensures Reward(testnet, h) < WORD
  {
    if h > 0 {
      MintedBound(testnet, h);
      hide Shr, Reward;
    }
  }

  lemma {:induction false} FeeFreePrefix(testnet: bool, g: seq<Block>, ms: seq<nat>)
    requires IsDag(g) && MainList(g, ms) && ms != [] && FeeFreeRun(testnet, g, ms)
    ensures MainList(g, ms[..|ms| - 1]) && FeeFreeRun(testnet, g, ms[..|ms| - 1])
  {}

  lemma {:induction false} PromoteBooks(testnet: bool, g: seq<Block>, s: seq<Account>, ms: seq<nat>, ms1: seq<nat>)
    requires IsDag(g) && MainList(g, ms) && s == Replay(testnet, g, ms) && FeeFreeRun(testnet, g, ms)
    requires |ms1| == |ms| + 1 && ms1[..|ms|] == ms && MainList(g, ms1)
    requires FeeFreePromotion(g, s, ms1[|ms|], Reward(testnet, |ms| + 1))
    ensures Replay(testnet, g, ms1) == SetMain(g, s, ms1[|ms|], Reward(testnet, |ms| + 1))
    ensures FeeFreeRun(testnet, g, ms1)
  {
    hide SetMain, Reward, FeeFreePromotion;
  }

  /** The books after the next mark `p` of `m` is promoted. */
  lemma {:induction false} NextBooks(testnet: bool, g: seq<Block>, s: seq<Account>, m: seq<nat>, n: nat, p: nat)
    requires IsDag(g) && Descending(g, m) && n < |m| && p == m[|m| - 1 - n] && p < |g|
    requires MainList(g, Oldest(m, n)) && s == Replay(testnet, g, Oldest(m, n)) && FeeFreeRun(testnet, g, Oldest(m, n))
    requires FeeFreePromotion(g, s, p, Reward(testnet, n + 1))
    ensures MainList(g, Oldest(m, n + 1)) && FeeFreeRun(testnet, g, Oldest(m, n + 1))
    ensures Replay(testnet, g, Oldest(m, n + 1)) == SetMain(g, s, p, Reward(testnet, n + 1))
  {
    hide SetMain, Reward, FeeFreePromotion, Replay, FeeFreeRun;
    OldestAscending(g, m, n + 1);
    assert Oldest(m, n + 1)[..n] == Oldest(m, n);
    PromoteBooks(testnet, g, s, Oldest(m, n), Oldest(m, n + 1));
  }

  lemma {:induction false} EmptyBooks(testnet: bool, g: seq<Block>, rk: seq<Rank>, acc: seq<Account>,
                                      onChain: seq<bool>, isMain: seq<bool>, height: seq<nat>)
    requires |g| == |rk| == |acc| == |onChain| == |isMain| == |height| == 0
    ensures IsDag(g) && Ranked(g, rk) && Witnessed(g, rk) && DistinctInputs(g)
    ensures var m := MarksFrom(g, rk, -1); var ms := Oldest(m, 0);
            && Flagged(onChain, isMain, height, m, 0)
            && MainList(g, ms) && Replay(testnet, g, ms) == acc && FeeFreeRun(testnet, g, ms)
  {}

  lemma {:induction false} WrapOnce(a: Amount, v: int)
    ensures Wrap(a + Wrap(v)) == Wrap(a + v)
  {
    CongWrap(v);
    CongWrap(a + Wrap(v));
    CongAdd(Wrap(a + Wrap(v)), a + Wrap(v), Wrap(v), v, Wrap(a + Wrap(v)), a + v);
    WrapIs(Wrap(a + Wrap(v)), a + v);
  }

  /** Crediting an amount that was first reduced to 64 bits is crediting the amount. */
  lemma {:induction false} AcceptWrapped(s: seq<Account>, t: nat, v: int)
    requires t < |s|
    ensures Accept(s, t, Wrap(v)) == Accept(s, t, v)
  {
    WrapOnce(s[t].amount, v);
  }

  lemma {:induction false} ReturnedStep(links: seq<Link>, i: nat)
    requires i < |links|
    ensures Returned(links[..i + 1]) == Returned(links[..i]) + Credit(links[i], false)
  {
    assert links[..i + 1][..i] == links[..i];
  }

  lemma {:induction false} WrapAdd(a: int, v: int)
    ensures Wrap(Wrap(a) + v) == Wrap(a + v)
  {
    CongWrap(a);
    CongWrap(Wrap(a) + v);
    CongAdd(Wrap(Wrap(a) + v), Wrap(a) + v, Wrap(a), a, Wrap(Wrap(a) + v), a + v);
    WrapIs(Wrap(Wrap(a) + v), a + v);
  }
}
