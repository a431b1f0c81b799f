/**
 * Two runs in which a chain switch leaves marks that are not those of the new chain (client/block.c:821-852):
 * below the fork height a mark set ahead of the roll-back is cleared by it, and a roll-back from above the
 * fork height to below it leaves the new chain unmarked.
 */
module ForkHeight {
  import opened Ledger
  import opened Conservation
  import opened Chain
  import opened Difficulty
  import opened Node
  import Orphans

  const ROOT := Block(0, 0, [], 1)

  /** A heavier block of the same epoch on top of the first. */
  const RIVAL := Block(1, 0, [Link(0, 0, false)], 5)

  /** A block of the next epoch on top of the first, heavier than the rival. */
  const NEXT := Block(0x1_0000, 0, [Link(0, 0, false)], 10)

  /** A heavy block without links. */
  const LONE := Block(2, 0, [], 100)

  const NEW := Orphans.Flags(false, true)

  lemma {:induction false} RootRank(r: Rank)
    requires BestOf([], [], ROOT, 0, r)
    ensures r == Rank(1, -1)
  {}

  lemma {:induction false} RivalRank(g: seq<Block>, rk: seq<Rank>, r: Rank)
    requires g == [ROOT] && rk == [Rank(1, -1)] && BestOf(g, rk, RIVAL, 1, r)
    ensures r == Rank(5, 0)
  {
    assert Skip(g, rk, 0, Epoch(RIVAL)) == -1;
    assert Via(g, rk, Epoch(RIVAL), 5, 0) == 1;
  }

  lemma {:induction false} NextRank(g: seq<Block>, rk: seq<Rank>, r: Rank)
    requires |g| == |rk| > 0 && Linked(rk) && g[0] == ROOT && rk[0] == Rank(1, -1) && BestOf(g, rk, NEXT, 1, r)
    ensures r == Rank(11, 0)
  {
    assert Via(g, rk, Epoch(NEXT), 10, 0) == 11;
    assert NEXT.links[0].target == 0;
  }

  lemma {:induction false} LoneRank(g: seq<Block>, rk: seq<Rank>, r: Rank)
    requires |g| == |rk| && Linked(rk) && BestOf(g, rk, LONE, 0, r)
    ensures r == Rank(100, -1)
  {}

  /** Nothing is lost by the first block, nor by one that is marked above the old path. */
  lemma {:induction false} NothingLost(g: seq<Block>, rk: seq<Rank>, top: int, b: nat, fork: nat)
    requires |g| == |rk| && Linked(rk) && -1 <= top < b < |rk| && MarksFrom(g, rk, b) == [b] && fork > 0
    ensures SwitchMarks(g, rk, top, b, 0, fork)
  {
    if OnPath(rk, top, b) {
      OnPathBelow(rk, top, b);
    }
  }

  lemma {:induction false} RootMarks(g: seq<Block>, rk: seq<Rank>)
    requires |g| == |rk| > 0 && Linked(rk) && g[0] == ROOT && rk[0] == Rank(1, -1)
    ensures MarksFrom(g, rk, 0) == [0]
  {
    assert Gains(rk, 0);
    assert Marks(g, rk, -1, 0) == [];
  }

  lemma {:induction false} RivalMarks(g: seq<Block>, rk: seq<Rank>)
    requires |g| == |rk| >= 2 && Linked(rk) && g[..2] == [ROOT, RIVAL] && rk[..2] == [Rank(1, -1), Rank(5, 0)]
    ensures MarksFrom(g, rk, 1) == [1] && OnPath(rk, 1, 0)
  {
    assert g[0] == g[..2][0] && g[1] == g[..2][1] && rk[0] == rk[..2][0] && rk[1] == rk[..2][1];
    assert Gains(rk, 1);
    assert Marks(g, rk, -1, 0) == [];
    assert Marks(g, rk, 0, 0) == [];
  }

  lemma {:induction false} NextMarks(g: seq<Block>, rk: seq<Rank>, b: nat)
    requires |g| == |rk| && Linked(rk) && 0 < b < |g| && g[0] == ROOT && rk[0] == Rank(1, -1)
    requires g[b] == NEXT && rk[b] == Rank(11, 0)
    ensures MarksFrom(g, rk, b) == [b, 0]
  {
    assert Epoch(NEXT) == 1 && Epoch(ROOT) == 0;
    assert Gains(rk, b) && Gains(rk, 0);
    assert Marks(g, rk, -1, 0) == [];
    assert Marks(g, rk, 0, 1) == [0];
  }

  /** At time 0 nothing can be promoted. */
  lemma {:induction false} TooEarly(c: MainChain, flags: seq<Orphans.Flags>)
    requires c.Valid() && c.Held(flags)
    ensures |flags| == |c.dag| && !c.Due(0, flags)
  {
    hide MarksFrom, MainChain.Agrees, MainChain.Heaviest, Orphans.Closed;
  }

  method AddRoot(c: MainChain)
    requires c.Valid() && c.Held([]) && c.dag == [] && c.rank == [] && c.top == -1 && c.difficulty == 0
    requires c.nmain == 0 && c.syncForkHeight > 0
    modifies c
    ensures c.Valid() && c.Held([NEW]) && c.dag == [ROOT] && c.rank == [Rank(1, -1)] && c.top == 0 && c.nmain == 0
  {
    hide BestOf, MarksFrom, Loses, OnPath, MainChain.Agrees, MainChain.Heaviest, Orphans.Closed, Orphans.WritesReferenced, IsDag, Ranked, Witnessed, Switched;
    hide MainChain.Due, MainChain.FeeFreeNext, MainChain.Books, MainChain.Held, SwitchMarks, Linked, Distinct;
    TooEarly(c, []);
    var o := c.AddBlock(ROOT, 0, [], true);
    assert [] + [NEW] == [NEW];
    RootRank(c.rank[0]);
    RootMarks(c.dag, c.rank);
    NothingLost(c.dag, c.rank, -1, 0, c.syncForkHeight);
  }

  method AddRival(c: MainChain)
    requires c.Valid() && c.Held([NEW]) && c.dag == [ROOT] && c.rank == [Rank(1, -1)] && c.top == 0
    requires c.nmain == 0 && c.syncForkHeight > 0
    modifies c
    ensures c.Valid() && c.Held([NEW, NEW]) && c.dag == [ROOT, RIVAL] && c.rank == [Rank(1, -1), Rank(5, 0)] && c.top == 1
    ensures c.nmain == 0
  {
    hide BestOf, MarksFrom, Loses, OnPath, MainChain.Agrees, MainChain.Heaviest, Orphans.Closed, Orphans.WritesReferenced, IsDag, Ranked, Witnessed, Switched;
    hide MainChain.Due, MainChain.FeeFreeNext, MainChain.Books, MainChain.Held, SwitchMarks, Linked, Distinct;
    TooEarly(c, [NEW]);
    var o := c.AddBlock(RIVAL, 0, [NEW], true);
    assert [NEW] + [NEW] == [NEW, NEW];
    RivalRank([ROOT], [Rank(1, -1)], c.rank[1]);
    assert c.rank == c.rank[..1] + [c.rank[1]];
    RivalMarks(c.dag, c.rank);
    NothingLost(c.dag, c.rank, 0, 1, c.syncForkHeight);
  }

  /** Below the fork height: the first block is marked for the new chain and then cleared with the old one. */
  method MarkIsLost(testnet: bool, fork: nat) returns (c: MainChain)
    requires fork > 0
    ensures c.dag == [ROOT, RIVAL, NEXT] && c.top == 2 && c.Shape() && c.Heaviest() && c.Marked() == [2, 0]
    ensures c.onChain == [false, false, true]
  {
    hide BestOf, MarksFrom, Loses, OnPath, MainChain.Agrees, MainChain.Heaviest, Orphans.Closed, Orphans.WritesReferenced, IsDag, Ranked, Witnessed, Switched;
    hide MainChain.Due, MainChain.FeeFreeNext, MainChain.Books, MainChain.Held, SwitchMarks, Linked, Distinct;
    c := new MainChain(testnet, fork);
    AddRoot(c);
    AddRival(c);
    TooEarly(c, [NEW, NEW]);
    var o := c.AddBlock(NEXT, 0, [NEW, NEW], true);
    NextRank([ROOT, RIVAL], [Rank(1, -1), Rank(5, 0)], c.rank[2]);
    assert c.rank == c.rank[..2] + [c.rank[2]];
    RivalMarks(c.dag, c.rank);
    NextMarks(c.dag, c.rank, 2);
    ZeroIsLost(c.dag, c.rank, fork, c.onChain, c.isMain, c.height, c.nmain);
  }

  lemma {:induction false} ZeroIsLost(g: seq<Block>, rk: seq<Rank>, fork: nat, onChain: seq<bool>, isMain: seq<bool>, height: seq<nat>, n: nat)
    requires |g| == |rk| == 3 && Linked(rk) && MarksFrom(g, rk, 2) == [2, 0] && MarksFrom(g, rk, 1) == [1] && OnPath(rk, 1, 0)
    requires fork > 0 && Switched(g, rk, 1, 2, 0, fork, onChain, isMain, height, n)
    ensures onChain == [false, false, true]
  {
    hide MarksFrom, Flagged, OnPath;
    assert 0 in MarksFrom(g, rk, 2);
    if OnPath(rk, 1, 2) {
      OnPathBelow(rk, 1, 2);
    }
    assert forall x :: 0 <= x < 3 ==> (onChain[x] <==> MarkStays(g, rk, 1, 2, 0, fork, x));
    assert !onChain[0] && !onChain[1] && onChain[2];
  }

  method AddNext(c: MainChain)
    requires c.Valid() && c.Held([NEW]) && c.dag == [ROOT] && c.rank == [Rank(1, -1)] && c.top == 0
    requires c.nmain == 0 && c.syncForkHeight > 0
    modifies c
    ensures c.Valid() && c.Held([NEW, NEW]) && c.dag == [ROOT, NEXT] && c.rank == [Rank(1, -1), Rank(11, 0)] && c.top == 1
    ensures c.nmain == 0
  {
    hide BestOf, MarksFrom, Loses, OnPath, MainChain.Agrees, MainChain.Heaviest, Orphans.Closed, Orphans.WritesReferenced, IsDag, Ranked, Witnessed, Switched;
    hide MainChain.Due, MainChain.FeeFreeNext, MainChain.Books, MainChain.Held, SwitchMarks, Linked, Distinct;
    TooEarly(c, [NEW]);
    var o := c.AddBlock(NEXT, 0, [NEW], true);
    assert [NEW] + [NEW] == [NEW, NEW];
    NextRank([ROOT], [Rank(1, -1)], c.rank[1]);
    assert c.rank == c.rank[..1] + [c.rank[1]];
    RootMarks(c.dag, c.rank);
    NextMarks(c.dag, c.rank, 1);
    RootStays(c.dag, c.rank, c.syncForkHeight);
  }

  lemma {:induction false} RootStays(g: seq<Block>, rk: seq<Rank>, fork: nat)
    requires |g| == |rk| > 1 && Linked(rk) && MarksFrom(g, rk, 1) == [1, 0] && MarksFrom(g, rk, 0) == [0] && fork > 0
    ensures SwitchMarks(g, rk, 0, 1, 0, fork)
  {
    if OnPath(rk, 0, 1) {
      OnPathBelow(rk, 0, 1);
    }
  }

  lemma {:induction false} LoneMarks(g: seq<Block>, rk: seq<Rank>)
    requires |g| == |rk| == 3 && Linked(rk) && g[2] == LONE && rk[2] == Rank(100, -1)
    ensures MarksFrom(g, rk, 2) == [2]
  {
    assert Gains(rk, 2);
    assert Marks(g, rk, -1, 0) == [];
  }

  lemma {:induction false} RootReferenced(c: MainChain)
    requires c.Held([NEW, NEW]) && c.dag == [ROOT, NEXT]
    ensures c.Held([Orphans.Flags(true, false), NEW])
  {
    assert [NEW, NEW][0] == [NEW, NEW][1] == NEW;
  }

  lemma {:induction false} RootIsDue(c: MainChain)
    requires c.Shape() && c.dag == [ROOT, NEXT] && c.Marked() == [1, 0] && c.nmain == 0
    ensures c.Due(2048, [Orphans.Flags(true, false), NEW])
  {
    assert c.Marked()[1] == 0;
  }

  lemma {:induction false} NothingShared(g: seq<Block>, rk: seq<Rank>)
    requires |g| == |rk| && Linked(rk) && g == [ROOT, NEXT, LONE] && rk == [Rank(1, -1), Rank(11, 0), Rank(100, -1)]
    ensures MarksFrom(g, rk, 2) == [2] && MarksFrom(g, rk, 1) == [1, 0] && !SwitchMarks(g, rk, 1, 2, 1, 1)
  {
    hide MarksFrom;
    NextMarks(g, rk, 1);
    LoneMarks(g, rk);
    assert [1, 0][1..] == [0] && [2][0..] == [2];
    assert [0][0] != [2][0];
  }

  /**
    At the fork height: the first block has become main when a heavier block without links arrives. The roll-back
    demotes it, the third step is skipped, and not even the new top is marked.
   */
  method ChainIsUnmarked(testnet: bool) returns (c: MainChain)
    ensures c.dag == [ROOT, NEXT, LONE] && c.top == 2 && c.Shape() && c.Heaviest() && c.Marked() == [2]
    ensures c.onChain == [false, false, false]
  {
    hide BestOf, MarksFrom, Loses, OnPath, MainChain.Agrees, MainChain.Heaviest, Orphans.Closed, Orphans.WritesReferenced, IsDag, Ranked, Witnessed, Switched;
    hide MainChain.Due, MainChain.FeeFreeNext, MainChain.Books, MainChain.Held, SwitchMarks, Linked, Distinct;
    c := new MainChain(testnet, 1);
    AddRoot(c);
    AddNext(c);
    RootReferenced(c);
    NextMarks(c.dag, c.rank, 1);
    RootIsDue(c);
    var o := c.AddBlock(LONE, 2048, [Orphans.Flags(true, false), NEW], true);
    LoneRank([ROOT, NEXT], [Rank(1, -1), Rank(11, 0)], c.rank[2]);
    assert c.rank == c.rank[..2] + [c.rank[2]];
    NothingShared(c.dag, c.rank);
    NothingMarked(c.dag, c.rank, c.onChain, c.isMain, c.height, c.nmain);
  }

  lemma {:induction false} NothingMarked(g: seq<Block>, rk: seq<Rank>, onChain: seq<bool>, isMain: seq<bool>, height: seq<nat>, n: nat)
    requires |g| == |rk| == 3 && Linked(rk) && MarksFrom(g, rk, 2) == [2] && MarksFrom(g, rk, 1) == [1, 0]
    requires !SwitchMarks(g, rk, 1, 2, 1, 1) && Switched(g, rk, 1, 2, 1, 1, onChain, isMain, height, n)
    ensures onChain == [false, false, false]
  {
    hide MarksFrom, Flagged, OnPath, SwitchMarks;
    assert forall x :: 0 <= x < 3 ==> (onChain[x] <==> MarkStays(g, rk, 1, 2, 1, 1, x));
    assert !onChain[0] && !onChain[1] && !onChain[2];
  }
}
