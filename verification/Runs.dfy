/**
 * Whole runs of the money side of the main chain: blocks are indexed, main blocks
 * promoted and rolled back in any order (client/block.c:346-403).
 */
module Runs {
  import opened Ledger
  import opened Conservation
  import opened Supply
  import opened MainBlocks
  import opened History

  datatype Move = Index(block: Block) | Promote(main: nat) | Demote

  /** Blocks, accounts, and the main blocks from the oldest to the newest. */
  datatype Books = Books(g: seq<Block>, s: seq<Account>, ms: seq<nat>)

  ghost predicate Allowed(testnet: bool, k: Books, mv: Move) {
    && IsDag(k.g) && |k.s| == |k.g|
    && match mv
       case Index(nb) => IsDag(k.g + [nb]) && Distinct(nb.links)
       case Promote(m) => MainList(k.g, k.ms + [m]) && m < |k.g| && FeeFreePromotion(k.g, k.s, m, Reward(testnet, |k.ms| + 1))
       case Demote => k.ms != [] && k.ms[|k.ms| - 1] < |k.g|
  }

  ghost function Moved(testnet: bool, k: Books, mv: Move): Books
    requires Allowed(testnet, k, mv)
  {
    match mv
    case Index(nb) => Books(k.g + [nb], k.s + [FRESH], k.ms)
    case Promote(m) => Books(k.g, SetMain(k.g, k.s, m, Reward(testnet, |k.ms| + 1)), k.ms + [m])
    case Demote =>
      var n := |k.ms| - 1;
      Books(k.g, UnsetMain(k.g, k.s, k.ms[n], Reward(testnet, n + 1)), k.ms[..n])
  }

  /** The accounts are what the main blocks alone determine. */
  ghost predicate Kept(testnet: bool, k: Books) {
    && IsDag(k.g) && DistinctInputs(k.g) && MainList(k.g, k.ms)
    && k.s == Replay(testnet, k.g, k.ms) && FeeFreeRun(testnet, k.g, k.ms)
  }

  lemma {:induction false} MoveKeeps(testnet: bool, k: Books, mv: Move)
    requires Kept(testnet, k) && Allowed(testnet, k, mv)
    ensures Kept(testnet, Moved(testnet, k, mv))
  {
    hide Replay, SetMain, UnsetMain, FeeFreeRun, FeeFreePromotion, Reward, Distinct;
    match mv
    case Index(nb) =>
      ReplayGrow(testnet, k.g, nb, k.ms);
      InputsGrow(k.g, nb);
    case Promote(m) =>
      PromoteKeeps(testnet, k, m);
    case Demote =>
      var n := |k.ms| - 1;
      RollBack(testnet, k.g, k.ms);
      LastMain(testnet, k.g, k.ms);
  }

  lemma {:induction false} InputsGrow(g: seq<Block>, nb: Block)
    requires DistinctInputs(g) && Distinct(nb.links)
    ensures DistinctInputs(g + [nb])
  {}

  lemma {:induction false} PromoteKeeps(testnet: bool, k: Books, m: nat)
    requires Kept(testnet, k) && Allowed(testnet, k, Promote(m))
    ensures Kept(testnet, Moved(testnet, k, Promote(m)))
  {
    hide SetMain, FeeFreePromotion, Reward;
    assert (k.ms + [m])[..|k.ms|] == k.ms;
  }

  ghost predicate CanRun(testnet: bool, k: Books, mvs: seq<Move>)
    decreases |mvs|
  {
    mvs == [] || (Allowed(testnet, k, mvs[0]) && CanRun(testnet, Moved(testnet, k, mvs[0]), mvs[1..]))
  }

  ghost function Ran(testnet: bool, k: Books, mvs: seq<Move>): Books
    requires CanRun(testnet, k, mvs)
    decreases |mvs|
  {
    if mvs == [] then k else Ran(testnet, Moved(testnet, k, mvs[0]), mvs[1..])
  }

  lemma {:induction false} RunKeeps(testnet: bool, k: Books, mvs: seq<Move>)
    requires Kept(testnet, k) && CanRun(testnet, k, mvs)
    ensures Kept(testnet, Ran(testnet, k, mvs)) && k.g <= Ran(testnet, k, mvs).g
    decreases |mvs|
  {
    hide Kept;
    if mvs != [] {
      MoveKeeps(testnet, k, mvs[0]);
      RunKeeps(testnet, Moved(testnet, k, mvs[0]), mvs[1..]);
    }
  }

  /** Blocks indexed later do not change the replay of the main blocks. */
  lemma {:induction false} ReplayExtends(testnet: bool, g: seq<Block>, g1: seq<Block>, ms: seq<nat>)
    requires g <= g1 && IsDag(g1) && IsDag(g) && MainList(g, ms)
    ensures MainList(g1, ms)
    ensures forall x :: 0 <= x < |g1| ==> Replay(testnet, g1, ms)[x] == if x < |g| then Replay(testnet, g, ms)[x] else FRESH
    decreases |g1|
  {
    hide Replay;
    if |g1| > |g| {
      var n := |g1| - 1;
      var h := g1[..n];
      assert g1 == h + [g1[n]];
      PrefixDag(g1, n);
      ReplayExtends(testnet, g, h, ms);
      ReplayGrow(testnet, h, g1[n], ms);
    } else {
      assert g1 == g;
    }
  }

  lemma {:induction false} PrefixDag(g: seq<Block>, n: nat)
    requires IsDag(g) && n <= |g|
    ensures IsDag(g[..n])
  {
    forall b, i | 0 <= b < n && 0 <= i < |g[..n][b].links|
      ensures g[..n][b].links[i].target < b && g[..n][g[..n][b].links[i].target].time < g[..n][b].time
    {
      assert g[..n][b] == g[b];
    }
  }

  /**
   * Whatever was indexed, promoted and rolled back in between: when the main blocks are
   * again the same, every amount, flag and adopter is what it was, and blocks indexed
   * since then are untouched.
   */
  lemma {:induction false} RunRestores(testnet: bool, k: Books, mvs: seq<Move>)
    requires Kept(testnet, k) && CanRun(testnet, k, mvs) && Ran(testnet, k, mvs).ms == k.ms
    ensures var e := Ran(testnet, k, mvs);
      |e.s| == |e.g| >= |k.g| == |k.s| && forall x :: 0 <= x < |e.s| ==> e.s[x] == if x < |k.s| then k.s[x] else FRESH
  {
    hide Ran, Replay, FeeFreeRun;
    RunKeeps(testnet, k, mvs);
    ReplayExtends(testnet, k.g, Ran(testnet, k, mvs).g, k.ms);
  }

  /** In every run the money in all accounts is exactly what the main blocks minted. */
  lemma {:induction false} RunConserves(testnet: bool, k: Books, mvs: seq<Move>)
    requires Kept(testnet, k) && CanRun(testnet, k, mvs)
    ensures var e := Ran(testnet, k, mvs); Total(e.s) == Minted(testnet, |e.ms|)
  {
    hide Ran, Replay, FeeFreeRun, Minted, Total;
    RunKeeps(testnet, k, mvs);
    var e := Ran(testnet, k, mvs);
    ReplaySound(testnet, e.g, e.ms);
  }
}
