/**
  Where the money is: after any list of main blocks every balance is the rewards of the account, what
  applied blocks moved, and the fees of the blocks it adopted (client/block.c:208-265 and 346-363).
 */
module Flows {
  import opened Common
  import opened Ledger
  import opened Undo
  import opened Conservation
  import opened Supply
  import opened MainBlocks
  import opened History

  /** What the outputs among `links` pay to `x`. */
  function Received(links: seq<Link>, x: nat): (t: nat) {
    if links == [] then 0
    else
      var l := links[|links| - 1];
      Received(links[..|links| - 1], x) + if !l.isInput && l.target == x then l.amount else 0
  }

  /** What the inputs among `links` draw from `x`. */
  function Drawn(links: seq<Link>, x: nat): (t: nat) {
    if links == [] then 0
    else
      var l := links[|links| - 1];
      Drawn(links[..|links| - 1], x) + if l.isInput && l.target == x then l.amount else 0
  }

  /** What block `y`, once applied, brings account `x`. The block itself keeps its inputs less its outputs and its fee. */
  function Brings(g: seq<Block>, x: nat, y: nat): int
    requires y < |g|
  {
    var links := g[y].links;
    Received(links, x) - Drawn(links, x) + if x == y then Ins(links) - Outs(links) - g[y].fee else 0
  }

  /** What `x` has from block `y`, which became referenced between `s` and `s1`: nothing if it was rejected. */
  ghost function Share(g: seq<Block>, s: seq<Account>, s1: seq<Account>, x: nat, y: nat): int
    requires |g| == |s| == |s1| && y < |g|
  {
    if New(s, s1, y) && s1[y].applied then Brings(g, x, y) + if s1[y].ref == x then g[y].fee else 0 else 0
  }

  ghost function Flow(g: seq<Block>, s: seq<Account>, s1: seq<Account>, x: nat, n: nat): int
    requires |g| == |s| == |s1| && n <= |g|
  {
    if n == 0 then 0 else Flow(g, s, s1, x, n - 1) + Share(g, s, s1, x, n - 1)
  }

  // ------------------------------------------------------------------ sums over blocks

  lemma {:induction false} FlowSame(g: seq<Block>, s: seq<Account>, s1: seq<Account>, t: seq<Account>, t1: seq<Account>, x: nat, n: nat)
    requires |g| == |s| == |s1| == |t| == |t1| && n <= |g|
    requires forall y :: 0 <= y < n ==> Share(g, s, s1, x, y) == Share(g, t, t1, x, y)
    ensures Flow(g, s, s1, x, n) == Flow(g, t, t1, x, n)
  {
    if n > 0 {
      FlowSame(g, s, s1, t, t1, x, n - 1);
    }
  }

  lemma {:induction false} FlowNothing(g: seq<Block>, s: seq<Account>, s1: seq<Account>, x: nat, n: nat)
    requires |g| == |s| == |s1| && n <= |g| && forall y :: !New(s, s1, y)
    ensures Flow(g, s, s1, x, n) == 0
  {
    if n > 0 {
      FlowNothing(g, s, s1, x, n - 1);
    }
  }

  lemma {:induction false} FlowJoin(g: seq<Block>, s: seq<Account>, s1: seq<Account>, s2: seq<Account>, x: nat, n: nat)
    requires Extends(s, s1) && Extends(s1, s2) && |s| == |g| && n <= |g|
    ensures Flow(g, s, s2, x, n) == Flow(g, s, s1, x, n) + Flow(g, s1, s2, x, n)
  {
    if n > 0 {
      FlowJoin(g, s, s1, s2, x, n - 1);
    }
  }

  /** Two sums that differ in the share of one block. */
  lemma {:induction false} FlowBut(g: seq<Block>, s: seq<Account>, s1: seq<Account>, t: seq<Account>, t1: seq<Account>, x: nat, n: nat, b: nat)
    requires |g| == |s| == |s1| == |t| == |t1| && n <= |g| && b < |g|
    requires forall y :: 0 <= y < n && y != b ==> Share(g, s, s1, x, y) == Share(g, t, t1, x, y)
    ensures Flow(g, s, s1, x, n) - Flow(g, t, t1, x, n) == if b < n then Share(g, s, s1, x, b) - Share(g, t, t1, x, b) else 0
  {
    if n > 0 {
      FlowBut(g, s, s1, t, t1, x, n - 1, b);
    }
  }

  // ------------------------------------------------------------------ one block

  lemma {:induction false} MovedIs(links: seq<Link>, x: nat)
    ensures Moved(links, x, false) == Received(links, x) - Drawn(links, x)
  {
    if links != [] {
      MovedIs(links[..|links| - 1], x);
    }
  }

  lemma {:induction false} ReturnedIs(links: seq<Link>)
    ensures Returned(links) == Outs(links) - Ins(links)
  {
    if links != [] {
      ReturnedIs(links[..|links| - 1]);
    }
  }

  /** The transfer loop of an accepted block in a solvent ledger wraps nowhere. */
  lemma {:induction false} MoveExact(g: seq<Block>, s: seq<Account>, b: nat, n: nat, x: nat)
    requires Accounts(g, s) && b < |g| && Distinct(g[b].links) && Total(s) < HALF && Check(g, s, b).Sums? && n <= |g[b].links| && x < |g|
    ensures Move(g, s, b, n, false)[x].amount == s[x].amount + Moved(g[b].links[..n], x, false)
  {
    hide Check, Total;
    if n > 0 {
      MoveExact(g, s, b, n - 1, x);
      DrawnIsCovered(g, s, b, n - 1);
      assert g[b].links[..n][..n - 1] == g[b].links[..n - 1];
    }
  }

  lemma {:induction false} SettleExact(g: seq<Block>, s: seq<Account>, b: nat, x: nat)
    requires Accounts(g, s) && b < |g| && Distinct(g[b].links) && Total(s) < HALF && x < |g|
    ensures Settle(g, s, b).0[x].amount == s[x].amount + if Check(g, s, b).Sums? then Brings(g, x, b) else 0
  {
    hide Total, Move, Returned, Outs, Ins, Moved, Received, Drawn;
    if Check(g, s, b).Sums? {
      var n := |g[b].links|;
      var m := Move(g, s, b, n, false);
      assert g[b].links[..n] == g[b].links;
      MoveExact(g, s, b, n, x);
      MovedIs(g[b].links, x);
      MoveKeepsFlags(g, s, b, n, false);
      assert m[b] == s[b];
      AcceptedWhen(g, s, b);
      SettledIs(g, s, b);
    }
  }

  // ------------------------------------------------------------------ apply_block

  /** The balances after `apply_block`, from which blocks were applied and by whom they were adopted. */
  lemma {:induction false} ApplyFlow(g: seq<Block>, s: seq<Account>, b: nat, x: nat)
    requires Accounts(g, s) && b < |g| && x < |g| && Clean(s) && !s[b].mainRef && DistinctInputs(g) && Total(s) < HALF
    ensures var s1 := Apply(g, s, b).0; s1[x].amount == s[x].amount + Flow(g, s, s1, x, |g|)
    decreases b, 1, 0
  {
    var s0 := s[b := s[b].(mainRef := true)];
    var s2 := ApplyLinks(g, s0, b, 0);
    var s1 := Settle(g, s2, b).0;
    TotalUpdate(s, b, s0[b]);
    assert s1 == Apply(g, s, b).0;
    ApplyLinksFrame(g, s0, b, 0);
    ApplyLinksTotal(g, s0, b, 0);
    ApplyLinksFlow(g, s0, b, 0, x);
    SettleFrame(g, s2, b);
    SettleExact(g, s2, b, x);
    NewInside(g, s, b);
    hide Settle, Apply, ApplyLinks, Total, Brings;
    forall y | 0 <= y < |g| && y != b ensures Share(g, s, s1, x, y) == Share(g, s0, s2, x, y) {
      assert New(s, s1, y) <==> New(s0, s2, y);
    }
    FlowBut(g, s, s1, s0, s2, x, |g|, b);
    assert s1[b].ref == s2[b].ref == s0[b].ref == -1;
  }

  lemma {:induction false} VisitLinkFlow(g: seq<Block>, s: seq<Account>, b: nat, i: nat, x: nat)
    requires Accounts(g, s) && b < |g| && i < |g[b].links| && x < |g| && Clean(s) && s[b].mainRef && DistinctInputs(g) && Total(s) < HALF
    ensures var s1 := VisitLink(g, s, b, i); s1[x].amount == s[x].amount + Flow(g, s, s1, x, |g|)
    decreases b, 0, 0
  {
    var t := g[b].links[i].target;
    var (sa, r) := Apply(g, s, t);
    var s1 := VisitLink(g, s, b, i);
    assert s1 == if r == ALREADY then sa else Adopt(sa, b, t, r);
    if s[t].mainRef {
      FlowNothing(g, s, s1, x, |g|);
    } else {
      ApplyFrame(g, s, t);
      ApplyTotal(g, s, t);
      ApplyResult(g, s, t);
      ApplyRefs(g, s, t);
      TotalUpdate(sa, b, sa[b]);
      ApplyFlow(g, s, t, x);
      hide Apply, VisitLink, Total, Brings;
      AdoptFlow(g, s, sa, s1, b, t, r, x);
    }
  }

  /** Adopting `t` hands its fee to `b`. */
  lemma {:induction false} AdoptFlow(g: seq<Block>, s: seq<Account>, sa: seq<Account>, s1: seq<Account>, b: nat, t: nat, r: Amount, x: nat)
    requires |g| == |s| == |sa| && b < |g| && t < |g| && x < |g| && b != t && New(s, sa, t) && sa[t].ref == -1
    requires s1 == Adopt(sa, b, t, r) && sa[b].amount + r < WORD && r == if sa[t].applied then g[t].fee else 0
    requires sa[x].amount == s[x].amount + Flow(g, s, sa, x, |g|)
    ensures s1[x].amount == s[x].amount + Flow(g, s, s1, x, |g|)
  {
    hide Brings;
    forall y | 0 <= y < |g| && y != t ensures Share(g, s, s1, x, y) == Share(g, s, sa, x, y) {
      assert New(s, s1, y) <==> New(s, sa, y);
    }
    assert New(s, s1, t);
    FlowBut(g, s, s1, s, sa, x, |g|, t);
  }

  lemma {:induction false} ApplyLinksFlow(g: seq<Block>, s: seq<Account>, b: nat, i: nat, x: nat)
    requires Accounts(g, s) && b < |g| && i <= |g[b].links| && x < |g| && Clean(s) && s[b].mainRef && DistinctInputs(g) && Total(s) < HALF
    ensures var s1 := ApplyLinks(g, s, b, i); s1[x].amount == s[x].amount + Flow(g, s, s1, x, |g|)
    decreases b, 0, 1 + |g[b].links| - i
  {
    if i == |g[b].links| {
      FlowNothing(g, s, s, x, |g|);
    } else {
      var s1 := VisitLink(g, s, b, i);
      VisitLinkFrame(g, s, b, i);
      ApplyLinksFrame(g, s1, b, i + 1);
      CleanExtends(s, s1);
      VisitLinkTotal(g, s, b, i);
      VisitLinkFlow(g, s, b, i, x);
      ApplyLinksFlow(g, s1, b, i + 1, x);
      FlowJoin(g, s, s1, ApplyLinks(g, s1, b, i + 1), x, |g|);
    }
  }

  // ------------------------------------------------------------------ main blocks

  /** The rewards that `x` got as a main block. */
  function RewardsOf(testnet: bool, ms: seq<nat>, x: nat): nat {
    if ms == [] then 0 else RewardsOf(testnet, ms[..|ms| - 1], x) + if ms[|ms| - 1] == x then Reward(testnet, |ms|) else 0
  }

  lemma {:induction false} PromoteFlow(g: seq<Block>, s: seq<Account>, m: nat, reward: nat, x: nat)
    requires Accounts(g, s) && m < |g| && x < |g| && Clean(s) && !s[m].mainRef && DistinctInputs(g)
    requires s[m].amount + reward < WORD && Total(s) + reward < HALF
    ensures var s3 := SetMain(g, s, m, reward);
            && Extends(s, s3) && s3[x].amount == s[x].amount + (if x == m then reward else 0) + Flow(g, s, s3, x, |g|)
  {
    hide Apply, Total, Brings, Flow, DistinctInputs;
    var s0 := Accept(s, m, reward);
    TotalUpdate(s, m, s0[m]);
    var (s1, r) := Apply(g, s0, m);
    ApplyFrame(g, s0, m);
    ApplyResult(g, s0, m);
    ApplyRefs(g, s0, m);
    ApplyTotal(g, s0, m);
    TotalUpdate(s1, m, s1[m]);
    ApplyFlow(g, s0, m, x);
    var s3 := SetMain(g, s, m, reward);
    assert s3 == s1[m := s1[m].(ref := m, amount := s1[m].amount + r)];
    forall y | 0 <= y < |g| && y != m ensures Share(g, s, s3, x, y) == Share(g, s0, s1, x, y) {
      assert New(s, s3, y) <==> New(s0, s1, y);
    }
    assert New(s, s3, m) && New(s0, s1, m);
    FlowBut(g, s, s3, s0, s1, x, |g|, m);
  }

  /**
    Every balance after any list of main blocks: the rewards of the account, what the applied blocks bring it, and
    the fees of the applied blocks that it adopted.
   */
  lemma {:induction false} BalanceIs(testnet: bool, g: seq<Block>, ms: seq<nat>, x: nat)
    requires IsDag(g) && MainList(g, ms) && DistinctInputs(g) && x < |g|
    ensures Extends(Fresh(|g|), Replay(testnet, g, ms))
    ensures Replay(testnet, g, ms)[x].amount == RewardsOf(testnet, ms, x) + Flow(g, Fresh(|g|), Replay(testnet, g, ms), x, |g|)
    decreases |ms|
  {
    hide Reward, SetMain, Minted, Total, Flow, DistinctInputs;
    var none := Fresh(|g|);
    if ms == [] {
      FlowNothing(g, none, none, x, |g|);
    } else {
      var k := |ms| - 1;
      var s, m := Replay(testnet, g, ms[..k]), ms[k];
      BalanceIs(testnet, g, ms[..k], x);
      ReplaySound(testnet, g, ms[..k]);
      PromoteSound(testnet, g, s, ms);
      PromoteTotal(testnet, g, s, ms);
      TotalAccept(s, m, Reward(testnet, k + 1));
      PromoteFlow(g, s, m, Reward(testnet, k + 1), x);
      FlowJoin(g, none, s, Replay(testnet, g, ms), x, |g|);
      ExtendsJoin(none, s, Replay(testnet, g, ms));
    }
  }

  lemma {:induction false} ExtendsJoin(s: seq<Account>, s1: seq<Account>, s2: seq<Account>)
    requires Extends(s, s1) && Extends(s1, s2)
    ensures Extends(s, s2)
  {}
}
