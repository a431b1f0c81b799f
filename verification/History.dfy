/**
  The ledger as a function of the main chain: promoting the listed main blocks in
  order on fresh accounts. Rolling back returns to the replay of a shorter list, so
  nothing of an abandoned branch survives.
 */
module History {
  import opened Common
  import opened Ledger
  import opened Undo
  import opened Conservation
  import opened Supply
  import opened MainBlocks

  function Fresh(n: nat): (s: seq<Account>)
    ensures |s| == n && forall x :: 0 <= x < n ==> s[x] == FRESH
  {
    seq(n, _ => FRESH)
  }

  /** Main blocks by height (heights start at 1): each is an indexed block, later than the one before. */
  ghost predicate MainList(g: seq<Block>, ms: seq<nat>) {
    && (forall i :: 0 <= i < |ms| ==> ms[i] < |g|)
    && (forall i, j :: 0 <= i < j < |ms| ==> g[ms[i]].time < g[ms[j]].time)
  }

  function Replay(testnet: bool, g: seq<Block>, ms: seq<nat>): (s: seq<Account>)
    requires IsDag(g) && MainList(g, ms)
    ensures |s| == |g|
  {
    if ms == [] then Fresh(|g|)
    else
      var k := |ms| - 1;
      SetMain(g, Replay(testnet, g, ms[..k]), ms[k], Reward(testnet, k + 1))
  }

  /** Each promotion in the list rejected only blocks without a fee. */
  ghost predicate FeeFreeRun(testnet: bool, g: seq<Block>, ms: seq<nat>)
    requires IsDag(g) && MainList(g, ms)
  {
    ms != [] ==>
      var k := |ms| - 1;
      && FeeFreeRun(testnet, g, ms[..k])
      && FeeFreePromotion(g, Replay(testnet, g, ms[..k]), ms[k], Reward(testnet, k + 1))
  }

  ghost predicate FeeFreePromotion(g: seq<Block>, s: seq<Account>, m: nat, reward: nat)
    requires Accounts(g, s) && m < |g|
  {
    FeeFree(g, s, SetMain(g, s, m, reward))
  }

  /** Nothing newer than the newest main block is referenced. */
  ghost predicate Older(g: seq<Block>, s: seq<Account>, ms: seq<nat>) {
    |s| == |g| && MainList(g, ms)
    && forall x :: 0 <= x < |s| && s[x].mainRef ==> ms != [] && g[x].time <= g[ms[|ms| - 1]].time
  }

  /** What holds of every ledger that a list of main blocks produces. */
  ghost predicate Sound(testnet: bool, g: seq<Block>, s: seq<Account>, ms: seq<nat>) {
    && Accounts(g, s) && Clean(s) && RefClosed(s) && Older(g, s, ms)
    && Total(s) == Minted(testnet, |ms|)
  }

  lemma {:induction false} FreshTotal(n: nat)
    ensures Total(Fresh(n)) == 0
  {
    if n > 0 {
      assert Fresh(n)[..n - 1] == Fresh(n - 1);
      FreshTotal(n - 1);
    }
  }

  /** Conservation along any main chain, and the structure that makes roll-back possible. */
  lemma {:induction false} ReplaySound(testnet: bool, g: seq<Block>, ms: seq<nat>)
    requires IsDag(g) && MainList(g, ms) && DistinctInputs(g)
    ensures Sound(testnet, g, Replay(testnet, g, ms), ms)
    decreases |ms|
  {
    if ms == [] {
      FreshTotal(|g|);
    } else {
      var k := |ms| - 1;
      ReplaySound(testnet, g, ms[..k]);
      PromoteSound(testnet, g, Replay(testnet, g, ms[..k]), ms);
    }
  }

  /** `set_main` mints exactly the reward and keeps the ledger sound. */
  lemma {:induction false} PromoteSound(testnet: bool, g: seq<Block>, s: seq<Account>, ms: seq<nat>)
    requires ms != [] && MainList(g, ms) && DistinctInputs(g)
    requires Sound(testnet, g, s, ms[..|ms| - 1])
    ensures Sound(testnet, g, SetMain(g, s, ms[|ms| - 1], Reward(testnet, |ms|)), ms)
    ensures !s[ms[|ms| - 1]].mainRef
  {
    hide Total, Reward, Minted, Apply, NoCollision;
    var k := |ms| - 1;
    var m, reward := ms[k], Reward(testnet, k + 1);
    var s0 := Accept(s, m, reward);
    var (s1, r) := Apply(g, s0, m);
    var s3 := SetMain(g, s, m, reward);
    assert k > 0 ==> g[ms[k - 1]].time < g[ms[k]].time;
    PromoteTotal(testnet, g, s, ms);
    ApplyFrame(g, s0, m);
    PromoteNoCollision(testnet, g, s, ms);
    ApplyRefs(g, s0, m);
    hide Wrap;
    assert s3 == s1[m := s1[m].(ref := m, amount := s3[m].amount)];
    PromoteShape(g, s, s0, s1, s3, ms);
  }

  lemma {:induction false} PromoteShape(g: seq<Block>, s: seq<Account>, s0: seq<Account>, s1: seq<Account>,
                                        s3: seq<Account>, ms: seq<nat>)
    requires ms != [] && MainList(g, ms) && |s| == |s0| == |s1| == |s3| == |g|
    requires Clean(s) && RefClosed(s) && Older(g, s, ms[..|ms| - 1])
    requires var m := ms[|ms| - 1];
             && s0 == s[m := s[m].(amount := s0[m].amount)] && !s[m].mainRef && Extends(s0, s1) && s1[m].mainRef
             && (forall x :: New(s0, s1, x) ==> g[x].time <= g[m].time)
             && (forall x :: New(s0, s1, x) && x != m ==> New(s0, s1, s1[x].ref))
             && s3 == s1[m := s1[m].(ref := m, amount := s3[m].amount)]
    ensures Clean(s3) && RefClosed(s3) && Older(g, s3, ms)
  {
    var k := |ms| - 1;
    var m := ms[k];
    forall x | 0 <= x < |s3| && s3[x].mainRef ensures g[x].time <= g[m].time && 0 <= s3[x].ref < |s3| && s3[s3[x].ref].mainRef {
      if s0[x].mainRef {
        assert s[x].mainRef;
        assert g[ms[k - 1]].time < g[ms[k]].time;
      } else {
        assert New(s0, s1, x);
      }
    }
  }

  lemma {:induction false} PromoteNoCollision(testnet: bool, g: seq<Block>, s: seq<Account>, ms: seq<nat>)
    requires ms != [] && MainList(g, ms) && DistinctInputs(g)
    requires Sound(testnet, g, s, ms[..|ms| - 1]) && !s[ms[|ms| - 1]].mainRef
    ensures var m, reward := ms[|ms| - 1], Reward(testnet, |ms|);
            && NoCollision(g, Accept(s, m, reward), Apply(g, Accept(s, m, reward), m).0, -1)
            && NoCollision(g, s, SetMain(g, s, m, reward), m)
  {
    var m, reward := ms[|ms| - 1], Reward(testnet, |ms|);
    PromoteTotal(testnet, g, s, ms);
    ApplyNoCollision(g, Accept(s, m, reward), m);
    SameCollisions(g, s, m, reward);
  }

  lemma {:induction false} PromoteTotal(testnet: bool, g: seq<Block>, s: seq<Account>, ms: seq<nat>)
    requires ms != [] && MainList(g, ms) && DistinctInputs(g)
    requires Sound(testnet, g, s, ms[..|ms| - 1]) && !s[ms[|ms| - 1]].mainRef
    ensures var m, reward := ms[|ms| - 1], Reward(testnet, |ms|);
            && s[m].amount + reward < WORD
            && Accept(s, m, reward) == s[m := s[m].(amount := s[m].amount + reward)]
            && Total(Accept(s, m, reward)) == Minted(testnet, |ms|) < HALF
            && Total(SetMain(g, s, m, reward)) == Minted(testnet, |ms|)
  {
    hide Total, Reward, Apply, NoCollision, RefClosed, Older, Clean;
    var k := |ms| - 1;
    var m, reward := ms[k], Reward(testnet, k + 1);
    var s0 := Accept(s, m, reward);
    MintedBound(testnet, k + 1);
    assert |ms[..k]| == k && Minted(testnet, k + 1) == Minted(testnet, k) + reward;
    TotalUpdate(s, m, s[m]);
    TotalUpdate(s, m, s[m].(amount := s[m].amount + reward));
    ApplyTotal(g, s0, m);
    var (s1, r) := Apply(g, s0, m);
    TotalUpdate(s1, m, s1[m]);
    var s2 := Accept(s1, m, r);
    TotalUpdate(s1, m, s1[m].(amount := s1[m].amount + r));
    TotalUpdate(s2, m, s2[m].(ref := m));
  }

  /** Demoting the newest main block returns the ledger of the shorter main chain, to the last cheatoshi. */
  lemma {:induction false} RollBack(testnet: bool, g: seq<Block>, ms: seq<nat>)
    requires IsDag(g) && MainList(g, ms) && DistinctInputs(g) && ms != [] && FeeFreeRun(testnet, g, ms)
    ensures var k := |ms| - 1;
            UnsetMain(g, Replay(testnet, g, ms), ms[k], Reward(testnet, k + 1)) == Replay(testnet, g, ms[..k])
  {
    hide Replay, FeeFreeRun, FeeFreePromotion, Sound, SetMain, UnsetMain, Reward;
    var k := |ms| - 1;
    LastMain(testnet, g, ms);
    ReplaySound(testnet, g, ms[..k]);
    RollBackOne(testnet, g, Replay(testnet, g, ms[..k]), ms);
  }

  /**
    For any list of main blocks, also when rejected blocks carry fees: demoting the newest one returns the ledger
    from before exactly when the fees that rejected blocks owe each adopter sum up to a multiple of 2^64.
   */
  lemma {:induction false} RollBackExactly(testnet: bool, g: seq<Block>, ms: seq<nat>)
    requires IsDag(g) && MainList(g, ms) && DistinctInputs(g) && ms != []
    ensures var k := |ms| - 1;
            && MainList(g, ms[..k])
            && (UnsetMain(g, Replay(testnet, g, ms), ms[k], Reward(testnet, k + 1)) == Replay(testnet, g, ms[..k])
                <==> forall x :: 0 <= x < |g| ==>
                       Owed(g, Replay(testnet, g, ms[..k]), Replay(testnet, g, ms), x, |g|) % WORD == 0)
  {
    hide Total, Reward, Minted, NoCollision, Older, UnsetMain, SetMain, Apply, Owed;
    var k := |ms| - 1;
    var m, reward, s := ms[k], Reward(testnet, k + 1), Replay(testnet, g, ms[..k]);
    ReplaySound(testnet, g, ms[..k]);
    PromoteSound(testnet, g, s, ms);
    PromoteTotal(testnet, g, s, ms);
    TotalAccept(s, m, reward);
    DemoteRestoresOwed(g, s, m, reward);
  }

  lemma {:induction false} TotalAccept(s: seq<Account>, m: nat, reward: nat)
    requires m < |s| && s[m].amount + reward < WORD
    ensures Total(Accept(s, m, reward)) == Total(s) + reward
  {
    TotalUpdate(s, m, s[m]);
    TotalUpdate(s, m, s[m].(amount := s[m].amount + reward));
  }

  lemma {:induction false} LastMain(testnet: bool, g: seq<Block>, ms: seq<nat>)
    requires IsDag(g) && MainList(g, ms) && ms != [] && FeeFreeRun(testnet, g, ms)
    ensures var k := |ms| - 1;
            && MainList(g, ms[..k]) && FeeFreeRun(testnet, g, ms[..k])
            && FeeFreePromotion(g, Replay(testnet, g, ms[..k]), ms[k], Reward(testnet, k + 1))
            && Replay(testnet, g, ms) == SetMain(g, Replay(testnet, g, ms[..k]), ms[k], Reward(testnet, k + 1))
  {
    hide SetMain, FeeFreePromotion, Reward;
  }

  lemma {:induction false} RollBackOne(testnet: bool, g: seq<Block>, s: seq<Account>, ms: seq<nat>)
    requires ms != [] && MainList(g, ms) && DistinctInputs(g) && Sound(testnet, g, s, ms[..|ms| - 1])
    requires FeeFreePromotion(g, s, ms[|ms| - 1], Reward(testnet, |ms|))
    ensures var m, reward := ms[|ms| - 1], Reward(testnet, |ms|); UnsetMain(g, SetMain(g, s, m, reward), m, reward) == s
  {
    hide Total, Reward, Minted, NoCollision, RefClosed, Older, UnsetMain, SetMain, Apply, FeeFree, Unearned;
    var m, reward := ms[|ms| - 1], Reward(testnet, |ms|);
    PromoteSound(testnet, g, s, ms);
    PromoteTotal(testnet, g, s, ms);
    PromoteNoCollision(testnet, g, s, ms);
    var s0 := Accept(s, m, reward);
    FeeFreeApply(g, s, m, reward);
    assert Clean(s0);
    forall x | 0 <= x < |g| ensures Loss(g, s, m, reward, x) % WORD == 0 {
      UnearnedZero(g, s0, m, x);
    }
    DemoteRestores(g, s, m, reward);
  }

  lemma {:induction false} FeeFreeApply(g: seq<Block>, s: seq<Account>, m: nat, reward: nat)
    requires Accounts(g, s) && m < |g| && !s[m].mainRef && FeeFreePromotion(g, s, m, reward)
    ensures var s0 := Accept(s, m, reward); FeeFree(g, s0, Apply(g, s0, m).0)
  {
    hide Apply;
    var s0 := Accept(s, m, reward);
    var s1 := Apply(g, s0, m).0;
    var s3 := SetMain(g, s, m, reward);
    forall x | New(s0, s1, x) && !s1[x].applied ensures g[x].fee == 0 {
      assert New(s, s3, x) && !s3[x].applied;
    }
  }

  // --------------------------------------------------------------- a growing DAG

  /** Links of older blocks mean the same in a longer DAG. */
  lemma {:induction false} CheckLinksGrow(g: seq<Block>, s: seq<Account>, nb: Block, a: Account, b: nat, i: nat,
                                          sumIn: Amount, sumOut: Amount)
    requires Accounts(g, s) && IsDag(g + [nb]) && b < |g| && i <= |g[b].links|
    ensures CheckLinks(g + [nb], s + [a], b, i, sumIn, sumOut) == CheckLinks(g, s, b, i, sumIn, sumOut)
    decreases |g[b].links| - i
  {
    if i < |g[b].links| {
      var l := g[b].links[i];
      assert (g + [nb])[b] == g[b] && (s + [a])[l.target] == s[l.target];
      if l.isInput {
        if !(s[l.target].amount < l.amount || sumIn + l.amount >= WORD) {
          CheckLinksGrow(g, s, nb, a, b, i + 1, sumIn + l.amount, sumOut);
        }
      } else if !(sumOut + l.amount >= WORD) {
        CheckLinksGrow(g, s, nb, a, b, i + 1, sumIn, sumOut + l.amount);
      }
    }
  }

  lemma {:induction false} UpdateGrow(s: seq<Account>, a: Account, x: nat, v: Account)
    requires x < |s|
    ensures (s + [a])[x := v] == s[x := v] + [a] && (s + [a])[x] == s[x]
  {}

  lemma {:induction false} MoveGrow(g: seq<Block>, s: seq<Account>, nb: Block, a: Account, b: nat, n: nat)
    requires Accounts(g, s) && IsDag(g + [nb]) && b < |g| && n <= |g[b].links|
    ensures Move(g + [nb], s + [a], b, n, false) == Move(g, s, b, n, false) + [a]
  {
    if n > 0 {
      MoveGrow(g, s, nb, a, b, n - 1);
      var l := g[b].links[n - 1];
      var p := Move(g, s, b, n - 1, false);
      UpdateGrow(p, a, l.target, p[l.target].(amount := Wrap(p[l.target].amount + Credit(l, false))));
    }
  }

  lemma {:induction false} SettleGrow(g: seq<Block>, s: seq<Account>, nb: Block, a: Account, b: nat)
    requires Accounts(g, s) && IsDag(g + [nb]) && b < |g|
    ensures Settle(g + [nb], s + [a], b) == (Settle(g, s, b).0 + [a], Settle(g, s, b).1)
  {
    CheckLinksGrow(g, s, nb, a, b, 0, 0, g[b].fee);
    assert (g + [nb])[b] == g[b] && (s + [a])[b] == s[b];
    match Check(g, s, b)
    case Rejected =>
    case Sums(sumIn, sumOut) =>
      MoveGrow(g, s, nb, a, b, |g[b].links|);
      var m := Move(g, s, b, |g[b].links|, false);
      var v := m[b].(amount := Wrap(m[b].amount + sumIn - sumOut));
      UpdateGrow(m, a, b, v);
      UpdateGrow(m[b := v], a, b, v.(applied := true));
  }

  lemma {:induction false} ApplyGrow(g: seq<Block>, s: seq<Account>, nb: Block, a: Account, b: nat)
    requires Accounts(g, s) && IsDag(g + [nb]) && b < |g|
    ensures Apply(g + [nb], s + [a], b) == (Apply(g, s, b).0 + [a], Apply(g, s, b).1)
    decreases b, 1, 0
  {
    assert (s + [a])[b] == s[b];
    if !s[b].mainRef {
      var s0 := s[b := s[b].(mainRef := true)];
      UpdateGrow(s, a, b, s0[b]);
      ApplyLinksGrow(g, s0, nb, a, b, 0);
      SettleGrow(g, ApplyLinks(g, s0, b, 0), nb, a, b);
    }
  }

  lemma {:induction false} VisitLinkGrow(g: seq<Block>, s: seq<Account>, nb: Block, a: Account, b: nat, i: nat)
    requires Accounts(g, s) && IsDag(g + [nb]) && b < |g| && i < |g[b].links|
    ensures VisitLink(g + [nb], s + [a], b, i) == VisitLink(g, s, b, i) + [a]
    decreases b, 0, 0
  {
    var t := g[b].links[i].target;
    ApplyGrow(g, s, nb, a, t);
    var (sa, r) := Apply(g, s, t);
    assert (g + [nb])[b] == g[b];
    if r != ALREADY {
      var s1 := sa[t := sa[t].(ref := b)];
      UpdateGrow(sa, a, t, s1[t]);
      UpdateGrow(s1, a, b, s1[b].(amount := Wrap(s1[b].amount + r)));
    }
  }

  lemma {:induction false} ApplyLinksGrow(g: seq<Block>, s: seq<Account>, nb: Block, a: Account, b: nat, i: nat)
    requires Accounts(g, s) && IsDag(g + [nb]) && b < |g| && i <= |g[b].links|
    ensures ApplyLinks(g + [nb], s + [a], b, i) == ApplyLinks(g, s, b, i) + [a]
    decreases b, 0, 1 + |g[b].links| - i
  {
    assert (g + [nb])[b] == g[b];
    if i < |g[b].links| {
      VisitLinkGrow(g, s, nb, a, b, i);
      ApplyLinksGrow(g, VisitLink(g, s, b, i), nb, a, b, i + 1);
    }
  }

  lemma {:induction false} SetMainGrow(g: seq<Block>, s: seq<Account>, nb: Block, m: nat, reward: nat)
    requires Accounts(g, s) && IsDag(g + [nb]) && m < |g|
    ensures SetMain(g + [nb], s + [FRESH], m, reward) == SetMain(g, s, m, reward) + [FRESH]
  {
    var v := s[m].(amount := Wrap(s[m].amount + reward));
    UpdateGrow(s, FRESH, m, v);
    ApplyGrow(g, s[m := v], nb, FRESH, m);
    var (s1, r) := Apply(g, s[m := v], m);
    var w := s1[m].(amount := Wrap(s1[m].amount + r));
    UpdateGrow(s1, FRESH, m, w);
    UpdateGrow(s1[m := w], FRESH, m, w.(ref := m));
  }

  lemma {:induction false} FeeFreeGrow(g: seq<Block>, nb: Block, s: seq<Account>, s1: seq<Account>)
    requires FeeFree(g, s, s1)
    ensures FeeFree(g + [nb], s + [FRESH], s1 + [FRESH])
  {
    forall x | New(s + [FRESH], s1 + [FRESH], x) && !(s1 + [FRESH])[x].applied ensures (g + [nb])[x].fee == 0 {
      assert New(s, s1, x);
    }
  }

  lemma {:induction false} MainListGrow(g: seq<Block>, nb: Block, ms: seq<nat>)
    requires MainList(g, ms)
    ensures MainList(g + [nb], ms)
    ensures ms != [] ==> MainList(g, ms[..|ms| - 1]) && ms[|ms| - 1] < |g|
  {
    assert forall x :: 0 <= x < |g| ==> (g + [nb])[x] == g[x];
  }

  /** Indexing a new block changes no existing account: the replay only gains a fresh one. */
  lemma {:induction false} ReplayGrow(testnet: bool, g: seq<Block>, nb: Block, ms: seq<nat>)
    requires IsDag(g) && IsDag(g + [nb]) && MainList(g, ms)
    ensures MainList(g + [nb], ms)
    ensures Replay(testnet, g + [nb], ms) == Replay(testnet, g, ms) + [FRESH]
    ensures FeeFreeRun(testnet, g, ms) ==> FeeFreeRun(testnet, g + [nb], ms)
    decreases |ms|
  {
    hide IsDag, SetMain, Reward, FeeFree, MainList;
    MainListGrow(g, nb, ms);
    if ms == [] {
      assert Fresh(|g| + 1) == Fresh(|g|) + [FRESH];
    } else {
      var k := |ms| - 1;
      var s, m, reward := Replay(testnet, g, ms[..k]), ms[k], Reward(testnet, k + 1);
      ReplayGrow(testnet, g, nb, ms[..k]);
      SetMainGrow(g, s, nb, m, reward);
      if FeeFreeRun(testnet, g, ms) {
        FeeFreeGrow(g, nb, s, SetMain(g, s, m, reward));
      }
    }
  }

  // --------------------------------------------------------------- a repeated input

  /** The second main block names the first one twice as its input. */
  function Twice(a: Amount): seq<Block> {
    [Block(1, 0, [], 1), Block(2, 0, [Link(0, a, true), Link(0, a, true)], 1)]
  }

  lemma {:induction false} FirstMain(a: Amount)
    ensures var s := [Account(a, true, true, 0), FRESH];
            IsDag(Twice(a)) && SetMain(Twice(a), [FRESH, FRESH], 0, a) == s
  {
    var g, s0 := Twice(a), [FRESH, FRESH];
    assert g[1].links[0].target == 0 && g[1].links[1].target == 0 && g[0].links == [];
    var s1 := [Account(a, false, false, -1), FRESH];
    assert Accept(s0, 0, a) == s1;
    var s2 := [Account(a, true, false, -1), FRESH];
    assert s1[0 := s1[0].(mainRef := true)] == s2;
    assert ApplyLinks(g, s2, 0, 0) == s2;
    assert CheckLinks(g, s2, 0, 0, 0, 0) == Sums(0, 0);
    assert Check(g, s2, 0) == Sums(0, 0);
    assert Move(g, s2, 0, 0, false) == s2;
    assert Accept(s2, 0, 0) == s2;
    assert Settle(g, s2, 0).0 == [Account(a, true, true, -1), FRESH];
    assert Apply(g, s1, 0) == ([Account(a, true, true, -1), FRESH], 0);
  }

  lemma {:induction false} SecondMain(a: Amount)
    requires 3 * a < WORD
    ensures var s := [Account(a, true, true, 0), FRESH];
            IsDag(Twice(a)) && SetMain(Twice(a), s, 1, a) == [Account(Wrap(0 - a), true, true, 0), Account(3 * a, true, true, 1)]
  {
    hide Apply;
    var x := Account(a, true, true, 0);
    var s1 := [x, Account(a, false, false, -1)];
    assert Accept([x, FRESH], 1, a) == s1;
    SecondApplies(a, s1);
  }

  lemma {:induction false} SecondApplies(a: Amount, s: seq<Account>)
    requires 3 * a < WORD && s == [Account(a, true, true, 0), Account(a, false, false, -1)]
    ensures Accounts(Twice(a), s)
    ensures Apply(Twice(a), s, 1) == ([Account(Wrap(0 - a), true, true, 0), Account(3 * a, true, true, -1)], 0)
  {
    hide Settle, Wrap;
    var g := Twice(a);
    assert g[1].links[0].target == 0 && g[1].links[1].target == 0 && |g[1].links| == 2;
    var s2 := [Account(a, true, true, 0), Account(a, true, false, -1)];
    assert s[1 := s[1].(mainRef := true)] == s2;
    assert Apply(g, s2, 0) == (s2, ALREADY);
    assert VisitLink(g, s2, 1, 0) == s2 && VisitLink(g, s2, 1, 1) == s2;
    assert ApplyLinks(g, s2, 1, 2) == s2;
    assert ApplyLinks(g, s2, 1, 1) == s2;
    assert ApplyLinks(g, s2, 1, 0) == s2;
    SecondSettles(a, s2);
  }

  lemma {:induction false} SecondSettles(a: Amount, s: seq<Account>)
    requires 3 * a < WORD && s == [Account(a, true, true, 0), Account(a, true, false, -1)]
    ensures Accounts(Twice(a), s)
    ensures Settle(Twice(a), s, 1) == ([Account(Wrap(0 - a), true, true, 0), Account(3 * a, true, true, -1)], 0)
  {
    var g, l := Twice(a), Link(0, a, true);
    assert g[1].links == [l, l] && g[1].links[0] == l && g[1].links[1] == l;
    assert CheckLinks(g, s, 1, 2, 2 * a, 0) == Sums(2 * a, 0);
    assert CheckLinks(g, s, 1, 1, a, 0) == Sums(2 * a, 0);
    assert CheckLinks(g, s, 1, 0, 0, 0) == Sums(2 * a, 0);
    assert Check(g, s, 1) == Sums(2 * a, 0);
    assert Move(g, s, 1, 0, false) == s;
    var m := [Account(0, true, true, 0), s[1]];
    assert Move(g, s, 1, 1, false) == m;
    var n := [Account(Wrap(0 - a), true, true, 0), s[1]];
    assert Move(g, s, 1, 2, false) == n;
    assert Accept(n, 1, 2 * a) == [n[0], Account(3 * a, true, false, -1)];
    assert Settle(g, s, 1).0 == [n[0], Account(3 * a, true, true, -1)];
  }

  lemma {:induction false} TwiceReplay(testnet: bool)
    ensures var g, a := Twice(MAIN_START_AMOUNT), MAIN_START_AMOUNT;
            && IsDag(g) && MainList(g, [0, 1])
            && Replay(testnet, g, [0, 1]) == [Account(WORD - a, true, true, 0), Account(3 * a, true, true, 1)]
  {
    hide SetMain, Reward, IsDag, MainList, Twice, Wrap;
    var a: Amount := MAIN_START_AMOUNT;
    var g := Twice(a);
    TwiceFacts(a);
    FirstMain(a);
    SecondMain(a);
    StartRewards(testnet);
    assert [0, 1][..1] == [0] && [0][..0] == [];
    assert Fresh(2) == [FRESH, FRESH];
    assert Replay(testnet, g, []) == [FRESH, FRESH];
    assert Replay(testnet, g, [0]) == [Account(a, true, true, 0), FRESH];
  }

  /**
    A block that names one source twice passes the checks and overdraws it. Here the second main block draws the
    first one's reward twice: two promotions from an empty ledger leave a balance of 2^64 - 2^42.
   */
  lemma {:induction false} RepeatedInputOverdraws(testnet: bool)
    ensures var g := Twice(MAIN_START_AMOUNT);
            && IsDag(g) && MainList(g, [0, 1]) && !DistinctInputs(g)
            && Replay(testnet, g, [0, 1])[0].amount == WORD - MAIN_START_AMOUNT
            && Replay(testnet, g, [0, 1])[1].amount == 3 * MAIN_START_AMOUNT
  {
    hide Replay, IsDag, MainList, Distinct;
    TwiceFacts(MAIN_START_AMOUNT);
    TwiceReplay(testnet);
  }

  lemma {:induction false} TwiceFacts(a: Amount)
    ensures var g := Twice(a);
            |g| == 2 && IsDag(g) && MainList(g, []) && MainList(g, [0]) && MainList(g, [0, 1]) && !DistinctInputs(g)
  {
    var g := Twice(a);
    assert g[1].links[0].target == 0 && g[1].links[1].target == 0;
    assert g[1].links[0].isInput && g[1].links[1].isInput;
    assert !Distinct(g[1].links);
  }

  lemma {:induction false} StartRewards(testnet: bool)
    ensures Reward(testnet, 1) == Reward(testnet, 2) == Reward(testnet, 3) == MAIN_START_AMOUNT
    ensures Wrap(0 - MAIN_START_AMOUNT) == WORD - MAIN_START_AMOUNT && 3 * MAIN_START_AMOUNT < WORD
  {}

  // ------------------------------------------------------------- a colliding fee

  /** It spends the balance that wrapped around, all of it as its fee. */
  function Spender(a: Amount): Block
    requires 0 < a
  {
    Block(3, ALREADY, [Link(0, WORD - a, true), Link(1, a - 1, true)], 1)
  }

  /** The two main blocks, the spender, and a third main block that links to it. */
  function Colliding(a: Amount): seq<Block>
    requires 0 < a
  {
    Twice(a) + [Spender(a)] + [Block(4, 0, [Link(2, 0, false)], 1)]
  }

  lemma {:induction false} CollidingFacts(a: Amount)
    requires 0 < a
    ensures var g := Colliding(a);
            && |g| == 4 && IsDag(g) && IsDag(Twice(a) + [Spender(a)]) && g[2] == Spender(a) && g[3].links == [Link(2, 0, false)]
            && MainList(g, [0, 1]) && MainList(g, [0, 1, 3])
  {
    var g := Colliding(a);
    assert g[0].links == [] && g[1].links[0].target == 0 && g[1].links[1].target == 0;
    assert g[2].links[0].target == 0 && g[2].links[1].target == 1 && g[3].links[0].target == 2;
    var h := Twice(a) + [Spender(a)];
    assert h[0].links == [] && h[1].links[0].target == 0 && h[1].links[1].target == 0 && h[2].links[0].target == 0 && h[2].links[1].target == 1;
  }

  lemma {:induction false} SpenderPasses(g: seq<Block>, s: seq<Account>, a: Amount)
    requires 0 < a && 3 * a < WORD && Accounts(g, s) && |g| > 2 && g[2] == Spender(a)
    requires s[0].amount == WORD - a && s[1].amount == 3 * a && s[2].amount == 0
    ensures Check(g, s, 2).Sums?
  {
    assert CheckLinks(g, s, 2, 2, WORD - 1, ALREADY) == Sums(WORD - 1, ALREADY);
    assert CheckLinks(g, s, 2, 1, WORD - a, ALREADY) == Sums(WORD - 1, ALREADY);
    assert CheckLinks(g, s, 2, 0, 0, ALREADY) == Sums(WORD - 1, ALREADY);
  }

  /** The spender is applied wherever the two main blocks are referenced and hold these balances. */
  lemma {:induction false} SpenderApplied(g: seq<Block>, s: seq<Account>, a: Amount)
    requires 0 < a && 3 * a < WORD && Accounts(g, s) && |g| > 2 && g[2] == Spender(a)
    requires s[0].mainRef && s[1].mainRef && s[2] == FRESH && s[0].amount == WORD - a && s[1].amount == 3 * a
    ensures Apply(g, s, 2).0[2].applied && Apply(g, s, 2).0[2].mainRef && Apply(g, s, 2).1 == ALREADY
  {
    hide Settle, Check;
    var s1 := s[2 := s[2].(mainRef := true)];
    assert g[2].links[0].target == 0 && g[2].links[1].target == 1;
    assert VisitLink(g, s1, 2, 0) == s1 && VisitLink(g, s1, 2, 1) == s1;
    assert ApplyLinks(g, s1, 2, 2) == s1;
    assert ApplyLinks(g, s1, 2, 1) == s1;
    assert ApplyLinks(g, s1, 2, 0) == s1;
    SpenderPasses(g, s1, a);
    SettleFrame(g, s1, 2);
    SettledIs(g, s1, 2);
  }

  lemma {:induction false} CarrierPromoted(g: seq<Block>, s: seq<Account>, a: Amount)
    requires 0 < a && 3 * a < WORD && Accounts(g, s) && |g| == 4 && g[2] == Spender(a) && g[3].links == [Link(2, 0, false)]
    requires s == [Account(WORD - a, true, true, 0), Account(3 * a, true, true, 1), FRESH, FRESH]
    ensures New(s, SetMain(g, s, 3, a), 2) && Collides(g, SetMain(g, s, 3, a), 2)
  {
    hide Settle, Wrap;
    var s0 := Accept(s, 3, a);
    var s1 := s0[3 := s0[3].(mainRef := true)];
    assert g[3].links[0].target == 2;
    SpenderApplied(g, s1, a);
    var s2 := VisitLink(g, s1, 3, 0);
    assert s2 == Apply(g, s1, 2).0;
    assert ApplyLinks(g, s2, 3, 1) == s2 && ApplyLinks(g, s1, 3, 0) == s2;
    ApplyLinksFrame(g, s1, 3, 0);
    SettleFrame(g, s2, 3);
    assert Apply(g, s0, 3).0[2].applied && Apply(g, s0, 3).0[2].mainRef;
  }

  /**
    A block applied with the fee 2^64 - 1 is taken for one that was referenced before: it is not adopted, its fee is
    lost, and it stays referenced and unreachable when the main block above it is rolled back. It needs a balance
    of almost 2^64, so some block must have named an input twice.
   */
  lemma {:induction false} SentinelFeeIsStranded(testnet: bool)
    ensures var a := MAIN_START_AMOUNT; var g := Colliding(a);
            && IsDag(g) && MainList(g, [0, 1]) && MainList(g, [0, 1, 3]) && Replay(testnet, g, [0, 1]) != Replay(testnet, g, [0, 1, 3])
            && var s := UnsetMain(g, Replay(testnet, g, [0, 1, 3]), 3, Reward(testnet, 3));
               s != Replay(testnet, g, [0, 1]) && s[2].mainRef && !Replay(testnet, g, [0, 1])[2].mainRef
  {
    hide SetMain, UnsetMain, Reward, IsDag, MainList, Colliding, Twice, Spender, Wrap;
    var a: Amount := MAIN_START_AMOUNT;
    var g := Colliding(a);
    CollidingFacts(a);
    StartRewards(testnet);
    CollidingStart(testnet);
    var s := Replay(testnet, g, [0, 1]);
    assert [0, 1, 3][..2] == [0, 1];
    assert Replay(testnet, g, [0, 1, 3]) == SetMain(g, s, 3, a);
    CarrierPromoted(g, s, a);
    assert !NoCollision(g, s, SetMain(g, s, 3, a), 3);
    StaysReferenced(g, s, 3, a);
  }

  lemma {:induction false} CollidingStart(testnet: bool)
    ensures var a := MAIN_START_AMOUNT; var g := Colliding(a);
            && IsDag(g) && MainList(g, [0, 1])
            && Replay(testnet, g, [0, 1]) == [Account(WORD - a, true, true, 0), Account(3 * a, true, true, 1), FRESH, FRESH]
  {
    hide Replay, IsDag, MainList, Twice, Spender;
    var a: Amount := MAIN_START_AMOUNT;
    CollidingFacts(a);
    TwiceReplay(testnet);
    ReplayGrow(testnet, Twice(a), Spender(a), [0, 1]);
    ReplayGrow(testnet, Twice(a) + [Spender(a)], Block(4, 0, [Link(2, 0, false)], 1), [0, 1]);
  }
}
