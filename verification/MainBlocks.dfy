/**
  Promoting and demoting main blocks (`set_main`, `unset_main`, client/block.c:346-376),
  and the theorem that the whole ledger is a function of the DAG and of the
  current list of main blocks alone, whatever was promoted and rolled back before.
 */
module MainBlocks {
  import opened Common
  import opened Ledger
  import opened Undo
  import opened Conservation
  import opened Supply

  /** `set_main` on the accounts; `reward` is `get_amount` of the new height. */
  function SetMain(g: seq<Block>, s: seq<Account>, m: nat, reward: nat): (s': seq<Account>)
    requires Accounts(g, s) && m < |g|
    ensures |s'| == |s|
  {
    var (s1, r) := Apply(g, Accept(s, m, reward), m);
    var s2 := Accept(s1, m, r);
    s2[m := s2[m].(ref := m)]
  }

  /** `unset_main` on the accounts. */
  function UnsetMain(g: seq<Block>, s: seq<Account>, m: nat, reward: nat): (s': seq<Account>)
    requires Accounts(g, s) && m < |g|
    ensures |s'| == |s|
  {
    Accept(Unapply(g, Accept(s, m, 0 - reward), m), m, 0 - g[m].fee)
  }

  /** Whoever is referenced was adopted by a referenced block (main blocks adopt themselves). */
  ghost predicate RefClosed(s: seq<Account>) {
    forall x :: 0 <= x < |s| && s[x].mainRef ==> 0 <= s[x].ref < |s| && s[s[x].ref].mainRef
  }

  /** The fees that account `x` misses after `set_main` followed by `unset_main`. */
  function Loss(g: seq<Block>, s: seq<Account>, m: nat, reward: nat, x: nat): int
    requires Accounts(g, s) && m < |g|
  {
    var s0 := Accept(s, m, reward);
    Unearned(g, s0, m, x) + if x == m then g[m].fee - Apply(g, s0, m).1 else 0
  }

  /**
    The exact effect of demoting a main block that was just promoted: every balance is restored up to the fees
    of blocks that paid none and what colliding blocks moved; without collisions flags and adopters are restored.
   */
  lemma {:induction false} DemoteExact(g: seq<Block>, s: seq<Account>, m: nat, reward: nat, x: nat)
    requires Accounts(g, s) && m < |g| && x < |g| && Clean(s) && RefClosed(s) && !s[m].mainRef
    ensures var w := UnsetMain(g, SetMain(g, s, m, reward), m, reward);
            && w[x].amount == Wrap(s[x].amount - Loss(g, s, m, reward, x))
            && (NoCollision(g, s, SetMain(g, s, m, reward), m) ==> w[x] == s[x].(amount := w[x].amount))
  {
    hide Apply, Unapply, Unearned, NoCollision, Cong, Wrap;
    var s0 := Accept(s, m, reward);
    var (s1, r) := Apply(g, s0, m);
    var s3 := SetMain(g, s, m, reward);
    var u := Accept(s3, m, 0 - reward);
    var u1 := Unapply(g, u, m);
    PromotedHolds(g, s, m, reward);
    SameCollisions(g, s, m, reward);
    UnapplyFlags(g, s0, m, u);
    UnapplyAmount(g, s0, m, u, x);
    ApplyFrame(g, s0, m);
    var e := Unearned(g, s0, m, x);
    var w := UnsetMain(g, s3, m, reward);
    if Undone(u, u1, s0, s1) {
      DemoteFlags(s, s0, s1, u, u1, m, x);
    }
    if x == m {
      DemoteAmount(s[m].amount, reward, s0[m].amount, s1[m].amount, r, s3[m].amount, u[m].amount, u1[m].amount,
                   g[m].fee, e, w[m].amount);
      WrapIs(w[m].amount, s[m].amount - Loss(g, s, m, reward, m));
    } else {
      CongShift(u1[x].amount, u[x].amount - (s1[x].amount - s0[x].amount) - e, s[x].amount - e);
      WrapIs(u1[x].amount, s[x].amount - e);
    }
  }

  /** The balance of the main block itself through promotion and demotion. */
  lemma {:induction false} DemoteAmount(s: Amount, reward: int, s0: Amount, s1: Amount, r: int, s3: Amount,
                                        u: Amount, u1: Amount, fee: int, e: int, w: Amount)
    requires s0 == Wrap(s + reward) && s3 == Wrap(s1 + r) && u == Wrap(s3 - reward) && w == Wrap(u1 - fee)
    requires Cong(u1, u - (s1 - s0) - e)
    ensures Cong(w, s - (e + (fee - r)))
  {
    CongWrap(s + reward);
    CongWrap(s1 + r);
    CongWrap(s3 - reward);
    CongWrap(u1 - fee);
    hide Wrap, Cong;
    CongAdd(s3, s1 + r, u, s3 - reward, u, s1 + r - reward);
    CongAdd(u, s1 + r - reward, u1, u - (s1 - s0) - e, u1, s0 + r - reward - e);
    CongAdd(u1, s0 + r - reward - e, s0, s + reward, u1, s + r - e);
    CongAdd(u1, s + r - e, w, u1 - fee, w, s - (e + (fee - r)));
  }

  lemma {:induction false} CongShift(a: int, b: int, c: int)
    requires Cong(a, b) && b == c
    ensures Cong(a, c)
  {}

  lemma {:induction false} WrapIs(a: Amount, v: int)
    requires Cong(a, v)
    ensures a == Wrap(v)
  {
    CongWrap(v);
    var k :| a - v == Words(k);
    var j :| Wrap(v) - v == Words(j);
    assert a - Wrap(v) == Words(k - j);
    CongEqual(a, Wrap(v));
  }

  lemma {:induction false} DemoteFlags(s: seq<Account>, s0: seq<Account>, s1: seq<Account>, u: seq<Account>,
                                       u1: seq<Account>, m: nat, x: nat)
    requires |s| == |s0| && Undone(u, u1, s0, s1) && Extends(s0, s1) && x < |s| && m < |s| && Clean(s)
    requires s0 == s[m := s[m].(amount := s0[m].amount)] && !s[m].mainRef && s1[m].mainRef
    requires u == s1[m := s1[m].(ref := m, amount := u[m].amount)]
    ensures u1[x] == s[x].(amount := u1[x].amount)
  {
    if !New(s0, s1, x) {
      assert x != m;
    }
  }

  /** Right after promotion the ledger carries everything the promotion did. */
  lemma {:induction false} PromotedHolds(g: seq<Block>, s: seq<Account>, m: nat, reward: nat)
    requires Accounts(g, s) && m < |g| && Clean(s) && RefClosed(s) && !s[m].mainRef
    ensures var s0 := Accept(s, m, reward); var s1 := Apply(g, s0, m).0;
            && Clean(s0) && !s0[m].mainRef
            && Holds(Accept(SetMain(g, s, m, reward), m, 0 - reward), s0, s1, m)
            && SetMain(g, s, m, reward) == s1[m := s1[m].(ref := m, amount := SetMain(g, s, m, reward)[m].amount)]
  {
    var s0 := Accept(s, m, reward);
    var (s1, r) := Apply(g, s0, m);
    var s3 := SetMain(g, s, m, reward);
    assert s3 == s1[m := s1[m].(ref := m, amount := s3[m].amount)];
    hide Apply, SetMain, Wrap;
    ApplyFrame(g, s0, m);
    var u := Accept(s3, m, 0 - reward);
    forall x | 0 <= x < |u| && u[x].mainRef && !New(s0, s1, x) ensures !New(s0, s1, u[x].ref) {
      assert x != m && s0[x].mainRef;
    }
  }

  /** The promotion and the application inside it collide alike. */
  lemma {:induction false} SameCollisions(g: seq<Block>, s: seq<Account>, m: nat, reward: nat)
    requires Accounts(g, s) && m < |g|
    ensures var s0 := Accept(s, m, reward);
            NoCollision(g, s0, Apply(g, s0, m).0, m) <==> NoCollision(g, s, SetMain(g, s, m, reward), m)
  {
    hide Apply, Wrap;
    var s0 := Accept(s, m, reward);
    var s1, s3 := Apply(g, s0, m).0, SetMain(g, s, m, reward);
    assert forall x :: New(s0, s1, x) <==> New(s, s3, x);
    assert forall x :: 0 <= x < |g| ==> (Collides(g, s1, x) <==> Collides(g, s3, x));
  }

  /**
    Demoting restores the ledger exactly when no block under the main block was applied with the fee 2^64 - 1
    and no account misses a fee (modulo 2^64).
   */
  lemma {:induction false} DemoteRestores(g: seq<Block>, s: seq<Account>, m: nat, reward: nat)
    requires Accounts(g, s) && m < |g| && Clean(s) && RefClosed(s) && !s[m].mainRef
    ensures UnsetMain(g, SetMain(g, s, m, reward), m, reward) == s
            <==> && NoCollision(g, s, SetMain(g, s, m, reward), m)
                 && forall x :: 0 <= x < |g| ==> Loss(g, s, m, reward, x) % WORD == 0
  {
    hide SetMain, UnsetMain, Loss, NoCollision;
    if NoCollision(g, s, SetMain(g, s, m, reward), m) {
      RestoredOrShort(g, s, m, reward);
    } else {
      StaysReferenced(g, s, m, reward);
    }
  }

  /** A block that collides is still referenced after the demotion. */
  lemma {:induction false} StaysReferenced(g: seq<Block>, s: seq<Account>, m: nat, reward: nat)
    requires Accounts(g, s) && m < |g| && Clean(s) && RefClosed(s) && !s[m].mainRef
    requires !NoCollision(g, s, SetMain(g, s, m, reward), m)
    ensures var s3 := SetMain(g, s, m, reward);
            && UnsetMain(g, s3, m, reward) != s
            && forall x :: New(s, s3, x) && x != m && Collides(g, s3, x) ==> New(s, UnsetMain(g, s3, m, reward), x)
  {
    var s0 := Accept(s, m, reward);
    SameCollisions(g, s, m, reward);
    PromotedHolds(g, s, m, reward);
    ApplyRefs(g, s0, m);
    var s1, s3 := Apply(g, s0, m).0, SetMain(g, s, m, reward);
    var u := Accept(s3, m, 0 - reward);
    UnapplySpares(g, u, m);
    hide Apply, Unapply, Wrap;
    forall x | New(s, s3, x) && x != m && Collides(g, s3, x) ensures New(s, UnsetMain(g, s3, m, reward), x) {
      assert New(s0, s1, x) && Collides(g, s1, x);
      assert u[x].mainRef && u[x].ref == -1;
    }
  }

  lemma {:induction false} RestoredOrShort(g: seq<Block>, s: seq<Account>, m: nat, reward: nat)
    requires Accounts(g, s) && m < |g| && Clean(s) && RefClosed(s) && !s[m].mainRef
    requires NoCollision(g, s, SetMain(g, s, m, reward), m)
    ensures UnsetMain(g, SetMain(g, s, m, reward), m, reward) == s
            <==> forall x :: 0 <= x < |g| ==> Loss(g, s, m, reward, x) % WORD == 0
  {
    var w := UnsetMain(g, SetMain(g, s, m, reward), m, reward);
    forall x | 0 <= x < |g| ensures w[x] == s[x] <==> Loss(g, s, m, reward, x) % WORD == 0 {
      DemoteExact(g, s, m, reward, x);
      WrapFixed(s[x].amount, Loss(g, s, m, reward, x));
    }
    hide SetMain, UnsetMain, Loss, NoCollision;
    if forall x :: 0 <= x < |g| ==> Loss(g, s, m, reward, x) % WORD == 0 {
      assert w == s;
    }
  }

  lemma {:induction false} WrapFixed(a: Amount, loss: int)
    ensures Wrap(a - loss) == a <==> loss % WORD == 0
  {}

  // ------------------------------------------------------- when nothing is missed

  /** No block that became referenced between `s` and `s1` was rejected while carrying a fee. */
  ghost predicate FeeFree(g: seq<Block>, s: seq<Account>, s1: seq<Account>) {
    |g| == |s| == |s1| && forall x :: New(s, s1, x) && !s1[x].applied ==> g[x].fee == 0
  }

  /** The fee that block `y`, newly referenced but rejected, owes its adopter `x`. */
  ghost function Owes(g: seq<Block>, s: seq<Account>, s1: seq<Account>, x: nat, y: nat): int
    requires |g| == |s| == |s1| && y < |g|
  {
    if New(s, s1, y) && s1[y].ref == x && !s1[y].applied then g[y].fee else 0
  }

  /** What the first `n` blocks owe `x`: the fees of rejected blocks that name it as their adopter. */
  ghost function Owed(g: seq<Block>, s: seq<Account>, s1: seq<Account>, x: nat, n: nat): int
    requires |g| == |s| == |s1| && n <= |g|
  {
    if n == 0 then 0 else Owed(g, s, s1, x, n - 1) + Owes(g, s, s1, x, n - 1)
  }

  lemma {:induction false} OwedSame(g: seq<Block>, s: seq<Account>, s1: seq<Account>, t: seq<Account>, t1: seq<Account>, x: nat, n: nat)
    requires |g| == |s| == |s1| == |t| == |t1| && n <= |g|
    requires forall y :: 0 <= y < n ==> Owes(g, s, s1, x, y) == Owes(g, t, t1, x, y)
    ensures Owed(g, s, s1, x, n) == Owed(g, t, t1, x, n)
  {
    if n > 0 {
      OwedSame(g, s, s1, t, t1, x, n - 1);
    }
  }

  lemma {:induction false} OwedJoin(g: seq<Block>, s: seq<Account>, s1: seq<Account>, s2: seq<Account>, x: nat, n: nat)
    requires Extends(s, s1) && Extends(s1, s2) && |s| == |g| && n <= |g|
    ensures Owed(g, s, s2, x, n) == Owed(g, s, s1, x, n) + Owed(g, s1, s2, x, n)
  {
    if n > 0 {
      OwedJoin(g, s, s1, s2, x, n - 1);
    }
  }

  /** Adoption of the newly referenced block `t` by `b`. */
  lemma {:induction false} OwedAdopt(g: seq<Block>, s: seq<Account>, sa: seq<Account>, s1: seq<Account>, b: nat, t: nat, x: nat, n: nat)
    requires |g| == |s| == |sa| == |s1| && n <= |g| && t < |g| && b < |g| && New(s, sa, t) && sa[t].ref == -1
    requires forall y :: 0 <= y < |g| ==> s1[y] == sa[y].(amount := s1[y].amount, ref := if y == t then b else sa[y].ref)
    ensures Owed(g, s, s1, x, n) == Owed(g, s, sa, x, n) + if t < n && x == b && !sa[t].applied then g[t].fee else 0
  {
    if n > 0 {
      OwedAdopt(g, s, sa, s1, b, t, x, n - 1);
    }
  }

  lemma {:induction false} OwedNothing(g: seq<Block>, s: seq<Account>, s1: seq<Account>, x: nat, n: nat)
    requires |s| == |s1| == |g| && n <= |g|
    requires forall y :: New(s, s1, y) && !s1[y].applied ==> g[y].fee == 0
    ensures Owed(g, s, s1, x, n) == 0
  {
    if n > 0 {
      OwedNothing(g, s, s1, x, n - 1);
    }
  }

  /** In a solvent ledger the fees missed while applying `b` are those that rejected blocks owe. */
  lemma {:induction false} UnearnedIsOwed(g: seq<Block>, s: seq<Account>, b: nat, x: nat)
    requires Accounts(g, s) && b < |g| && Clean(s) && !s[b].mainRef && DistinctInputs(g) && Total(s) < HALF
    ensures var s1 := Apply(g, s, b).0; s1[b].ref == -1 && Unearned(g, s, b, x) == Owed(g, s, s1, x, |g|)
    decreases b, 1, 0
  {
    var s0 := s[b := s[b].(mainRef := true)];
    var s2 := ApplyLinks(g, s0, b, 0);
    var s1 := Settle(g, s2, b).0;
    ApplyLinksFrame(g, s0, b, 0);
    SettleFrame(g, s2, b);
    TotalUpdate(s, b, s0[b]);
    assert s1 == Apply(g, s, b).0 && Unearned(g, s, b, x) == UnearnedLinks(g, s0, b, 0, x);
    hide Settle, Apply, Unearned, Total, ApplyLinks;
    UnearnedLinksOwed(g, s0, b, 0, x);
    assert s2[b].ref == s0[b].ref == -1;
    forall y | 0 <= y < |g| ensures Owes(g, s, s1, x, y) == Owes(g, s0, s2, x, y) {
      assert y != b ==> (New(s, s1, y) <==> New(s0, s2, y));
    }
    OwedSame(g, s, s1, s0, s2, x, |g|);
  }

  lemma {:induction false} UnearnedLinkOwed(g: seq<Block>, s: seq<Account>, b: nat, i: nat, x: nat)
    requires Accounts(g, s) && b < |g| && i < |g[b].links| && Clean(s) && DistinctInputs(g) && Total(s) < HALF && s[b].mainRef
    ensures UnearnedLink(g, s, b, i, x) == Owed(g, s, VisitLink(g, s, b, i), x, |g|)
    decreases b, 0, 0
  {
    var t := g[b].links[i].target;
    var (sa, r) := Apply(g, s, t);
    var s1 := VisitLink(g, s, b, i);
    assert s1 == if r == ALREADY then sa else Adopt(sa, b, t, r);
    if s[t].mainRef {
      OwedNothing(g, s, s1, x, |g|);
    } else {
      ApplyFrame(g, s, t);
      ApplyTotal(g, s, t);
      ApplyResult(g, s, t);
      TotalUpdate(sa, b, sa[b]);
      UnearnedIsOwed(g, s, t, x);
      assert UnearnedLink(g, s, b, i, x) == Unearned(g, s, t, x) + if x == b then g[t].fee - Paid(sa, b, r) else 0;
      hide Apply, VisitLink, Total, Unearned, UnearnedLink;
      OwedAdopt(g, s, sa, s1, b, t, x, |g|);
    }
  }

  lemma {:induction false} UnearnedLinksOwed(g: seq<Block>, s: seq<Account>, b: nat, i: nat, x: nat)
    requires Accounts(g, s) && b < |g| && i <= |g[b].links| && Clean(s) && DistinctInputs(g) && Total(s) < HALF && s[b].mainRef
    ensures UnearnedLinks(g, s, b, i, x) == Owed(g, s, ApplyLinks(g, s, b, i), x, |g|)
    decreases b, 0, 1 + |g[b].links| - i
  {
    if i == |g[b].links| {
      OwedNothing(g, s, s, x, |g|);
    } else {
      var s1 := VisitLink(g, s, b, i);
      VisitLinkFrame(g, s, b, i);
      ApplyLinksFrame(g, s1, b, i + 1);
      VisitLinkTotal(g, s, b, i);
      UnearnedLinkOwed(g, s, b, i, x);
      UnearnedLinksOwed(g, s1, b, i + 1, x);
      OwedJoin(g, s, s1, ApplyLinks(g, s1, b, i + 1), x, |g|);
    }
  }

  /** In a solvent ledger nobody misses a fee, unless a rejected block carries one. */
  lemma {:induction false} UnearnedZero(g: seq<Block>, s: seq<Account>, b: nat, x: nat)
    requires Accounts(g, s) && b < |g| && Clean(s) && !s[b].mainRef && DistinctInputs(g) && Total(s) < HALF
    requires FeeFree(g, s, Apply(g, s, b).0)
    ensures Unearned(g, s, b, x) == 0 && Apply(g, s, b).1 == g[b].fee
  {
    hide Apply, Unearned, Total;
    ApplyFrame(g, s, b);
    ApplyResult(g, s, b);
    UnearnedIsOwed(g, s, b, x);
    assert New(s, Apply(g, s, b).0, b);
    OwedNothing(g, s, Apply(g, s, b).0, x, |g|);
  }

  /** What account `x` misses after promotion and demotion can be read off the flags in between. */
  lemma {:induction false} LossIsOwed(g: seq<Block>, s: seq<Account>, m: nat, reward: nat, x: nat)
    requires Accounts(g, s) && m < |g| && Clean(s) && !s[m].mainRef && DistinctInputs(g)
    requires s[m].amount + reward < WORD && Total(s) + reward < HALF
    ensures Loss(g, s, m, reward, x) == Owed(g, s, SetMain(g, s, m, reward), x, |g|)
  {
    var s0 := Accept(s, m, reward);
    TotalUpdate(s, m, s[m]);
    TotalUpdate(s, m, s0[m]);
    var (s1, r) := Apply(g, s0, m);
    ApplyFrame(g, s0, m);
    ApplyResult(g, s0, m);
    UnearnedIsOwed(g, s0, m, x);
    var s3 := SetMain(g, s, m, reward);
    hide Apply, Unearned, Total, Wrap;
    assert New(s0, s1, m);
    OwedAdopt(g, s0, s1, s3, m, m, x, |g|);
    forall y | 0 <= y < |g| ensures Owes(g, s, s3, x, y) == Owes(g, s0, s3, x, y) {}
    OwedSame(g, s, s3, s0, s3, x, |g|);
  }

  /**
    In a solvent ledger demoting restores everything exactly when, for every account, the fees of the rejected
    blocks that name it as their adopter sum up to a multiple of 2^64. All of this stands in the flags
    before the demotion.
   */
  lemma {:induction false} DemoteRestoresOwed(g: seq<Block>, s: seq<Account>, m: nat, reward: nat)
    requires Accounts(g, s) && m < |g| && Clean(s) && RefClosed(s) && !s[m].mainRef && DistinctInputs(g)
    requires s[m].amount + reward < WORD && Total(s) + reward < HALF
    ensures UnsetMain(g, SetMain(g, s, m, reward), m, reward) == s
            <==> forall x :: 0 <= x < |g| ==> Owed(g, s, SetMain(g, s, m, reward), x, |g|) % WORD == 0
  {
    hide Loss, SetMain, UnsetMain, Owed, Total, NoCollision, DistinctInputs;
    DemoteRestores(g, s, m, reward);
    SolventNoCollision(g, s, m, reward);
    var s1 := SetMain(g, s, m, reward);
    forall x | 0 <= x < |g| ensures Loss(g, s, m, reward, x) % WORD == 0 <==> Owed(g, s, s1, x, |g|) % WORD == 0 {
      LossIsOwed(g, s, m, reward, x);
    }
    if x :| 0 <= x < |g| && Loss(g, s, m, reward, x) % WORD != 0 {
      assert Owed(g, s, s1, x, |g|) % WORD != 0;
    }
    if x :| 0 <= x < |g| && Owed(g, s, s1, x, |g|) % WORD != 0 {
      assert Loss(g, s, m, reward, x) % WORD != 0;
    }
  }

  /** So it is for a promotion. */
  lemma {:induction false} SolventNoCollision(g: seq<Block>, s: seq<Account>, m: nat, reward: nat)
    requires Accounts(g, s) && m < |g| && Clean(s) && !s[m].mainRef && DistinctInputs(g)
    requires s[m].amount + reward < WORD && Total(s) + reward < HALF
    ensures NoCollision(g, s, SetMain(g, s, m, reward), m)
  {
    hide SetMain, Apply, Total;
    TotalUpdate(s, m, s[m].(amount := s[m].amount + reward));
    ApplyNoCollision(g, Accept(s, m, reward), m);
    SameCollisions(g, s, m, reward);
  }

  /** In a solvent ledger no fee can be as large as the sentinel, so no applied block is mistaken for a referenced one. */
  lemma {:induction false} ApplyNoCollision(g: seq<Block>, s: seq<Account>, b: nat)
    requires Accounts(g, s) && b < |g| && Clean(s) && DistinctInputs(g) && Total(s) < HALF
    ensures NoCollision(g, s, Apply(g, s, b).0, -1)
    decreases b, 1, 0
  {
    if !s[b].mainRef {
      var s0 := s[b := s[b].(mainRef := true)];
      var s2 := ApplyLinks(g, s0, b, 0);
      TotalUpdate(s, b, s0[b]);
      ApplyLinksFrame(g, s0, b, 0);
      ApplyLinksNoCollision(g, s0, b, 0);
      SettleFrame(g, s2, b);
      ApplyTotal(g, s, b);
      ApplyResult(g, s, b);
    }
  }

  lemma {:induction false} VisitLinkNoCollision(g: seq<Block>, s: seq<Account>, b: nat, i: nat)
    requires Accounts(g, s) && b < |g| && i < |g[b].links| && Clean(s) && DistinctInputs(g) && Total(s) < HALF
    ensures NoCollision(g, s, VisitLink(g, s, b, i), -1)
    decreases b, 0, 0
  {
    var t := g[b].links[i].target;
    var (sa, r) := Apply(g, s, t);
    ApplyNoCollision(g, s, t);
    var s1 := VisitLink(g, s, b, i);
    assert s1 == if r == ALREADY then sa else Adopt(sa, b, t, r);
    hide Apply, VisitLink, Total, Wrap;
    assert forall x :: New(s, s1, x) ==> New(s, sa, x);
  }

  lemma {:induction false} NoCollisionJoin(g: seq<Block>, s: seq<Account>, s1: seq<Account>, s2: seq<Account>)
    requires Extends(s, s1) && Extends(s1, s2) && NoCollision(g, s, s1, -1) && NoCollision(g, s1, s2, -1)
    ensures NoCollision(g, s, s2, -1)
  {
    assert forall x :: New(s, s2, x) ==> New(s, s1, x) || New(s1, s2, x);
  }

  lemma {:induction false} ApplyLinksNoCollision(g: seq<Block>, s: seq<Account>, b: nat, i: nat)
    requires Accounts(g, s) && b < |g| && i <= |g[b].links| && Clean(s) && DistinctInputs(g) && Total(s) < HALF && s[b].mainRef
    ensures NoCollision(g, s, ApplyLinks(g, s, b, i), -1)
    decreases b, 0, 1 + |g[b].links| - i
  {
    if i < |g[b].links| {
      var s1 := VisitLink(g, s, b, i);
      VisitLinkFrame(g, s, b, i);
      VisitLinkTotal(g, s, b, i);
      VisitLinkNoCollision(g, s, b, i);
      ApplyLinksFrame(g, s1, b, i + 1);
      ApplyLinksNoCollision(g, s1, b, i + 1);
      NoCollisionJoin(g, s, s1, ApplyLinks(g, s1, b, i + 1));
    }
  }

  /**
    A rejected block that carries a fee makes roll-back inexact: block 0 has a fee of 5 and no money, so it is
    rejected and pays nothing to block 1, yet demoting block 1 takes the 5 back, whatever the reward was.
   */
  lemma {:induction false} RejectedFeeIsLost(g: seq<Block>, s: seq<Account>, reward: Amount)
    requires g == [Block(1, 5, [], 1), Block(2, 0, [Link(0, 0, false)], 1)] && s == [FRESH, FRESH]
    ensures Accounts(g, s) && DistinctInputs(g) && Clean(s) && RefClosed(s)
    ensures UnsetMain(g, SetMain(g, s, 1, reward), 1, reward)[1].amount == WORD - 5
  {
    var s0 := [FRESH, Account(reward, false, false, -1)];
    RejectedApply(g, s0, reward);
    hide Apply, Unapply, Unearned, Cong;
    assert Accept(s, 1, reward) == s0;
    var s1 := [Account(0, true, false, 1), Account(reward, true, true, 1)];
    assert SetMain(g, s, 1, reward) == s1;
    assert Loss(g, s, 1, reward, 1) == 5;
    DemoteExact(g, s, 1, reward, 1);
  }

  lemma {:induction false} RejectedApply(g: seq<Block>, s: seq<Account>, reward: Amount)
    requires g == [Block(1, 5, [], 1), Block(2, 0, [Link(0, 0, false)], 1)] && s == [FRESH, Account(reward, false, false, -1)]
    ensures Accounts(g, s) && Apply(g, s, 1).1 == 0
    ensures Apply(g, s, 1).0 == [Account(0, true, false, 1), Account(reward, true, true, -1)]
    ensures Unearned(g, s, 1, 1) == 5
  {
    var s0 := s[1 := s[1].(mainRef := true)];
    var s1 := s0[0 := s0[0].(mainRef := true)];
    assert g[0].links == [] && g[1].links[0].target == 0;
    assert ApplyLinks(g, s1, 0, 0) == s1;
    assert CheckLinks(g, s1, 0, 0, 0, 5) == Sums(0, 5);
    assert Check(g, s1, 0) == Rejected;
    assert Apply(g, s0, 0) == (s1, 0);
    var s2 := VisitLink(g, s0, 1, 0);
    assert s2 == s1[0 := s1[0].(ref := 1)];
    assert ApplyLinks(g, s2, 1, 1) == s2;
    assert ApplyLinks(g, s0, 1, 0) == s2;
    assert CheckLinks(g, s2, 1, 1, 0, 0) == Sums(0, 0);
    assert Check(g, s2, 1) == Sums(0, 0);
    assert Move(g, s2, 1, 0, false) == s2;
    assert Move(g, s2, 1, 1, false) == s2;
    assert Settle(g, s2, 1).0 == s2[1 := s2[1].(applied := true)];
    assert UnearnedLinks(g, s1, 0, 0, 1) == 0;
    assert Unearned(g, s0, 0, 1) == 0;
    assert UnearnedLink(g, s0, 1, 0, 1) == 5;
    assert UnearnedLinks(g, s2, 1, 1, 1) == 0;
  }
}
