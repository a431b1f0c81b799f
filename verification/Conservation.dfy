/**
  Money is neither created nor destroyed by `apply_block`: the fee leaves the
  applied block and goes to whoever adopts it, everything else is a transfer.
 */
module Conservation {
  import opened Common
  import opened Ledger
  import opened Undo

  const HALF: int := 0x8000_0000_0000_0000

  function Total(s: seq<Account>): (t: nat)
  {
    if s == [] then 0 else Total(s[..|s| - 1]) + s[|s| - 1].amount
  }

  lemma {:induction false} TotalUpdate(s: seq<Account>, x: nat, a: Account)
    requires x < |s|
    ensures Total(s[x := a]) == Total(s) - s[x].amount + a.amount
    ensures s[x].amount <= Total(s)
  {
    var n := |s| - 1;
    if x == n {
      assert s[x := a][..n] == s[..n];
    } else {
      assert s[x := a][..n] == s[..n][x := a];
      TotalUpdate(s[..n], x, a);
    }
  }

  /** The same source is not named twice among the inputs of one block. */
  ghost predicate DistinctInputs(g: seq<Block>) {
    forall b :: 0 <= b < |g| ==> Distinct(g[b].links)
  }

  ghost predicate Distinct(links: seq<Link>) {
    forall i, j :: 0 <= i < j < |links| && links[i].isInput && links[j].isInput ==> links[i].target != links[j].target
  }

  function Outs(links: seq<Link>): (t: nat)
    ensures Returned(links) <= t
  {
    if links == [] then 0
    else
      var l := links[|links| - 1];
      Outs(links[..|links| - 1]) + if l.isInput then 0 else l.amount
  }

  lemma {:induction false} OutsMonotonic(links: seq<Link>, n: nat)
    requires n <= |links|
    ensures Outs(links[..n]) <= Outs(links)
    decreases |links|
  {
    if n < |links| {
      OutsMonotonic(links[..|links| - 1], n);
      assert links[..|links| - 1][..n] == links[..n];
    } else {
      assert links[..n] == links;
    }
  }

  /**
    Inputs that pass the checks are covered: together with the block's own balance
    they never exceed the money in the ledger. `z` is the ledger with the inputs
    before link `i` already withdrawn.
   */
  lemma {:induction false} InputsCovered(g: seq<Block>, s: seq<Account>, b: nat, i: nat,
                                         sumIn: Amount, sumOut: Amount, z: seq<Account>)
    requires Accounts(g, s) && b < |g| && i <= |g[b].links| && |z| == |s| && Distinct(g[b].links)
    requires forall j :: i <= j < |g[b].links| && g[b].links[j].isInput ==> z[g[b].links[j].target] == s[g[b].links[j].target]
    ensures var c := CheckLinks(g, s, b, i, sumIn, sumOut); c.Sums? ==>
              && c.sumIn - sumIn + z[b].amount <= Total(z)
              && c.sumOut - sumOut == Outs(g[b].links) - Outs(g[b].links[..i])
    decreases |g[b].links| - i
  {
    hide Total, Returned;
    var links := g[b].links;
    if i == |links| {
      TotalUpdate(z, b, z[b]);
      assert links[..i] == links;
    } else {
      var l := links[i];
      assert links[..i + 1][..i] == links[..i];
      if l.isInput {
        if !(s[l.target].amount < l.amount || sumIn + l.amount >= WORD) {
          var a := z[l.target].(amount := z[l.target].amount - l.amount);
          TotalUpdate(z, l.target, a);
          InputsCovered(g, s, b, i + 1, sumIn + l.amount, sumOut, z[l.target := a]);
        }
      } else if !(sumOut + l.amount >= WORD) {
        InputsCovered(g, s, b, i + 1, sumIn, sumOut + l.amount, z);
      }
    }
  }

  /** Every input of an accepted block is backed by its source. */
  lemma {:induction false} InputsBacked(g: seq<Block>, s: seq<Account>, b: nat, i: nat,
                                        sumIn: Amount, sumOut: Amount, k: nat)
    requires Accounts(g, s) && b < |g| && i <= k < |g[b].links| && g[b].links[k].isInput
    requires CheckLinks(g, s, b, i, sumIn, sumOut).Sums?
    ensures g[b].links[k].amount <= s[g[b].links[k].target].amount
    decreases |g[b].links| - i
  {
    var l := g[b].links[i];
    if i < k {
      if l.isInput {
        InputsBacked(g, s, b, i + 1, sumIn + l.amount, sumOut, k);
      } else {
        InputsBacked(g, s, b, i + 1, sumIn, sumOut + l.amount, k);
      }
    }
  }

  function Ins(links: seq<Link>): (t: nat)
  {
    if links == [] then 0
    else
      var l := links[|links| - 1];
      Ins(links[..|links| - 1]) + if l.isInput then l.amount else 0
  }

  /** Each input among the first `n` links is at most what its source holds. */
  ghost predicate Covered(s: seq<Account>, links: seq<Link>, n: nat)
    requires n <= |links| && forall k :: 0 <= k < |links| ==> links[k].target < |s|
  {
    forall k :: 0 <= k < n && links[k].isInput ==> links[k].amount <= s[links[k].target].amount
  }

  lemma {:induction false} SumsStep(links: seq<Link>, i: nat)
    requires i < |links|
    ensures Ins(links[..i + 1]) == Ins(links[..i]) + if links[i].isInput then links[i].amount else 0
    ensures Outs(links[..i + 1]) == Outs(links[..i]) + if links[i].isInput then 0 else links[i].amount
  {
    assert links[..i + 1][..i] == links[..i];
  }

  lemma {:induction false} SumsGrow(links: seq<Link>, i: nat)
    requires i <= |links|
    ensures Ins(links[..i]) <= Ins(links) && Outs(links[..i]) <= Outs(links)
    decreases |links| - i
  {
    hide Ins, Outs;
    if i < |links| {
      SumsStep(links, i);
      SumsGrow(links, i + 1);
    } else {
      assert links[..i] == links;
    }
  }

  /** The checking loop passes exactly if every input is covered and neither sum overflows, and then returns the sums. */
  lemma {:induction false} LinksPass(g: seq<Block>, s: seq<Account>, b: nat, i: nat, sumIn: Amount, sumOut: Amount)
    requires Accounts(g, s) && b < |g| && i <= |g[b].links|
    requires sumIn == Ins(g[b].links[..i]) && sumOut == g[b].fee + Outs(g[b].links[..i]) && Covered(s, g[b].links, i)
    ensures var links := g[b].links; var c := CheckLinks(g, s, b, i, sumIn, sumOut);
            && (c.Sums? <==> Covered(s, links, |links|) && Ins(links) < WORD && g[b].fee + Outs(links) < WORD)
            && (c.Sums? ==> c.sumIn == Ins(links) && c.sumOut == g[b].fee + Outs(links))
    decreases |g[b].links| - i
  {
    hide Ins, Outs;
    var links := g[b].links;
    if i == |links| {
      assert links[..i] == links;
    } else {
      var l := links[i];
      SumsStep(links, i);
      SumsGrow(links, i + 1);
      if l.isInput {
        if !(s[l.target].amount < l.amount || sumIn + l.amount >= WORD) {
          LinksPass(g, s, b, i + 1, sumIn + l.amount, sumOut);
        }
      } else if !(sumOut + l.amount >= WORD) {
        LinksPass(g, s, b, i + 1, sumIn, sumOut + l.amount);
      }
    }
  }

  /**
    When `apply_block` accepts a block whose links have been applied: every input is at most what its source holds,
    inputs and own balance fit in 64 bits, and they pay for the outputs and the fee.
   */
  lemma {:induction false} AcceptedWhen(g: seq<Block>, s: seq<Account>, b: nat)
    requires Accounts(g, s) && b < |g|
    ensures var links := g[b].links; var c := Check(g, s, b);
            && (c.Sums? <==>
                  && (forall k :: 0 <= k < |links| && links[k].isInput ==> links[k].amount <= s[links[k].target].amount)
                  && Ins(links) + s[b].amount < WORD && g[b].fee + Outs(links) < WORD
                  && Ins(links) + s[b].amount >= g[b].fee + Outs(links))
            && (c.Sums? ==> c == Sums(Ins(links), g[b].fee + Outs(links)))
  {
    hide CheckLinks;
    assert g[b].links[..0] == [];
    LinksPass(g, s, b, 0, 0, g[b].fee);
  }

  /** No link of the first `n` of `b` draws on account `x`. */
  ghost predicate Undrawn(g: seq<Block>, b: nat, n: nat, x: nat)
    requires b < |g|
  {
    forall j :: 0 <= j < n && j < |g[b].links| && g[b].links[j].isInput ==> g[b].links[j].target != x
  }

  /** Everything `b` draws is there, and it pays out no more than the ledger holds. */
  ghost predicate Backed(g: seq<Block>, s: seq<Account>, b: nat)
    requires Accounts(g, s) && b < |g|
  {
    && Distinct(g[b].links)
    && Outs(g[b].links) <= Total(s) < HALF
    && forall k :: 0 <= k < |g[b].links| && g[b].links[k].isInput ==>
         g[b].links[k].amount <= s[g[b].links[k].target].amount
  }

  /** A block that passes the checks is backed (client/block.c:229-251). */
  lemma {:induction false} CheckedIsBacked(g: seq<Block>, s: seq<Account>, b: nat)
    requires Accounts(g, s) && b < |g| && Distinct(g[b].links) && Total(s) < HALF && Check(g, s, b).Sums?
    ensures Backed(g, s, b)
  {
    assert g[b].links[..0] == [];
    InputsCovered(g, s, b, 0, 0, g[b].fee, s);
    forall k | 0 <= k < |g[b].links| && g[b].links[k].isInput
      ensures g[b].links[k].amount <= s[g[b].links[k].target].amount
    {
      InputsBacked(g, s, b, 0, 0, g[b].fee, k);
    }
  }

  /** While a backed block moves its money, no balance wraps around. */
  lemma {:induction false} MoveTotal(g: seq<Block>, s: seq<Account>, b: nat, n: nat)
    requires Accounts(g, s) && b < |g| && n <= |g[b].links| && Backed(g, s, b)
    ensures var m := Move(g, s, b, n, false);
            && Total(m) == Total(s) + Returned(g[b].links[..n])
            && (forall x :: 0 <= x < |s| && Undrawn(g, b, n, x) ==> s[x].amount <= m[x].amount)
  {
    hide Move, Wrap, Total, Returned, Outs, Backed;
    MoveUnfold(g, s, b, n);
    if n > 0 {
      var l := g[b].links[n - 1];
      var p := Move(g, s, b, n - 1, false);
      MoveTotal(g, s, b, n - 1);
      MoveStep(g, s, b, n);
      TotalUpdate(p, l.target, p[l.target].(amount := p[l.target].amount + Credit(l, false)));
      forall x | 0 <= x < |s| && Undrawn(g, b, n, x) ensures s[x].amount <= Move(g, s, b, n, false)[x].amount {
        assert Undrawn(g, b, n - 1, x);
      }
    }
  }

  /** Every link of a block that passes the checks is covered at the moment its amount is moved. */
  lemma {:induction false} DrawnIsCovered(g: seq<Block>, s: seq<Account>, b: nat, k: nat)
    requires Accounts(g, s) && b < |g| && Distinct(g[b].links) && Total(s) < HALF && Check(g, s, b).Sums? && k < |g[b].links|
    ensures var l := g[b].links[k];
            0 <= Move(g, s, b, k, false)[l.target].amount + Credit(l, false) < WORD
  {
    hide Move, Total, Check, Returned;
    CheckedIsBacked(g, s, b);
    MoveTotal(g, s, b, k);
    MoveStep(g, s, b, k + 1);
  }

  lemma {:induction false} MoveUnfold(g: seq<Block>, s: seq<Account>, b: nat, n: nat)
    requires Accounts(g, s) && b < |g| && n <= |g[b].links|
    ensures n == 0 ==> Move(g, s, b, n, false) == s && Returned(g[b].links[..n]) == 0
    ensures n > 0 ==>
              var l := g[b].links[n - 1];
              && Move(g, s, b, n, false) == Accept(Move(g, s, b, n - 1, false), l.target, Credit(l, false))
              && Returned(g[b].links[..n]) == Returned(g[b].links[..n - 1]) + Credit(l, false)
  {
    if n > 0 {
      assert g[b].links[..n][..n - 1] == g[b].links[..n - 1];
    }
  }

  lemma {:induction false} MoveStep(g: seq<Block>, s: seq<Account>, b: nat, n: nat)
    requires Accounts(g, s) && b < |g| && 0 < n <= |g[b].links| && Backed(g, s, b)
    requires var p := Move(g, s, b, n - 1, false);
            && Total(p) == Total(s) + Returned(g[b].links[..n - 1])
            && (forall x :: 0 <= x < |s| && Undrawn(g, b, n - 1, x) ==> s[x].amount <= p[x].amount)
    ensures var l := g[b].links[n - 1];
            0 <= Move(g, s, b, n - 1, false)[l.target].amount + Credit(l, false) < WORD
  {
    var links := g[b].links;
    var l := links[n - 1];
    var p := Move(g, s, b, n - 1, false);
    hide Move, Returned;
    if l.isInput {
      assert Undrawn(g, b, n - 1, l.target);
    } else {
      assert links[..n][..n - 1] == links[..n - 1];
      OutsMonotonic(links, n);
      TotalUpdate(p, l.target, p[l.target]);
    }
  }

  /** What an accepted block leaves, written as one update of the moved accounts. */
  lemma {:induction false} SettledIs(g: seq<Block>, s: seq<Account>, b: nat)
    requires Accounts(g, s) && b < |g| && Check(g, s, b).Sums?
    ensures var m := Move(g, s, b, |g[b].links|, false); var c := Check(g, s, b);
            Settle(g, s, b) == (m[b := m[b].(amount := Wrap(m[b].amount + c.sumIn - c.sumOut), applied := true)], g[b].fee)
  {
    hide Move, Check, Wrap;
    var m, c := Move(g, s, b, |g[b].links|, false), Check(g, s, b);
    var a := m[b].(amount := Wrap(m[b].amount + (c.sumIn - c.sumOut)), applied := true);
    assert m[b := m[b].(amount := a.amount)][b := a] == m[b := a];
  }

  /** Settling a block takes exactly the returned fee out of the ledger. */
  lemma {:induction false} SettleTotal(g: seq<Block>, s: seq<Account>, b: nat)
    requires Accounts(g, s) && b < |g| && Distinct(g[b].links) && Total(s) < HALF
    ensures var (s1, r) := Settle(g, s, b); Total(s1) + r == Total(s)
  {
    hide Move, CheckLinks, Total, Backed, Returned;
    match Check(g, s, b)
    case Rejected =>
    case Sums(sumIn, sumOut) =>
      var n := |g[b].links|;
      var m := Move(g, s, b, n, false);
      assert g[b].links[..n] == g[b].links && g[b].links[..0] == [];
      CheckedIsBacked(g, s, b);
      MoveTotal(g, s, b, n);
      MoveKeepsFlags(g, s, b, n, false);
      assert m[b] == s[b];
      CheckLinksSums(g, s, b, 0, 0, g[b].fee);
      NothingReturned();
      SettledIs(g, s, b);
      TotalUpdate(m, b, m[b].(amount := m[b].amount + sumIn - sumOut, applied := true));
  }

  lemma {:induction false} NothingReturned()
    ensures Returned([]) == 0
  {}

  /** Conservation for `apply_block`: what leaves the ledger is the fee it returns. */
  lemma {:induction false} ApplyTotal(g: seq<Block>, s: seq<Account>, b: nat)
    requires Accounts(g, s) && b < |g| && DistinctInputs(g) && Total(s) < HALF
    ensures var (s1, r) := Apply(g, s, b);
            if s[b].mainRef then s1 == s && r == ALREADY else Total(s1) + r == Total(s)
    decreases b, 1, 0
  {
    if !s[b].mainRef {
      var s0 := s[b := s[b].(mainRef := true)];
      TotalUpdate(s, b, s0[b]);
      ApplyLinksTotal(g, s0, b, 0);
      SettleTotal(g, ApplyLinks(g, s0, b, 0), b);
    }
  }

  lemma {:induction false} VisitLinkTotal(g: seq<Block>, s: seq<Account>, b: nat, i: nat)
    requires Accounts(g, s) && b < |g| && i < |g[b].links| && DistinctInputs(g) && Total(s) < HALF
    ensures Total(VisitLink(g, s, b, i)) == Total(s)
    decreases b, 0, 0
  {
    hide Apply, Total, Adopt;
    var t := g[b].links[i].target;
    ApplyTotal(g, s, t);
    var (sa, r) := Apply(g, s, t);
    if r != ALREADY {
      AdoptTotal(sa, b, t, r);
    }
  }

  /** Adopting a link hands the returned fee to the adopter. */
  lemma {:induction false} AdoptTotal(s: seq<Account>, b: nat, t: nat, fee: Amount)
    requires b < |s| && t < |s| && Total(s) + fee < HALF
    ensures Total(Adopt(s, b, t, fee)) == Total(s) + fee
  {
    hide Total;
    var s1 := s[t := s[t].(ref := b)];
    TotalUpdate(s, t, s1[t]);
    TotalUpdate(s1, b, s1[b]);
    TotalUpdate(s1, b, s1[b].(amount := s1[b].amount + fee));
  }

  lemma {:induction false} ApplyLinksTotal(g: seq<Block>, s: seq<Account>, b: nat, i: nat)
    requires Accounts(g, s) && b < |g| && i <= |g[b].links| && DistinctInputs(g) && Total(s) < HALF
    ensures Total(ApplyLinks(g, s, b, i)) == Total(s)
    decreases b, 0, 1 + |g[b].links| - i
  {
    if i < |g[b].links| {
      VisitLinkTotal(g, s, b, i);
      ApplyLinksTotal(g, VisitLink(g, s, b, i), b, i + 1);
    }
  }

  // ------------------------------------------------------ when inputs are repeated

  /** What settling the accepted block `b` should add to account `x`. */
  function Net(g: seq<Block>, b: nat, x: nat): int
    requires b < |g|
  {
    Moved(g[b].links, x, false) - if x == b then g[b].fee + Returned(g[b].links) else 0
  }

  /**
    Settling an accepted block changes account `x` by its net amount, without wrapping around, exactly
    when the account can pay what all links together draw from it (and hold what they bring). The checks
    of `apply_block` look at each input alone, so they guarantee this only if no source is named twice.
   */
  lemma {:induction false} SettleWraps(g: seq<Block>, s: seq<Account>, b: nat, x: nat)
    requires Accounts(g, s) && b < |g| && x < |g| && Check(g, s, b).Sums?
    ensures Settle(g, s, b).0[x].amount == s[x].amount + Net(g, b, x)
            <==> 0 <= s[x].amount + Net(g, b, x) < WORD
  {
    hide Wrap, Cong, Check, Settle;
    var n := |g[b].links|;
    var u := s[b := s[b].(applied := true)];
    var ret := if x == b then g[b].fee + Returned(g[b].links) else 0;
    var m := Move(g, s, b, n, false)[x].amount;
    assert g[b].links[..n] == g[b].links;
    SettleAmounts(g, s, b, u, x);
    MoveAmount(g, s, b, n, false, x);
    CongWrap(m - ret);
    CongAdd(m, s[x].amount + Moved(g[b].links, x, false), Wrap(m - ret), m - ret,
            Settle(g, s, b).0[x].amount, s[x].amount + Net(g, b, x));
    if 0 <= s[x].amount + Net(g, b, x) < WORD {
      CongEqual(Settle(g, s, b).0[x].amount, s[x].amount + Net(g, b, x));
    }
  }
}
