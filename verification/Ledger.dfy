/**
  The money side of client/block.c: `apply_block`, `unapply_block` and the
  accounts they change, as pure functions over immutable ledgers.

  A block is named by its position in the DAG, which is the order in which
  blocks were indexed; `add_block_nolock` only accepts links to blocks that are
  already indexed and strictly earlier in time.
 */
module Ledger {
  import opened Common

  /** `-1l` as an unsigned amount: what `apply_block` returns for a block that is already referenced. */
  const ALREADY: int := WORD - 1

  type Amount = x: int | 0 <= x < WORD

  datatype Link = Link(target: nat, amount: Amount, isInput: bool)

  /** The part of `block_internal` that never changes after the block is indexed. */
  datatype Block = Block(time: nat, fee: Amount, links: seq<Link>, work: nat)

  /** The part that the main-chain logic changes. `ref` is -1 for a null pointer. */
  datatype Account = Account(amount: Amount, mainRef: bool, applied: bool, ref: int)

  const FRESH := Account(0, false, false, -1)

  /** Links go to blocks indexed before and strictly older (client/block.c:622-636). */
  ghost predicate IsDag(g: seq<Block>) {
    forall b, i :: 0 <= b < |g| && 0 <= i < |g[b].links| ==>
      g[b].links[i].target < b && g[g[b].links[i].target].time < g[b].time
  }

  ghost predicate Accounts(g: seq<Block>, s: seq<Account>) {
    IsDag(g) && |s| == |g|
  }

  function Wrap(v: int): (r: Amount)
    ensures 0 <= v < WORD ==> r == v
  {
    v % WORD
  }

  function Accept(s: seq<Account>, b: nat, sum: int): (s': seq<Account>)
    requires b < |s|
    ensures |s'| == |s|
  {
    s[b := s[b].(amount := Wrap(s[b].amount + sum))]
  }

  // ---------------------------------------------------------------- apply_block

  datatype Sums = Rejected | Sums(sumIn: Amount, sumOut: Amount)

  /** The checking loop (client/block.c:228-247), from link `i` on. */
  function CheckLinks(g: seq<Block>, s: seq<Account>, b: nat, i: nat, sumIn: Amount, sumOut: Amount): Sums
    requires Accounts(g, s) && b < |g| && i <= |g[b].links|
    decreases |g[b].links| - i
  {
    if i == |g[b].links| then Sums(sumIn, sumOut)
    else
      var l := g[b].links[i];
      if l.isInput then
        if s[l.target].amount < l.amount || sumIn + l.amount >= WORD then Rejected
        else CheckLinks(g, s, b, i + 1, sumIn + l.amount, sumOut)
      else
        if sumOut + l.amount >= WORD then Rejected
        else CheckLinks(g, s, b, i + 1, sumIn, sumOut + l.amount)
  }

  /** The whole acceptance test of a block whose links have been applied (client/block.c:228-251). */
  function Check(g: seq<Block>, s: seq<Account>, b: nat): Sums
    requires Accounts(g, s) && b < |g|
  {
    match CheckLinks(g, s, b, 0, 0, g[b].fee)
    case Rejected => Rejected
    case Sums(sumIn, sumOut) =>
      if sumIn + s[b].amount >= WORD || sumIn + s[b].amount < sumOut then Rejected else Sums(sumIn, sumOut)
  }

  /** What link `l` adds to its target when the block is applied, or taken `back`. */
  function Credit(l: Link, back: bool): int {
    if l.isInput != back then 0 - l.amount else l.amount
  }

  /** The money-moving loop (client/block.c:253-259) over the first `n` links, or its reversal (275-283). */
  function Move(g: seq<Block>, s: seq<Account>, b: nat, n: nat, back: bool): (s': seq<Account>)
    requires Accounts(g, s) && b < |g| && n <= |g[b].links|
    ensures |s'| == |s|
  {
    if n == 0 then s
    else
      var l := g[b].links[n - 1];
      Accept(Move(g, s, b, n - 1, back), l.target, Credit(l, back))
  }

  /** The second half of `apply_block`: reject the block or move its money and set BI_APPLIED. */
  function Settle(g: seq<Block>, s: seq<Account>, b: nat): (r: (seq<Account>, Amount))
    requires Accounts(g, s) && b < |g|
    ensures |r.0| == |s|
  {
    match Check(g, s, b)
    case Rejected => (s, 0)
    case Sums(sumIn, sumOut) =>
      var s1 := Accept(Move(g, s, b, |g[b].links|, false), b, sumIn - sumOut);
      (s1[b := s1[b].(applied := true)], g[b].fee)
  }

  function Apply(g: seq<Block>, s: seq<Account>, b: nat): (r: (seq<Account>, Amount))
    requires Accounts(g, s) && b < |g|
    ensures |r.0| == |s|
    decreases b, 1, 0
  {
    if s[b].mainRef then (s, ALREADY)
    else Settle(g, ApplyLinks(g, s[b := s[b].(mainRef := true)], b, 0), b)
  }

  /** Adopting a link that has just been applied and returned `fee` (client/block.c:221-224). */
  function Adopt(s: seq<Account>, b: nat, target: nat, fee: Amount): (s': seq<Account>)
    requires b < |s| && target < |s|
    ensures |s'| == |s|
  {
    var s1 := s[target := s[target].(ref := b)];
    if s1[b].amount + fee < WORD then Accept(s1, b, fee) else s1
  }

  /** One round of the first loop of `apply_block` (client/block.c:217-224). */
  function VisitLink(g: seq<Block>, s: seq<Account>, b: nat, i: nat): (s': seq<Account>)
    requires Accounts(g, s) && b < |g| && i < |g[b].links|
    ensures |s'| == |s|
    decreases b, 0, 0
  {
    var t := g[b].links[i].target;
    var (s1, r) := Apply(g, s, t);
    if r == ALREADY then s1 else Adopt(s1, b, t, r)
  }

  /** The first loop of `apply_block` (client/block.c:216-225), from link `i` on. */
  function ApplyLinks(g: seq<Block>, s: seq<Account>, b: nat, i: nat): (s': seq<Account>)
    requires Accounts(g, s) && b < |g| && i <= |g[b].links|
    ensures |s'| == |s|
    decreases b, 0, 1 + |g[b].links| - i
  {
    if i == |g[b].links| then s else ApplyLinks(g, VisitLink(g, s, b, i), b, i + 1)
  }

  // -------------------------------------------------------------- unapply_block

  /** What `unapply_block` gives back to the block itself: fee plus outputs minus inputs. */
  function Returned(links: seq<Link>): int {
    if links == [] then 0 else Returned(links[..|links| - 1]) + Credit(links[|links| - 1], false)
  }

  function Unsettle(g: seq<Block>, s: seq<Account>, b: nat): (s': seq<Account>)
    requires Accounts(g, s) && b < |g|
    ensures |s'| == |s|
  {
    var s1 :=
      if s[b].applied then
        Accept(Move(g, s, b, |g[b].links|, true), b, g[b].fee + Returned(g[b].links))
      else s;
    s1[b := s1[b].(applied := false, mainRef := false, ref := -1)]
  }

  function Unapply(g: seq<Block>, s: seq<Account>, b: nat): (s': seq<Account>)
    requires Accounts(g, s) && b < |g|
    ensures |s'| == |s|
    decreases b, 1, 0
  {
    UnapplyLinks(g, Unsettle(g, s, b), b, 0)
  }

  /** One round of the last loop of `unapply_block` (client/block.c:291-295). */
  function LeaveLink(g: seq<Block>, s: seq<Account>, b: nat, i: nat): (s': seq<Account>)
    requires Accounts(g, s) && b < |g| && i < |g[b].links|
    ensures |s'| == |s|
    decreases b, 0, 0
  {
    var t := g[b].links[i].target;
    if s[t].ref == b && s[t].mainRef then Accept(Unapply(g, s, t), b, 0 - g[t].fee) else s
  }

  /** The last loop of `unapply_block`, from link `i` on. */
  function UnapplyLinks(g: seq<Block>, s: seq<Account>, b: nat, i: nat): (s': seq<Account>)
    requires Accounts(g, s) && b < |g| && i <= |g[b].links|
    ensures |s'| == |s|
    decreases b, 0, 1 + |g[b].links| - i
  {
    if i == |g[b].links| then s else UnapplyLinks(g, LeaveLink(g, s, b, i), b, i + 1)
  }
}
