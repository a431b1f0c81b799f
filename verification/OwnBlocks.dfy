/** The node's own blocks, kept in a list by falling amount (client/block.c:195-206, 2372-2398). */
module OwnBlocks {
  import opened Common
  import opened DList

  type Amounts = map<nat, nat>

  function AmountOf(amount: Amounts, x: int): nat {
    if x >= 0 && x in amount then amount[x] else 0
  }

  ghost predicate Falling(l: seq<nat>, amount: Amounts) {
    forall i, j :: 0 <= i < j < |l| ==> AmountOf(amount, l[i]) >= AmountOf(amount, l[j])
  }

  /** Falling, but for the element at position `p`. */
  ghost predicate FallingBut(l: seq<nat>, amount: Amounts, p: nat) {
    forall i, j :: 0 <= i < j < |l| && i != p && j != p ==> AmountOf(amount, l[i]) >= AmountOf(amount, l[j])
  }

  function Sum(l: seq<nat>, amount: Amounts): nat {
    if l == [] then 0 else Sum(l[..|l| - 1], amount) + AmountOf(amount, l[|l| - 1])
  }

  lemma {:induction false} SumJoin(a: seq<nat>, b: seq<nat>, amount: Amounts)
    ensures Sum(a + b, amount) == Sum(a, amount) + Sum(b, amount)
  {
    if b == [] {
      assert a + b == a;
    } else {
      var c := b[..|b| - 1];
      assert (a + b)[..|a + b| - 1] == a + c;
      SumJoin(a, c, amount);
    }
  }

  lemma {:induction false} SumSwap(l: seq<nat>, i: nat, amount: Amounts)
    requires i + 1 < |l|
    ensures Sum(Swapped(l, i), amount) == Sum(l, amount)
  {
    hide Sum;
    var a, b := l[..i], l[i + 2..];
    var u, v := l[i], l[i + 1];
    assert l == a + ([u] + [v]) + b && Swapped(l, i) == a + ([v] + [u]) + b;
    SumFour(a, [u], [v], b, amount);
    SumFour(a, [v], [u], b, amount);
  }

  lemma {:induction false} SwapPermutes(l: seq<nat>, i: nat)
    requires i + 1 < |l|
    ensures multiset(Swapped(l, i)) == multiset(l)
  {}

  lemma {:induction false} SumFour(a: seq<nat>, u: seq<nat>, v: seq<nat>, b: seq<nat>, amount: Amounts)
    ensures Sum(a + (u + v) + b, amount) == Sum(a, amount) + Sum(u, amount) + Sum(v, amount) + Sum(b, amount)
  {
    hide Sum;
    SumJoin(a + (u + v), b, amount);
    SumJoin(a, u + v, amount);
    SumJoin(u, v, amount);
  }

  /** Changing the amount of one listed block changes the sum by as much. */
  lemma {:induction false} SumUpdate(l: seq<nat>, p: nat, amount: Amounts, v: nat)
    requires NoRepeat(l) && p < |l|
    ensures Sum(l, amount[l[p] := v]) == Sum(l, amount) - AmountOf(amount, l[p]) + v
  {
    var n := |l| - 1;
    if p == n {
      SumElsewhere(l[..n], l[p], amount, v);
    } else {
      SumUpdate(l[..n], p, amount, v);
    }
  }

  lemma {:induction false} SumElsewhere(l: seq<nat>, x: nat, amount: Amounts, v: nat)
    requires x !in l
    ensures Sum(l, amount[x := v]) == Sum(l, amount)
  {
    if l != [] {
      SumElsewhere(l[..|l| - 1], x, amount, v);
    }
  }

  lemma {:induction false} SwapFalling(l: seq<nat>, amount: Amounts, i: nat, p: nat)
    requires i + 1 < |l| && (p == i || p == i + 1) && FallingBut(l, amount, p)
    ensures FallingBut(Swapped(l, i), amount, i + (i + 1) - p)
  {}

  /** In its right place between its neighbours, the element leaves the whole list falling. */
  lemma {:induction false} PlaceFalling(l: seq<nat>, amount: Amounts, p: nat)
    requires p < |l| && FallingBut(l, amount, p)
    requires p > 0 ==> AmountOf(amount, l[p - 1]) >= AmountOf(amount, l[p])
    requires p + 1 < |l| ==> AmountOf(amount, l[p]) >= AmountOf(amount, l[p + 1])
    ensures Falling(l, amount)
  {
    forall i, j | 0 <= i < j < |l| ensures AmountOf(amount, l[i]) >= AmountOf(amount, l[j]) {
      if i == p {
        assert AmountOf(amount, l[p + 1]) >= AmountOf(amount, l[j]) || j == p + 1;
      } else if j == p {
        assert AmountOf(amount, l[i]) >= AmountOf(amount, l[p - 1]) || i == p - 1;
      }
    }
  }

  /** A credit to one block leaves the others falling and moves the sum by as much, modulo 2^64. */
  lemma {:induction false} Credited(l: seq<nat>, p: nat, amount: Amounts, sum: nat)
    requires NoRepeat(l) && p < |l| && l[p] in amount && Falling(l, amount)
    ensures var now := amount[l[p] := (amount[l[p]] + sum) % WORD];
      FallingBut(l, now, p) && Sum(l, now) % WORD == (Sum(l, amount) % WORD + sum) % WORD
  {
    hide Sum;
    SumUpdate(l, p, amount, (amount[l[p]] + sum) % WORD);
    Shifted(Sum(l, amount), amount[l[p]], sum);
  }

  class Own {
    const blocks: List
    var amount: Amounts
    var balance: nat

    ghost predicate Valid()
      reads this, blocks
    {
      && blocks.Valid()
      && Falling(blocks.list, amount)
      && balance == Sum(blocks.list, amount) % WORD
      && forall x :: x in amount ==> amount[x] < WORD
    }

    constructor ()
      ensures Valid() && blocks.list == [] && fresh(blocks)
    {
      blocks := new List();
      amount, balance := map[], 0;
    }

    /** `add_ourblock`: a new block has amount zero, so the end of the list is its place. */
    method Add(x: nat)
      requires Valid() && x !in blocks.list && x !in amount
      modifies this, blocks
      ensures Valid() && blocks.list == old(blocks.list) + [x] && balance == old(balance)
    {
      ghost var l := blocks.list;
      blocks.Append(x);
      SumElsewhere(l, x, amount, 0);
      amount := amount[x := 0];
      assert blocks.list[..|l|] == l;
    }

    /** `order_ourblocks_by_amount`: both loops end, and the block stands in its place. */
    method Order(x: nat, ghost at: nat)
      requires blocks.Valid() && at < |blocks.list| && blocks.list[at] == x && FallingBut(blocks.list, amount, at)
      modifies blocks
      ensures blocks.Valid() && Falling(blocks.list, amount)
      ensures multiset(blocks.list) == multiset(old(blocks.list)) && Sum(blocks.list, amount) == old(Sum(blocks.list, amount))
    {
      ghost var p := Rise(x, at);
      p := Sink(x, p);
      PlaceFalling(blocks.list, amount, p);
    }

    /** The first loop (client/block.c:2375-2382): past every predecessor that holds less. */
    method Rise(x: nat, ghost at: nat) returns (ghost p: nat)
      requires blocks.Valid() && at < |blocks.list| && blocks.list[at] == x && FallingBut(blocks.list, amount, at)
      modifies blocks
      ensures blocks.Valid() && p < |blocks.list| && blocks.list[p] == x && FallingBut(blocks.list, amount, p)
      ensures multiset(blocks.list) == multiset(old(blocks.list)) && Sum(blocks.list, amount) == old(Sum(blocks.list, amount))
      ensures p > 0 ==> AmountOf(amount, blocks.list[p - 1]) >= AmountOf(amount, x)
    {
      hide Strung, Swapped, Sum;
      p := at;
      Around(blocks.cells, blocks.first, blocks.last, blocks.list, p);
      while blocks.cells[x].prev != NIL && AmountOf(amount, x) > AmountOf(amount, blocks.cells[x].prev)
        invariant blocks.Valid() && 0 <= p < |blocks.list| && blocks.list[p] == x && FallingBut(blocks.list, amount, p)
        invariant x in blocks.cells && blocks.cells[x] == Cell(Before(blocks.list, p), After(blocks.list, p))
        invariant multiset(blocks.list) == multiset(old(blocks.list)) && Sum(blocks.list, amount) == old(Sum(blocks.list, amount))
        decreases p
      {
        SwapFalling(blocks.list, amount, p - 1, p);
        SumSwap(blocks.list, p - 1, amount);
        SwapPermutes(blocks.list, p - 1);
        SwapAt(blocks.list, p - 1);
        blocks.MoveUp(x, p);
        p := p - 1;
        Around(blocks.cells, blocks.first, blocks.last, blocks.list, p);
      }
    }

    /** The second loop (client/block.c:2383-2390): past every successor that holds more. */
    method Sink(x: nat, ghost at: nat) returns (ghost p: nat)
      requires blocks.Valid() && at < |blocks.list| && blocks.list[at] == x && FallingBut(blocks.list, amount, at)
      requires at > 0 ==> AmountOf(amount, blocks.list[at - 1]) >= AmountOf(amount, x)
      modifies blocks
      ensures blocks.Valid() && p < |blocks.list| && blocks.list[p] == x && FallingBut(blocks.list, amount, p)
      ensures multiset(blocks.list) == multiset(old(blocks.list)) && Sum(blocks.list, amount) == old(Sum(blocks.list, amount))
      ensures p > 0 ==> AmountOf(amount, blocks.list[p - 1]) >= AmountOf(amount, x)
      ensures p + 1 < |blocks.list| ==> AmountOf(amount, x) >= AmountOf(amount, blocks.list[p + 1])
    {
      hide Strung, Swapped, Sum;
      p := at;
      Around(blocks.cells, blocks.first, blocks.last, blocks.list, p);
      while blocks.cells[x].next != NIL && AmountOf(amount, x) < AmountOf(amount, blocks.cells[x].next)
        invariant blocks.Valid() && 0 <= p < |blocks.list| && blocks.list[p] == x && FallingBut(blocks.list, amount, p)
        invariant x in blocks.cells && blocks.cells[x] == Cell(Before(blocks.list, p), After(blocks.list, p))
        invariant multiset(blocks.list) == multiset(old(blocks.list)) && Sum(blocks.list, amount) == old(Sum(blocks.list, amount))
        invariant p > 0 ==> AmountOf(amount, blocks.list[p - 1]) >= AmountOf(amount, x)
        decreases |blocks.list| - p
      {
        SwapFalling(blocks.list, amount, p, p);
        SumSwap(blocks.list, p, amount);
        SwapPermutes(blocks.list, p);
        SwapAt(blocks.list, p);
        blocks.MoveDown(x, p);
        p := p + 1;
        Around(blocks.cells, blocks.first, blocks.last, blocks.list, p);
      }
    }

    /** `accept_amount` on an own block. */
    method Accept(x: nat, sum: nat)
      requires Valid() && x in blocks.list && x in amount && sum < WORD
      modifies this, blocks
      ensures Valid() && multiset(blocks.list) == multiset(old(blocks.list))
      ensures amount == old(amount)[x := (old(amount[x]) + sum) % WORD] && balance == (old(balance) + sum) % WORD
    {
      hide Strung, Sum, Falling, FallingBut;
      if sum == 0 { return; }
      ghost var l := blocks.list;
      ghost var p :| 0 <= p < |l| && l[p] == x;
      Spread(blocks.cells, blocks.first, blocks.last, l);
      Credited(l, p, amount, sum);
      amount := amount[x := (amount[x] + sum) % WORD];
      balance := (balance + sum) % WORD;
      Order(x, p);
    }
  }

  lemma {:induction false} SwapAt(l: seq<nat>, i: nat)
    requires i + 1 < |l|
    ensures Swapped(l, i)[i] == l[i + 1] && Swapped(l, i)[i + 1] == l[i] && |Swapped(l, i)| == |l|
  {}

  lemma {:induction false} Shifted(total: int, a: nat, sum: nat)
    ensures (total - a + (a + sum) % WORD) % WORD == (total % WORD + sum) % WORD
  {
    var q := (a + sum) / WORD;
    assert (a + sum) % WORD == a + sum - q * WORD;
    var p := total / WORD;
    assert total % WORD == total - p * WORD;
    SameRest(total + sum, q);
    SameRest(total + sum, p);
  }

  lemma {:induction false} SameRest(x: int, k: int)
    ensures (x - k * WORD) % WORD == x % WORD
  {}
}
