/**
  Block rewards and the total supply (client/block.c:300-344).
 */
module Supply {
  const MAIN_START_AMOUNT: nat := 0x400_0000_0000      // 1 << 42
  const MAIN_APOLLO_AMOUNT: nat := 0x80_0000_0000      // 1 << 39
  const MAIN_APOLLO_HEIGHT: nat := 1017323
  const MAIN_APOLLO_TESTNET_HEIGHT: nat := 196250
  const BIG_PERIOD: nat := 0x20_0000                   // 1 << MAIN_BIG_PERIOD_LOG

  function ForkHeight(testnet: bool): (r: nat)
    ensures 1 < r < BIG_PERIOD / 2
  {
    if testnet then MAIN_APOLLO_TESTNET_HEIGHT else MAIN_APOLLO_HEIGHT
  }

  /** `get_start_amount` */
  function StartAmount(testnet: bool, nmain: nat): nat {
    if nmain >= ForkHeight(testnet) then MAIN_APOLLO_AMOUNT else MAIN_START_AMOUNT
  }

  /** `a >> k`, halving `k` times. */
  function Shr(a: nat, k: nat): nat {
    if k == 0 then a else Shr(a, k - 1) / 2
  }

  /** `get_amount`: the reward of the main block at this height. */
  function Reward(testnet: bool, height: nat): nat {
    Shr(StartAmount(testnet, height), height / BIG_PERIOD)
  }

  /** One start amount before the fork, and after it the other, halved with every big period. */
  lemma {:induction false} RewardHalves(testnet: bool, height: nat)
    ensures height < ForkHeight(testnet) ==> Reward(testnet, height) == MAIN_START_AMOUNT
    ensures ForkHeight(testnet) <= height < BIG_PERIOD ==> Reward(testnet, height) == MAIN_APOLLO_AMOUNT
    ensures height >= ForkHeight(testnet) ==> Reward(testnet, height + BIG_PERIOD) == Reward(testnet, height) / 2
  {
    assert (height + BIG_PERIOD) / BIG_PERIOD == height / BIG_PERIOD + 1;
  }

  /** The rewards of heights 1..n. */
  function Minted(testnet: bool, n: nat): nat {
    if n == 0 then 0 else Minted(testnet, n - 1) + Reward(testnet, n)
  }

  /** The rewards of heights 0..n-1 if every height paid the later, smaller start amount. */
  function Apollo(n: nat): nat {
    if n == 0 then 0 else Apollo(n - 1) + Shr(MAIN_APOLLO_AMOUNT, (n - 1) / BIG_PERIOD)
  }

  /** `Minted` in terms of the single-rate schedule. */
  lemma {:induction false} MintedIsApollo(testnet: bool, n: nat)
    ensures n < ForkHeight(testnet) ==> Minted(testnet, n) == n * MAIN_START_AMOUNT
    ensures n >= ForkHeight(testnet) ==>
              Minted(testnet, n) + MAIN_APOLLO_AMOUNT
              == Apollo(n + 1) + (ForkHeight(testnet) - 1) * (MAIN_START_AMOUNT - MAIN_APOLLO_AMOUNT)
  {
    if n > 0 {
      MintedIsApollo(testnet, n - 1);
      if n == ForkHeight(testnet) {
        ApolloFirstPeriod(n);
      }
    }
  }

  lemma {:induction false} ApolloFirstPeriod(n: nat)
    requires n <= BIG_PERIOD
    ensures Apollo(n) == n * MAIN_APOLLO_AMOUNT
  {
    if n > 0 {
      ApolloFirstPeriod(n - 1);
    }
  }

  /** The remaining rewards of the current period and of all later ones always fit under 2^61. */
  lemma {:induction false} ApolloBound(n: nat)
    ensures var k, r := n / BIG_PERIOD, n % BIG_PERIOD;
            Apollo(n + 1) + (2 * BIG_PERIOD - 1 - r) * Shr(MAIN_APOLLO_AMOUNT, k) <= 2 * BIG_PERIOD * MAIN_APOLLO_AMOUNT
  {
    if n > 0 {
      ApolloBound(n - 1);
      var k, r := n / BIG_PERIOD, n % BIG_PERIOD;
      var a := Shr(MAIN_APOLLO_AMOUNT, k);
      if r == 0 {
        assert (n - 1) / BIG_PERIOD == k - 1 && (n - 1) % BIG_PERIOD == BIG_PERIOD - 1;
        var b := Shr(MAIN_APOLLO_AMOUNT, k - 1);
        assert a == b / 2;
        assert Apollo(n) + BIG_PERIOD * b <= 2 * BIG_PERIOD * MAIN_APOLLO_AMOUNT;
      } else {
        assert (n - 1) / BIG_PERIOD == k && (n - 1) % BIG_PERIOD == r - 1;
        assert (2 * BIG_PERIOD - 1 - (r - 1)) * a == (2 * BIG_PERIOD - 1 - r) * a + a;
      }
    }
  }

  lemma {:induction false} ApolloTotal(n: nat)
    ensures Apollo(n) <= 0x2000_0000_0000_0000
  {
    if n > 0 {
      ApolloBound(n - 1);
      Product(2 * BIG_PERIOD - 1 - (n - 1) % BIG_PERIOD, Shr(MAIN_APOLLO_AMOUNT, (n - 1) / BIG_PERIOD));
    }
  }

  lemma {:induction false} Product(a: nat, b: nat)
    ensures a * b >= 0
  {}

  /** However long the chain, the minted total stays below 2^63. */
  lemma {:induction false} MintedBound(testnet: bool, n: nat)
    ensures Minted(testnet, n) < 0x8000_0000_0000_0000
  {
    MintedIsApollo(testnet, n);
    ApolloTotal(n + 1);
  }

  lemma {:induction false} DivPeriod(k: nat, r: nat)
    requires r < BIG_PERIOD
    ensures (k * BIG_PERIOD + r) / BIG_PERIOD == k && (k * BIG_PERIOD + r) % BIG_PERIOD == r
  {}

  lemma {:induction false} Successor(a: nat, b: nat)
    ensures (a + 1) * b == a * b + b
  {}

  /** The loop of `xdag_get_supply` steps through whole periods. */
  lemma {:induction false} ApolloPeriod(k: nat, r: nat)
    requires r <= BIG_PERIOD
    ensures Apollo(k * BIG_PERIOD + r) == Apollo(k * BIG_PERIOD) + r * Shr(MAIN_APOLLO_AMOUNT, k)
  {
    hide Apollo, Shr;
    if r > 0 {
      ApolloPeriod(k, r - 1);
      DivPeriod(k, r - 1);
      ApolloNext(k * BIG_PERIOD + (r - 1), k);
      Successor(r - 1, Shr(MAIN_APOLLO_AMOUNT, k));
    }
  }

  lemma {:induction false} ApolloNext(n: nat, k: nat)
    requires n / BIG_PERIOD == k
    ensures Apollo(n + 1) == Apollo(n) + Shr(MAIN_APOLLO_AMOUNT, k)
  {
    hide Shr;
  }

  /** The fork correction of `xdag_get_supply` added to the whole periods and the rest. */
  function Closing(testnet: bool, nmain: nat): nat {
    if nmain >= ForkHeight(testnet) then (ForkHeight(testnet) - 1) * (MAIN_START_AMOUNT - MAIN_APOLLO_AMOUNT) else 0
  }

  /** What the loop has added up after `k` whole periods. */
  function Periods(testnet: bool, nmain: nat, k: nat): nat {
    if nmain >= ForkHeight(testnet) then Apollo(k * BIG_PERIOD) else 0
  }

  lemma {:induction false} NoPeriod(testnet: bool, nmain: nat)
    ensures Periods(testnet, nmain, 0) == 0 && Shr(StartAmount(testnet, nmain), 0) == StartAmount(testnet, nmain)
  {
    ApolloFirstPeriod(0);
  }

  lemma {:induction false} NextPeriod(testnet: bool, nmain: nat, k: nat)
    requires nmain >= (k + 1) * BIG_PERIOD
    ensures Periods(testnet, nmain, k + 1)
            == Periods(testnet, nmain, k) + BIG_PERIOD * Shr(StartAmount(testnet, nmain), k)
    ensures Shr(StartAmount(testnet, nmain), k + 1) == Shr(StartAmount(testnet, nmain), k) / 2
  {
    assert k * BIG_PERIOD + BIG_PERIOD == (k + 1) * BIG_PERIOD;
    ApolloPeriod(k, BIG_PERIOD);
  }

  lemma {:induction false} LastPeriod(testnet: bool, k: nat, r: nat)
    requires r < BIG_PERIOD
    ensures var n := k * BIG_PERIOD + r;
            var res := Periods(testnet, n, k) + r * Shr(StartAmount(testnet, n), k) + Closing(testnet, n);
            res == Minted(testnet, n) + StartAmount(testnet, n) - Reward(testnet, n) && res < 0x8000_0000_0000_0000
    ensures k * BIG_PERIOD + r < ForkHeight(testnet) ==> Closing(testnet, k * BIG_PERIOD + r) == 0
    ensures k * BIG_PERIOD + r >= ForkHeight(testnet) ==>
              Closing(testnet, k * BIG_PERIOD + r) == (ForkHeight(testnet) - 1) * (MAIN_START_AMOUNT - MAIN_APOLLO_AMOUNT)
  {
    var n := k * BIG_PERIOD + r;
    hide Minted;
    DivPeriod(k, r);
    MintedIsApollo(testnet, n);
    if n >= ForkHeight(testnet) {
      assert Apollo(n + 1) == Apollo(n) + Shr(MAIN_APOLLO_AMOUNT, k);
      hide Apollo, Shr;
      ApolloPeriod(k, r);
      ApolloTotal(n);
    }
  }

  /**
    `xdag_get_supply`. The closed form counts heights 0..nmain-1 instead of 1..nmain, so from the
    second period on it exceeds what was minted by the difference of the two end rewards.
    For `nmain >= 2^27` the C code would shift by 64 or more.
   */
  method GetSupply(testnet: bool, nmain: nat) returns (res: nat)
    requires nmain < 0x800_0000
    ensures res == Minted(testnet, nmain) + StartAmount(testnet, nmain) - Reward(testnet, nmain)
    ensures res < 0x8000_0000_0000_0000
  {
    hide Shr, Apollo, Minted, Periods, Closing, Reward, StartAmount, ForkHeight;
    NoPeriod(testnet, nmain);
    var amount := StartAmount(testnet, nmain);
    var current: nat := nmain;
    res := 0;
    ghost var k: nat := 0;
    while current / BIG_PERIOD != 0
      invariant current + k * BIG_PERIOD == nmain
      invariant amount == Shr(StartAmount(testnet, nmain), k)
      invariant res == Periods(testnet, nmain, k)
      decreases current
    {
      NextPeriod(testnet, nmain, k);
      res := res + BIG_PERIOD * amount;
      current := current - BIG_PERIOD;
      amount := amount / 2;
      k := k + 1;
    }
    LastPeriod(testnet, k, current);
    res := res + current * amount;
    if nmain >= ForkHeight(testnet) {
      res := res + (ForkHeight(testnet) - 1) * (MAIN_START_AMOUNT - MAIN_APOLLO_AMOUNT);
    }
  }
}
