/**
 * The comparison of sums by which a node finds the blocks it misses
 * (client/sync.c:193-239), against a node whose storage holds all of its own.
 */
module Descent {
  import opened Common
  import opened Storage

  const MAX_TIME: nat := 0x10_0000    // REQUEST_BLOCKS_MAX_TIME

  /** A requested interval of time. */
  datatype Span = Span(lo: nat, hi: nat)

  /** The blocks with time in [lo, hi). */
  ghost function Inside(log: seq<Block>, lo: nat, hi: nat): set<Block> {
    set b | b in log && Within(b, lo, hi)
  }

  ghost predicate Subset(a: seq<Block>, b: seq<Block>) { forall x :: x in a ==> x in b }

  // ---------------------------------------------------------------- sums tell contents apart

  lemma {:induction false} SizeCounts(log: seq<Block>, lo: nat, hi: nat)
    requires NoRepeat(log)
    ensures Tally(log, lo, hi).size == BLOCK_SIZE * |Inside(log, lo, hi)| % WORD
  {
    hide Plus, Tally, Inside, Single, NoRepeat;
    if log == [] {
      NoneInside(lo, hi);
      TallyNone(lo, hi);
    } else {
      var rest, b := log[..|log| - 1], log[|log| - 1];
      assert log == rest + [b];
      OneInside(rest, b, lo, hi);
      SizeCounts(rest, lo, hi);
      TallyLast(rest, b, lo, hi);
      PartSize(b, lo, hi);
      SizePlus(Tally(rest, lo, hi), Part(b, lo, hi), |Inside(rest, lo, hi)|, if Within(b, lo, hi) then 1 else 0);
    }
  }

  lemma {:induction false} NoneInside(lo: nat, hi: nat)
    ensures Inside([], lo, hi) == {}
  {}

  lemma {:induction false} OneInside(rest: seq<Block>, b: Block, lo: nat, hi: nat)
    requires NoRepeat(rest + [b])
    ensures NoRepeat(rest)
    ensures |Inside(rest + [b], lo, hi)| == |Inside(rest, lo, hi)| + if Within(b, lo, hi) then 1 else 0
  {
    var log := rest + [b];
    forall i, j | 0 <= i < j < |rest| ensures rest[i] != rest[j] {
      assert log[i] == rest[i] && log[j] == rest[j];
    }
    forall i | 0 <= i < |rest| ensures rest[i] != b {
      assert log[i] == rest[i] && log[|rest|] == b;
    }
    assert b !in Inside(rest, lo, hi);
    assert Inside(log, lo, hi) == Inside(rest, lo, hi) + if Within(b, lo, hi) then {b} else {};
  }

  lemma {:induction false} PartSize(b: Block, lo: nat, hi: nat)
    ensures Part(b, lo, hi).size == BLOCK_SIZE * if Within(b, lo, hi) then 1 else 0
  {}

  lemma {:induction false} TallyNone(lo: nat, hi: nat)
    ensures Tally([], lo, hi) == ZERO
  {}

  lemma {:induction false} SizePlus(a: Sum, b: Sum, m: nat, n: nat)
    requires a.size == BLOCK_SIZE * m % WORD && b.size == BLOCK_SIZE * n
    ensures Plus(a, b).size == BLOCK_SIZE * (m + n) % WORD
  {
    ModOne(BLOCK_SIZE * m, BLOCK_SIZE * n);
  }

  lemma {:induction false} TallyLast(log: seq<Block>, b: Block, lo: nat, hi: nat)
    ensures Tally(log + [b], lo, hi) == Plus(Tally(log, lo, hi), Part(b, lo, hi))
  {
    assert (log + [b])[..|log|] == log;
  }

  /** A sum does not depend on the order of the blocks. */
  lemma {:induction false} TallyRemove(log: seq<Block>, i: nat, lo: nat, hi: nat)
    requires i < |log|
    ensures Tally(log, lo, hi) == Plus(Tally(Removed(log, i), lo, hi), Part(log[i], lo, hi))
  {
    hide Tally, Plus, Part;
    var n := |log| - 1;
    var rest, b := log[..n], log[n];
    assert log == rest + [b];
    TallyLast(rest, b, lo, hi);
    if i == n {
      assert Removed(log, i) == rest;
    } else {
      TallyRemove(rest, i, lo, hi);
      assert Removed(log, i) == Removed(rest, i) + [b];
      TallyLast(Removed(rest, i), b, lo, hi);
      PlusSwap(Tally(Removed(rest, i), lo, hi), Part(log[i], lo, hi), Part(b, lo, hi));
    }
  }

  lemma {:induction false} PlusSwap(a: Sum, p: Sum, q: Sum)
    ensures Plus(Plus(a, p), q) == Plus(Plus(a, q), p)
  {
    AddSwap(a.sum, p.sum, q.sum);
    AddSwap(a.size, p.size, q.size);
  }

  lemma {:induction false} AddSwap(a: nat, p: nat, q: nat)
    ensures ((a + p) % WORD + q) % WORD == ((a + q) % WORD + p) % WORD
  {
    ModOne(a + p, q);
    ModOne(a + q, p);
  }

  lemma {:induction false} ModOne(x: nat, y: nat)
    ensures (x % WORD + y) % WORD == (x + y) % WORD
  {}

  lemma {:induction false} SameTally(a: seq<Block>, b: seq<Block>, lo: nat, hi: nat)
    requires NoRepeat(a) && NoRepeat(b) && Inside(a, lo, hi) == Inside(b, lo, hi)
    ensures Tally(a, lo, hi) == Tally(b, lo, hi)
    decreases |a| + |b|, |b|
  {
    hide Tally, Plus, Part;
    if a == b {
    } else if a == [] {
      SameTally(b, a, lo, hi);
    } else {
      var n := |a| - 1;
      var rest, x := a[..n], a[n];
      assert a == rest + [x];
      if Within(x, lo, hi) {
        assert x in Inside(a, lo, hi);
        var i :| 0 <= i < |b| && b[i] == x;
        RemovedInside(b, i, lo, hi);
        assert Inside(rest, lo, hi) == Inside(a, lo, hi) - {x};
        SameTally(rest, Removed(b, i), lo, hi);
        TallyLast(rest, x, lo, hi);
        TallyRemove(b, i, lo, hi);
      } else {
        assert Inside(rest, lo, hi) == Inside(a, lo, hi);
        SameTally(rest, b, lo, hi);
        TallySnoc(rest, x, lo, hi);
      }
    }
  }

  lemma {:induction false} RemovedInside(b: seq<Block>, i: nat, lo: nat, hi: nat)
    requires NoRepeat(b) && i < |b|
    ensures NoRepeat(Removed(b, i)) && Inside(Removed(b, i), lo, hi) == Inside(b, lo, hi) - {b[i]}
  {
    hide Removed;
    RemovedMembers(b, i);
  }

  /**
   * When one storage is part of the other, the sums of an interval agree exactly when
   * the contents do. The size field wraps at 2^64, which 2^55 blocks would reach.
   */
  lemma {:induction false} SumsTell(local: seq<Block>, remote: seq<Block>, lo: nat, hi: nat)
    requires NoRepeat(local) && NoRepeat(remote) && Subset(local, remote) && |remote| < WORD / BLOCK_SIZE
    ensures Tally(local, lo, hi) == Tally(remote, lo, hi) <==> Inside(local, lo, hi) == Inside(remote, lo, hi)
  {
    hide Tally, NoRepeat;
    var a, b := Inside(local, lo, hi), Inside(remote, lo, hi);
    if a == b {
      SameTally(local, remote, lo, hi);
    } else {
      SizeCounts(local, lo, hi);
      SizeCounts(remote, lo, hi);
      InsideSmall(remote, lo, hi);
      Proper(a, b);
      SizesDiffer(|a|, |b|);
    }
  }

  lemma {:induction false} SizesDiffer(m: nat, n: nat)
    requires m < n < WORD / BLOCK_SIZE
    ensures BLOCK_SIZE * m % WORD != BLOCK_SIZE * n % WORD
  {
    assert BLOCK_SIZE * m < BLOCK_SIZE * n < WORD;
  }

  lemma {:induction false} InsideSmall(log: seq<Block>, lo: nat, hi: nat)
    ensures |Inside(log, lo, hi)| <= |log|
  {
    if log != [] {
      var rest, b := log[..|log| - 1], log[|log| - 1];
      assert log == rest + [b];
      InsideSmall(rest, lo, hi);
      assert Inside(log, lo, hi) <= Inside(rest, lo, hi) + {b};
      Larger(Inside(log, lo, hi), Inside(rest, lo, hi) + {b});
    }
  }

  lemma {:induction false} Larger(a: set<Block>, b: set<Block>)
    requires a <= b
    ensures |a| <= |b|
  {
    assert b == a + (b - a);
  }

  lemma {:induction false} Proper(a: set<Block>, b: set<Block>)
    requires a < b
    ensures |a| < |b|
  {
    assert b == a + (b - a);
    assert b - a != {};
  }

  // ---------------------------------------------------------------- what a request brings about

  ghost predicate Covered(asked: seq<Span>, b: Block) {
    exists q :: q in asked && Within(b, q.lo, q.hi)
  }

  /** Nothing was lost, and only acceptable blocks of the remote storage with time in [lo, hi) came in. */
  ghost predicate Gathered(was: seq<Block>, now: seq<Block>, remote: seq<Block>, accept: Block -> bool, lo: nat, hi: nat) {
    && Subset(was, now)
    && forall b :: b in now ==> b in was || (b in remote && Within(b, lo, hi) && accept(b))
  }

  /**
   * From `was` the storage became `now` by the answered requests `asked` within [lo, hi): every
   * missing block was asked for and stored if acceptable, or lies in an interval of `failed`.
   */
  ghost predicate Synced(was: seq<Block>, now: seq<Block>, remote: seq<Block>, accept: Block -> bool, asked: seq<Span>, failed: seq<Span>, lo: nat, hi: nat) {
    && Gathered(was, now, remote, accept, lo, hi)
    && (forall b :: b in remote && Within(b, lo, hi) && b !in was ==>
          (Covered(asked, b) && (accept(b) ==> b in now)) || Covered(failed, b))
    && (forall q :: q in asked || q in failed ==> lo <= q.lo && q.hi <= hi)
  }

  /** Every requested interval had other contents than the remote one. */
  ghost predicate Wanted(was: seq<Block>, remote: seq<Block>, asked: seq<Span>) {
    forall q :: q in asked ==> Inside(was, q.lo, q.hi) != Inside(remote, q.lo, q.hi)
  }

  lemma {:induction false} SyncedSkip(was: seq<Block>, now: seq<Block>, remote: seq<Block>, accept: Block -> bool, asked: seq<Span>, failed: seq<Span>, lo: nat, mid: nat, hi: nat)
    requires Synced(was, now, remote, accept, asked, failed, lo, mid) && lo <= mid <= hi
    requires Inside(was, mid, hi) == Inside(remote, mid, hi)
    ensures Synced(was, now, remote, accept, asked, failed, lo, hi)
  {
    forall b | b in remote && Within(b, lo, hi) && b !in was ensures Within(b, lo, mid) {
      assert b in Inside(remote, mid, hi) ==> b in Inside(was, mid, hi);
    }
  }

  lemma {:induction false} Unchanged(was: seq<Block>, now: seq<Block>, remote: seq<Block>, accept: Block -> bool, lo: nat, mid: nat, a: nat, b: nat)
    requires Gathered(was, now, remote, accept, lo, mid) && mid <= a
    ensures Inside(now, a, b) == Inside(was, a, b)
  {}

  lemma {:induction false} CoveredMore(asked: seq<Span>, more: seq<Span>, b: Block)
    ensures Covered(asked, b) || Covered(more, b) ==> Covered(asked + more, b)
  {
    if q :| q in asked && Within(b, q.lo, q.hi) {
      assert q in asked + more;
    }
    if q :| q in more && Within(b, q.lo, q.hi) {
      assert q in asked + more;
    }
  }

  lemma {:induction false} SyncedJoin(was: seq<Block>, mid: seq<Block>, now: seq<Block>, remote: seq<Block>, accept: Block -> bool, asked: seq<Span>, failed: seq<Span>, more: seq<Span>, lost: seq<Span>, lo: nat, m: nat, hi: nat)
    requires Synced(was, mid, remote, accept, asked, failed, lo, m) && Synced(mid, now, remote, accept, more, lost, m, hi) && lo <= m <= hi
    ensures Synced(was, now, remote, accept, asked + more, failed + lost, lo, hi)
  {
    hide Covered;
    forall b | b in remote && Within(b, lo, hi) && b !in was
      ensures (Covered(asked + more, b) && (accept(b) ==> b in now)) || Covered(failed + lost, b)
    {
      CoveredMore(asked, more, b);
      CoveredMore(failed, lost, b);
      assert m <= b.time ==> b !in mid;
    }
  }

  ghost predicate Paired(local: Store, remote: Store)
    reads local, remote
  {
    && local != remote && local.Valid() && remote.Valid()
    && NoRepeat(local.log) && NoRepeat(remote.log) && Subset(local.log, remote.log)
    && |remote.log| < WORD / BLOCK_SIZE
  }

  /** The remote blocks of the interval that reach us; each is stored if it is acceptable and new. */
  method Receive(local: Store, remote: Store, accept: Block -> bool, reaches: Block -> bool, lo: nat, hi: nat) returns (count: nat)
    requires Paired(local, remote)
    modifies local
    ensures Paired(local, remote) && Gathered(old(local.log), local.log, remote.log, accept, lo, hi)
    ensures forall b :: b in remote.log && Within(b, lo, hi) && accept(b) && reaches(b) ==> b in local.log
    ensures count > 0 <==> Inside(remote.log, lo, hi) != {}
  {
    hide Exact, NoRepeat;
    var i := 0;
    count := 0;
    while i < |remote.log|
      invariant 0 <= i <= |remote.log| && Paired(local, remote)
      invariant Gathered(old(local.log), local.log, remote.log, accept, lo, hi)
      invariant forall j :: 0 <= j < i && Within(remote.log[j], lo, hi) && accept(remote.log[j]) && reaches(remote.log[j]) ==>
                  remote.log[j] in local.log
      invariant if count > 0 then Inside(remote.log, lo, hi) != {} else forall j :: 0 <= j < i ==> !Within(remote.log[j], lo, hi)
    {
      var b := remote.log[i];
      if Within(b, lo, hi) {
        assert b in Inside(remote.log, lo, hi);
        count := count + 1;
        if reaches(b) && accept(b) && b !in local.log {
          RepeatFree(local.log, b);
          local.Save(b);
        }
      }
      i := i + 1;
    }
  }

  lemma {:induction false} RepeatFree(log: seq<Block>, b: Block)
    requires NoRepeat(log) && b !in log
    ensures NoRepeat(log + [b])
  {}

  // ---------------------------------------------------------------- the network

  const QUERY_RETRIES: nat := 2

  /** How a request ends: with a reply, without one in time, or at once because there is no peer. */
  datatype Answer = Reply | Timeout | NoPeer

  /** The fate of every request, by kind, interval and attempt, and which blocks reach us before a timeout. */
  datatype Net = Net(answer: (bool, Span, nat) -> Answer, reaches: (Block, Span, nat) -> bool)

  /** Some attempt from `i` on is answered before the node gives up. */
  predicate Heard(net: Net, sums: bool, q: Span, i: nat)
    decreases QUERY_RETRIES - i
  {
    i < QUERY_RETRIES && (net.answer(sums, q, i).Reply? || (net.answer(sums, q, i).Timeout? && Heard(net, sums, q, i + 1)))
  }

  /** The attempts to get the remote sums of an interval (client/sync.c:216-220). */
  method AskSums(net: Net, q: Span) returns (heard: bool)
    ensures heard <==> Heard(net, true, q, 0)
  {
    var i := 0;
    heard := false;
    var again := true;
    while again && i < QUERY_RETRIES
      invariant 0 <= i <= QUERY_RETRIES
      invariant again ==> !heard && (Heard(net, true, q, 0) <==> Heard(net, true, q, i))
      invariant !again ==> (heard <==> Heard(net, true, q, 0))
      decreases QUERY_RETRIES - i, again
    {
      again := net.answer(true, q, i).Timeout?;
      heard := net.answer(true, q, i).Reply?;
      if again { i := i + 1; }
    }
  }

  /** The attempts to get the blocks of an interval (client/sync.c:199-210). */
  method AskBlocks(net: Net, local: Store, remote: Store, accept: Block -> bool, q: Span) returns (heard: bool, count: nat)
    requires Paired(local, remote)
    modifies local
    ensures Paired(local, remote) && Gathered(old(local.log), local.log, remote.log, accept, q.lo, q.hi)
    ensures heard <==> Heard(net, false, q, 0)
    ensures heard ==> forall b :: b in remote.log && Within(b, q.lo, q.hi) && accept(b) ==> b in local.log
    ensures heard ==> (count > 0 <==> Inside(remote.log, q.lo, q.hi) != {})
  {
    hide Exact, NoRepeat, Inside, Store.Valid;
    var i := 0;
    heard, count := false, 0;
    var again := true;
    while again && i < QUERY_RETRIES
      invariant 0 <= i <= QUERY_RETRIES && Paired(local, remote)
      invariant Gathered(old(local.log), local.log, remote.log, accept, q.lo, q.hi)
      invariant again ==> !heard && (Heard(net, false, q, 0) <==> Heard(net, false, q, i))
      invariant !again ==> (heard <==> Heard(net, false, q, 0))
      invariant heard ==> forall b :: b in remote.log && Within(b, q.lo, q.hi) && accept(b) ==> b in local.log
      invariant heard ==> (count > 0 <==> Inside(remote.log, q.lo, q.hi) != {})
      decreases QUERY_RETRIES - i, again
    {
      again := net.answer(false, q, i).Timeout?;
      heard := net.answer(false, q, i).Reply?;
      if heard || again {
        var full, j := heard, i;
        count := Receive(local, remote, accept, b => full || net.reaches(b, q, j), q.lo, q.hi);
      }
      if again { i := i + 1; }
    }
  }

  /** An answered request for blocks, or one that failed, covers its whole interval. */
  lemma {:induction false} WholeSpan(was: seq<Block>, now: seq<Block>, remote: seq<Block>, accept: Block -> bool, q: Span, heard: bool)
    requires Gathered(was, now, remote, accept, q.lo, q.hi)
    requires heard ==> forall b :: b in remote && Within(b, q.lo, q.hi) && accept(b) ==> b in now
    ensures Synced(was, now, remote, accept, if heard then [q] else [], if heard then [] else [q], q.lo, q.hi)
  {
    forall b | b in remote && Within(b, q.lo, q.hi) ensures Covered([q], b) {
      assert q in [q];
    }
  }

  /** What could not be asked for, or was not answered. */
  ghost predicate Unheard(net: Net, failed: seq<Span>) {
    forall q :: q in failed ==> !Heard(net, true, q, 0) || !Heard(net, false, q, 0)
  }

  /**
   * `request_blocks` over any network: every block the remote storage has and the local one
   * lacks lies in a requested interval, and is stored if acceptable, or in an interval whose
   * request went unanswered; no interval below the first that was requested, answered or not, had
   * equal contents.
   */
  method RequestBlocks(on: bool, net: Net, local: Store, remote: Store, accept: Block -> bool, t: nat, dt: nat, ghost k: nat)
    returns (res: int, asked: seq<Span>, failed: seq<Span>)
    requires Paired(local, remote) && SpanIs(dt, k) && Aligned(t, k)
    modifies local
    ensures Paired(local, remote) && Unheard(net, failed)
    ensures !on ==> res == -1 && asked == failed == [] && local.log == old(local.log)
    ensures on ==> Synced(old(local.log), local.log, remote.log, accept, asked, failed, t, t + dt)
    ensures on && k > 0 ==> Wanted(old(local.log), remote.log, asked)
    ensures on && k == 0 ==> asked == [Span(t, t + dt)] || asked == []
    ensures on ==> Wanted(old(local.log), remote.log, failed) || failed == [Span(t, t + dt)]
    ensures res == 0 || res == -1
    ensures on && k == 0 ==> (res == 0 <==> Heard(net, false, Span(t, t + dt), 0) && Inside(remote.log, t, t + dt) != {})
    ensures on && k > 0 ==> (res == 0 <==> Heard(net, true, Span(t, t + dt), 0))
    decreases k, 1
  {
    hide Synced, Gathered, Wanted, Unheard, Tally, Exact, Pow16, Sixteenths, Mark, SpanIs, Aligned, Inside, NoRepeat, Subset, Heard;
    hide Value, SpanWord, IsSpan;
    ghost var was := local.log;
    NothingFailed(net);
    if !on { return -1, [], []; }
    SpanFacts(t, dt, k);
    var q := Span(t, t + dt);
    if dt <= MAX_TIME {
      var heard, count := AskBlocks(net, local, remote, accept, q);
      WholeSpan(was, local.log, remote.log, accept, q, heard);
      OneFailed(net, q);
      WantedNone(was, remote.log);
      return if heard && count > 0 then 0 else -1, if heard then [q] else [], if heard then [] else [q];
    }
    var rl, lsums := local.LoadSums(t, SpanWord(dt));
    var heard := AskSums(net, q);
    if !heard {
      GatheredSelf(was, remote.log, accept, t, t + dt);
      WholeSpan(was, was, remote.log, accept, q, false);
      OneFailed(net, q);
      WantedNone(was, remote.log);
      return -1, [], [q];
    }
    var rr, rsums := remote.LoadSums(t, SpanWord(dt));
    asked, failed := RequestParts(net, local, remote, accept, t, dt / 16, k, lsums, rsums);
    res := 0;
  }

  /** The loop over the sixteen parts. */
  method RequestParts(net: Net, local: Store, remote: Store, accept: Block -> bool, t: nat, d: nat, ghost k: nat, lsums: seq<Sum>, rsums: seq<Sum>)
    returns (asked: seq<Span>, failed: seq<Span>)
    requires Paired(local, remote) && 0 < k < 8 && d == Pow16(k + 4) && Aligned(t, k)
    requires Sixteenths(local.log, t, k, lsums) && Sixteenths(remote.log, t, k, rsums)
    modifies local
    ensures Paired(local, remote) && Unheard(net, failed)
    ensures Synced(old(local.log), local.log, remote.log, accept, asked, failed, t, Mark(t, d, 16))
    ensures Wanted(old(local.log), remote.log, asked) && Wanted(old(local.log), remote.log, failed)
    decreases k, 0
  {
    hide Synced, Gathered, Wanted, Unheard, Tally, Exact, Pow16, Sixteenths, Mark, SpanIs, Aligned, Inside, NoRepeat, Subset, Heard;
    ghost var was := local.log;
    NothingFailed(net);
    asked, failed := [], [];
    var i := 0;
    Nothing(was, remote.log, accept, t, d);
    while i < 16
      invariant 0 <= i <= 16 && Paired(local, remote) && Unheard(net, failed)
      invariant Synced(was, local.log, remote.log, accept, asked, failed, t, Mark(t, d, i)) 
      invariant Wanted(was, remote.log, asked) && Wanted(was, remote.log, failed)
    {
      SubSpan(t, k, i);
      SixteenthsTell(was, remote.log, t, k, lsums, rsums, i);
      ghost var lo, hi := Mark(t, d, i), Mark(t, d, i + 1);
      if lsums[i] != rsums[i] {
        ghost var mid := local.log;
        var r, more, lost := RequestBlocks(true, net, local, remote, accept, t + i * d, d, k - 1);
        SpansInside(was, mid, remote.log, accept, asked, failed, t, lo);
        SpansInside(mid, local.log, remote.log, accept, more, lost, lo, hi);
        ChildWanted(was, mid, remote.log, accept, asked, more, t, lo, hi);
        ChildWanted(was, mid, remote.log, accept, failed, lost, t, lo, hi);
        SyncedJoin(was, mid, local.log, remote.log, accept, asked, failed, more, lost, t, lo, hi);
        UnheardJoin(net, failed, lost);
        asked, failed := asked + more, failed + lost;
      } else {
        SyncedSkip(was, local.log, remote.log, accept, asked, failed, t, lo, hi);
      }
      i := i + 1;
    }
  }

  /** When every request is answered, nothing fails, and with all blocks acceptable the contents end up equal. */
  lemma {:induction false} AllHeard(net: Net, was: seq<Block>, now: seq<Block>, remote: seq<Block>, asked: seq<Span>, failed: seq<Span>, lo: nat, hi: nat)
    requires Unheard(net, failed) && Subset(was, remote) && Synced(was, now, remote, _ => true, asked, failed, lo, hi)
    requires forall q :: Heard(net, true, q, 0) && Heard(net, false, q, 0)
    ensures failed == [] && Inside(now, lo, hi) == Inside(remote, lo, hi)
  {
    if |failed| > 0 {
      HeadIn(failed);
    }
    forall b | b in Inside(remote, lo, hi) ensures b in now {}
  }

  lemma {:induction false} HeadIn(s: seq<Span>)
    requires |s| > 0
    ensures s[0] in s
  {}

  lemma {:induction false} GatheredSelf(was: seq<Block>, remote: seq<Block>, accept: Block -> bool, lo: nat, hi: nat)
    ensures Gathered(was, was, remote, accept, lo, hi)
  {}

  lemma {:induction false} WantedNone(was: seq<Block>, remote: seq<Block>)
    ensures Wanted(was, remote, [])
  {}

  lemma {:induction false} NothingFailed(net: Net)
    ensures Unheard(net, [])
  {}

  lemma {:induction false} OneFailed(net: Net, q: Span)
    ensures !Heard(net, true, q, 0) || !Heard(net, false, q, 0) ==> Unheard(net, [q])
  {}

  lemma {:induction false} UnheardJoin(net: Net, failed: seq<Span>, lost: seq<Span>)
    requires Unheard(net, failed) && Unheard(net, lost)
    ensures Unheard(net, failed + lost)
  {}

  lemma {:induction false} SpanFacts(t: nat, dt: nat, k: nat)
    requires SpanIs(dt, k) && Aligned(t, k)
    ensures dt <= MAX_TIME <==> k == 0
    ensures k < 8 && 0 < dt && t + dt <= TIMES && IsSpan(dt)
    ensures dt / 16 == Pow16(k + 4) && Mark(t, dt / 16, 16) == t + dt
  {
    hide Pow16;
    Pow16Values();
    Pow16Next(k + 4);
    SpanLevel(dt, k);
  }

  /** The i-th sixteenth is again an aligned span, one level down. */
  lemma {:induction false} SubSpan(t: nat, k: nat, i: nat)
    requires 0 < k < 8 && Aligned(t, k) && i < 16
    ensures var d := Pow16(k + 4);
      && SpanIs(d, k - 1) && Aligned(t + i * d, k - 1)
      && Mark(t, d, i) == t + i * d && Mark(t, d, i + 1) == t + i * d + d
      && t <= Mark(t, d, i) <= Mark(t, d, i + 1)
  {
    hide Pow16;
    var d := Pow16(k + 4);
    Pow16Next(k + 4);
    var a := Multiple(t, Pow16(k + 5));
    Reassociate(a, d);
    Distribute(16 * a, i, d);
    Distribute(i, 1, d);
    MulMono(i + 1, 16, d);
    MultipleMod(16 * a + i, d);
  }

  lemma {:induction false} MultipleMod(c: nat, d: nat)
    requires d > 0
    ensures c * d % d == 0
  {
    DivExact(c * d, c, d);
  }

  lemma {:induction false} Nothing(was: seq<Block>, remote: seq<Block>, accept: Block -> bool, t: nat, d: nat)
    ensures Synced(was, was, remote, accept, [], [], t, Mark(t, d, 0)) && Wanted(was, remote, [])
  {}

  lemma {:induction false} SixteenthsTell(local: seq<Block>, remote: seq<Block>, t: nat, k: nat, lsums: seq<Sum>, rsums: seq<Sum>, i: nat)
    requires NoRepeat(local) && NoRepeat(remote) && Subset(local, remote) && |remote| < WORD / BLOCK_SIZE
    requires Sixteenths(local, t, k, lsums) && Sixteenths(remote, t, k, rsums) && i < 16
    ensures |lsums| == |rsums| == 16
    ensures var lo, hi := Mark(t, Pow16(k + 4), i), Mark(t, Pow16(k + 4), i + 1);
      lsums[i] == rsums[i] <==> Inside(local, lo, hi) == Inside(remote, lo, hi)
  {
    hide Inside, NoRepeat, Tally, Mark, Pow16;
    SumsTell(local, remote, Mark(t, Pow16(k + 4), i), Mark(t, Pow16(k + 4), i + 1));
  }

  lemma {:induction false} SpansInside(was: seq<Block>, now: seq<Block>, remote: seq<Block>, accept: Block -> bool, asked: seq<Span>, failed: seq<Span>, lo: nat, hi: nat)
    requires Synced(was, now, remote, accept, asked, failed, lo, hi)
    ensures Gathered(was, now, remote, accept, lo, hi)
    ensures forall q :: q in asked || q in failed ==> lo <= q.lo
  {}

  /** What a part of the descent asks for is unwanted in no part of the whole. */
  lemma {:induction false} ChildWanted(was: seq<Block>, mid: seq<Block>, remote: seq<Block>, accept: Block -> bool, asked: seq<Span>, more: seq<Span>, t: nat, lo: nat, hi: nat)
    requires Gathered(was, mid, remote, accept, t, lo) && forall q :: q in more ==> lo <= q.lo
    requires Wanted(was, remote, asked) && (Wanted(mid, remote, more) || more == [Span(lo, hi)] || more == [])
    requires Inside(was, lo, hi) != Inside(remote, lo, hi)
    ensures Wanted(was, remote, asked + more)
  {
    hide Inside, Gathered;
    forall q | q in more ensures Inside(was, q.lo, q.hi) != Inside(remote, q.lo, q.hi) {
      Unchanged(was, mid, remote, accept, t, lo, q.lo, q.hi);
    }
  }
}
