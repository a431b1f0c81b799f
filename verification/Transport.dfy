/**
 * The request/reply handshake (client/transport.c): one requester, any number of
 * threads that process replies, and a thread that renews the private id. Every
 * access to the shared variables that the code makes atomic, by a
 * compare-and-swap or under the mutex, is one step; steps interleave freely.
 */
module Transport {
  import opened Common

  type Id = nat

  /** A reply message; `sums` tells SUMS_REPLY, which carries data, from BLOCKS_REPLY. */
  datatype Reply = Reply(id: Id, sums: bool, result: int, payload: int)

  /** Where the requester stands with the request numbered last. */
  datatype Phase = Idle | Published | Waiting

  datatype State = State(
    replyId: Id, privateId: Id, lastId: Id,
    rcvd: bool, result: int,
    data: Option<nat>,              // the request whose buffer reply_data points to
    phase: Phase,
    passed: seq<Reply>,             // replies between their compare-and-swap and the mutex
    // history
    ids: seq<Id>,                   // the id of each request
    kinds: seq<bool>,               // whether it asked for sums, which is not looked at when a reply comes in
    sent: set<Id>,                  // ids of requests that reached the network
    used: set<Id>,                  // random numbers drawn so far
    buffers: seq<Option<int>>,      // what was copied for each request
    accepted: seq<seq<Reply>>,      // replies accepted for each request
    returned: seq<Option<int>>)     // what each request returned

  datatype Step =
    | Begin(id: Id, sums: bool)     // a request draws its id and publishes it
    | Send(connected: bool)         // it fills in the shared variables and sends
    | Arrive(reply: Reply)          // a reply's compare-and-swap
    | Handle(i: nat)                // a reply that passed it takes the mutex
    | Wake                          // the requester sees reply_rcvd
    | Expire                        // its wait times out
    | Renew(id: Id)                 // the private id changes

  /** Conversion of the 64-bit result to `int`. */
  function ToInt(x: int): int {
    var low := x % 0x1_0000_0000;
    if low >= 0x8000_0000 then low - 0x1_0000_0000 else low
  }

  /** The 32-bit number that agrees with `x` modulo 2^32. */
  lemma {:induction false} ToIntIs(x: int, r: int)
    ensures r == ToInt(x) <==> -0x8000_0000 <= r < 0x8000_0000 && (x - r) % 0x1_0000_0000 == 0
  {
    var low, k := x % 0x1_0000_0000, x / 0x1_0000_0000;
    assert x == k * 0x1_0000_0000 + low;
    assert (x - ToInt(x)) % 0x1_0000_0000 == 0;
  }

  function Start(id: Id): State {
    State(id, id, id, false, -1, None, Idle, [], [], [], {}, {id}, [], [], [])
  }

  /** Random ids are fresh; a reply bears the id of a request that was sent, or one nobody drew. */
  predicate Enabled(s: State, e: Step) {
    match e
    case Begin(id, _) => s.phase.Idle? && id !in s.used
    case Send(_) => s.phase.Published? && |s.ids| > 0
    case Arrive(r) => r.id in s.sent || r.id !in s.used
    case Handle(i) => i < |s.passed|
    case Wake => s.phase.Waiting? && s.rcvd && |s.ids| > 0 && |s.returned| == |s.ids|
    case Expire => s.phase.Waiting? && |s.ids| > 0 && |s.returned| == |s.ids|
    case Renew(id) => id !in s.used
  }

  function Next(s: State, e: Step): State
    requires Enabled(s, e)
  {
    match e
    case Begin(id, sums) =>
      s.(replyId := id, phase := Published, ids := s.ids + [id], kinds := s.kinds + [sums], used := s.used + {id},
         buffers := s.buffers + [None], accepted := s.accepted + [[]], returned := s.returned + [None])
    case Send(connected) =>
      var n := |s.ids| - 1;
      var u := s.(lastId := s.ids[n], rcvd := false, result := -1, data := Some(n));
      if connected then u.(phase := Waiting, sent := s.sent + {s.ids[n]})
      else Answer(u, 0)
    case Arrive(r) =>
      if s.replyId == r.id then s.(replyId := s.privateId, passed := s.passed + [r]) else s
    case Handle(i) =>
      var r := s.passed[i];
      var u := s.(passed := Removed(s.passed, i));
      if s.lastId != r.id then u else Take(u, r)
    case Wake => Answer(s, ToInt(s.result))
    case Expire => Answer(s.(lastId := s.privateId, data := None), ToInt(s.result))
    case Renew(id) => s.(privateId := id, used := s.used + {id})
  }

  /** The requester returns. */
  function Answer(s: State, v: int): State {
    if |s.returned| == 0 then s
    else s.(phase := Idle, returned := s.returned[|s.returned| - 1 := Some(v)])
  }

  /** A reply is accepted: SUMS_REPLY copies its data through reply_data. */
  function Take(s: State, r: Reply): State {
    var n := |s.ids| - 1;
    var b :=
      if r.sums && s.data.Some? && s.data.value < |s.buffers| then s.buffers[s.data.value := Some(r.payload)] else s.buffers;
    s.(buffers := b, data := None, rcvd := true, result := r.result,
       accepted := if 0 <= n < |s.accepted| then s.accepted[n := s.accepted[n] + [r]] else s.accepted)
  }

  // ---------------------------------------------------------------- the invariant

  ghost predicate Shape(s: State) {
    && |s.buffers| == |s.accepted| == |s.returned| == |s.kinds| == |s.ids|
    && (!s.phase.Idle? ==> |s.ids| > 0)
    && (forall i, j :: 0 <= i < j < |s.ids| ==> s.ids[i] != s.ids[j])
    && (forall n :: 0 <= n < |s.ids| ==> s.ids[n] in s.used && s.ids[n] != s.privateId)
    && s.replyId in s.used && s.privateId in s.used && s.lastId in s.used
    && (forall x :: x in s.sent ==> x in s.ids)
    && (forall n :: 0 <= n < |s.ids| ==> (s.returned[n].None? <==> n == |s.ids| - 1 && !s.phase.Idle?))
  }

  /** A reply past its compare-and-swap is the only one with its id, and has not been accepted. */
  ghost predicate Singular(s: State)
    requires Shape(s)
  {
    && (forall i :: 0 <= i < |s.passed| ==> s.passed[i].id in s.sent && s.passed[i].id != s.replyId)
    && (forall i, j :: 0 <= i < j < |s.passed| ==> s.passed[i].id != s.passed[j].id)
    && (forall n, i :: 0 <= n < |s.ids| && 0 <= i < |s.passed| && s.accepted[n] != [] ==> s.passed[i].id != s.ids[n])
    && (forall n :: 0 <= n < |s.ids| && s.accepted[n] != [] ==> s.replyId != s.ids[n] && s.ids[n] in s.sent)
  }

  /** The shared variables belong to the request in progress, if its id is current. */
  ghost predicate Owned(s: State)
    requires Shape(s)
  {
    var n := |s.ids| - 1;
    && (s.phase.Waiting? ==> s.lastId == s.ids[n] && s.ids[n] in s.sent)
    && (s.phase.Waiting? ==> (s.rcvd <==> s.accepted[n] != []))
    && (s.phase.Waiting? && s.accepted[n] == [] ==> s.result == -1 && s.data == Some(n))
    && (s.phase.Waiting? && s.accepted[n] != [] ==> s.result == s.accepted[n][0].result)
    && (s.phase.Published? ==> s.ids[n] !in s.sent && s.accepted[n] == [])
    && (!s.phase.Waiting? && s.lastId in s.sent ==> forall i :: 0 <= i < |s.passed| ==> s.passed[i].id != s.lastId)
    && (!s.phase.Waiting? && s.lastId in s.sent ==> s.replyId != s.lastId)
  }

  /** What a request returns: its reply's result, or the failure value. */
  ghost function Answered(s: State, n: nat): int
    requires Shape(s) && n < |s.ids|
  {
    if s.ids[n] !in s.sent then 0
    else if s.accepted[n] == [] then -1
    else ToInt(s.accepted[n][0].result)
  }

  /** A request accepted at most one reply, bearing its id, and was told nothing else. */
  ghost predicate Served(s: State, n: nat)
    requires Shape(s) && n < |s.ids|
  {
    && |s.accepted[n]| <= 1
    && (forall i :: 0 <= i < |s.accepted[n]| ==> s.accepted[n][i].id == s.ids[n])
    && s.buffers[n] == (if s.accepted[n] != [] && s.accepted[n][0].sums then Some(s.accepted[n][0].payload) else None)
    && (s.returned[n].Some? ==> s.returned[n].value == Answered(s, n))
  }

  ghost predicate Inv(s: State) {
    Shape(s) && Singular(s) && Owned(s) && forall n :: 0 <= n < |s.ids| ==> Served(s, n)
  }

  // ---------------------------------------------------------------- every step keeps it

  lemma {:induction false} BeginKeeps(s: State, e: Step)
    requires Inv(s) && Enabled(s, e) && (e.Begin?)
    ensures Inv(Next(s, e))
  {
    var t := Next(s, e);
    assert Shape(t);
    forall n | 0 <= n < |t.ids| ensures Served(t, n) {
      assert n < |s.ids| ==> Served(s, n);
    }
  }

  lemma {:induction false} SendKeeps(s: State, e: Step)
    requires Inv(s) && Enabled(s, e) && (e.Send?)
    ensures Inv(Next(s, e))
  {
    var t := Next(s, e);
    assert Shape(t);
    forall n | 0 <= n < |t.ids| ensures Served(t, n) {
      assert n < |s.ids| ==> Served(s, n);
    }
  }

  lemma {:induction false} ArriveKeeps(s: State, e: Step)
    requires Inv(s) && Enabled(s, e) && (e.Arrive?)
    ensures Inv(Next(s, e))
  {
    hide Served;
    var t := Next(s, e);
    assert Shape(t);
    forall n | 0 <= n < |t.ids| ensures Served(t, n) {
      SameServed(s, t, n);
    }
  }

  lemma {:induction false} RenewKeeps(s: State, e: Step)
    requires Inv(s) && Enabled(s, e) && (e.Renew?)
    ensures Inv(Next(s, e))
  {
    hide Served;
    var t := Next(s, e);
    assert Shape(t);
    forall n | 0 <= n < |t.ids| ensures Served(t, n) {
      SameServed(s, t, n);
    }
  }

  lemma {:induction false} ReturnKeeps(s: State, e: Step)
    requires Inv(s) && Enabled(s, e) && (e.Wake? || e.Expire?)
    ensures Inv(Next(s, e))
  {
    var t := Next(s, e);
    assert Shape(t);
    forall n | 0 <= n < |t.ids| ensures Served(t, n) {
      assert n < |s.ids| ==> Served(s, n);
    }
  }

  /** A reply under the mutex is dropped, or accepted by the waiting request whose id it bears. */
  lemma {:induction false} HandleMeets(s: State, i: nat)
    requires Inv(s) && i < |s.passed|
    ensures s.lastId == s.passed[i].id ==> s.phase.Waiting? && s.ids[|s.ids| - 1] == s.passed[i].id && s.accepted[|s.ids| - 1] == []
  {}

  /** A passed reply may be forgotten; then no other passed reply has its id. */
  lemma {:induction false} DropKeeps(s: State, i: nat)
    requires Inv(s) && i < |s.passed|
    ensures var u := s.(passed := Removed(s.passed, i));
      Inv(u) && forall j :: 0 <= j < |u.passed| ==> u.passed[j].id != s.passed[i].id
  {
    hide Served;
    var u := s.(passed := Removed(s.passed, i));
    assert forall j :: 0 <= j < |u.passed| ==> u.passed[j] == s.passed[if j < i then j else j + 1];
    assert Shape(u);
    forall n | 0 <= n < |u.ids| ensures Served(u, n) {
      SameServed(s, u, n);
    }
  }

  lemma {:induction false} SameServed(s: State, u: State, n: nat)
    requires Shape(s) && Shape(u) && n < |s.ids| && Served(s, n)
    requires u.ids == s.ids && u.accepted == s.accepted && u.buffers == s.buffers && u.returned == s.returned && u.sent == s.sent
    ensures Served(u, n)
  {}

  lemma {:induction false} TakeKeeps(s: State, r: Reply)
    requires Inv(s) && s.phase.Waiting? && s.lastId == r.id && s.accepted[|s.ids| - 1] == []
    requires r.id != s.replyId && forall j :: 0 <= j < |s.passed| ==> s.passed[j].id != r.id
    ensures Inv(Take(s, r))
  {
    var t := Take(s, r);
    assert Shape(t);
    forall n | 0 <= n < |t.ids| ensures Served(t, n) {
      assert Served(s, n);
    }
  }

  lemma {:induction false} HandleKeeps(s: State, e: Step)
    requires Inv(s) && Enabled(s, e) && e.Handle?
    ensures Inv(Next(s, e))
  {
    hide Served, Take, Removed;
    HandleMeets(s, e.i);
    DropKeeps(s, e.i);
    if s.lastId == s.passed[e.i].id {
      TakeKeeps(s.(passed := Removed(s.passed, e.i)), s.passed[e.i]);
    }
  }

  lemma {:induction false} StepKeeps(s: State, e: Step)
    requires Inv(s) && Enabled(s, e)
    ensures Inv(Next(s, e))
  {
    hide Inv, Next;
    match e
    case Begin(_, _) => BeginKeeps(s, e);
    case Send(_) => SendKeeps(s, e);
    case Arrive(_) => ArriveKeeps(s, e);
    case Handle(_) => HandleKeeps(s, e);
    case Wake => ReturnKeeps(s, e);
    case Expire => ReturnKeeps(s, e);
    case Renew(_) => RenewKeeps(s, e);
  }

  // ---------------------------------------------------------------- whole runs

  ghost predicate CanRun(s: State, es: seq<Step>)
    decreases |es|
  {
    es == [] || (Enabled(s, es[0]) && CanRun(Next(s, es[0]), es[1..]))
  }

  ghost function Run(s: State, es: seq<Step>): State
    requires CanRun(s, es)
    decreases |es|
  {
    if es == [] then s else Run(Next(s, es[0]), es[1..])
  }

  lemma {:induction false} RunKeeps(s: State, es: seq<Step>)
    requires Inv(s) && CanRun(s, es)
    ensures Inv(Run(s, es))
    decreases |es|
  {
    hide Inv, Next;
    if es != [] {
      StepKeeps(s, es[0]);
      RunKeeps(Next(s, es[0]), es[1..]);
    }
  }

  /**
   * In every run each request accepts at most one reply, only one bearing its own id,
   * its buffer holds that reply's data or nothing, and it returns that reply's result or
   * the failure value.
   */
  lemma {:induction false} EveryRunServes(first: Id, es: seq<Step>, n: nat)
    requires CanRun(Start(first), es) && n < |Run(Start(first), es).ids|
    ensures Shape(Run(Start(first), es)) && Served(Run(Start(first), es), n)
  {
    hide Next, Run, CanRun, Served;
    RunKeeps(Start(first), es);
  }

  /** What a request left behind once it returned. */
  ghost predicate SameRecord(s: State, t: State, n: nat)
    requires Shape(s) && Shape(t) && n < |s.ids| <= |t.ids|
  {
    t.ids[n] == s.ids[n] && t.buffers[n] == s.buffers[n] && t.accepted[n] == s.accepted[n] && t.returned[n] == s.returned[n]
  }

  /** No step, such as a late reply, touches the record of a request that returned. */
  lemma {:induction false} StepLeavesPast(s: State, e: Step, n: nat)
    requires Inv(s) && Enabled(s, e) && n < |s.ids| && s.returned[n].Some?
    ensures Inv(Next(s, e)) && |s.ids| <= |Next(s, e).ids| && SameRecord(s, Next(s, e), n)
  {
    StepKeeps(s, e);
    if e.Handle? {
      HandleMeets(s, e.i);
    }
  }

  /** Nor does any run. */
  lemma {:induction false} RunLeavesPast(s: State, es: seq<Step>, n: nat)
    requires Inv(s) && CanRun(s, es) && n < |s.ids| && s.returned[n].Some?
    ensures Inv(Run(s, es)) && |s.ids| <= |Run(s, es).ids| && SameRecord(s, Run(s, es), n)
    decreases |es|
  {
    hide Next;
    RunKeeps(s, es);
    if es != [] {
      StepLeavesPast(s, es[0], n);
      RunLeavesPast(Next(s, es[0]), es[1..], n);
    }
  }

  // ---------------------------------------------------------------- the kind of a reply

  /** The replies that come in while a request with their id has been sent, in order. */
  ghost function Offered(s: State, es: seq<Step>): seq<Reply>
    requires CanRun(s, es)
    decreases |es|
  {
    if es == [] then [] else Offer(s, es[0]) + Offered(Next(s, es[0]), es[1..])
  }

  ghost function Offer(s: State, e: Step): seq<Reply> {
    if e.Arrive? && e.reply.id in s.sent then [e.reply] else []
  }

  /** The first of the replies `rs` that bears `id`. */
  ghost function First(rs: seq<Reply>, id: Id): Option<Reply> {
    if rs == [] then None else if rs[0].id == id then Some(rs[0]) else First(rs[1..], id)
  }

  lemma {:induction false} FirstJoin(a: seq<Reply>, b: seq<Reply>, id: Id)
    ensures First(a + b, id) == if First(a, id).Some? then First(a, id) else First(b, id)
  {
    if a == [] {
      assert a + b == b;
    } else {
      assert (a + b)[1..] == a[1..] + b;
      FirstJoin(a[1..], b, id);
    }
  }

  lemma {:induction false} FirstOne(r: Reply, id: Id)
    ensures First([], id) == None && First([r], id) == if r.id == id then Some(r) else None
  {
    assert [r][1..] == [];
  }

  /** Every reply in flight or accepted is the first one offered with its id; the id that is published has had none. */
  ghost predicate Foremost(s: State, rs: seq<Reply>) {
    && (forall i :: 0 <= i < |s.passed| ==> First(rs, s.passed[i].id) == Some(s.passed[i]))
    && (forall n :: 0 <= n < |s.accepted| && s.accepted[n] != [] ==> First(rs, s.accepted[n][0].id) == Some(s.accepted[n][0]))
    && (forall id :: First(rs, id).Some? ==> id in s.sent)
    && First(rs, s.replyId) == None
  }

  lemma {:induction false} ArriveForemost(s: State, r: Reply, rs: seq<Reply>)
    requires Inv(s) && Enabled(s, Arrive(r)) && Foremost(s, rs)
    ensures Foremost(Next(s, Arrive(r)), rs + Offer(s, Arrive(r)))
  {
    hide First, Owned, Served, Singular;
    var more := Offer(s, Arrive(r));
    forall id ensures First(rs + more, id) == if First(rs, id).Some? then First(rs, id) else if more != [] && id == r.id then Some(r) else None {
      FirstJoin(rs, more, id);
      FirstOne(r, id);
    }
    assert First(rs, s.privateId) == None && s.privateId !in s.sent;
  }

  lemma {:induction false} StepForemost(s: State, e: Step, rs: seq<Reply>)
    requires Inv(s) && Enabled(s, e) && Foremost(s, rs)
    ensures Foremost(Next(s, e), rs + Offer(s, e))
  {
    if e.Arrive? {
      ArriveForemost(s, e.reply, rs);
    } else {
      assert rs + Offer(s, e) == rs;
      hide First, Served, Singular;
      var t := Next(s, e);
      assert First(rs, s.replyId) == None;
      if e.Handle? {
        HandleMeets(s, e.i);
      }
    }
  }

  lemma {:induction false} RunForemost(s: State, es: seq<Step>, rs: seq<Reply>)
    requires Inv(s) && CanRun(s, es) && Foremost(s, rs)
    ensures Foremost(Run(s, es), rs + Offered(s, es))
    decreases |es|
  {
    hide Foremost, Next, Inv;
    if es == [] {
      assert rs + Offered(s, es) == rs;
    } else {
      StepKeeps(s, es[0]);
      StepForemost(s, es[0], rs);
      RunForemost(Next(s, es[0]), es[1..], rs + Offer(s, es[0]));
      assert rs + Offer(s, es[0]) + Offered(Next(s, es[0]), es[1..]) == rs + Offered(s, es);
    }
  }

  /**
   * A request that takes a reply takes the first one offered with its id, of whatever kind. So the reply is of the
   * request's kind if and only if that first one is, and data are copied if and only if that first one carries sums.
   */
  lemma {:induction false} KindIsAsSent(first: Id, es: seq<Step>, n: nat)
    requires CanRun(Start(first), es) && n < |Run(Start(first), es).ids|
    ensures var s := Run(Start(first), es); var r := First(Offered(Start(first), es), s.ids[n]);
      && |s.accepted| == |s.kinds| == |s.buffers| == |s.ids|
      && (s.accepted[n] != [] ==>
            && r.Some? && s.accepted[n] == [r.value]
            && (s.accepted[n][0].sums == s.kinds[n] <==> r.value.sums == s.kinds[n]))
      && s.buffers[n] == (if s.accepted[n] != [] && r.Some? && r.value.sums then Some(r.value.payload) else None)
  {
    hide Next, CanRun, Run, Offered;
    EveryRunServes(first, es, n);
    RunForemost(Start(first), es, []);
    assert [] + Offered(Start(first), es) == Offered(Start(first), es);
  }

  /** A request for blocks that takes a reply with sums has its data written all the same. */
  lemma {:induction false} OtherKindIsTaken(payload: int)
    ensures var es := [Begin(1, false), Send(true), Arrive(Reply(1, true, 7, payload)), Handle(0), Wake];
      && CanRun(Start(0), es)
      && var s := Run(Start(0), es); s.kinds == [false] && s.buffers == [Some(payload)] && s.returned == [Some(7)]
  {
    var r := Reply(1, true, 7, payload);
    var es := [Begin(1, false), Send(true), Arrive(r), Handle(0), Wake];
    var s0 := Start(0);
    var s1 := Next(s0, es[0]);
    var s2 := Next(s1, Send(true));
    var s3 := Next(s2, Arrive(r));
    var s4 := Next(s3, Handle(0));
    var s5 := Next(s4, Wake);
    assert es[1..] == [Send(true), Arrive(r), Handle(0), Wake] && es[1..][1..] == [Arrive(r), Handle(0), Wake];
    assert [Arrive(r), Handle(0), Wake][1..] == [Handle(0), Wake] && [Handle(0), Wake][1..] == [Wake] && [Wake][1..] == [];
    assert CanRun(s5, []) && CanRun(s4, [Wake]) && CanRun(s3, [Handle(0), Wake]);
    assert CanRun(s2, [Arrive(r), Handle(0), Wake]);
    assert Run(s4, [Wake]) == s5 && Run(s3, [Handle(0), Wake]) == s5;
    assert Run(s2, [Arrive(r), Handle(0), Wake]) == s5;
  }
}
