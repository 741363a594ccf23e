/** Many requests on one OSD connection: sequence numbers, waiting requests and the responses
    that settle them, while the connection stays open. */
module Mux {

  datatype Errno = EPROTO | ENOTCONN | Other(code: int)

  datatype Waiter = Waiter(id: nat, seqNo: nat)

  datatype Outcome = Delivered(seqNo: nat, ret: int) | Failed(errno: Errno)

  /** A waiter that was completed, and with what. */
  datatype Settlement = Settlement(id: nat, outcome: Outcome)

  /** drawn says which waiter drew which number; settled lists the completions in order;
      withdrawn are the waiters that gave up while still listed. */
  datatype State = State(nextSeq: nat, dead: bool, inflight: nat, listed: seq<Waiter>,
                         drawn: map<nat, nat>, settled: seq<Settlement>, withdrawn: seq<nat>)

  const START := State(0, false, 0, [], map[], [], [])

  datatype Step =
    | Draw(id: nat)
    | Register(id: nat)
    | Receive(seqNo: nat, ret: int)
    | FailAll(errno: Errno)
    | Unregister(id: nat)
    | Kill

  // ---- Steps ---------------------------------------------------------------------------------

  function Seq(s: State): nat {
    if s.nextSeq == 0 then 1 else s.nextSeq
  }

  /** Position of the first waiter that satisfies the test, or the length. */
  function IndexOf(listed: seq<Waiter>, test: Waiter -> bool): (i: nat)
    ensures i <= |listed|
    ensures i < |listed| ==> test(listed[i])
    ensures forall k :: 0 <= k < i ==> !test(listed[k])
    decreases |listed|
  {
    if listed == [] then 0
    else if test(listed[0]) then 0
    else
      var i := 1 + IndexOf(listed[1..], test);
      assert forall k :: 1 <= k < i ==> listed[k] == listed[1..][k - 1];
      i
  }

  function Without(listed: seq<Waiter>, i: nat): seq<Waiter>
    requires i < |listed|
  {
    listed[..i] + listed[i + 1..]
  }

  function AllFailed(listed: seq<Waiter>, errno: Errno): (r: seq<Settlement>)
    ensures |r| == |listed| && forall i :: 0 <= i < |listed| ==> r[i] == Settlement(listed[i].id, Failed(errno))
  {
    seq(|listed|, i requires 0 <= i < |listed| => Settlement(listed[i].id, Failed(errno)))
  }

  function FailedState(s: State, errno: Errno): State {
    s.(listed := [], inflight := 0, settled := s.settled + AllFailed(s.listed, errno))
  }

  function Less(n: nat): nat { if n > 0 then n - 1 else 0 }

  /** The waiter a response belongs to: number 0 belongs to none. */
  function Match(s: State, seqNo: nat): nat {
    if seqNo == 0 then |s.listed| else IndexOf(s.listed, (w: Waiter) => w.seqNo == seqNo)
  }

  /** A waiter is new before it draws a number, and joins the list at most once. */
  predicate Enabled(s: State, step: Step) {
    match step
    case Draw(id) => id !in s.drawn
    case Register(id) => id in s.drawn && Fresh(s, id)
    case _ => true
  }

  predicate Fresh(s: State, id: nat) {
    && (forall i :: 0 <= i < |s.listed| ==> s.listed[i].id != id)
    && (forall i :: 0 <= i < |s.settled| ==> s.settled[i].id != id)
    && id !in s.withdrawn
  }

  function Next(s: State, step: Step): State
    requires Enabled(s, step)
  {
    match step
    case Draw(id) => s.(drawn := s.drawn[id := Seq(s)], nextSeq := Seq(s) + 1)
    case Register(id) =>
      if s.dead then s
      else s.(listed := s.listed + [Waiter(id, s.drawn[id])], inflight := s.inflight + 1)
    case Receive(seqNo, ret) =>
      var i := Match(s, seqNo);
      if i < |s.listed| then
        s.(listed := Without(s.listed, i), inflight := Less(s.inflight),
           settled := s.settled + [Settlement(s.listed[i].id, Delivered(seqNo, ret))])
      else FailedState(s, EPROTO)
    case FailAll(errno) => FailedState(s, errno)
    case Unregister(id) =>
      var i := IndexOf(s.listed, (w: Waiter) => w.id == id);
      if i < |s.listed| then
        s.(listed := Without(s.listed, i), inflight := Less(s.inflight), withdrawn := s.withdrawn + [id])
      else s
    case Kill => s.(dead := true)
  }

  // ---- What every step keeps -----------------------------------------------------------------

  ghost function ListedIds(listed: seq<Waiter>): (r: seq<nat>)
    ensures |r| == |listed| && forall i :: 0 <= i < |listed| ==> r[i] == listed[i].id
  {
    seq(|listed|, i requires 0 <= i < |listed| => listed[i].id)
  }

  ghost function SettledIds(settled: seq<Settlement>): (r: seq<nat>)
    ensures |r| == |settled| && forall i :: 0 <= i < |settled| ==> r[i] == settled[i].id
  {
    seq(|settled|, i requires 0 <= i < |settled| => settled[i].id)
  }

  /** Every waiter that ever joined the list, wherever it is now. */
  ghost function Everyone(s: State): multiset<nat> {
    multiset(ListedIds(s.listed)) + multiset(SettledIds(s.settled)) + multiset(s.withdrawn)
  }

  /** Numbers are drawn once and stay below the next one. */
  ghost predicate NumbersOk(s: State) {
    && (forall a :: a in s.drawn ==> 0 < s.drawn[a] < s.nextSeq)
    && (forall a, b :: a in s.drawn && b in s.drawn && a != b ==> s.drawn[a] != s.drawn[b])
  }

  ghost predicate ListOk(s: State) {
    s.inflight == |s.listed| && WaitFor(s.listed, s.drawn)
  }

  /** Nobody is in two places or twice in one. */
  ghost predicate Once(s: State) {
    forall w: nat :: Everyone(s)[w] <= 1
  }

  /** A delivered response carries the number its waiter drew. */
  ghost predicate Answered(s: State) {
    forall i :: 0 <= i < |s.settled| && s.settled[i].outcome.Delivered? ==>
      s.settled[i].id in s.drawn && s.settled[i].outcome.seqNo == s.drawn[s.settled[i].id]
  }

  ghost predicate Inv(s: State) {
    NumbersOk(s) && ListOk(s) && Once(s) && Answered(s)
  }

  // ---- Conservation --------------------------------------------------------------------------

  lemma RemoveListed(listed: seq<Waiter>, i: nat)
    requires i < |listed|
    ensures multiset(ListedIds(listed)) == multiset(ListedIds(Without(listed, i))) + multiset{listed[i].id}
  {
    var ids := ListedIds(listed);
    assert ids == ids[..i] + [ids[i]] + ids[i + 1..];
    assert ListedIds(Without(listed, i)) == ids[..i] + ids[i + 1..];
  }

  lemma SettleAppend(a: seq<Settlement>, b: seq<Settlement>)
    ensures multiset(SettledIds(a + b)) == multiset(SettledIds(a)) + multiset(SettledIds(b))
  {
    assert SettledIds(a + b) == SettledIds(a) + SettledIds(b);
  }

  lemma FailMoves(s: State, errno: Errno)
    ensures Everyone(FailedState(s, errno)) == Everyone(s)
  {
    SettleAppend(s.settled, AllFailed(s.listed, errno));
    assert SettledIds(AllFailed(s.listed, errno)) == ListedIds(s.listed);
    assert ListedIds([]) == [];
  }

  lemma RegisterAdds(s: State, w: Waiter)
    ensures Everyone(s.(listed := s.listed + [w], inflight := s.inflight + 1)) == Everyone(s) + multiset{w.id}
  {
    assert ListedIds(s.listed + [w]) == ListedIds(s.listed) + [w.id];
  }

  lemma SettleMoves(s: State, i: nat, o: Outcome)
    requires i < |s.listed|
    ensures Everyone(s.(listed := Without(s.listed, i), inflight := Less(s.inflight),
                        settled := s.settled + [Settlement(s.listed[i].id, o)])) == Everyone(s)
  {
    RemoveListed(s.listed, i);
    SettleAppend(s.settled, [Settlement(s.listed[i].id, o)]);
    assert SettledIds([Settlement(s.listed[i].id, o)]) == [s.listed[i].id];
  }

  lemma WithdrawMoves(s: State, i: nat)
    requires i < |s.listed|
    ensures Everyone(s.(listed := Without(s.listed, i), inflight := Less(s.inflight),
                        withdrawn := s.withdrawn + [s.listed[i].id])) == Everyone(s)
  {
    RemoveListed(s.listed, i);
  }

  /** Receiving, failing and giving up only move waiters; joining adds one. */
  lemma Conserved(s: State, step: Step)
    requires Enabled(s, step)
    ensures Everyone(Next(s, step)) == Everyone(s) + if step.Register? && !s.dead then multiset{step.id} else multiset{}
  {
    match step
    case Draw(id) =>
    case Kill =>
    case Register(id) => RegisterAdds(s, Waiter(id, s.drawn[id]));
    case Receive(seqNo, ret) =>
      var i := Match(s, seqNo);
      if i < |s.listed| { SettleMoves(s, i, Delivered(seqNo, ret)); } else { FailMoves(s, EPROTO); }
    case FailAll(errno) => FailMoves(s, errno);
    case Unregister(id) =>
      var i := IndexOf(s.listed, (w: Waiter) => w.id == id);
      if i < |s.listed| { WithdrawMoves(s, i); }
  }

  lemma FreshNowhere(s: State, id: nat)
    requires Fresh(s, id)
    ensures Everyone(s)[id] == 0
  {
  }

  lemma StepOnce(s: State, step: Step)
    requires Enabled(s, step) && Once(s)
    ensures Once(Next(s, step))
  {
    Conserved(s, step);
    if step.Register? { FreshNowhere(s, step.id); }
  }

  lemma StepNumbers(s: State, step: Step)
    requires Enabled(s, step) && NumbersOk(s)
    ensures NumbersOk(Next(s, step))
  {
  }

  /** The listed waiters wait for the numbers they drew. */
  ghost predicate WaitFor(listed: seq<Waiter>, drawn: map<nat, nat>) {
    forall i :: 0 <= i < |listed| ==> listed[i].id in drawn && listed[i].seqNo == drawn[listed[i].id]
  }

  lemma StepList(s: State, step: Step)
    requires Enabled(s, step) && ListOk(s)
    ensures ListOk(Next(s, step))
  {
  }

  lemma StepAnswered(s: State, step: Step)
    requires Enabled(s, step) && ListOk(s) && Answered(s)
    ensures Answered(Next(s, step))
  {
  }

  lemma StepKeeps(s: State, step: Step)
    requires Enabled(s, step) && Inv(s)
    ensures Inv(Next(s, step))
  {
    StepOnce(s, step);
    StepNumbers(s, step);
    StepList(s, step);
    StepAnswered(s, step);
  }

  // ---- Runs ----------------------------------------------------------------------------------

  /** The states a run passes through, each step enabled where it is taken. */
  ghost predicate Runs(states: seq<State>, steps: seq<Step>) {
    && |states| == |steps| + 1 && states[0] == START
    && forall i :: 0 <= i < |steps| ==> Enabled(states[i], steps[i]) && states[i + 1] == Next(states[i], steps[i])
  }

  lemma {:induction false} RunKeeps(states: seq<State>, steps: seq<Step>, n: nat)
    requires Runs(states, steps) && n <= |steps|
    ensures Inv(states[n])
  {
    if n == 0 {
      assert ListedIds([]) == [] && SettledIds([]) == [];
    } else {
      RunKeeps(states, steps, n - 1);
      StepKeeps(states[n - 1], steps[n - 1]);
    }
  }

  /** In every state of every run: the in-flight count is the number of listed waiters, their
      numbers are distinct and below the next one, nobody is settled twice or settled while
      listed, and a delivered response has its waiter's number. */
  lemma MuxSafe(states: seq<State>, steps: seq<Step>, n: nat)
    requires Runs(states, steps) && n <= |steps|
    ensures var s := states[n];
            && s.inflight == |s.listed|
            && (forall i, j :: 0 <= i < j < |s.listed| ==> s.listed[i].seqNo != s.listed[j].seqNo)
            && (forall i :: 0 <= i < |s.listed| ==> 0 < s.listed[i].seqNo < s.nextSeq)
            && (forall i, j :: 0 <= i < j < |s.settled| ==> s.settled[i].id != s.settled[j].id)
            && (forall i, j :: 0 <= i < |s.settled| && 0 <= j < |s.listed| ==> s.settled[i].id != s.listed[j].id)
            && (forall i :: 0 <= i < |s.settled| && s.settled[i].outcome.Delivered? ==>
                  s.settled[i].id in s.drawn && s.settled[i].outcome.seqNo == s.drawn[s.settled[i].id])
  {
    RunKeeps(states, steps, n);
    var s := states[n];
    Apart(s);
    forall i, j | 0 <= i < j < |s.listed|
      ensures s.listed[i].seqNo != s.listed[j].seqNo
    {
      assert s.listed[i].id != s.listed[j].id;
    }
  }

  /** Two places in one list hold different waiters. */
  lemma TwicePlaced(s: seq<nat>, i: nat, j: nat)
    requires i < j < |s| && s[i] == s[j]
    ensures multiset(s)[s[i]] >= 2
  {
    assert s == s[..i] + [s[i]] + s[i + 1..j] + [s[j]] + s[j + 1..];
  }

  lemma Places(s: State, w: nat)
    requires Once(s)
    ensures multiset(ListedIds(s.listed))[w] + multiset(SettledIds(s.settled))[w] + multiset(s.withdrawn)[w] <= 1
  {
    assert Everyone(s)[w] <= 1;
  }

  lemma Apart(s: State)
    requires Once(s)
    ensures forall i, j :: 0 <= i < j < |s.listed| ==> s.listed[i].id != s.listed[j].id
    ensures forall i, j :: 0 <= i < j < |s.settled| ==> s.settled[i].id != s.settled[j].id
    ensures forall i, j :: 0 <= i < |s.settled| && 0 <= j < |s.listed| ==> s.settled[i].id != s.listed[j].id
  {
    var ids, done := ListedIds(s.listed), SettledIds(s.settled);
    forall i, j | 0 <= i < j < |s.listed|
      ensures s.listed[i].id != s.listed[j].id
    {
      Places(s, ids[i]);
      if ids[i] == ids[j] { TwicePlaced(ids, i, j); }
    }
    forall i, j | 0 <= i < j < |s.settled|
      ensures s.settled[i].id != s.settled[j].id
    {
      Places(s, done[i]);
      if done[i] == done[j] { TwicePlaced(done, i, j); }
    }
    forall i, j | 0 <= i < |s.settled| && 0 <= j < |s.listed|
      ensures s.settled[i].id != s.listed[j].id
    {
      Places(s, done[i]);
      assert done[i] in multiset(done) && ids[j] in multiset(ids);
    }
  }

  /** Listed waiters wait for different numbers, none of them 0. */
  lemma NumbersApart(s: State, i: nat, j: nat)
    requires Inv(s) && i < j < |s.listed|
    ensures s.listed[i].seqNo != s.listed[j].seqNo && s.listed[i].id != s.listed[j].id
  {
    Apart(s);
  }

  /** In every state of every run a response settles exactly the waiter that drew its number, with
      that response; the others stay listed, in order. */
  lemma ResponseDelivered(states: seq<State>, steps: seq<Step>, n: nat, i: nat, ret: int)
    requires Runs(states, steps) && n <= |steps| && i < |states[n].listed|
    ensures var s := states[n];
            var w := s.listed[i];
            var s' := Next(s, Receive(w.seqNo, ret));
            && s'.settled == s.settled + [Settlement(w.id, Delivered(w.seqNo, ret))]
            && s'.listed == s.listed[..i] + s.listed[i + 1..] && s'.inflight == s.inflight - 1
            && s'.withdrawn == s.withdrawn && s'.drawn == s.drawn && s'.nextSeq == s.nextSeq && s'.dead == s.dead
  {
    RunKeeps(states, steps, n);
    var s := states[n];
    assert s.listed[i].id in s.drawn;
    forall j: nat | j < i
      ensures s.listed[j].seqNo != s.listed[i].seqNo
    {
      NumbersApart(s, j, i);
    }
    FirstIs(s.listed, (w: Waiter) => w.seqNo == s.listed[i].seqNo, i);
  }

  /** A waiter that gives up leaves the list; nobody else does, and nobody is settled. One that is
      no longer listed changes nothing. */
  lemma GivesUpAlone(states: seq<State>, steps: seq<Step>, n: nat, id: nat)
    requires Runs(states, steps) && n <= |steps|
    ensures var s, s' := states[n], Next(states[n], Unregister(id));
            && s'.settled == s.settled && s'.drawn == s.drawn && s'.nextSeq == s.nextSeq && s'.dead == s.dead
            && (forall i: nat :: i < |s.listed| && s.listed[i].id == id ==>
                  && s'.listed == s.listed[..i] + s.listed[i + 1..] && s'.inflight == s.inflight - 1
                  && s'.withdrawn == s.withdrawn + [id])
            && ((forall i :: 0 <= i < |s.listed| ==> s.listed[i].id != id) ==> s' == s)
  {
    RunKeeps(states, steps, n);
    var s := states[n];
    forall i: nat | i < |s.listed| && s.listed[i].id == id
      ensures IndexOf(s.listed, (w: Waiter) => w.id == id) == i
    {
      forall j: nat | j < i
        ensures s.listed[j].id != id
      {
        NumbersApart(s, j, i);
      }
      FirstIs(s.listed, (w: Waiter) => w.id == id, i);
    }
    if forall i :: 0 <= i < |s.listed| ==> s.listed[i].id != id {
      FirstIs(s.listed, (w: Waiter) => w.id == id, |s.listed|);
    }
  }

  /** A waiter that joins a live connection is listed last, under the number it drew; a dead one
      refuses it. */
  lemma JoinsLast(s: State, id: nat)
    requires Enabled(s, Register(id))
    ensures var s' := Next(s, Register(id));
            if s.dead then s' == s
            else s'.listed == s.listed + [Waiter(id, s.drawn[id])] && s'.inflight == s.inflight + 1 && s'.settled == s.settled
  {
  }

  /** A response with an unknown number, or with number 0, fails everybody who waits. */
  lemma UnknownFailsAll(s: State, seqNo: nat, ret: int)
    requires seqNo == 0 || forall i :: 0 <= i < |s.listed| ==> s.listed[i].seqNo != seqNo
    ensures Next(s, Receive(seqNo, ret)) == FailedState(s, EPROTO)
  {
  }

  // ---- The connection slot -------------------------------------------------------------------

  /** The fields of a cached socket that the multiplexer uses. Which waiter drew which number,
      who was completed and who gave up is recorded beside them. */
  class CachedSocket {
    var nextSeq: nat
    var muxDead: bool
    var muxInflight: nat
    var muxWaiters: seq<Waiter>
    ghost var drawn: map<nat, nat>
    var completed: seq<Settlement>
    ghost var withdrawn: seq<nat>

    ghost function Value(): State
      reads this
    {
      State(nextSeq, muxDead, muxInflight, muxWaiters, drawn, completed, withdrawn)
    }

    constructor ()
      ensures Value() == START
    {
      nextSeq, muxDead, muxInflight, muxWaiters := 0, false, 0, [];
      drawn, completed, withdrawn := map[], [], [];
    }

    /** kfastblock_osd_conn_slot_next_seq_locked, for a new waiter */
    method NextSeq(ghost id: nat) returns (seqNo: nat)
      requires Enabled(Value(), Draw(id))
      modifies this
      ensures Value() == Next(old(Value()), Draw(id)) && seqNo == drawn[id]
    {
      if nextSeq == 0 { nextSeq := 1; }
      seqNo := nextSeq;
      nextSeq := nextSeq + 1;
      drawn := drawn[id := seqNo];
    }

    /** kfastblock_transport_register_mux_waiter; false stands for ENOTCONN */
    method RegisterMuxWaiter(w: Waiter) returns (ok: bool)
      requires Enabled(Value(), Register(w.id)) && drawn[w.id] == w.seqNo
      modifies this
      ensures Value() == Next(old(Value()), Register(w.id)) && ok == !old(muxDead)
    {
      if muxDead { return false; }
      muxWaiters := muxWaiters + [w];
      muxInflight := muxInflight + 1;
      return true;
    }

    /** kfastblock_transport_find_mux_waiter_locked */
    method FindMuxWaiter(seqNo: nat) returns (i: nat)
      ensures i == Match(Value(), seqNo)
    {
      if seqNo == 0 { return |muxWaiters|; }
      i := 0;
      while i < |muxWaiters| && muxWaiters[i].seqNo != seqNo
        invariant i <= |muxWaiters| && forall k :: 0 <= k < i ==> muxWaiters[k].seqNo != seqNo
      {
        i := i + 1;
      }
      FirstIs(muxWaiters, (w: Waiter) => w.seqNo == seqNo, i);
    }

    /** kfastblock_transport_fail_mux_waiters */
    method FailMuxWaiters(errno: Errno)
      modifies this
      ensures Value() == Next(old(Value()), FailAll(errno))
    {
      var waiters := muxWaiters;
      muxWaiters, muxInflight := [], 0;
      for i := 0 to |waiters|
        invariant completed == old(completed) + AllFailed(waiters[..i], errno)
        invariant Value() == old(Value()).(listed := [], inflight := 0, settled := completed)
      {
        assert AllFailed(waiters[..i + 1], errno) == AllFailed(waiters[..i], errno) + [Settlement(waiters[i].id, Failed(errno))];
        completed := completed + [Settlement(waiters[i].id, Failed(errno))];
      }
      assert waiters[..|waiters|] == waiters;
    }

    /** One response in kfastblock_transport_osd_mux_recv_work. Somebody waited when the blocking
        receive began; by the time the response is there the last waiter may have given up. */
    method ReceiveResponse(seqNo: nat, ret: int)
      modifies this
      ensures Value() == Next(old(Value()), Receive(seqNo, ret))
    {
      var i := FindMuxWaiter(seqNo);
      if i < |muxWaiters| {
        var waiter := muxWaiters[i];
        muxWaiters := Without(muxWaiters, i);
        if muxInflight > 0 { muxInflight := muxInflight - 1; }
        completed := completed + [Settlement(waiter.id, Delivered(seqNo, ret))];
      } else {
        FailMuxWaiters(EPROTO);
      }
    }

    /** kfastblock_transport_unregister_mux_waiter */
    method UnregisterMuxWaiter(id: nat)
      modifies this
      ensures Value() == Next(old(Value()), Unregister(id))
    {
      var i := 0;
      while i < |muxWaiters| && muxWaiters[i].id != id
        invariant i <= |muxWaiters| && forall k :: 0 <= k < i ==> muxWaiters[k].id != id
        invariant Value() == old(Value())
      {
        i := i + 1;
      }
      FirstIs(muxWaiters, (w: Waiter) => w.id == id, i);
      if i < |muxWaiters| {
        muxWaiters := Without(muxWaiters, i);
        if muxInflight > 0 { muxInflight := muxInflight - 1; }
        withdrawn := withdrawn + [id];
      }
    }
  }

  lemma FirstIs(listed: seq<Waiter>, test: Waiter -> bool, i: nat)
    requires i <= |listed| && (i < |listed| ==> test(listed[i])) && forall k :: 0 <= k < i ==> !test(listed[k])
    ensures IndexOf(listed, test) == i
  {
  }
}
