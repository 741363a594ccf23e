/** The request engine's dispatcher: object states, the round-robin cursor and the census
    counters of one request. */
module Dispatch {
  import opened Counting

  datatype ObjectState = INIT | READY | QUEUED | IN_FLIGHT | REQUEUE | DONE | FAILED | CANCELLED

  /** The runtime fields of struct kfastblock_request that dispatching uses. */
  datatype Runtime = Runtime(
    states: seq<ObjectState>, cursor: nat,
    queued: nat, inflight: nat, completed: nat, failed: nat, cancelled: nat)

  /** Every counter is the number of objects in its state. */
  ghost predicate Census(r: Runtime) {
    && r.queued == Count(r.states, QUEUED)
    && r.inflight == Count(r.states, IN_FLIGHT)
    && r.completed == Count(r.states, DONE)
    && r.failed == Count(r.states, FAILED)
    && r.cancelled == Count(r.states, CANCELLED)
  }

  ghost predicate CursorOk(r: Runtime) {
    r.states != [] ==> r.cursor < |r.states|
  }

  predicate Terminal(s: ObjectState) { s in {DONE, FAILED, CANCELLED} }

  // ---- Picking a batch ------------------------------------------------------------------

  /** The index k places after the cursor, going round. */
  function Cyclic(cursor: nat, k: nat, n: nat): (i: nat)
    requires cursor < n && k < n
    ensures i < n
  {
    if cursor + k < n then cursor + k else cursor + k - n
  }

  /** The place behind i, going round. */
  function Next(i: nat, n: nat): (j: nat)
    requires i < n
    ensures j < n
  {
    if i + 1 == n then 0 else i + 1
  }

  /** The READY objects in cyclic order from the cursor, among the first k places. */
  function ReadyOrder(states: seq<ObjectState>, cursor: nat, k: nat): (order: seq<nat>)
    requires cursor < |states| && k <= |states|
    ensures |order| <= k
    ensures forall j :: 0 <= j < |order| ==> order[j] < |states|
  {
    if k == 0 then []
    else
      var i := Cyclic(cursor, k - 1, |states|);
      ReadyOrder(states, cursor, k - 1) + if states[i] == READY then [i] else []
  }

  function Take(s: seq<nat>, n: nat): seq<nat> {
    if |s| <= n then s else s[..n]
  }

  /** The states after the objects of a batch were queued. */
  function Queue(states: seq<ObjectState>, batch: seq<nat>): (q: seq<ObjectState>)
    ensures |q| == |states|
  {
    seq(|states|, i requires 0 <= i < |states| => if i in batch then QUEUED else states[i])
  }

  function Batch(r: Runtime, max: nat): seq<nat>
    requires CursorOk(r)
  {
    if r.states == [] then [] else Take(ReadyOrder(r.states, r.cursor, |r.states|), max)
  }

  /** Picking takes the first READY objects in cyclic order, queues exactly those, counts
      them and moves the cursor behind the last one. */
  function Pick(r: Runtime, max: nat): Runtime
    requires CursorOk(r)
  {
    var batch := Batch(r, max);
    if batch == [] then r
    else
      BatchInRange(r, max);
      r.(states := Queue(r.states, batch),
         queued := r.queued + |batch|,
         cursor := Next(batch[|batch| - 1], |r.states|))
  }

  lemma BatchInRange(r: Runtime, max: nat)
    requires CursorOk(r)
    ensures forall j :: 0 <= j < |Batch(r, max)| ==> Batch(r, max)[j] < |r.states|
    ensures Batch(r, max) != [] ==> r.states != []
  {
  }

  /** Places from the cursor to object i, going round. */
  function Distance(cursor: nat, i: nat, n: nat): nat
    requires cursor < n && i < n
  {
    if i >= cursor then i - cursor else i + n - cursor
  }

  ghost predicate Increasing(order: seq<nat>, cursor: nat, n: nat)
    requires cursor < n && forall j :: 0 <= j < |order| ==> order[j] < n
  {
    forall j, k :: 0 <= j < k < |order| ==> Distance(cursor, order[j], n) < Distance(cursor, order[k], n)
  }

  lemma CyclicDistance(cursor: nat, k: nat, n: nat, i: nat)
    requires cursor < n && k < n && i < n
    ensures Distance(cursor, i, n) == k <==> i == Cyclic(cursor, k, n)
  {
  }

  /** The order lists exactly the READY objects among the first k places. */
  lemma {:induction false} ReadyOrderMembers(states: seq<ObjectState>, cursor: nat, k: nat, i: nat)
    requires cursor < |states| && k <= |states| && i < |states|
    ensures i in ReadyOrder(states, cursor, k) <==> states[i] == READY && Distance(cursor, i, |states|) < k
  {
    if k > 0 {
      ReadyOrderMembers(states, cursor, k - 1, i);
      CyclicDistance(cursor, k - 1, |states|, i);
    }
  }

  /** Nearest first. */
  lemma {:induction false} ReadyOrderIncreasing(states: seq<ObjectState>, cursor: nat, k: nat)
    requires cursor < |states| && k <= |states|
    ensures Increasing(ReadyOrder(states, cursor, k), cursor, |states|)
    ensures forall j :: 0 <= j < |ReadyOrder(states, cursor, k)| ==>
              Distance(cursor, ReadyOrder(states, cursor, k)[j], |states|) < k
  {
    if k > 0 {
      ReadyOrderIncreasing(states, cursor, k - 1);
      CyclicDistance(cursor, k - 1, |states|, Cyclic(cursor, k - 1, |states|));
    }
  }

  lemma ReadyOrderExact(states: seq<ObjectState>, cursor: nat)
    requires cursor < |states|
    ensures Increasing(ReadyOrder(states, cursor, |states|), cursor, |states|)
    ensures forall i :: 0 <= i < |states| ==> (i in ReadyOrder(states, cursor, |states|) <==> states[i] == READY)
  {
    ReadyOrderIncreasing(states, cursor, |states|);
    forall i | 0 <= i < |states|
      ensures i in ReadyOrder(states, cursor, |states|) <==> states[i] == READY
    {
      ReadyOrderMembers(states, cursor, |states|, i);
    }
  }

  lemma IncreasingDistinct(order: seq<nat>, cursor: nat, n: nat)
    requires cursor < n && forall j :: 0 <= j < |order| ==> order[j] < n
    requires Increasing(order, cursor, n)
    ensures Distinct(order)
  {
  }

  lemma {:induction false} ReadyPrefix(states: seq<ObjectState>, cursor: nat, k: nat, m: nat)
    requires cursor < |states| && k <= m <= |states|
    ensures ReadyOrder(states, cursor, k) <= ReadyOrder(states, cursor, m)
    decreases m
  {
    if k < m {
      ReadyPrefix(states, cursor, k, m - 1);
    }
  }

  // ---- Counting ------------------------------------------------------------------------

  ghost function IndicesOf(states: seq<ObjectState>, s: ObjectState): set<nat> {
    set i: nat | i < |states| && states[i] == s
  }

  lemma {:induction false} CountIsSize(states: seq<ObjectState>, s: ObjectState)
    ensures Count(states, s) == |IndicesOf(states, s)|
  {
    if states != [] {
      var k := |states| - 1;
      var front := states[..k];
      CountIsSize(front, s);
      if states[k] == s {
        assert IndicesOf(states, s) == IndicesOf(front, s) + {k};
      } else {
        assert IndicesOf(states, s) == IndicesOf(front, s);
      }
    }
  }

  lemma ReadyCount(states: seq<ObjectState>, cursor: nat)
    requires cursor < |states|
    ensures |ReadyOrder(states, cursor, |states|)| == Count(states, READY)
    ensures Distinct(ReadyOrder(states, cursor, |states|))
  {
    var order := ReadyOrder(states, cursor, |states|);
    ReadyOrderExact(states, cursor);
    IncreasingDistinct(order, cursor, |states|);
    DistinctSize(order);
    CountIsSize(states, READY);
    assert Elements(order) == IndicesOf(states, READY);
  }

  /** A batch has exactly min(max, number of READY objects) distinct READY objects. */
  lemma BatchExact(r: Runtime, max: nat)
    requires CursorOk(r)
    ensures var b := Batch(r, max);
      && |b| == (if Count(r.states, READY) <= max then Count(r.states, READY) else max)
      && Distinct(b)
      && (forall j :: 0 <= j < |b| ==> b[j] < |r.states| && r.states[b[j]] == READY)
  {
    if r.states != [] {
      var order := ReadyOrder(r.states, r.cursor, |r.states|);
      ReadyCount(r.states, r.cursor);
      ReadyOrderExact(r.states, r.cursor);
      forall j | 0 <= j < |order|
        ensures order[j] < |r.states| && r.states[order[j]] == READY
      {
        assert order[j] in order;
      }
    }
  }

  /** Any READY object left out of a batch is further round than every one picked. */
  lemma BatchNearest(r: Runtime, max: nat, i: nat, j: nat)
    requires CursorOk(r) && i < |r.states| && r.states[i] == READY && i !in Batch(r, max)
    requires j < |Batch(r, max)| && Batch(r, max)[j] < |r.states|
    ensures |Batch(r, max)| == max
    ensures Distance(r.cursor, Batch(r, max)[j], |r.states|) < Distance(r.cursor, i, |r.states|)
  {
    ReadyOrderExact(r.states, r.cursor);
    LeftOut(ReadyOrder(r.states, r.cursor, |r.states|), r.cursor, |r.states|, max, i, j);
  }

  lemma LeftOut(order: seq<nat>, cursor: nat, n: nat, max: nat, i: nat, j: nat)
    requires cursor < n && forall j :: 0 <= j < |order| ==> order[j] < n
    requires Increasing(order, cursor, n)
    requires i in order && i !in Take(order, max) && j < |Take(order, max)|
    ensures |Take(order, max)| == max
    ensures i < n && Distance(cursor, Take(order, max)[j], n) < Distance(cursor, i, n)
  {
  }

  // ---- Fairness --------------------------------------------------------------------------

  /** A READY object is picked, or the cursor comes nearer to it. */
  lemma PickProgress(r: Runtime, max: nat, x: nat)
    requires CursorOk(r) && max > 0 && x < |r.states| && r.states[x] == READY
    ensures CursorOk(Pick(r, max)) && |Pick(r, max).states| == |r.states|
    ensures x in Batch(r, max) ||
            Distance(Pick(r, max).cursor, x, |r.states|) < Distance(r.cursor, x, |r.states|)
  {
    BatchExact(r, max);
    CountIn(r.states, READY);
    var b := Batch(r, max);
    if x !in b {
      BatchNearest(r, max, x, |b| - 1);
    }
  }

  /** Rounds of picking, with any state changes in between; the cursor is only moved by
      picking. Object x is picked in one of the rounds. */
  ghost predicate PickedWithin(x: nat, cursor: nat, rounds: seq<(seq<ObjectState>, nat)>, n: nat)
    requires forall i :: 0 <= i < |rounds| ==> |rounds[i].0| == n
    requires cursor < n
    decreases rounds
  {
    rounds != [] &&
    var r := Runtime(rounds[0].0, cursor, 0, 0, 0, 0, 0);
    (x in Batch(r, rounds[0].1) || PickedWithin(x, NextCursor(r, rounds[0].1), rounds[1..], n))
  }

  function NextCursor(r: Runtime, max: nat): (c: nat)
    requires CursorOk(r) && r.states != []
    ensures c < |r.states|
  {
    Pick(r, max).cursor
  }

  /** An object that stays READY is picked within its cyclic distance plus one rounds. */
  lemma {:induction false} Fair(x: nat, cursor: nat, rounds: seq<(seq<ObjectState>, nat)>, n: nat)
    requires x < n && cursor < n && |rounds| > Distance(cursor, x, n)
    requires forall i :: 0 <= i < |rounds| ==> |rounds[i].0| == n && rounds[i].0[x] == READY && rounds[i].1 > 0
    ensures PickedWithin(x, cursor, rounds, n)
    decreases rounds
  {
    var r := Runtime(rounds[0].0, cursor, 0, 0, 0, 0, 0);
    PickProgress(r, rounds[0].1, x);
    if x !in Batch(r, rounds[0].1) {
      Fair(x, NextCursor(r, rounds[0].1), rounds[1..], n);
    }
  }

  // ---- The other steps, with the "if nonzero" guards of the source ----------------------------

  function Less(c: nat): nat { if c > 0 then c - 1 else 0 }

  function Prepare(n: nat): Runtime {
    Runtime(seq(n, _ => READY), 0, 0, 0, 0, 0, 0)
  }

  function MarkInflight(r: Runtime, i: nat): Runtime {
    if i >= |r.states| || r.states[i] != QUEUED then r
    else r.(states := r.states[i := IN_FLIGHT], queued := Less(r.queued), inflight := r.inflight + 1)
  }

  function MarkComplete(r: Runtime, i: nat, ok: bool): Runtime {
    if i >= |r.states| then r
    else
      var q := if r.states[i] == IN_FLIGHT then r.(inflight := Less(r.inflight)) else r;
      if ok then q.(states := r.states[i := DONE], completed := r.completed + 1)
      else q.(states := r.states[i := FAILED], failed := r.failed + 1)
  }

  function Requeue(r: Runtime, i: nat): Runtime {
    if i >= |r.states| then r
    else
      r.(states := r.states[i := READY],
         queued := if r.states[i] == QUEUED then Less(r.queued) else r.queued,
         inflight := if r.states[i] == IN_FLIGHT then Less(r.inflight) else r.inflight)
  }

  /** One turn of the cancel loop: READY and QUEUED objects are cancelled. */
  function CancelOne(r: Runtime, i: nat): Runtime
    requires i < |r.states|
  {
    if r.states[i] != READY && r.states[i] != QUEUED then r
    else
      r.(states := r.states[i := CANCELLED],
         queued := if r.states[i] == QUEUED then Less(r.queued) else r.queued,
         cancelled := r.cancelled + 1)
  }

  /** The runtime after the cancel loop passed the first k objects. */
  function CancelFirst(r: Runtime, k: nat): (q: Runtime)
    requires k <= |r.states|
    ensures |q.states| == |r.states|
  {
    if k == 0 then r else CancelOne(CancelFirst(r, k - 1), k - 1)
  }

  function Credits(r: Runtime, window: nat): nat {
    var w := if window > 0 then window else 1;
    if r.queued + r.inflight >= w then 0 else w - (r.queued + r.inflight)
  }

  // ---- The census -----------------------------------------------------------------------------

  lemma CountsAfter(states: seq<ObjectState>, i: nat, t: ObjectState)
    requires i < |states|
    ensures forall s :: Count(states[i := t], s) ==
              Count(states, s) - (if states[i] == s then 1 else 0) + (if t == s then 1 else 0)
    ensures Count(states, states[i]) > 0
  {
  }

  lemma {:induction false} QueueCounts(states: seq<ObjectState>, batch: seq<nat>)
    requires Distinct(batch)
    requires forall j :: 0 <= j < |batch| ==> batch[j] < |states| && states[batch[j]] == READY
    ensures forall s :: Count(Queue(states, batch), s) ==
              Count(states, s) + (if s == QUEUED then |batch| else if s == READY then -|batch| else 0)
  {
    if batch == [] {
      assert Queue(states, batch) == states;
    } else {
      var k := |batch| - 1;
      var q := Queue(states, batch[..k]);
      QueueCounts(states, batch[..k]);
      assert batch == batch[..k] + [batch[k]];
      assert Queue(states, batch) == q[batch[k] := QUEUED];
      assert q[batch[k]] == READY;
      CountsAfter(q, batch[k], QUEUED);
    }
  }

  lemma PickKeepsCensus(r: Runtime, max: nat)
    requires CursorOk(r) && Census(r)
    ensures Census(Pick(r, max)) && CursorOk(Pick(r, max))
    ensures Pick(r, max).queued <= r.queued + max && Pick(r, max).inflight == r.inflight
  {
    BatchExact(r, max);
    QueueCounts(r.states, Batch(r, max));
  }

  lemma InflightKeepsCensus(r: Runtime, i: nat)
    requires Census(r)
    ensures Census(MarkInflight(r, i))
  {
    if i < |r.states| {
      CountsAfter(r.states, i, IN_FLIGHT);
    }
  }

  /** Completion keeps the census exactly for objects that are neither queued nor finished:
      the queued counter is not touched, and a finished object would be counted twice. */
  lemma CompleteKeepsCensusIff(r: Runtime, i: nat, ok: bool)
    requires Census(r) && i < |r.states|
    ensures Census(MarkComplete(r, i, ok)) <==> r.states[i] != QUEUED && !Terminal(r.states[i])
  {
    CountsAfter(r.states, i, if ok then DONE else FAILED);
  }

  /** Requeueing keeps it exactly for objects that are not finished. */
  lemma RequeueKeepsCensusIff(r: Runtime, i: nat)
    requires Census(r) && i < |r.states|
    ensures Census(Requeue(r, i)) <==> !Terminal(r.states[i])
  {
    CountsAfter(r.states, i, READY);
  }

  /** A request with one object, which was just queued. */
  lemma OneQueued()
    ensures Do(Prepare(1), 1, Refill) == Runtime([QUEUED], 0, 1, 0, 0, 0, 0)
  {
    var r := Prepare(1);
    assert ReadyOrder(r.states, 0, 0) == [];
    assert Batch(r, 1) == [0];
    assert Queue(r.states, [0]) == [QUEUED];
  }

  /** Completing an object that is still queued leaves it counted as queued. */
  lemma CompleteQueuedExample()
    ensures var q := MarkComplete(Do(Prepare(1), 1, Refill), 0, true);
      q.states == [DONE] && q.queued == 1 && !Census(q)
  {
    OneQueued();
  }

  /** Requeueing a finished object leaves it counted as completed. */
  lemma RequeueDoneExample()
    ensures var r := MarkComplete(MarkInflight(Do(Prepare(1), 1, Refill), 0), 0, true);
      var q := Requeue(r, 0);
      r.states == [DONE] && q.states == [READY] && q.completed == 1 && !Census(q)
  {
    OneQueued();
  }

  lemma CancelOneKeepsCensus(r: Runtime, i: nat)
    requires Census(r) && i < |r.states|
    ensures Census(CancelOne(r, i))
  {
    CountsAfter(r.states, i, CANCELLED);
  }

  lemma {:induction false} CancelKeepsCensus(r: Runtime, k: nat)
    requires Census(r) && k <= |r.states|
    ensures Census(CancelFirst(r, k)) && CancelFirst(r, k).cursor == r.cursor
    ensures CancelFirst(r, k).queued <= r.queued && CancelFirst(r, k).inflight == r.inflight
  {
    if k > 0 {
      CancelKeepsCensus(r, k - 1);
      CancelOneKeepsCensus(CancelFirst(r, k - 1), k - 1);
    }
  }

  // ---- Every run ------------------------------------------------------------------------------

  datatype Step = Refill | Inflight(i: nat) | Complete(i: nat, ok: bool) | Retry(i: nat) | Cancel

  /** Completion is for objects in flight or just requeued, retry for unfinished ones. */
  ghost predicate Allowed(r: Runtime, s: Step) {
    match s
    case Complete(i, _) => i < |r.states| ==> r.states[i] == IN_FLIGHT || r.states[i] == READY
    case Retry(i) => i < |r.states| ==> !Terminal(r.states[i])
    case _ => true
  }

  function Do(r: Runtime, window: nat, s: Step): Runtime
    requires CursorOk(r)
  {
    match s
    case Refill => if Credits(r, window) == 0 then r else Pick(r, Credits(r, window))
    case Inflight(i) => MarkInflight(r, i)
    case Complete(i, ok) => MarkComplete(r, i, ok)
    case Retry(i) => Requeue(r, i)
    case Cancel => CancelFirst(r, |r.states|)
  }

  /** What a step makes of an object that was in state s: in flight from the queue, done or failed
      as it completed, ready again, or cancelled while it waited; of the others, nothing. */
  function StateAfter(s: ObjectState, k: nat, step: Step, batch: seq<nat>): ObjectState {
    match step
    case Refill => if k in batch then QUEUED else s
    case Inflight(i) => if k == i && s == QUEUED then IN_FLIGHT else s
    case Complete(i, ok) => if k != i then s else if ok then DONE else FAILED
    case Retry(i) => if k == i then READY else s
    case Cancel => if s == READY || s == QUEUED then CANCELLED else s
  }

  lemma {:induction false} CancelStates(r: Runtime, n: nat, k: nat)
    requires n <= |r.states| && k < |r.states|
    ensures CancelFirst(r, n).states[k] == if k < n then StateAfter(r.states[k], k, Cancel, []) else r.states[k]
  {
    if n > 0 {
      CancelStates(r, n - 1, k);
      CancelStates(r, n - 1, n - 1);
    }
  }

  /** Every step leaves every object in that state. */
  lemma {:induction false} StatesExact(r: Runtime, window: nat, step: Step, k: nat)
    requires CursorOk(r) && k < |r.states|
    ensures |Do(r, window, step).states| == |r.states|
    ensures Do(r, window, step).states[k] == StateAfter(r.states[k], k, step, Batch(r, Credits(r, window)))
  {
    match step
    case Refill =>
    case Inflight(i) =>
    case Complete(i, ok) =>
    case Retry(i) =>
    case Cancel => CancelStates(r, |r.states|, k);
  }

  /** A refill leaves the window full or nothing ready. */
  lemma {:induction false} RefillFills(r: Runtime, window: nat)
    requires Invariant(r, window)
    ensures var t := Do(r, window, Refill);
            t.queued + t.inflight == (if window > 0 then window else 1) || READY !in t.states
  {
    var credits := Credits(r, window);
    BatchExact(r, credits);
    QueueCounts(r.states, Batch(r, credits));
    var t := Do(r, window, Refill);
    CountIn(t.states, READY);
    if credits > 0 && Count(r.states, READY) <= credits {
      assert Queue(r.states, []) == r.states;
      assert Count(t.states, READY) == 0;
    }
  }

  ghost predicate Invariant(r: Runtime, window: nat) {
    Census(r) && CursorOk(r) && r.queued + r.inflight <= if window > 0 then window else 1
  }

  lemma StepKeepsInvariant(r: Runtime, window: nat, s: Step)
    requires Invariant(r, window) && Allowed(r, s)
    ensures Invariant(Do(r, window, s), window) && |Do(r, window, s).states| == |r.states|
  {
    match s
    case Refill => PickKeepsCensus(r, Credits(r, window));
    case Inflight(i) =>
      InflightKeepsCensus(r, i);
      if i < |r.states| { CountIn(r.states, r.states[i]); }
    case Complete(i, ok) => if i < |r.states| { CompleteKeepsCensusIff(r, i, ok); }
    case Retry(i) => if i < |r.states| { RequeueKeepsCensusIff(r, i); }
    case Cancel => CancelKeepsCensus(r, |r.states|);
  }

  lemma {:induction false} PrepareCensus(n: nat)
    ensures Census(Prepare(n))
  {
    if n > 0 {
      PrepareCensus(n - 1);
      assert Prepare(n).states[..n - 1] == Prepare(n - 1).states;
    }
  }

  /** A run is a list of steps, each allowed where it happens. */
  ghost predicate Run(r: Runtime, window: nat, steps: seq<Step>, last: Runtime)
    decreases steps
  {
    if steps == [] then last == r
    else CursorOk(r) && Allowed(r, steps[0]) && Run(Do(r, window, steps[0]), window, steps[1..], last)
  }

  lemma {:induction false} RunKeepsInvariant(r: Runtime, window: nat, steps: seq<Step>, last: Runtime)
    requires Invariant(r, window) && Run(r, window, steps, last)
    ensures Invariant(last, window) && |last.states| == |r.states|
    decreases steps
  {
    if steps != [] {
      StepKeepsInvariant(r, window, steps[0]);
      RunKeepsInvariant(Do(r, window, steps[0]), window, steps[1..], last);
    }
  }

  /** In every run from a prepared request, every counter is the number of objects in its
      state and the window is never exceeded. */
  lemma CensusAlways(n: nat, window: nat, steps: seq<Step>, last: Runtime)
    requires Run(Prepare(n), window, steps, last)
    ensures Census(last) && |last.states| == n
    ensures last.queued + last.inflight <= if window > 0 then window else 1
  {
    PrepareCensus(n);
    RunKeepsInvariant(Prepare(n), window, steps, last);
  }

  /** The "if nonzero" guards never hide an underflow: a queued or in-flight object is
      always counted. */
  lemma NoHiddenUnderflow(r: Runtime, i: nat)
    requires Census(r) && i < |r.states|
    ensures r.states[i] == QUEUED ==> r.queued > 0
    ensures r.states[i] == IN_FLIGHT ==> r.inflight > 0
  {
    CountIn(r.states, r.states[i]);
  }

  // ---- The source's form ------------------------------------------------------------------------

  /** struct kfastblock_request with its object_runtime array, updated in place. */
  class RequestRuntime {
    const object_runtime: array<ObjectState>
    var cursor: nat
    var queued: nat
    var inflight: nat
    var completed: nat
    var failed: nat
    var cancelled: nat

    ghost function Value(): Runtime
      reads this, object_runtime
    {
      Runtime(object_runtime[..], cursor, queued, inflight, completed, failed, cancelled)
    }

    /** kfastblock_request_prepare_runtime */
    constructor (n: nat)
      ensures fresh(object_runtime) && Value() == Prepare(n)
    {
      object_runtime := new ObjectState[n](_ => READY);
      cursor, queued, inflight, completed, failed, cancelled := 0, 0, 0, 0, 0, 0;
      new;
      assert object_runtime[..] == Prepare(n).states;
    }

    /** One place of the scan: a ready object is queued. */
    method ScanOne(scanned: nat, batch: seq<nat>, ghost was: seq<ObjectState>) returns (batch': seq<nat>)
      requires |was| == object_runtime.Length > cursor && scanned < |was|
      requires batch == ReadyOrder(was, cursor, scanned) && object_runtime[..] == Queue(was, batch)
      modifies this`queued, object_runtime
      ensures batch' == ReadyOrder(was, cursor, scanned + 1) && object_runtime[..] == Queue(was, batch')
      ensures queued == old(queued) + |batch'| - |batch| && |batch'| <= |batch| + 1
    {
      batch' := batch;
      var index := Modulo(cursor, scanned, object_runtime.Length);
      ScanStep(was, cursor, scanned, object_runtime[..]);
      if object_runtime[index] == READY {
        object_runtime[index] := QUEUED;
        batch' := batch + [index];
        queued := queued + 1;
      }
    }

    /** The scan: ready objects in cyclic order from the cursor are queued until the batch is
        full or every object was looked at. */
    method ScanReady(max: nat) returns (batch: seq<nat>)
      requires object_runtime.Length > cursor
      modifies this`queued, object_runtime
      ensures batch == Take(ReadyOrder(old(object_runtime[..]), cursor, object_runtime.Length), max)
      ensures object_runtime[..] == Queue(old(object_runtime[..]), batch) && queued == old(queued) + |batch|
    {
      batch := [];
      var n := object_runtime.Length;
      ghost var was := object_runtime[..];
      assert Queue(was, []) == was;
      var scanned := 0;
      while scanned < n && |batch| < max
        invariant 0 <= scanned <= n && |batch| <= max
        invariant batch == ReadyOrder(was, cursor, scanned)
        invariant object_runtime[..] == Queue(was, batch)
        invariant queued == old(queued) + |batch|
      {
        batch := ScanOne(scanned, batch, was);
        scanned := scanned + 1;
      }
      ReadyPrefix(was, cursor, scanned, n);
    }

    /** kfastblock_request_pick_dispatch_batch */
    method PickDispatchBatch(max: nat) returns (batch: seq<nat>)
      requires CursorOk(Value()) && max > 0
      modifies this`cursor, this`queued, object_runtime
      ensures batch == Batch(old(Value()), max)
      ensures Value() == Pick(old(Value()), max)
    {
      var n := object_runtime.Length;
      if n == 0 { return []; }
      batch := ScanReady(max);
      if |batch| > 0 {
        BatchInRange(old(Value()), max);
        cursor := Modulo(batch[|batch| - 1], 1, n);
      }
    }

    /** kfastblock_request_mark_object_inflight */
    method MarkObjectInflight(i: nat)
      modifies this`queued, this`inflight, object_runtime
      ensures Value() == MarkInflight(old(Value()), i)
    {
      if i >= object_runtime.Length { return; }
      if object_runtime[i] == QUEUED {
        object_runtime[i] := IN_FLIGHT;
        if queued > 0 { queued := queued - 1; }
        inflight := inflight + 1;
      }
    }

    /** kfastblock_request_mark_object_complete */
    method MarkObjectComplete(i: nat, ret: int)
      modifies this`inflight, this`failed, this`completed, object_runtime
      ensures Value() == MarkComplete(old(Value()), i, ret == 0)
    {
      if i >= object_runtime.Length { return; }
      if object_runtime[i] == IN_FLIGHT && inflight > 0 { inflight := inflight - 1; }
      if ret != 0 {
        object_runtime[i] := FAILED;
        failed := failed + 1;
      } else {
        object_runtime[i] := DONE;
        completed := completed + 1;
      }
    }

    /** kfastblock_request_requeue_object */
    method RequeueObject(i: nat)
      modifies this`queued, this`inflight, object_runtime
      ensures Value() == Requeue(old(Value()), i)
    {
      if i >= object_runtime.Length { return; }
      if object_runtime[i] == QUEUED && queued > 0 { queued := queued - 1; }
      if object_runtime[i] == IN_FLIGHT && inflight > 0 { inflight := inflight - 1; }
      object_runtime[i] := REQUEUE;
      object_runtime[i] := READY;
    }

    /** kfastblock_request_cancel_unqueued */
    method CancelUnqueued() returns (count: nat)
      modifies this`queued, this`cancelled, object_runtime
      ensures Value() == CancelFirst(old(Value()), object_runtime.Length)
      ensures cancelled == old(cancelled) + count
    {
      count := 0;
      ghost var was := Value();
      for i := 0 to object_runtime.Length
        invariant Value().(cancelled := cancelled + count) == CancelFirst(was, i)
        invariant cancelled == old(cancelled)
      {
        ghost var before := Value();
        if object_runtime[i] == READY || object_runtime[i] == QUEUED {
          if object_runtime[i] == QUEUED && queued > 0 { queued := queued - 1; }
          object_runtime[i] := CANCELLED;
          count := count + 1;
          assert object_runtime[..] == before.states[i := CANCELLED];
        }
      }
      cancelled := cancelled + count;
    }

    /** kfastblock_request_dispatch_credits */
    method DispatchCredits(window: nat) returns (credits: nat)
      ensures credits == Credits(Value(), window)
    {
      var w := if window > 0 then window else 1;
      var dispatched := queued + inflight;
      credits := if dispatched >= w then 0 else w - dispatched;
    }
  }

  /** (i + k) % n */
  method Modulo(i: nat, k: nat, n: nat) returns (r: nat)
    requires i < n && k <= n
    ensures r == if i + k < n then i + k else i + k - n
  {
    r := (i + k) % n;
    ghost var q := (i + k) / n;
    assert i + k == q * n + r;
    assert q >= 2 ==> q * n >= 2 * n;
    assert q == 0 || q == 1;
  }

  /** One more place scanned: the object there still has its old state, and if it is READY
      queueing it extends the batch. */
  lemma ScanStep(was: seq<ObjectState>, start: nat, k: nat, now: seq<ObjectState>)
    requires start < |was| && k < |was| && now == Queue(was, ReadyOrder(was, start, k))
    ensures var i := Cyclic(start, k, |was|);
      && now[i] == was[i]
      && ReadyOrder(was, start, k + 1) == ReadyOrder(was, start, k) + (if was[i] == READY then [i] else [])
      && (was[i] == READY ==> now[i := QUEUED] == Queue(was, ReadyOrder(was, start, k + 1)))
  {
    var i := Cyclic(start, k, |was|);
    ReadyOrderMembers(was, start, k, i);
    CyclicDistance(start, k, |was|, i);
  }
}
