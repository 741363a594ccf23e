/** The flush barrier: admission, completion and flushes on one volume as steps of a state
    machine. */
module Flush {

  datatype Active = None | Running(flush: nat)

  /** inflight and inProgress are the volume's fields. Beside them: the running flush and
      whether its drain has seen no I/O in flight, and which I/Os were admitted and put. */
  datatype State = State(inflight: nat, inProgress: bool, active: Active, drained: bool,
                         admitted: set<nat>, done: set<nat>)

  const START := State(0, false, None, false, {}, {})

  datatype Step =
    | Admit(io: nat)
    | Put(io: nat)
    | Begin(flush: nat)
    | Observe
    | Finish(success: bool)

  /** An I/O is new when it asks for admission and is put once; a flush drains and finishes
      while it runs, and reports success only when the drain saw no I/O in flight. */
  predicate Enabled(s: State, step: Step) {
    match step
    case Admit(io) => io !in s.admitted
    case Put(io) => io in s.admitted && io !in s.done
    case Begin(flush) => true
    case Observe => s.active.Running?
    case Finish(success) => s.active.Running? && (success ==> s.drained)
  }

  function Next(s: State, step: Step): State
    requires Enabled(s, step)
  {
    match step
    case Admit(io) =>
      if s.inProgress then s else s.(inflight := s.inflight + 1, admitted := s.admitted + {io})
    case Put(io) => s.(inflight := if s.inflight > 0 then s.inflight - 1 else 0, done := s.done + {io})
    case Begin(flush) =>
      if s.inProgress then s else s.(inProgress := true, active := Running(flush), drained := false)
    case Observe => s.(drained := s.drained || s.inflight == 0)
    case Finish(success) => s.(inProgress := false, active := None, drained := false)
  }

  ghost predicate Inv(s: State) {
    && s.done <= s.admitted
    && s.inflight == |s.admitted - s.done|
    && (s.inProgress <==> s.active.Running?)
    && (s.drained ==> s.inProgress && s.admitted == s.done)
  }

  /** The steps lead from s to s', each enabled where it is taken. */
  ghost predicate Leads(s: State, steps: seq<Step>, s': State)
    decreases |steps|
  {
    if steps == [] then s' == s
    else
      var k := |steps| - 1;
      exists mid :: Leads(s, steps[..k], mid) && Enabled(mid, steps[k]) && s' == Next(mid, steps[k])
  }

  lemma {:induction false} LeadsOn(s: State, steps: seq<Step>, mid: State, step: Step)
    requires Leads(s, steps, mid) && Enabled(mid, step)
    ensures Leads(s, steps + [step], Next(mid, step))
  {
    assert (steps + [step])[..|steps|] == steps;
  }

  lemma StepKeeps(s: State, step: Step)
    requires Inv(s) && Enabled(s, step)
    ensures Inv(Next(s, step))
  {
  }

  /** Outside a flush an I/O is admitted and counted; it is counted no longer once it is put. */
  lemma AdmitCounts(s: State, io: nat)
    requires Inv(s) && io !in s.admitted && !s.inProgress
    ensures var t := Next(s, Admit(io));
            && t.admitted == s.admitted + {io} && t.done == s.done && t.inflight == s.inflight + 1
            && Enabled(t, Put(io)) && Next(t, Put(io)).done == s.done + {io} && Next(t, Put(io)).inflight == s.inflight
  {
  }

  ghost predicate Runs(states: seq<State>, steps: seq<Step>) {
    && |states| == |steps| + 1 && states[0] == START
    && forall i :: 0 <= i < |steps| ==> Enabled(states[i], steps[i]) && states[i + 1] == Next(states[i], steps[i])
  }

  lemma {:induction false} RunKeeps(states: seq<State>, steps: seq<Step>, n: nat)
    requires Runs(states, steps) && n <= |steps|
    ensures Inv(states[n])
  {
    if n > 0 {
      RunKeeps(states, steps, n - 1);
      StepKeeps(states[n - 1], steps[n - 1]);
    }
  }

  /** While a flush runs it is the only one, and nothing is admitted. */
  lemma {:induction false} WhileRunning(states: seq<State>, steps: seq<Step>, b: nat, e: nat, flush: nat)
    requires Runs(states, steps) && b < e <= |steps|
    requires steps[b] == Begin(flush) && !states[b].inProgress
    requires forall k :: b < k < e ==> !steps[k].Finish?
    ensures states[e].inProgress && states[e].active == Running(flush) && states[e].admitted == states[b].admitted
  {
    if e > b + 1 { WhileRunning(states, steps, b, e - 1, flush); }
  }

  /** The barrier, over every run: from the step where a flush begins to the step where it
      reports success, no other flush begins, no I/O is admitted, and at the end every I/O
      admitted before has completed. */
  lemma FlushBarrier(states: seq<State>, steps: seq<Step>, b: nat, e: nat, flush: nat)
    requires Runs(states, steps) && b < e < |steps|
    requires steps[b] == Begin(flush) && !states[b].inProgress && steps[e] == Finish(true)
    requires forall k :: b < k < e ==> !steps[k].Finish?
    ensures forall k :: b < k <= e ==> states[k].active == Running(flush) && states[k].admitted == states[b].admitted
    ensures states[b].admitted <= states[e].done
  {
    forall k: nat | b < k <= e
      ensures states[k].active == Running(flush) && states[k].admitted == states[b].admitted
    {
      WhileRunning(states, steps, b, k, flush);
    }
    RunKeeps(states, steps, e);
    assert Enabled(states[e], steps[e]);
  }

  // ---- The volume ----------------------------------------------------------------------------

  class Volume {
    var inflightIos: nat
    var flushInProgress: bool
    ghost var active: Active
    ghost var drained: bool
    ghost var admitted: set<nat>
    ghost var done: set<nat>

    ghost function Value(): State
      reads this
    {
      State(inflightIos, flushInProgress, active, drained, admitted, done)
    }

    constructor ()
      ensures Value() == START
    {
      inflightIos, flushInProgress, active, drained, admitted, done := 0, false, None, false, {}, {};
    }

    /** The admission part of kfastblock_queue_rq */
    method AdmitIo(ghost io: nat) returns (ok: bool)
      requires Enabled(Value(), Admit(io))
      modifies this
      ensures Value() == Next(old(Value()), Admit(io)) && ok == !old(flushInProgress)
      ensures ok ==> io in admitted && inflightIos == old(inflightIos) + 1
      ensures !ok ==> admitted == old(admitted) && inflightIos == old(inflightIos)
    {
      if flushInProgress { return false; }
      inflightIos := inflightIos + 1;
      admitted := admitted + {io};
      return true;
    }

    /** kfastblock_volume_put_io; the result says whether drainers are woken */
    method PutIo(ghost io: nat) returns (wake: bool)
      requires Enabled(Value(), Put(io)) && Inv(Value())
      modifies this
      ensures Value() == Next(old(Value()), Put(io)) && wake == (admitted == done)
    {
      StepKeeps(Value(), Put(io));
      assert io in admitted - done;
      inflightIos := inflightIos - 1;
      done := done + {io};
      wake := inflightIos == 0;
      assert wake ==> admitted - done == {};
    }

    /** kfastblock_volume_begin_flush; false stands for EBUSY */
    method BeginFlush(ghost flush: nat) returns (ok: bool)
      modifies this
      ensures Value() == Next(old(Value()), Begin(flush)) && ok == !old(flushInProgress)
    {
      if flushInProgress { return false; }
      flushInProgress, active, drained := true, Running(flush), false;
      return true;
    }

    /** One reading of the in-flight count in kfastblock_volume_drain_io; true ends the wait */
    method DrainCheck() returns (empty: bool)
      requires Enabled(Value(), Observe)
      modifies this
      ensures Value() == Next(old(Value()), Observe) && (empty ==> drained) && (empty <==> inflightIos == 0)
    {
      empty := inflightIos == 0;
      if empty { drained := true; }
    }

    /** kfastblock_volume_end_flush after the drain returned */
    method EndFlush(success: bool)
      requires Enabled(Value(), Finish(success))
      modifies this
      ensures Value() == Next(old(Value()), Finish(success))
    {
      flushInProgress, active, drained := false, None, false;
    }

    /** A flush under way, and the steps since before it began. */
    ghost predicate Flushing(start: State, run: seq<Step>)
      reads this
    {
      Inv(Value()) && active.Running? && Leads(start, run, Value()) && NoFinish(run)
    }

    /** I/Os that complete while a flush waits. */
    method PutAll(ios: seq<nat>, ghost start: State, ghost run: seq<Step>) returns (ghost run': seq<Step>)
      requires Flushing(start, run) && Waiting(ios, admitted, done)
      modifies this
      ensures Flushing(start, run') && run <= run' && admitted == old(admitted)
      ensures forall io :: io in done <==> io in old(done) || io in ios
    {
      run' := run;
      for i := 0 to |ios|
        invariant Flushing(start, run') && run <= run' && admitted == old(admitted)
        invariant forall io :: io in done <==> io in old(done) || io in ios[..i]
      {
        assert ios[..i + 1] == ios[..i] + [ios[i]];
        StepKeeps(Value(), Put(ios[i]));
        LeadsOn(start, run', Value(), Put(ios[i]));
        run' := run' + [Put(ios[i])];
        var wake := PutIo(ios[i]);
      }
      assert ios[..|ios|] == ios;
    }

    /** One reading while a flush waits. */
    method ReadOnce(ghost start: State, ghost run: seq<Step>) returns (empty: bool, ghost run': seq<Step>)
      requires Flushing(start, run)
      modifies this
      ensures Flushing(start, run') && run <= run' && (empty ==> drained) && (empty <==> admitted == done)
      ensures admitted == old(admitted) && done == old(done)
    {
      StepKeeps(Value(), Observe);
      LeadsOn(start, run, Value(), Observe);
      run' := run + [Observe];
      empty := DrainCheck();
      assert empty ==> admitted - done == {};
    }

    /** kfastblock_volume_drain_io: one reading at once and one after every batch of completions
        until the time is up. It succeeds only on a reading of zero. */
    method DrainIo(puts: seq<seq<nat>>, ghost start: State, ghost run: seq<Step>) returns (ok: bool, ghost run': seq<Step>)
      requires Flushing(start, run) && AllWaiting(puts, admitted, done)
      modifies this
      ensures Flushing(start, run') && run <= run' && admitted == old(admitted) && (ok ==> drained) && (ok <==> admitted == done)
    {
      ok, run' := ReadOnce(start, run);
      if ok { return; }
      assert puts[0..] == puts;
      for i := 0 to |puts|
        invariant Flushing(start, run') && run <= run' && admitted == old(admitted)
        invariant AllWaiting(puts[i..], admitted, done) && admitted != done
      {
        ghost var before := done;
        FirstWaits(puts, i, admitted, done);
        run' := PutAll(puts[i], start, run');
        RestWaits(puts, i, admitted, before, done);
        ok, run' := ReadOnce(start, run');
        if ok { return; }
      }
      ok := false;
    }

    /** kfastblock_volume_handle_flush. While it waits, the given I/Os complete; requests and
        flushes that come meanwhile are refused and change nothing. What it does is a run of the
        steps above, and it succeeds exactly when every I/O admitted before has completed. */
    method HandleFlush(ghost flush: nat, puts: seq<seq<nat>>) returns (ok: bool, ghost run: seq<Step>)
      requires Inv(Value()) && AllWaiting(puts, admitted, done)
      modifies this
      ensures Inv(Value()) && run != [] && run[0] == Begin(flush) && Leads(old(Value()), run, Value())
      ensures old(flushInProgress) ==> !ok && run == [Begin(flush)] && Value() == old(Value())
      ensures !old(flushInProgress) ==> !flushInProgress && run[|run| - 1] == Finish(ok) && NoFinish(run[..|run| - 1])
      ensures admitted == old(admitted) && (!old(flushInProgress) ==> (ok <==> admitted <= done))
    {
      ghost var start := Value();
      StepKeeps(start, Begin(flush));
      LeadsOn(start, [], start, Begin(flush));
      run := [Begin(flush)];
      assert [] + run == run;
      var begun := BeginFlush(flush);
      if !begun { return false, run; }
      ok, run := DrainIo(puts, start, run);
      StepKeeps(Value(), Finish(ok));
      LeadsOn(start, run, Value(), Finish(ok));
      assert (run + [Finish(ok)])[..|run|] == run;
      run := run + [Finish(ok)];
      EndFlush(ok);
    }
  }

  ghost predicate NoFinish(run: seq<Step>) {
    forall i :: 0 <= i < |run| ==> !run[i].Finish?
  }

  /** The I/Os are in flight, each listed once. */
  ghost predicate Waiting(ios: seq<nat>, admitted: set<nat>, done: set<nat>) {
    && (forall i :: 0 <= i < |ios| ==> ios[i] in admitted && ios[i] !in done)
    && (forall i, j :: 0 <= i < j < |ios| ==> ios[i] != ios[j])
  }

  ghost predicate AllWaiting(puts: seq<seq<nat>>, admitted: set<nat>, done: set<nat>) {
    && (forall i :: 0 <= i < |puts| ==> Waiting(puts[i], admitted, done))
    && (forall i, j, io :: 0 <= i < j < |puts| ==> !(io in puts[i] && io in puts[j]))
  }

  lemma FirstWaits(puts: seq<seq<nat>>, i: nat, admitted: set<nat>, done: set<nat>)
    requires i < |puts| && AllWaiting(puts[i..], admitted, done)
    ensures Waiting(puts[i], admitted, done)
  {
    assert puts[i..][0] == puts[i];
  }

  /** After a batch has completed, the later ones still wait. */
  lemma RestWaits(puts: seq<seq<nat>>, i: nat, admitted: set<nat>, done: set<nat>, done': set<nat>)
    requires i < |puts| && AllWaiting(puts[i..], admitted, done)
    requires forall io :: io in done' <==> io in done || io in puts[i]
    ensures AllWaiting(puts[i + 1..], admitted, done')
  {
    var rest, later := puts[i..], puts[i + 1..];
    assert rest[0] == puts[i] && forall j :: 0 <= j < |later| ==> later[j] == rest[j + 1];
    forall j | 0 <= j < |later|
      ensures Waiting(later[j], admitted, done')
    {
      assert Waiting(rest[j + 1], admitted, done);
      assert forall k :: 0 <= k < |later[j]| ==> later[j][k] in rest[j + 1];
    }
  }
}
