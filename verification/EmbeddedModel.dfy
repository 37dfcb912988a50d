/**
 The client as the object it is (src/omo/inference.py, `LlamaModel`): its fields are updated by the
 code segments between two awaits, in any order a scheduler chooses. Each segment moves the object
 as the state machine of `WorkerProtocol` says, so what is proved of its runs holds of the object.
 */
module EmbeddedModel {
  import opened Common
  import opened InferenceWorker
  import opened WorkerProtocol

  /** The worker that was current has been killed or has exited; nothing else about any worker has changed. */
  predicate OnlyKills(before: map<Pid, Proc>, after: map<Pid, Proc>, process: Option<Pid>) {
    && before.Keys == after.Keys
    && (forall p | p in before ::
          after[p] == before[p] || (process == Some(p) && after[p] == before[p].(killed := true)))
    && (process.Some? && process.value in after ==> after[process.value].killed || after[process.value].reaped)
  }

  /** The call has ended: its slot and the lock are free, and no other call has moved. */
  predicate Ends(before: State, after: State, c: CallId, outcome: Outcome) {
    after.calls == before.calls[c := Done(outcome)] && after.pending == before.pending - 1 && after.lock.None?
  }

  /** The call waits for the process it has closed, still holding its slot and the lock. */
  predicate Waits(before: State, after: State, c: CallId, outcome: Outcome) {
    after.calls == before.calls[c := Closing(outcome)] && after.pending == before.pending && after.lock == before.lock
  }

  /** The call's request is the only thing in the pipes of the current worker. */
  predicate Sent(s: State, c: CallId) {
    && c in s.calls && s.process.Some? && s.calls[c] == RequestDrain(s.process.value)
    && s.process.value in s.procs && s.procs[s.process.value].requests == [c] && s.procs[s.process.value].replies == []
  }

  /** The call has ended with the worker's reply to its own request, and the pipes are empty again. */
  predicate Answered(env: Env, before: State, after: State, c: CallId) {
    && c in after.calls && after.calls[c].Done?
    && var outcome := after.calls[c].outcome;
    && (outcome.Returned? || outcome.WorkerError?) && Faithful(env, c, outcome) && Ends(before, after, c, outcome)
    && after.ready == before.ready && after.process == before.process
    && (after.process.Some? ==> after.process.value in after.procs && Idle(after.procs[after.process.value]))
  }

  lemma ReplyEnds(env: Env, s: State, c: CallId)
    requires Inv(env, s) && c in s.calls
    ensures s.calls[c].Reading? && HasLine(s, s.calls[c].pid) ==>
      var t := DoReadReply(s, c);
      if s.procs[s.calls[c].pid].replies[0].TornLine? then !t.ready && t.process.None? else Answered(env, s, t, c)
  {
  }

  lemma ReadyLineSends(env: Env, s: State, c: CallId)
    requires Inv(env, s) && c in s.calls
    ensures s.calls[c].Warming? && HasLine(s, s.calls[c].pid) ==>
      var t := DoReadReady(s, c);
      if !s.procs[s.calls[c].pid].replies[0].ReadyLine? then !t.ready && t.process.None?
      else t.ready && (if t.process.Some? then Sent(t, c) else Ends(s, t, c, Unavailable))
  {
  }

  class LlamaModel {
    const env: Env
    var pending: int
    var lock: Option<CallId>
    var process: Option<Pid>
    var ready: bool
    var calls: map<CallId, Pc>    // where each `_call` is suspended
    var procs: map<Pid, Proc>     // the workers and their pipes

    /** After `start()`. */
    constructor (env: Env)
      ensures this.env == env && Now() == Started() && Inv(env, Now())
    {
      this.env := env;
      pending, lock, process, ready := 0, None, Some(0), true;
      calls, procs := map[], map[0 := Proc(true, false, false, true, [], [])];
      new;
      RunKeeps(env, []);
    }

    function Now(): State
      reads this
    {
      State(pending, lock, process, ready, calls, procs)
    }

    /** `close()` up to its await. */
    method Close()
      modifies this
      ensures Now() == CloseNow(old(Now()))
      ensures !ready && process.None? && pending == old(pending) && lock == old(lock) && calls == old(calls)
      ensures OnlyKills(old(procs), procs, old(process))
      ensures old(Inv(env, Now())) ==> Inv(env, Now())
    {
      ghost var before := Now();
      ready := false;
      var p := process;
      process := None;
      if p.Some? && p.value in procs {
        if !procs[p.value].reaped {
          procs := procs[p.value := procs[p.value].(killed := true)];
        } else {
          assert procs == procs[p.value := procs[p.value].(killed := procs[p.value].killed)];
        }
      }
      if Inv(env, before) {
        ExternalCloseKeeps(env, before);
      }
    }

    /** Leaving the lock and the `finally` block. */
    method Leave(c: CallId, outcome: Outcome)
      modifies this
      ensures Now() == Finish(old(Now()), c, outcome)
      ensures Ends(old(Now()), Now(), c, outcome) && process == old(process) && ready == old(ready)
        && procs == old(procs)
    {
      lock := None;
      pending := pending - 1;
      calls := calls[c := Done(outcome)];
    }

    /** The exception handlers: close, and wait for the process if there was one. */
    method Fail(c: CallId, outcome: Outcome)
      modifies this
      ensures Now() == Abort(old(Now()), c, outcome)
      ensures !ready && process.None? && OnlyKills(old(procs), procs, old(process))
      ensures if old(process).Some? then Waits(old(Now()), Now(), c, outcome) else Ends(old(Now()), Now(), c, outcome)
    {
      var waits := process.Some?;
      Close();
      if waits {
        calls := calls[c := Closing(outcome)];
      } else {
        Leave(c, outcome);
      }
    }

    /** From the end of `_spawn` to the drain of the request. */
    method Write(c: CallId)
      modifies this
      ensures Now() == WriteRequest(old(Now()), c) && process == old(process) && ready == old(ready)
      ensures if process.None? || process.value !in old(procs) then Ends(old(Now()), Now(), c, Unavailable)
        else (
          && process.value in procs && procs[process.value].requests == old(procs[process.value].requests) + [c]
          && procs[process.value].replies == old(procs[process.value].replies))
    {
      if process.None? || process.value !in procs {
        Leave(c, Unavailable);
        return;
      }
      var p := process.value;
      procs := procs[p := procs[p].(requests := procs[p].requests + [c])];
      calls := calls[c := RequestDrain(p)];
    }

    /** The start of `_call`. */
    method Enter(c: CallId)
      requires Inv(env, Now())
      modifies this
      ensures Now() == DoEnter(env, old(Now()), c) && Inv(env, Now())
      ensures c !in old(calls) ==> c in calls && (calls[c] == Done(Busy) <==> old(pending) == env.queueLimit)
      ensures lock == old(lock) && process == old(process) && procs == old(procs)
    {
      EnterKeeps(env, Now(), c);
      if c in calls {
        return;
      }
      if pending >= env.queueLimit {
        calls := calls[c := Done(Busy)];
        return;
      }
      pending := pending + 1;
      calls := calls[c := Queued];
    }

    /** Entering the lock, and `_spawn` up to its first await. */
    method Acquire(c: CallId)
      requires c in calls && Inv(env, Now())
      modifies this
      ensures Now() == DoAcquire(old(Now()), c) && Inv(env, Now())
      ensures old(calls[c].Queued? && lock.None?) ==> lock == Some(c) && pending == old(pending)
      ensures old(calls[c].Queued? && lock.None?) ==>
        if old(Reusable(Now())) then Sent(Now(), c) && process == old(process) else !ready && calls[c] == Creating
    {
      CallStepKeeps(env, Now(), c, WorkerProtocol.Acquire(c));
      if !calls[c].Queued? || lock.Some? {
        return;
      }
      lock := Some(c);
      if process.Some? && process.value in procs && !procs[process.value].reaped {
        Write(c);
        return;
      }
      ready := false;
      calls := calls[c := Creating];
    }

    /** The subprocess exists: keep it, and send it its configuration. */
    method Created(c: CallId, pid: Pid)
      requires c in calls && Inv(env, Now())
      modifies this
      ensures Now() == DoCreated(old(Now()), c, pid) && Inv(env, Now())
      ensures old(calls[c].Creating? && pid !in procs) ==>
        process == Some(pid) && pid in procs && Fresh(procs[pid]) && procs - {pid} == old(procs) && ready == old(ready)
    {
      CallStepKeeps(env, Now(), c, WorkerProtocol.Created(c, pid));
      if !calls[c].Creating? || pid in procs {
        return;
      }
      process := Some(pid);
      procs := procs[pid := Proc(true, false, false, false, [], [])];
      calls := calls[c := ConfigDrain(pid)];
    }

    method ConfigDrained(c: CallId)
      requires c in calls && Inv(env, Now())
      modifies this
      ensures Now() == DoConfigDrained(old(Now()), c) && Inv(env, Now())
      ensures old(calls[c].ConfigDrain?) ==>
        if old(process).Some? then calls[c] == Warming(old(calls[c]).pid) && process == old(process)
        else Ends(old(Now()), Now(), c, Unavailable)
    {
      CallStepKeeps(env, Now(), c, WorkerProtocol.ConfigDrained(c));
      if !calls[c].ConfigDrain? {
        return;
      }
      if process.None? {
        Fail(c, Unavailable);
        return;
      }
      calls := calls[c := Warming(process.value)];
    }

    /** A line of the ready handshake. */
    method ReadReady(c: CallId)
      requires c in calls && Inv(env, Now())
      modifies this
      ensures Now() == DoReadReady(old(Now()), c) && Inv(env, Now())
      ensures old(calls[c].Warming? && HasLine(Now(), calls[c].pid)) ==>
        if !old(procs[calls[c].pid].replies[0].ReadyLine?) then !ready && process.None?
        else ready && (if process.Some? then Sent(Now(), c) else Ends(old(Now()), Now(), c, Unavailable))
    {
      CallStepKeeps(env, Now(), c, WorkerProtocol.ReadReady(c));
      ReadyLineSends(env, Now(), c);
      if !calls[c].Warming? || calls[c].pid !in procs || procs[calls[c].pid].replies == [] {
        return;
      }
      var p := calls[c].pid;
      var line := procs[p].replies[0];
      procs := procs[p := procs[p].(replies := procs[p].replies[1..])];
      if !line.ReadyLine? {
        Fail(c, Unavailable);
        return;
      }
      ready := true;
      Write(c);
    }

    method RequestDrained(c: CallId)
      requires c in calls && Inv(env, Now())
      modifies this
      ensures Now() == DoRequestDrained(old(Now()), c) && Inv(env, Now())
      ensures old(calls[c].RequestDrain?) ==> calls[c].Reading? && Outstanding(env, procs[calls[c].pid], c)
    {
      CallStepKeeps(env, Now(), c, WorkerProtocol.RequestDrained(c));
      if calls[c].RequestDrain? {
        calls := calls[c := Reading(calls[c].pid)];
      }
    }

    /** A line read as the reply. */
    method ReadReply(c: CallId)
      requires c in calls && Inv(env, Now())
      modifies this
      ensures Now() == DoReadReply(old(Now()), c) && Inv(env, Now())
      ensures old(calls[c].Reading? && HasLine(Now(), calls[c].pid)) ==>
        if old(procs[calls[c].pid].replies[0].TornLine?) then !ready && process.None?
        else Answered(env, old(Now()), Now(), c)
    {
      CallStepKeeps(env, Now(), c, WorkerProtocol.ReadReply(c));
      ReplyEnds(env, Now(), c);
      if !calls[c].Reading? || calls[c].pid !in procs || procs[calls[c].pid].replies == [] {
        return;
      }
      var p := calls[c].pid;
      var line := procs[p].replies[0];
      procs := procs[p := procs[p].(replies := procs[p].replies[1..])];
      if line.TornLine? {
        Fail(c, Unavailable);
        return;
      }
      var failed := line.ReplyLine? && line.reply.Failure?;
      Leave(c, if failed then WorkerError(line) else Returned(line));
    }

    /** An exception or a cancellation at an await inside the lock. */
    method Interrupt(c: CallId, outcome: Outcome)
      requires c in calls && Inv(env, Now()) && (outcome == Unavailable || outcome == Cancelled)
      modifies this
      ensures Now() == DoAbort(old(Now()), c, outcome) && Inv(env, Now())
      ensures old(calls[c].Working()) ==> !ready && process.None? && OnlyKills(old(procs), procs, old(process))
      ensures old(calls[c].Working()) ==>
        if old(process).Some? then Waits(old(Now()), Now(), c, outcome) else Ends(old(Now()), Now(), c, outcome)
    {
      CallStepKeeps(env, Now(), c, if outcome == Unavailable then WorkerProtocol.Fail(c) else WorkerProtocol.Cancel(c));
      if calls[c].Working() {
        Fail(c, outcome);
      }
    }

    /** The wait in `close()` ends, or is itself cancelled. */
    method Closed(c: CallId, cancelled: bool)
      requires c in calls && Inv(env, Now())
      modifies this
      ensures Now() == DoClosed(old(Now()), c, cancelled) && Inv(env, Now())
      ensures old(calls[c].Closing?)
        ==> process.None? && Ends(old(Now()), Now(), c, if cancelled then Cancelled else old(calls[c]).outcome)
    {
      CallStepKeeps(env, Now(), c, if cancelled then WorkerProtocol.CancelClosing(c) else WorkerProtocol.Closed(c));
      if calls[c].Closing? {
        Leave(c, if cancelled then Cancelled else calls[c].outcome);
      }
    }

    /** A cancellation while waiting for the lock. */
    method CancelQueued(c: CallId)
      requires c in calls && Inv(env, Now())
      modifies this
      ensures Now() == DoCancelQueued(old(Now()), c) && Inv(env, Now())
      ensures old(calls[c].Queued?) ==> calls == old(calls)[c := Done(Cancelled)] && pending == old(pending) - 1
      ensures lock == old(lock) && process == old(process) && ready == old(ready) && procs == old(procs)
    {
      CallStepKeeps(env, Now(), c, WorkerProtocol.CancelQueued(c));
      if calls[c].Queued? {
        pending := pending - 1;
        calls := calls[c := Done(Cancelled)];
      }
    }

    /** One move of the scheduler, the caller, or a worker. */
    method Step(step: Step)
      requires Inv(env, Now())
      modifies this
      ensures Now() == Apply(env, old(Now()), step) && Inv(env, Now())
    {
      StepKeeps(env, Now(), step);
      if OfOneCall(step) {
        if step.c in calls {
          Resume(step);
        }
        return;
      }
      if step.Enter? {
        Enter(step.c);
      } else if step.ExternalClose? {
        Close();
      } else if step.pid in procs {
        procs := DoWorker(env, Now(), step, step.pid).procs;
      }
    }

    method Resume(step: Step)
      requires OfOneCall(step) && step.c in calls && Inv(env, Now())
      modifies this
      ensures Now() == Apply(env, old(Now()), step) && Inv(env, Now())
    {
      match step
      case CancelQueued(c) => CancelQueued(c);
      case Acquire(c) => Acquire(c);
      case Created(c, pid) => Created(c, pid);
      case ConfigDrained(c) => ConfigDrained(c);
      case ReadReady(c) => ReadReady(c);
      case RequestDrained(c) => RequestDrained(c);
      case ReadReply(c) => ReadReply(c);
      case Fail(c) => Interrupt(c, Unavailable);
      case Cancel(c) => Interrupt(c, Cancelled);
      case Closed(c) => Closed(c, false);
      case CancelClosing(c) => Closed(c, true);
    }
  }

  /** The object under any schedule: its invariant, and only faithful answers. */
  method Operate(env: Env, steps: seq<Step>) returns (model: LlamaModel)
    ensures model.env == env && model.Now() == Run(env, Started(), steps)
    ensures Inv(env, model.Now())
    ensures forall c | c in model.calls && model.calls[c].Done? :: Faithful(env, c, model.calls[c].outcome)
  {
    model := new LlamaModel(env);
    for i := 0 to |steps|
      invariant fresh(model) && model.env == env && Inv(env, model.Now())
      invariant model.Now() == Run(env, Started(), steps[..i])
    {
      assert steps[..i + 1][..i] == steps[..i];
      model.Step(steps[i]);
    }
    assert steps[..|steps|] == steps;
  }
}
