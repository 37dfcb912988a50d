/**
 The embedded-model client (src/omo/inference.py): many concurrent calls share one worker over
 one pair of pipes, with no request identifiers.

 The client is a state machine whose steps are the code segments between two awaits. Cancellation,
 failure (deadline, broken pipe, end of file, oversized line) and an external `close()` are
 steps of their own, enabled at every await; the worker takes steps at any time. `Apply` is
 total: a step that is not enabled changes nothing, so every sequence of steps is a run.
 */
module WorkerProtocol {
  import opened Common
  import opened InferenceWorker

  type CallId = nat
  type Pid = nat

  /** A line in the reply pipe, with the call whose request produced it. */
  datatype Line = ReadyLine | ReplyLine(call: CallId, reply: Reply) | TornLine

  /** A worker process and its two pipes. `reaped`: the parent has seen its exit status. */
  datatype Proc = Proc(alive: bool, reaped: bool, killed: bool, warm: bool, requests: seq<CallId>, replies: seq<Line>)

  datatype Outcome =
    | Returned(line: Line)       // the decoded reply, handed to the caller
    | WorkerError(line: Line)    // OmoError(result["error"], 422)
    | Unavailable                // OmoError("inference_unavailable", 503)
    | Busy                       // OmoError("inference_busy", 429)
    | Cancelled

  /** Where a call is suspended. `Pid` arguments are the local variables holding a process. */
  datatype Pc =
    | Queued
    | Creating
    | ConfigDrain(pid: Pid)
    | Warming(pid: Pid)
    | RequestDrain(pid: Pid)
    | Reading(pid: Pid)
    | Closing(outcome: Outcome)
    | Done(outcome: Outcome)
  {
    predicate InProgress() { !Done? }
    /** Past the lock. */
    predicate Holds() { !Done? && !Queued? }
    /** Suspended at an await inside the lock, before any clean-up has begun. */
    predicate Working() { Holds() && !Closing? }
  }

  /** The queue limit, and what the worker loop answers to each call's request line. */
  datatype Env = Env(queueLimit: nat, answer: CallId -> Reply)

  datatype State = State(
    pending: int,
    lock: Option<CallId>,
    process: Option<Pid>,
    ready: bool,
    calls: map<CallId, Pc>,
    procs: map<Pid, Proc>)

  datatype Step =
    | Enter(c: CallId)
    | CancelQueued(c: CallId)
    | Acquire(c: CallId)
    | Created(c: CallId, pid: Pid)
    | ConfigDrained(c: CallId)
    | ReadReady(c: CallId)
    | RequestDrained(c: CallId)
    | ReadReply(c: CallId)
    | Fail(c: CallId)
    | Cancel(c: CallId)
    | Closed(c: CallId)
    | CancelClosing(c: CallId)
    | ExternalClose
    | WorkerWarm(pid: Pid)
    | WorkerServe(pid: Pid)
    | WorkerExit(pid: Pid, torn: bool)
    | Reap(pid: Pid)

  // ---- code segments of the client ------------------------------------------------------------

  function Move(s: State, c: CallId, pc: Pc): State { s.(calls := s.calls[c := pc]) }

  /** Leaves `async with self.lock` and the outer `finally`. */
  function Finish(s: State, c: CallId, outcome: Outcome): State
  {
    Move(s, c, Done(outcome)).(lock := None, pending := s.pending - 1)
  }

  /** The synchronous part of `close()`: forget the process, then kill it. */
  function CloseNow(s: State): State {
    if s.process.Some? && s.process.value in s.procs then
      var p := s.process.value;
      s.(ready := false, process := None,
        procs := s.procs[p := s.procs[p].(killed := s.procs[p].killed || !s.procs[p].reaped)])
    else s.(ready := false, process := None)
  }

  /** An exception handler of `_call`: `close()`, awaiting `p.wait()` when there is a process. */
  function Abort(s: State, c: CallId, outcome: Outcome): State
  {
    if s.process.Some? then Move(CloseNow(s), c, Closing(outcome))
    else Finish(CloseNow(s), c, outcome)
  }

  /** After `_spawn` has returned: read `self.process`, write the request, await the drain. */
  function WriteRequest(s: State, c: CallId): State
  {
    if s.process.Some? && s.process.value in s.procs then
      var p := s.process.value;
      Move(s, c, RequestDrain(p)).(procs := s.procs[p := s.procs[p].(requests := s.procs[p].requests + [c])])
    else Finish(s, c, Unavailable)
  }

  predicate HasLine(s: State, p: Pid) { p in s.procs && s.procs[p].replies != [] }

  /** `readline()` on the pipe of `p`. */
  function TakeLine(s: State, p: Pid): State
    requires HasLine(s, p)
  {
    s.(procs := s.procs[p := s.procs[p].(replies := s.procs[p].replies[1..])])
  }

  function Reusable(s: State): bool {
    s.process.Some? && s.process.value in s.procs && !s.procs[s.process.value].reaped
  }

  // ---- the steps of one call: from one await to the next --------------------------------------

  function DoEnter(env: Env, s: State, c: CallId): State {
    if c in s.calls then s
    else if s.pending >= env.queueLimit then Move(s, c, Done(Busy))
    else Move(s, c, Queued).(pending := s.pending + 1)
  }

  /** Take the lock and run `_spawn` up to its first await, if it has one to run. */
  function DoAcquire(s: State, c: CallId): State
    requires c in s.calls
  {
    if !s.calls[c].Queued? || s.lock.Some? then s
    else if Reusable(s) then WriteRequest(s.(lock := Some(c)), c)
    else Move(s.(lock := Some(c), ready := false), c, Creating)
  }

  function DoCreated(s: State, c: CallId, pid: Pid): State
    requires c in s.calls
  {
    if !s.calls[c].Creating? || pid in s.procs then s
    else Move(s, c, ConfigDrain(pid)).(process := Some(pid),
      procs := s.procs[pid := Proc(true, false, false, false, [], [])])
  }

  /** `self.process.stdout` raises when a concurrent `close()` has cleared `self.process`. */
  function DoConfigDrained(s: State, c: CallId): State
    requires c in s.calls
  {
    if !s.calls[c].ConfigDrain? then s
    else if s.process.Some? then Move(s, c, Warming(s.process.value))
    else Abort(s, c, Unavailable)
  }

  function DoReadReady(s: State, c: CallId): State
    requires c in s.calls
  {
    if !(s.calls[c].Warming? && HasLine(s, s.calls[c].pid)) then s
    else
      var p := s.calls[c].pid;
      if s.procs[p].replies[0].ReadyLine? then WriteRequest(TakeLine(s, p).(ready := true), c)
      else Abort(TakeLine(s, p), c, Unavailable)
  }

  function DoRequestDrained(s: State, c: CallId): State
    requires c in s.calls
  {
    if s.calls[c].RequestDrain? then Move(s, c, Reading(s.calls[c].pid)) else s
  }

  function DoReadReply(s: State, c: CallId): State
    requires c in s.calls
  {
    if !(s.calls[c].Reading? && HasLine(s, s.calls[c].pid)) then s
    else
      var p := s.calls[c].pid;
      var line := s.procs[p].replies[0];
      if line.TornLine? then Abort(TakeLine(s, p), c, Unavailable)
      else if line.ReplyLine? && line.reply.Failure? then Finish(TakeLine(s, p), c, WorkerError(line))
      else Finish(TakeLine(s, p), c, Returned(line))
  }

  /** An exception (`Unavailable`) or a cancellation (`Cancelled`) arrives at the current await. */
  function DoAbort(s: State, c: CallId, outcome: Outcome): State
    requires c in s.calls
  {
    if s.calls[c].Working() then Abort(s, c, outcome) else s
  }

  function DoClosed(s: State, c: CallId, cancelled: bool): State
    requires c in s.calls
  {
    if s.calls[c].Closing? then Finish(s, c, if cancelled then Cancelled else s.calls[c].outcome) else s
  }

  function DoCancelQueued(s: State, c: CallId): State
    requires c in s.calls
  {
    if s.calls[c].Queued? then Move(s, c, Done(Cancelled)).(pending := s.pending - 1) else s
  }

  // ---- the steps of a worker ------------------------------------------------------------------

  function DoWorker(env: Env, s: State, step: Step, pid: Pid): State
    requires pid in s.procs
  {
    var p := s.procs[pid];
    var after := match step
      case WorkerWarm(_) =>
        if p.alive && !p.warm then p.(warm := true, replies := p.replies + [ReadyLine]) else p
      case WorkerServe(_) =>
        if p.alive && p.warm && p.requests != [] then
          var c := p.requests[0];
          p.(requests := p.requests[1..],
             replies := p.replies + [ReplyLine(c, env.answer(c))])
        else p
      case WorkerExit(_, torn) =>
        if !p.alive then p
        else if torn && p.warm && p.requests != [] then
          p.(alive := false, requests := p.requests[1..], replies := p.replies + [TornLine])
        else if torn && !p.warm then p.(alive := false, replies := p.replies + [TornLine])
        else p.(alive := false)
      case Reap(_) => if p.alive then p else p.(reaped := true)
      case _ => p;
    s.(procs := s.procs[pid := after])
  }

  function Apply(env: Env, s: State, step: Step): State {
    match step
    case Enter(c) => DoEnter(env, s, c)
    case ExternalClose => CloseNow(s)
    case WorkerWarm(pid) => if pid in s.procs then DoWorker(env, s, step, pid) else s
    case WorkerServe(pid) => if pid in s.procs then DoWorker(env, s, step, pid) else s
    case WorkerExit(pid, _) => if pid in s.procs then DoWorker(env, s, step, pid) else s
    case Reap(pid) => if pid in s.procs then DoWorker(env, s, step, pid) else s
    case _ =>
      var c := step.c;
      if c !in s.calls then s
      else match step
        case CancelQueued(_) => DoCancelQueued(s, c)
        case Acquire(_) => DoAcquire(s, c)
        case Created(_, pid) => DoCreated(s, c, pid)
        case ConfigDrained(_) => DoConfigDrained(s, c)
        case ReadReady(_) => DoReadReady(s, c)
        case RequestDrained(_) => DoRequestDrained(s, c)
        case ReadReply(_) => DoReadReply(s, c)
        case Fail(_) => DoAbort(s, c, Unavailable)
        case Cancel(_) => DoAbort(s, c, Cancelled)
        case Closed(_) => DoClosed(s, c, false)
        case CancelClosing(_) => DoClosed(s, c, true)
  }

  function Run(env: Env, s: State, steps: seq<Step>): State {
    if steps == [] then s else Apply(env, Run(env, s, steps[..|steps| - 1]), steps[|steps| - 1])
  }

  /** After `start()`: one warm worker, empty pipes, no call yet. */
  function Started(): State {
    State(0, None, Some(0), true, map[], map[0 := Proc(true, false, false, true, [], [])])
  }

  // ---- the invariant --------------------------------------------------------------------------

  function Active(s: State): set<CallId> {
    set c | c in s.calls && s.calls[c].InProgress()
  }

  predicate Counted(env: Env, s: State) { s.pending == |Active(s)| <= env.queueLimit }

  predicate Exclusive(s: State) {
    && (forall c | c in s.calls :: s.calls[c].Holds() <==> s.lock == Some(c))
    && (s.lock.Some? ==> s.lock.value in s.calls)
  }

  /** Nothing in either pipe, ready line consumed. */
  predicate Idle(p: Proc) { p.warm && p.requests == [] && p.replies == [] }

  /** Ready line not consumed yet: no request has been written. */
  predicate Fresh(p: Proc) {
    && p.requests == []
    && if p.warm then p.replies == [ReadyLine] else p.replies == [] || (p.replies == [TornLine] && !p.alive)
  }

  /** Exactly one request is outstanding, it is `c`'s, and it may have been answered or lost. */
  predicate Outstanding(env: Env, p: Proc, c: CallId) {
    && p.warm
    && (|| (p.requests == [c] && p.replies == [])
        || (p.requests == [] && p.replies == [ReplyLine(c, env.answer(c))])
        || (p.requests == [] && p.replies == [TornLine] && !p.alive))
  }

  function Holder(s: State): Option<Pc> {
    if s.lock.Some? && s.lock.value in s.calls then Some(s.calls[s.lock.value]) else None
  }

  predicate Pipes(env: Env, s: State) {
    match Holder(s)
    case None => s.process.Some? ==> s.process.value in s.procs && Idle(s.procs[s.process.value])
    case Some(Creating) => s.process.Some? ==> s.process.value in s.procs && s.procs[s.process.value].reaped
    case Some(ConfigDrain(p)) => p in s.procs && Fresh(s.procs[p]) && (s.process.Some? ==> s.process.value == p)
    case Some(Warming(p)) => p in s.procs && Fresh(s.procs[p]) && (s.process.Some? ==> s.process.value == p)
    case Some(RequestDrain(p)) =>
      p in s.procs && Outstanding(env, s.procs[p], s.lock.value) && (s.process.Some? ==> s.process.value == p)
    case Some(Reading(p)) =>
      p in s.procs && Outstanding(env, s.procs[p], s.lock.value) && (s.process.Some? ==> s.process.value == p)
    case Some(_) => s.process.None?
  }

  /** Every worker but the current one has been killed or has exited. */
  predicate NoOrphan(s: State) {
    forall p | p in s.procs :: s.procs[p].killed || s.procs[p].reaped || s.process == Some(p)
  }

  /** What a finished call may report: its own request's reply, or no reply at all. */
  predicate Faithful(env: Env, c: CallId, outcome: Outcome) {
    var own := env.answer(c);
    match outcome
    case Returned(line) => line == ReplyLine(c, own) && !own.Failure?
    case WorkerError(line) => line == ReplyLine(c, own) && own.Failure?
    case _ => true
  }

  predicate PcFaithful(env: Env, c: CallId, pc: Pc) {
    match pc
    case Done(outcome) => Faithful(env, c, outcome)
    case Closing(outcome) => outcome.Unavailable? || outcome.Cancelled?
    case _ => true
  }

  predicate AllFaithful(env: Env, s: State) {
    forall c | c in s.calls :: PcFaithful(env, c, s.calls[c])
  }

  predicate Inv(env: Env, s: State) {
    Counted(env, s) && Exclusive(s) && Pipes(env, s) && NoOrphan(s) && AllFaithful(env, s)
  }

  // ---- every step keeps the invariant ---------------------------------------------------------

  // A client step touches one call and at most one worker. `Local` says so without quantifiers,
  // so that each step is checked on its own; `LocalKeeps` lifts it to the whole state.

  /** What a step of call `c` may rely on. */
  predicate Here(env: Env, s: State, c: CallId) {
    && c in s.calls
    && (s.calls[c].Holds() <==> s.lock == Some(c))
    && (s.lock.Some? ==> s.lock.value in s.calls && s.calls[s.lock.value].Holds())
    && PcFaithful(env, c, s.calls[c])
    && Pipes(env, s)
  }

  predicate Local(env: Env, s: State, t: State, c: CallId, q: Pid) {
    && c in s.calls && c in t.calls && t.calls == s.calls[c := t.calls[c]]
    && t.lock == (if t.calls[c].Holds() then Some(c) else if s.lock == Some(c) then None else s.lock)
    && (t.calls[c].Holds() ==> s.lock.None? || s.lock == Some(c))
    && (t.calls[c].InProgress() ==> s.calls[c].InProgress())
    && t.pending == (if s.calls[c].InProgress() && !t.calls[c].InProgress() then s.pending - 1 else s.pending)
    && PcFaithful(env, c, t.calls[c])
    && Pipes(env, t)
    && OneWorker(s, t, q)
  }

  predicate OneWorker(s: State, t: State, q: Pid) {
    && (t.procs == if q in t.procs then s.procs[q := t.procs[q]] else s.procs)
    && (s.process.Some? && s.process != t.process ==>
          s.process.value in t.procs && (t.procs[s.process.value].killed || t.procs[s.process.value].reaped))
    && (q in s.procs && q in t.procs ==>
          (s.procs[q].killed ==> t.procs[q].killed) && (s.procs[q].reaped ==> t.procs[q].reaped))
    && (q !in s.procs && q in t.procs ==> t.process == Some(q))
  }

  lemma LocalKeeps(env: Env, s: State, t: State, c: CallId, q: Pid)
    requires Inv(env, s) && Local(env, s, t, c, q)
    ensures Inv(env, t)
  {
    CountKeeps(env, s, t, c);
    OrphansKept(s, t, q);
  }

  lemma OrphansKept(s: State, t: State, q: Pid)
    requires NoOrphan(s) && OneWorker(s, t, q)
    ensures NoOrphan(t)
  {
  }

  lemma CountKeeps(env: Env, s: State, t: State, c: CallId)
    requires Counted(env, s) && c in s.calls && c in t.calls && t.calls == s.calls[c := t.calls[c]]
    requires t.calls[c].InProgress() ==> s.calls[c].InProgress()
    requires t.pending == (if s.calls[c].InProgress() && !t.calls[c].InProgress() then s.pending - 1 else s.pending)
    ensures Counted(env, t)
  {
    if s.calls[c].InProgress() && !t.calls[c].InProgress() {
      assert c in Active(s);
      assert Active(t) == Active(s) - {c};
    } else {
      assert Active(t) == Active(s);
    }
  }

  /** The worker a step of `c` may change: the one it holds, or the current one. */
  function Touched(s: State, c: CallId): Pid
    requires c in s.calls
  {
    if s.calls[c].Warming? || s.calls[c].Reading? then s.calls[c].pid
    else if s.process.Some? then s.process.value
    else 0
  }

  lemma AcquireLocal(env: Env, s: State, c: CallId)
    requires Here(env, s, c)
    ensures Local(env, s, DoAcquire(s, c), c, Touched(s, c))
  {
  }

  lemma ConfigDrainedLocal(env: Env, s: State, c: CallId)
    requires Here(env, s, c)
    ensures Local(env, s, DoConfigDrained(s, c), c, Touched(s, c))
  {
  }

  lemma ReadReadyLocal(env: Env, s: State, c: CallId)
    requires Here(env, s, c)
    ensures Local(env, s, DoReadReady(s, c), c, Touched(s, c))
  {
    if s.calls[c].Warming? && HasLine(s, s.calls[c].pid) {
      var p := s.calls[c].pid;
      var read := TakeLine(s, p).(ready := s.procs[p].replies[0].ReadyLine?);
      assert read.procs[p].replies == [];
      if s.procs[p].replies[0].ReadyLine? {
        WriteLocal(env, s, read, c, p);
      } else {
        BadLineLocal(env, s, c, p);
      }
    }
  }

  lemma WriteLocal(env: Env, s: State, read: State, c: CallId, p: Pid)
    requires Here(env, s, c) && s.lock == Some(c) && p in s.procs
    requires s.process.Some? ==> s.process.value == p
    requires read == s.(ready := true, procs := s.procs[p := s.procs[p].(replies := [])])
    requires Idle(read.procs[p])
    ensures Local(env, s, WriteRequest(read, c), c, p)
  {
  }

  lemma BadLineLocal(env: Env, s: State, c: CallId, p: Pid)
    requires Here(env, s, c) && s.lock == Some(c) && HasLine(s, p)
    requires s.process.Some? ==> s.process.value == p
    ensures Local(env, s, Abort(TakeLine(s, p), c, Unavailable), c, p)
  {
  }

  lemma RequestDrainedLocal(env: Env, s: State, c: CallId)
    requires Here(env, s, c)
    ensures Local(env, s, DoRequestDrained(s, c), c, Touched(s, c))
  {
  }

  lemma ReadReplyLocal(env: Env, s: State, c: CallId)
    requires Here(env, s, c)
    ensures Local(env, s, DoReadReply(s, c), c, Touched(s, c))
  {
    if s.calls[c].Reading? && HasLine(s, s.calls[c].pid) {
      var p := s.calls[c].pid;
      var line := s.procs[p].replies[0];
      assert Outstanding(env, s.procs[p], c);
      if line.TornLine? {
        BadLineLocal(env, s, c, p);
      } else {
        ReturnLocal(env, s, c, p);
      }
    }
  }

  lemma ReturnLocal(env: Env, s: State, c: CallId, p: Pid)
    requires Here(env, s, c) && s.lock == Some(c) && HasLine(s, p) && s.calls[c].Holds()
    requires s.process.Some? ==> s.process.value == p
    requires Outstanding(env, s.procs[p], c) && s.procs[p].replies[0] == ReplyLine(c, env.answer(c))
    ensures var line := s.procs[p].replies[0];
      Local(env, s, Finish(TakeLine(s, p), c, if env.answer(c).Failure? then WorkerError(line) else Returned(line)),
        c, p)
  {
  }

  lemma ClosedLocal(env: Env, s: State, c: CallId, cancelled: bool)
    requires Here(env, s, c)
    ensures Local(env, s, DoClosed(s, c, cancelled), c, Touched(s, c))
  {
  }

  lemma CancelQueuedLocal(env: Env, s: State, c: CallId)
    requires Here(env, s, c)
    ensures Local(env, s, DoCancelQueued(s, c), c, Touched(s, c))
  {
  }

  /** With a worker it has just created counted too. */
  function TouchedBy(s: State, step: Step): Pid
    requires OfOneCall(step) && step.c in s.calls
  {
    if step.Created? then step.pid else Touched(s, step.c)
  }

  lemma CreatedLocal(env: Env, s: State, c: CallId, pid: Pid)
    requires Here(env, s, c)
    ensures Local(env, s, DoCreated(s, c, pid), c, pid)
  {
  }

  lemma AbortLocal(env: Env, s: State, c: CallId, outcome: Outcome)
    requires Here(env, s, c) && (outcome.Unavailable? || outcome.Cancelled?)
    ensures Local(env, s, DoAbort(s, c, outcome), c, Touched(s, c))
  {
  }

  /** Entering adds a call that waits, or is turned away; the bound is the code's own test. */
  lemma EnterKeeps(env: Env, s: State, c: CallId)
    requires Inv(env, s)
    ensures Inv(env, DoEnter(env, s, c))
  {
    if c !in s.calls {
      var t := DoEnter(env, s, c);
      EnterCount(env, s, c);
      assert t.lock == s.lock && t.process == s.process && t.procs == s.procs;
      assert forall d | d in t.calls :: d == c || t.calls[d] == s.calls[d];
      assert Holder(t) == Holder(s);
    }
  }

  lemma EnterCount(env: Env, s: State, c: CallId)
    requires Counted(env, s) && c !in s.calls
    ensures Counted(env, DoEnter(env, s, c))
  {
    var t := DoEnter(env, s, c);
    if s.pending >= env.queueLimit {
      assert Active(t) == Active(s);
    } else {
      assert Active(t) == Active(s) + {c};
      assert c !in Active(s);
    }
  }

  lemma WorkerKeeps(env: Env, s: State, step: Step, pid: Pid)
    requires Inv(env, s) && pid in s.procs
    ensures Inv(env, DoWorker(env, s, step, pid))
  {
    assert Active(DoWorker(env, s, step, pid)) == Active(s);
  }

  lemma ExternalCloseKeeps(env: Env, s: State)
    requires Inv(env, s)
    ensures Inv(env, CloseNow(s))
  {
    assert Active(CloseNow(s)) == Active(s);
  }

  lemma StepKeeps(env: Env, s: State, step: Step)
    requires Inv(env, s)
    ensures Inv(env, Apply(env, s, step))
  {
    match step
    case Enter(c) => EnterKeeps(env, s, c);
    case ExternalClose => ExternalCloseKeeps(env, s);
    case WorkerWarm(pid) => if pid in s.procs { WorkerKeeps(env, s, step, pid); }
    case WorkerServe(pid) => if pid in s.procs { WorkerKeeps(env, s, step, pid); }
    case WorkerExit(pid, _) => if pid in s.procs { WorkerKeeps(env, s, step, pid); }
    case Reap(pid) => if pid in s.procs { WorkerKeeps(env, s, step, pid); }
    case _ => if step.c in s.calls { CallStepKeeps(env, s, step.c, step); }
  }

  predicate OfOneCall(step: Step) {
    step.CancelQueued? || step.Acquire? || step.Created? || step.ConfigDrained? || step.ReadReady?
      || step.RequestDrained?
    || step.ReadReply? || step.Fail? || step.Cancel? || step.Closed? || step.CancelClosing?
  }

  lemma CallStepKeeps(env: Env, s: State, c: CallId, step: Step)
    requires Inv(env, s) && c in s.calls && OfOneCall(step) && step.c == c
    ensures Inv(env, Apply(env, s, step))
  {
    CallStepLocal(env, s, c, step);
    LocalKeeps(env, s, Apply(env, s, step), c, TouchedBy(s, step));
  }

  lemma CallStepLocal(env: Env, s: State, c: CallId, step: Step)
    requires Here(env, s, c)
    requires OfOneCall(step) && step.c == c
    ensures Local(env, s, Apply(env, s, step), c, TouchedBy(s, step))
  {
    match step
    case CancelQueued(_) => CancelQueuedLocal(env, s, c);
    case Acquire(_) => AcquireLocal(env, s, c);
    case Created(_, pid) => CreatedLocal(env, s, c, pid);
    case ConfigDrained(_) => ConfigDrainedLocal(env, s, c);
    case ReadReady(_) => ReadReadyLocal(env, s, c);
    case RequestDrained(_) => RequestDrainedLocal(env, s, c);
    case ReadReply(_) => ReadReplyLocal(env, s, c);
    case Fail(_) => AbortLocal(env, s, c, Unavailable);
    case Cancel(_) => AbortLocal(env, s, c, Cancelled);
    case Closed(_) => ClosedLocal(env, s, c, false);
    case CancelClosing(_) => ClosedLocal(env, s, c, true);
  }

  lemma {:induction false} RunKeeps(env: Env, steps: seq<Step>)
    ensures Inv(env, Run(env, Started(), steps))
  {
    if steps == [] {
      assert Active(Started()) == {};
    } else {
      RunKeeps(env, steps[..|steps| - 1]);
      StepKeeps(env, Run(env, Started(), steps[..|steps| - 1]), steps[|steps| - 1]);
    }
  }

  // ---- what every run guarantees --------------------------------------------------------------

  function Client(limit: nat, engine: Engine, payload: CallId -> Input): Env {
    Env(limit, (c: CallId) => ReplyTo(engine, payload(c)))
  }

  /** A caller only ever gets the worker's reply to its own request line. */
  lemma RepliesMatchCallers(limit: nat, engine: Engine, payload: CallId -> Input, steps: seq<Step>, c: CallId)
    ensures var s := Run(Client(limit, engine, payload), Started(), steps);
      var own := ReplyTo(engine, payload(c));
      c in s.calls && s.calls[c].Done? ==>
        match s.calls[c].outcome
        case Returned(line) => line == ReplyLine(c, own) && !own.Failure?
        case WorkerError(line) => line == ReplyLine(c, own) && own.Failure?
        case _ => true
  {
    RunKeeps(Client(limit, engine, payload), steps);
  }

  /** Free lock: no worker, or both pipes empty. Held lock: at most one line or request, the holder's. */
  lemma PipesCarryOnlyTheHolder(env: Env, steps: seq<Step>, p: Pid)
    ensures var s := Run(env, Started(), steps);
      s.process == Some(p) ==>
        && p in s.procs
        && (s.lock.None? ==> s.procs[p].requests == [] && s.procs[p].replies == [])
        && (s.lock.Some? && !s.procs[p].reaped ==>
              && |s.procs[p].requests| + |s.procs[p].replies| <= 1
              && (forall c | c in s.procs[p].requests :: c == s.lock.value)
              && (forall line | line in s.procs[p].replies :: line.ReplyLine? ==> line.call == s.lock.value))
  {
    RunKeeps(env, steps);
  }

  /** `pending` counts the calls in progress, so a quiescent client has all its slots back. */
  lemma PendingCountsCalls(env: Env, steps: seq<Step>)
    ensures var s := Run(env, Started(), steps);
      && s.pending == |set c | c in s.calls && !s.calls[c].Done?| <= env.queueLimit
      && ((forall c | c in s.calls :: s.calls[c].Done?) ==> s.pending == 0 && s.lock == None)
      && (forall c, d | c in s.calls && d in s.calls && s.calls[c].Holds() && s.calls[d].Holds() :: c == d)
  {
    RunKeeps(env, steps);
    var s := Run(env, Started(), steps);
    assert Active(s) == set c | c in s.calls && !s.calls[c].Done?;
    if forall c | c in s.calls :: s.calls[c].Done? {
      assert Active(s) == {};
    }
  }

  /** At most one worker is neither killed nor gone. */
  lemma AtMostOneWorker(env: Env, steps: seq<Step>, p: Pid, q: Pid)
    ensures var s := Run(env, Started(), steps);
      p in s.procs && q in s.procs && p != q ==>
        s.procs[p].killed || s.procs[p].reaped || s.procs[q].killed || s.procs[q].reaped
  {
    RunKeeps(env, steps);
  }

  /** Wherever a call is suspended, cancelling it frees its slot and nobody else's. */
  lemma CancellationFreesTheSlot(env: Env, steps: seq<Step>, c: CallId)
    requires var s := Run(env, Started(), steps); c in s.calls && s.calls[c].InProgress()
    ensures var s := Run(env, Started(), steps);
      var t := Run(env, s, [CancelQueued(c), Cancel(c), CancelClosing(c)]);
      t.calls == s.calls[c := Done(Cancelled)] && t.pending == s.pending - 1 && t.lock != Some(c)
  {
    RunKeeps(env, steps);
    var s := Run(env, Started(), steps);
    RunThree(env, s, CancelQueued(c), Cancel(c), CancelClosing(c));
    CancelAnywhere(env, s, c);
  }

  lemma CancelAnywhere(env: Env, s: State, c: CallId)
    requires Inv(env, s) && c in s.calls && s.calls[c].InProgress()
    ensures var t := Apply(env, Apply(env, Apply(env, s, CancelQueued(c)), Cancel(c)), CancelClosing(c));
      t.calls == s.calls[c := Done(Cancelled)] && t.pending == s.pending - 1 && t.lock != Some(c)
  {
    if s.calls[c].Queued? {
      var t := DoCancelQueued(s, c);
      assert Apply(env, s, CancelQueued(c)) == t;
      assert DoAbort(t, c, Cancelled) == t && DoClosed(t, c, true) == t;
    } else {
      assert Apply(env, s, CancelQueued(c)) == s;
      CancelHolder(env, s, c);
    }
  }

  lemma CancelHolder(env: Env, s: State, c: CallId)
    requires Inv(env, s) && c in s.calls && s.calls[c].Holds()
    ensures var t := DoAbort(s, c, Cancelled);
      c in t.calls &&
      var u := DoClosed(t, c, true);
      u.calls == s.calls[c := Done(Cancelled)] && u.pending == s.pending - 1 && u.lock == None
  {
  }

  lemma RunThree(env: Env, s: State, a: Step, b: Step, d: Step)
    ensures Run(env, s, [a, b, d]) == Apply(env, Apply(env, Apply(env, s, a), b), d)
  {
    assert [a, b, d][..2] == [a, b] && [a, b][..1] == [a] && [a][..0] == [];
    assert Run(env, s, [a]) == Apply(env, s, a);
    assert Run(env, s, [a, b]) == Apply(env, Run(env, s, [a]), b);
  }

  // ---- how a call ends --------------------------------------------------------------------------

  /**
   A failure at an await inside the lock, such as a missed deadline or a broken pipe, ends the call as
   unavailable, once the closed worker is gone: its slot and the lock are free, no other call moves.
   */
  lemma FailureEndsUnavailable(env: Env, steps: seq<Step>, c: CallId)
    requires var s := Run(env, Started(), steps); c in s.calls && s.calls[c].Working()
    ensures var s := Run(env, Started(), steps);
      var t := Run(env, s, [Fail(c), Closed(c)]);
      t.calls == s.calls[c := Done(Unavailable)] && t.pending == s.pending - 1 && t.lock == None
  {
    RunKeeps(env, steps);
    RunTwo(env, Run(env, Started(), steps), Fail(c), Closed(c));
    FailHolder(env, Run(env, Started(), steps), c);
  }

  lemma RunTwo(env: Env, s: State, a: Step, b: Step)
    ensures Run(env, s, [a, b]) == Apply(env, Apply(env, s, a), b)
  {
    assert [a, b][..1] == [a] && [a][..0] == [];
    assert Run(env, s, [a]) == Apply(env, s, a);
  }

  lemma FailHolder(env: Env, s: State, c: CallId)
    requires Inv(env, s) && c in s.calls && s.calls[c].Working()
    ensures var t := Apply(env, Apply(env, s, Fail(c)), Closed(c));
      t.calls == s.calls[c := Done(Unavailable)] && t.pending == s.pending - 1 && t.lock == None
  {
  }

  /** The outcome of a call, while it still waits for the process it has closed or afterwards. */
  predicate EndsAs(s: State, c: CallId, outcome: Outcome) {
    c in s.calls && (s.calls[c] == Done(outcome) || s.calls[c] == Closing(outcome))
  }

  predicate Cancels(step: Step, c: CallId) { step == CancelQueued(c) || step == Cancel(c) || step == CancelClosing(c) }

  lemma CancelledStep(env: Env, s: State, step: Step, c: CallId)
    requires Inv(env, s) && EndsAs(Apply(env, s, step), c, Cancelled)
    ensures EndsAs(s, c, Cancelled) || Cancels(step, c)
  {
    if !OfOneCall(step) {
      OtherStepsKeepCalls(env, s, step);
    } else if step.c in s.calls {
      OthersStay(env, s, step);
      if step.c == c {
        OwnCancelled(env, s, step);
      }
    }
  }

  lemma OwnCancelled(env: Env, s: State, step: Step)
    requires OfOneCall(step) && step.c in s.calls && EndsAs(Apply(env, s, step), step.c, Cancelled)
    ensures EndsAs(s, step.c, Cancelled) || Cancels(step, step.c)
  {
  }

  /** No other step moves a call; one that enters is new. */
  lemma OtherStepsKeepCalls(env: Env, s: State, step: Step)
    requires !OfOneCall(step)
    ensures forall c | c in s.calls :: c in Apply(env, s, step).calls && Apply(env, s, step).calls[c] == s.calls[c]
    ensures forall c | c in Apply(env, s, step).calls && c !in s.calls ::
      Apply(env, s, step).calls[c] in {Queued, Done(Busy)}
  {
  }

  lemma OthersStay(env: Env, s: State, step: Step)
    requires Inv(env, s) && OfOneCall(step) && step.c in s.calls
    ensures forall c | c != step.c :: c in Apply(env, s, step).calls <==> c in s.calls
    ensures forall c | c in s.calls && c != step.c :: Apply(env, s, step).calls[c] == s.calls[c]
  {
    CallStepLocal(env, s, step.c, step);
  }

  /** Nobody is told of a cancellation that did not happen. */
  lemma {:induction false} CancelledOnlyByCancel(env: Env, steps: seq<Step>, c: CallId)
    requires EndsAs(Run(env, Started(), steps), c, Cancelled)
    ensures exists i :: 0 <= i < |steps| && Cancels(steps[i], c)
  {
    if steps != [] {
      var front, last := steps[..|steps| - 1], steps[|steps| - 1];
      RunKeeps(env, front);
      CancelledStep(env, Run(env, Started(), front), last, c);
      if EndsAs(Run(env, Started(), front), c, Cancelled) {
        CancelledOnlyByCancel(env, front, c);
        var i :| 0 <= i < |front| && Cancels(front[i], c);
        assert Cancels(steps[i], c);
      } else {
        assert Cancels(steps[|steps| - 1], c);
      }
    }
  }

  lemma BusyStays(env: Env, s: State, step: Step, c: CallId)
    requires Inv(env, s) && c in s.calls
    ensures c in Apply(env, s, step).calls
    ensures Apply(env, s, step).calls[c] == Done(Busy) <==> s.calls[c] == Done(Busy)
  {
    if !OfOneCall(step) {
      OtherStepsKeepCalls(env, s, step);
    } else if step.c in s.calls {
      OthersStay(env, s, step);
      if step.c == c {
        NeverBusy(env, s, step);
      }
    }
  }

  lemma NeverBusy(env: Env, s: State, step: Step)
    requires OfOneCall(step) && step.c in s.calls && PcFaithful(env, step.c, s.calls[step.c])
    ensures step.c in Apply(env, s, step).calls
    ensures Apply(env, s, step).calls[step.c] == Done(Busy) <==> s.calls[step.c] == Done(Busy)
  {
  }

  /** A call is turned away as busy if and only if the calls in progress fill the queue when it comes. */
  lemma {:induction false} BusyExactly(env: Env, steps: seq<Step>, n: nat, c: CallId)
    requires n < |steps| && steps[n] == Enter(c) && c !in Run(env, Started(), steps[..n]).calls
    ensures var before, s := Run(env, Started(), steps[..n]), Run(env, Started(), steps);
      c in s.calls && (s.calls[c] == Done(Busy) <==> |Active(before)| == env.queueLimit)
    decreases |steps|
  {
    var front := steps[..|steps| - 1];
    RunKeeps(env, front);
    if n == |steps| - 1 {
      assert front == steps[..n];
    } else {
      assert front[..n] == steps[..n];
      BusyExactly(env, front, n, c);
      BusyStays(env, Run(env, Started(), front), steps[|steps| - 1], c);
    }
  }

  /** Nothing that could break an exchange: no close from outside, no torn line, no failure of `c`. */
  predicate Disturbs(step: Step, c: CallId) {
    step == ExternalClose || step == Fail(c) || (step.WorkerExit? && step.torn)
  }

  predicate Untorn(s: State) { forall p | p in s.procs :: TornLine !in s.procs[p].replies }

  lemma UntornStep(env: Env, s: State, step: Step, c: CallId)
    requires Inv(env, s) && Untorn(s) && !Disturbs(step, c)
    ensures Untorn(Apply(env, s, step))
  {
    if step.ReadReady? || step.ReadReply? || step.Created? {
      if step.c in s.calls {
        UntornRead(env, s, step);
      }
    } else if OfOneCall(step) {
      if step.c in s.calls {
        RepliesStay(env, s, step);
      }
    }
  }

  lemma UntornRead(env: Env, s: State, step: Step)
    requires Untorn(s) && (step.ReadReady? || step.ReadReply? || step.Created?) && step.c in s.calls
    ensures Untorn(Apply(env, s, step))
  {
    var c := step.c;
    if step.ReadReady? && s.calls[c].Warming? && HasLine(s, s.calls[c].pid) {
      var taken := TakeLine(s, s.calls[c].pid);
      assert Untorn(taken);
    } else if step.ReadReply? && s.calls[c].Reading? && HasLine(s, s.calls[c].pid) {
      var taken := TakeLine(s, s.calls[c].pid);
      assert Untorn(taken);
    }
  }

  lemma RepliesStay(env: Env, s: State, step: Step)
    requires OfOneCall(step) && step.c in s.calls && !step.ReadReady? && !step.ReadReply? && !step.Created?
    ensures var t := Apply(env, s, step);
      forall p | p in t.procs :: p in s.procs && t.procs[p].replies == s.procs[p].replies
  {
  }

  lemma UndisturbedStep(env: Env, s: State, step: Step, c: CallId)
    requires Inv(env, s) && Attended(s) && Untorn(s) && !Disturbs(step, c) && !EndsAs(s, c, Unavailable)
    ensures !EndsAs(Apply(env, s, step), c, Unavailable)
  {
    if !OfOneCall(step) {
      OtherStepsKeepCalls(env, s, step);
    } else if step.c in s.calls {
      OthersStay(env, s, step);
      if step.c == c {
        OwnStaysAvailable(env, s, step);
      }
    }
  }

  lemma OwnStaysAvailable(env: Env, s: State, step: Step)
    requires OfOneCall(step) && Here(env, s, step.c) && Attended(s) && Untorn(s) && !Disturbs(step, step.c)
    requires !EndsAs(s, step.c, Unavailable)
    ensures !EndsAs(Apply(env, s, step), step.c, Unavailable)
  {
  }

  /**
   A call is never told that inference is unavailable for nothing: without a failure of its own, a
   close from outside and a worker that dies in the middle of a line it never is, whatever other
   calls do, fail or are cancelled, and however many workers exit between lines.
   */
  lemma {:induction false} UndisturbedStaysAvailable(env: Env, steps: seq<Step>, c: CallId)
    requires forall i | 0 <= i < |steps| :: !Disturbs(steps[i], c)
    ensures Untorn(Run(env, Started(), steps)) && !EndsAs(Run(env, Started(), steps), c, Unavailable)
  {
    if steps != [] {
      var front, last := steps[..|steps| - 1], steps[|steps| - 1];
      UndisturbedStaysAvailable(env, front, c);
      RunKeeps(env, front);
      ReadyTracksProcessWithoutExternalClose(env, front);
      UntornStep(env, Run(env, Started(), front), last, c);
      UndisturbedStep(env, Run(env, Started(), front), last, c);
    }
  }

  // ---- how a call is answered ------------------------------------------------------------------

  /** What the worker's reply to the call's own request line means to its caller. */
  function Own(env: Env, c: CallId): Outcome {
    var line := ReplyLine(c, env.answer(c));
    if env.answer(c).Failure? then WorkerError(line) else Returned(line)
  }

  predicate Asked(s: State, c: CallId, p: Pid) {
    && c in s.calls && s.calls[c] == RequestDrain(p) && p in s.procs
    && s.procs[p].alive && s.procs[p].warm && s.procs[p].requests == [c] && s.procs[p].replies == []
  }

  lemma AskedIsAnswered(env: Env, s: State, c: CallId, p: Pid)
    requires Asked(s, c, p)
    ensures var t := Run(env, s, [RequestDrained(c), WorkerServe(p), ReadReply(c)]);
      t.calls == s.calls[c := Done(Own(env, c))] && t.pending == s.pending - 1 && t.lock == None
  {
    RunThree(env, s, RequestDrained(c), WorkerServe(p), ReadReply(c));
    var s1 := Apply(env, s, RequestDrained(c));
    assert s1.calls[c] == Reading(p);
    var s2 := Apply(env, s1, WorkerServe(p));
    var none: seq<CallId> := [];
    assert s2.procs[p].replies == [ReplyLine(c, env.answer(c))];
  }

  predicate Waiting(s: State, c: CallId) { c in s.calls && s.calls[c].Queued? && s.lock.None? }

  /** With a live worker the request is written at once. */
  lemma WarmAsked(env: Env, s: State, c: CallId, p: Pid)
    requires Inv(env, s) && Waiting(s, c) && s.process == Some(p) && s.procs[p].alive && !s.procs[p].reaped
    ensures var t := Run(env, s, [Acquire(c)]);
      Asked(t, c, p) && t.calls == s.calls[c := RequestDrain(p)] && t.pending == s.pending
  {
    assert [Acquire(c)][..0] == [];
    assert Run(env, s, [Acquire(c)]) == Apply(env, s, Acquire(c));
  }

  /** Without one, a worker is created, configured and warmed up first. */
  lemma ColdStarts(env: Env, s: State, c: CallId, p: Pid)
    requires Inv(env, s) && Waiting(s, c) && p !in s.procs && !Reusable(s)
    ensures var t := Run(env, s, [Acquire(c), Created(c, p), ConfigDrained(c)]);
      t == State(s.pending, Some(c), Some(p), false, s.calls[c := Warming(p)],
        s.procs[p := Proc(true, false, false, false, [], [])])
  {
    RunThree(env, s, Acquire(c), Created(c, p), ConfigDrained(c));
  }

  lemma WarmsUp(env: Env, s: State, c: CallId, p: Pid)
    requires c in s.calls && s.calls[c] == Warming(p) && s.process == Some(p)
    requires p in s.procs && s.procs[p] == Proc(true, false, false, false, [], [])
    ensures var t := Run(env, s, [WorkerWarm(p), ReadReady(c)]);
      Asked(t, c, p) && t.calls == s.calls[c := RequestDrain(p)] && t.pending == s.pending && t.ready
  {
    RunTwo(env, s, WorkerWarm(p), ReadReady(c));
    var s1 := Apply(env, s, WorkerWarm(p));
    assert s1.procs[p].replies == [ReadyLine] && s1.procs[p].replies[1..] == [];
    assert s1.procs[p].requests + [c] == [c];
  }

  /**
   A call that nothing disturbs is answered: wherever a run has got to, once the lock is free, a
   waiting call that goes through its awaits with a live worker, or with a new one if the last is
   gone, ends with the worker's reply to its own request, its slot and the lock free again.
   */
  lemma WaitingCallIsAnswered(env: Env, steps: seq<Step>, c: CallId, p: Pid) returns (more: seq<Step>)
    requires var s := Run(env, Started(), steps);
      && Waiting(s, c)
      && if Reusable(s) then s.process == Some(p) && s.procs[p].alive else p !in s.procs
    ensures more == (if Reusable(Run(env, Started(), steps)) then [Acquire(c)]
        else [Acquire(c), Created(c, p), ConfigDrained(c), WorkerWarm(p), ReadReady(c)])
      + [RequestDrained(c), WorkerServe(p), ReadReply(c)]
    ensures var s, t := Run(env, Started(), steps), Run(env, Started(), steps + more);
      t.calls == s.calls[c := Done(Own(env, c))] && t.pending == s.pending - 1 && t.lock == None
  {
    var s := Run(env, Started(), steps);
    RunKeeps(env, steps);
    var ask := GetsAsked(env, s, c, p);
    var answer := [RequestDrained(c), WorkerServe(p), ReadReply(c)];
    more := ask + answer;
    AskedIsAnswered(env, Run(env, s, ask), c, p);
    RunSplit(env, s, ask, answer);
    RunSplit(env, Started(), steps, more);
  }

  lemma GetsAsked(env: Env, s: State, c: CallId, p: Pid) returns (ask: seq<Step>)
    requires Inv(env, s) && Waiting(s, c)
    requires if Reusable(s) then s.process == Some(p) && s.procs[p].alive else p !in s.procs
    ensures ask == if Reusable(s) then [Acquire(c)]
      else [Acquire(c), Created(c, p), ConfigDrained(c), WorkerWarm(p), ReadReady(c)]
    ensures var t := Run(env, s, ask);
      Asked(t, c, p) && t.calls == s.calls[c := RequestDrain(p)] && t.pending == s.pending
  {
    if Reusable(s) {
      ask := [Acquire(c)];
      WarmAsked(env, s, c, p);
    } else {
      var start, warm := [Acquire(c), Created(c, p), ConfigDrained(c)], [WorkerWarm(p), ReadReady(c)];
      ask := start + warm;
      ColdStarts(env, s, c, p);
      WarmsUp(env, Run(env, s, start), c, p);
      RunSplit(env, s, start, warm);
      assert s.calls[c := Warming(p)][c := RequestDrain(p)] == s.calls[c := RequestDrain(p)];
    }
  }

  // `ready` is meant to say that there is a worker. Nothing clears it when an idle worker dies, and
  // a ready line may be read after the worker is gone or after a `close()` from outside.

  /** A worker as the client knows it, gone once its exit status is seen, or as it really is. */
  datatype View = Known | Actual {
    predicate Gone(p: Proc) { if this.Known? then p.reaped else !p.alive }
  }

  /** `ready` promises a worker that is not gone. */
  predicate Honest(s: State, view: View) {
    s.ready ==> s.process.Some? && s.process.value in s.procs && !view.Gone(s.procs[s.process.value])
  }

  /** The ready line is read although the client has no process, or one that is gone. */
  predicate StaleReadyLine(s: State, step: Step, view: View) {
    && step.ReadReady? && step.c in s.calls && s.calls[step.c].Warming?
    && HasLine(s, s.calls[step.c].pid) && s.procs[s.calls[step.c].pid].replies[0].ReadyLine?
    && !(s.process.Some? && s.process.value in s.procs && !view.Gone(s.procs[s.process.value]))
  }

  /** The current worker goes while `ready` is set: it exits, or its exit status is seen. */
  predicate WorkerLost(s: State, step: Step, view: View) {
    && s.ready && (if view.Known? then step.Reap? else step.WorkerExit?)
    && step.pid in s.procs && s.process == Some(step.pid) && (view.Known? ==> !s.procs[step.pid].alive)
  }

  predicate Breaks(s: State, step: Step, view: View) { StaleReadyLine(s, step, view) || WorkerLost(s, step, view) }

  lemma ReadyTracksWorkerExactly(env: Env, s: State, step: Step, view: View)
    requires Inv(env, s) && Honest(s, view)
    ensures Honest(Apply(env, s, step), view) <==> !Breaks(s, step, view)
  {
    if OfOneCall(step) {
      if step.c in s.calls {
        CallTracksWorker(env, s, step.c, step, view);
      }
    } else {
      OtherTracksWorker(env, s, step, view);
    }
  }

  lemma OtherTracksWorker(env: Env, s: State, step: Step, view: View)
    requires Inv(env, s) && Honest(s, view) && !OfOneCall(step)
    ensures Honest(Apply(env, s, step), view) <==> !WorkerLost(s, step, view)
  {
  }

  lemma CallTracksWorker(env: Env, s: State, c: CallId, step: Step, view: View)
    requires Inv(env, s) && Honest(s, view) && OfOneCall(step) && c in s.calls && step.c == c
    ensures Honest(Apply(env, s, step), view) <==> !StaleReadyLine(s, step, view)
  {
  }

  /** At every moment of the run, `ready` promises a worker. */
  predicate AlwaysHonest(env: Env, steps: seq<Step>, view: View) {
    Honest(Run(env, Started(), steps), view) && (steps != [] ==> AlwaysHonest(env, steps[..|steps| - 1], view))
  }

  predicate NeverBroken(env: Env, steps: seq<Step>, view: View) {
    steps != [] ==>
      && NeverBroken(env, steps[..|steps| - 1], view)
      && !Breaks(Run(env, Started(), steps[..|steps| - 1]), steps[|steps| - 1], view)
  }

  /**
   Over a whole run, `ready` promises a worker at every moment if and only if no stale ready line is
   read and no current worker goes while `ready` is set.
   */
  lemma {:induction false} ReadyTracksWorkerThroughout(env: Env, steps: seq<Step>, view: View)
    ensures AlwaysHonest(env, steps, view) <==> NeverBroken(env, steps, view)
  {
    if steps != [] {
      var front := steps[..|steps| - 1];
      ReadyTracksWorkerThroughout(env, front, view);
      if AlwaysHonest(env, front, view) {
        RunKeeps(env, front);
        ReadyTracksWorkerExactly(env, Run(env, Started(), front), steps[|steps| - 1], view);
      }
    }
  }

  /** An idle worker exits and is seen to have exited: `ready` still promises it. */
  lemma ReadyOutlivesIdleWorker(env: Env)
    ensures var s := Run(env, Started(), [WorkerExit(0, false), Reap(0)]);
      && s.ready && s.process == Some(0) && 0 in s.procs && s.procs[0].reaped && !s.procs[0].alive
      && !Honest(s, Known) && !Honest(s, Actual)
  {
    var steps := [WorkerExit(0, false), Reap(0)];
    var none: seq<Step> := [];
    assert steps[..1] == [WorkerExit(0, false)] && steps[..1][..0] == none;
    assert Run(env, Started(), none) == Started();
    assert Run(env, Started(), steps[..1]) == Apply(env, Started(), WorkerExit(0, false));
    assert Run(env, Started(), steps) == Apply(env, Run(env, Started(), steps[..1]), Reap(0));
  }

  predicate ReadyHasProcess(s: State) { s.ready ==> s.process.Some? }

  /** Until a `close()` comes from outside, the worker being warmed up is `self.process`. */
  predicate Attended(s: State) {
    && ReadyHasProcess(s)
    && (match Holder(s)
        case Some(ConfigDrain(p)) => s.process == Some(p)
        case Some(Warming(p)) => s.process == Some(p)
        case _ => true)
  }

  lemma AttendedKeeps(env: Env, s: State, step: Step)
    requires Inv(env, s) && Attended(s) && step != ExternalClose
    ensures Attended(Apply(env, s, step))
  {
    if OfOneCall(step) {
      if step.c in s.calls {
        AttendedCallStep(env, s, step.c, step);
      }
    } else {
      AttendedOtherStep(env, s, step);
    }
  }

  lemma AttendedOtherStep(env: Env, s: State, step: Step)
    requires Inv(env, s) && Attended(s) && step != ExternalClose && !OfOneCall(step)
    ensures Attended(Apply(env, s, step))
  {
  }

  lemma AttendedCallStep(env: Env, s: State, c: CallId, step: Step)
    requires Inv(env, s) && Attended(s) && OfOneCall(step) && c in s.calls && step.c == c
    ensures Attended(Apply(env, s, step))
  {
    if step.ReadReady? || step.ReadReply? {
      AttendedRead(env, s, c, step);
    }
  }

  lemma AttendedRead(env: Env, s: State, c: CallId, step: Step)
    requires Inv(env, s) && Attended(s) && (step.ReadReady? || step.ReadReply?) && c in s.calls && step.c == c
    ensures Attended(Apply(env, s, step))
  {
  }

  lemma {:induction false} ReadyTracksProcessWithoutExternalClose(env: Env, steps: seq<Step>)
    requires ExternalClose !in steps
    ensures Attended(Run(env, Started(), steps))
  {
    if steps != [] {
      var before := steps[..|steps| - 1];
      RunKeeps(env, before);
      ReadyTracksProcessWithoutExternalClose(env, before);
      AttendedKeeps(env, Run(env, Started(), before), steps[|steps| - 1]);
    }
  }

  lemma ReadyCanOutliveProcess(env: Env)
    requires env.queueLimit > 0
    ensures exists steps :: !ReadyHasProcess(Run(env, Started(), steps))
  {
    var early := [ExternalClose, Enter(0), Acquire(0)];
    var middle := [Created(0, 1), ConfigDrained(0), WorkerWarm(1)];
    var late := [ExternalClose, ReadReady(0), Reap(0)];
    SpawnAfterClose(env);
    ReadyLinePrinted(env);
    CloseDuringWarmup(env);
    var all := RunChain(env, Started(), early, Respawning(), middle, LineWaiting(), late);
    assert !ReadyHasProcess(Run(env, Started(), all));
  }

  lemma RunChain(env: Env, s0: State, a: seq<Step>, s1: State, b: seq<Step>, s2: State, c: seq<Step>)
    returns (all: seq<Step>)
    requires Run(env, s0, a) == s1 && Run(env, s1, b) == s2
    ensures Run(env, s0, all) == Run(env, s2, c)
  {
    all := a + b + c;
    RunSplit(env, s0, a, b);
    RunSplit(env, s0, a + b, c);
  }

  /** Call 0 has found no worker and is creating one. */
  function Respawning(): State {
    State(1, Some(0), None, false, map[0 := Creating], map[0 := Proc(true, false, true, true, [], [])])
  }

  /** Call 0 waits for the ready line of worker 1, which has just been printed. */
  function LineWaiting(): State {
    State(1, Some(0), Some(1), false, map[0 := Warming(1)],
          map[0 := Proc(true, false, true, true, [], []), 1 := Proc(true, false, false, true, [], [ReadyLine])])
  }

  lemma SpawnAfterClose(env: Env)
    requires env.queueLimit > 0
    ensures Run(env, Started(), [ExternalClose, Enter(0), Acquire(0)]) == Respawning()
  {
    RunThree(env, Started(), ExternalClose, Enter(0), Acquire(0));
    var s1 := Apply(env, Started(), ExternalClose);
    assert s1.procs == Respawning().procs;
    var s2 := Apply(env, s1, Enter(0));
    assert s2 == s1.(calls := map[0 := Queued], pending := 1);
  }

  lemma ReadyLinePrinted(env: Env)
    ensures Run(env, Respawning(), [Created(0, 1), ConfigDrained(0), WorkerWarm(1)]) == LineWaiting()
  {
    RunThree(env, Respawning(), Created(0, 1), ConfigDrained(0), WorkerWarm(1));
    var s1 := DoCreated(Respawning(), 0, 1);
    assert s1.calls == map[0 := ConfigDrain(1)];
    var s2 := DoConfigDrained(s1, 0);
    assert s2.calls == map[0 := Warming(1)];
    var worker := s2.procs[1];
    assert worker.alive && !worker.warm && worker.replies + [ReadyLine] == [ReadyLine];
    assert worker.(warm := true, replies := [ReadyLine]) == LineWaiting().procs[1];
    assert DoWorker(env, s2, WorkerWarm(1), 1).procs == LineWaiting().procs;
  }

  lemma CloseDuringWarmup(env: Env)
    ensures !ReadyHasProcess(Run(env, LineWaiting(), [ExternalClose, ReadReady(0), Reap(0)]))
  {
    RunThree(env, LineWaiting(), ExternalClose, ReadReady(0), Reap(0));
    var s0 := LineWaiting();
    assert s0.process == Some(1) && 1 in s0.procs && s0.calls[0] == Warming(1);
    assert s0.procs[1] == Proc(true, false, false, true, [], [ReadyLine]);
    var s1 := CloseNow(s0);
    assert s1.procs[1] == Proc(true, false, true, true, [], [ReadyLine]);
    var s2 := DoReadReady(s1, 0);
    assert s2.ready && s2.process.None?;
  }

  lemma {:induction false} RunSplit(env: Env, s: State, a: seq<Step>, b: seq<Step>)
    ensures Run(env, s, a + b) == Run(env, Run(env, s, a), b)
  {
    if b == [] {
      assert a + b == a;
    } else {
      RunSplit(env, s, a, b[..|b| - 1]);
      assert (a + b)[..|a + b| - 1] == a + b[..|b| - 1];
    }
  }
}
