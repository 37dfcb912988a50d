/**
 Admission control (src/omo/api.py, `Guard`): a sliding window over the admissions of the last
 minute, a counter of the requests in flight and the bounded read of a request body.
 */
module Admission {
  import opened Common

  datatype Limits = Limits(maxInflight: nat, perMinute: nat) {
    predicate Valid() { maxInflight >= 1 && perMinute >= 1 }
  }

  /** Drop the leading instants before `cutoff`. */
  function Prune(recent: seq<real>, cutoff: real): seq<real> {
    if recent != [] && recent[0] < cutoff then Prune(recent[1..], cutoff) else recent
  }

  predicate Admits(limits: Limits, active: int, recent: seq<real>, now: real) {
    active < limits.maxInflight && |Prune(recent, now - 60.0)| < limits.perMinute
  }

  function RecentAfter(limits: Limits, active: int, recent: seq<real>, now: real): seq<real> {
    Prune(recent, now - 60.0) + if Admits(limits, active, recent, now) then [now] else []
  }

  class Guard {
    const limits: Limits
    var active: int
    var recent: seq<real>

    constructor (limits: Limits)
      ensures this.limits == limits && active == 0 && recent == []
    {
      this.limits, active, recent := limits, 0, [];
    }

    /** From the clock reading to the admission or the `busy` answer. */
    method Enter(now: real) returns (admitted: bool)
      modifies this
      ensures admitted == old(Admits(limits, active, recent, now))
      ensures recent == old(RecentAfter(limits, active, recent, now))
      ensures active == old(active) + if admitted then 1 else 0
    {
      while recent != [] && recent[0] < now - 60.0
        invariant Prune(recent, now - 60.0) == old(Prune(recent, now - 60.0))
        invariant active == old(active)
        decreases |recent|
      {
        recent := recent[1..];
      }
      if active >= limits.maxInflight || |recent| >= limits.perMinute {
        return false;
      }
      active := active + 1;
      recent := recent + [now];
      return true;
    }

    /** The `finally` block: every admitted request runs it once, however it ends. */
    method Leave()
      modifies this
      ensures active == old(active) - 1 && recent == old(recent)
    {
      active := active - 1;
    }
  }

  // ---- runs -----------------------------------------------------------------------------------

  datatype Event = Arrive(now: real) | Leave(id: nat)
  datatype Visit = Refused | Inside | Gone

  /** The guard's fields, and what happened: every visit, and the instant of every admission. */
  datatype State = State(active: int, recent: seq<real>, visits: seq<Visit>, admitted: seq<real>, clock: real)

  function Apply(limits: Limits, s: State, event: Event): State {
    match event
    case Arrive(now) =>
      var ok := Admits(limits, s.active, s.recent, now);
      State(
        s.active + (if ok then 1 else 0), RecentAfter(limits, s.active, s.recent, now),
        s.visits + [if ok then Inside else Refused], s.admitted + (if ok then [now] else []), now)
    case Leave(id) =>
      if id >= |s.visits| || s.visits[id] != Inside then s
      else s.(active := s.active - 1, visits := s.visits[id := Gone])
  }

  function Run(limits: Limits, start: real, events: seq<Event>): State {
    if events == [] then State(0, [], [], [], start)
    else Apply(limits, Run(limits, start, events[..|events| - 1]), events[|events| - 1])
  }

  /** The clock never goes back. */
  predicate Monotonic(start: real, events: seq<Event>) {
    && (forall i | 0 <= i < |events| && events[i].Arrive? :: start <= events[i].now)
    && (forall i, j | 0 <= i < j < |events| && events[i].Arrive? && events[j].Arrive? :: events[i].now <= events[j].now)
  }

  function InFlight(visits: seq<Visit>): nat {
    if visits == [] then 0 else InFlight(visits[..|visits| - 1]) + if visits[|visits| - 1] == Inside then 1 else 0
  }

  /** How many of the instants lie in the closed interval. */
  function CountIn(instants: seq<real>, from: real, to: real): nat {
    if instants == [] then 0
    else CountIn(instants[..|instants| - 1], from, to) + if from <= instants[|instants| - 1] <= to then 1 else 0
  }

  predicate Ascending(instants: seq<real>) {
    forall i, j | 0 <= i < j < |instants| :: instants[i] <= instants[j]
  }

  predicate Ordered(instants: seq<real>, clock: real) {
    && Ascending(instants)
    && (forall i | 0 <= i < |instants| :: instants[i] <= clock)
  }

  /** An admission comes more than a minute after the one `perMinute` places before it. */
  predicate Spaced(instants: seq<real>, perMinute: nat) {
    forall j | perMinute <= j < |instants| :: instants[j - perMinute] < instants[j] - 60.0
  }

  predicate Inv(limits: Limits, s: State) {
    && s.recent == Prune(s.admitted, s.clock - 60.0)
    && Ordered(s.admitted, s.clock)
    && Spaced(s.admitted, limits.perMinute)
    && s.active == InFlight(s.visits) <= limits.maxInflight
  }

  lemma {:induction false} PruneIsSuffix(instants: seq<real>, cutoff: real)
    ensures |Prune(instants, cutoff)| <= |instants|
    ensures Prune(instants, cutoff) == instants[|instants| - |Prune(instants, cutoff)|..]
    ensures forall i | 0 <= i < |instants| - |Prune(instants, cutoff)| :: instants[i] < cutoff
  {
    if instants != [] && instants[0] < cutoff {
      PruneIsSuffix(instants[1..], cutoff);
      var kept := |Prune(instants[1..], cutoff)|;
      assert instants[1..][|instants| - 1 - kept..] == instants[|instants| - kept..];
      forall i | 0 <= i < |instants| - |Prune(instants, cutoff)| ensures instants[i] < cutoff {
        if i > 0 {
          assert instants[i] == instants[1..][i - 1];
        }
      }
    } else {
      assert instants[0..] == instants;
    }
  }

  /** Pruning again with a later cutoff forgets that there was an earlier one. */
  lemma {:induction false} PruneLater(instants: seq<real>, earlier: real, later: real)
    requires earlier <= later
    ensures Prune(Prune(instants, earlier), later) == Prune(instants, later)
  {
    if instants != [] && instants[0] < earlier {
      PruneLater(instants[1..], earlier, later);
    }
  }

  lemma {:induction false} PruneKeepsNew(instants: seq<real>, cutoff: real, now: real)
    requires cutoff <= now
    ensures Prune(instants + [now], cutoff) == Prune(instants, cutoff) + [now]
  {
    if instants != [] && instants[0] < cutoff {
      PruneKeepsNew(instants[1..], cutoff, now);
      assert (instants + [now])[1..] == instants[1..] + [now];
    }
  }

  lemma {:induction false} OneLeaves(visits: seq<Visit>, id: nat)
    requires id < |visits| && visits[id] == Inside
    ensures InFlight(visits[id := Gone]) == InFlight(visits) - 1
  {
    var front := visits[..|visits| - 1];
    if id == |visits| - 1 {
      assert visits[id := Gone][..|visits| - 1] == front;
    } else {
      OneLeaves(front, id);
      assert visits[id := Gone][..|visits| - 1] == front[id := Gone];
    }
  }

  lemma ArriveKeeps(limits: Limits, s: State, now: real)
    requires limits.Valid() && Inv(limits, s) && s.clock <= now
    ensures Inv(limits, Apply(limits, s, Arrive(now)))
  {
    PruneLater(s.admitted, s.clock - 60.0, now - 60.0);
    if Admits(limits, s.active, s.recent, now) {
      Admitted(limits, s, now, Prune(s.recent, now - 60.0));
    } else {
      assert s.admitted + [] == s.admitted;
      assert Prune(s.recent, now - 60.0) + [] == Prune(s.recent, now - 60.0);
      assert (s.visits + [Refused])[..|s.visits|] == s.visits;
    }
  }

  lemma Admitted(limits: Limits, s: State, now: real, pruned: seq<real>)
    requires Inv(limits, s) && s.clock <= now && s.active < limits.maxInflight
    requires pruned == Prune(s.admitted, now - 60.0) && |pruned| < limits.perMinute
    ensures Inv(limits, State(s.active + 1, pruned + [now], s.visits + [Inside], s.admitted + [now], now))
  {
    PruneKeepsNew(s.admitted, now - 60.0, now);
    AdmissionSpaced(s.admitted, limits.perMinute, now);
    assert (s.visits + [Inside])[..|s.visits|] == s.visits;
  }

  /** With room in the window, a new admission keeps its distance. */
  lemma AdmissionSpaced(admitted: seq<real>, perMinute: nat, now: real)
    requires Spaced(admitted, perMinute) && |Prune(admitted, now - 60.0)| < perMinute
    ensures Spaced(admitted + [now], perMinute)
  {
    PruneIsSuffix(admitted, now - 60.0);
    var n := |admitted|;
    assert perMinute <= n ==> admitted[n - perMinute] < now - 60.0;
    forall j | perMinute <= j < n + 1
      ensures (admitted + [now])[j - perMinute] < (admitted + [now])[j] - 60.0
    {
      if j < n {
        assert admitted[j - perMinute] < admitted[j] - 60.0;
      }
    }
  }

  lemma StepKeeps(limits: Limits, s: State, event: Event)
    requires limits.Valid() && Inv(limits, s) && (event.Arrive? ==> s.clock <= event.now)
    ensures Inv(limits, Apply(limits, s, event))
  {
    if event.Arrive? {
      ArriveKeeps(limits, s, event.now);
    } else if event.id < |s.visits| && s.visits[event.id] == Inside {
      OneLeaves(s.visits, event.id);
    }
  }

  lemma {:induction false} RunKeeps(limits: Limits, start: real, events: seq<Event>)
    requires limits.Valid() && Monotonic(start, events)
    ensures Inv(limits, Run(limits, start, events))
    ensures Run(limits, start, events).clock == Clock(start, events)
  {
    if events != [] {
      var front := events[..|events| - 1];
      RunKeeps(limits, start, front);
      ClockBefore(start, events);
      StepKeeps(limits, Run(limits, start, front), events[|events| - 1]);
    }
  }

  /** The instant of the last arrival. */
  function Clock(start: real, events: seq<Event>): real {
    if events == [] then start
    else if events[|events| - 1].Arrive? then events[|events| - 1].now else Clock(start, events[..|events| - 1])
  }

  lemma {:induction false} ClockBefore(start: real, events: seq<Event>)
    requires Monotonic(start, events) && events != []
    ensures events[|events| - 1].Arrive? ==> Clock(start, events[..|events| - 1]) <= events[|events| - 1].now
    decreases |events|
  {
    var front := events[..|events| - 1];
    if front != [] && events[|events| - 1].Arrive? && !front[|front| - 1].Arrive? {
      var shorter := front[..|front| - 1] + [events[|events| - 1]];
      ClockBefore(start, shorter);
      assert shorter[..|shorter| - 1] == front[..|front| - 1];
    }
  }

  // ---- the limits -----------------------------------------------------------------------------

  lemma {:induction false} CountAfter(instants: seq<real>, skipped: nat, from: real, to: real)
    requires skipped <= |instants| && forall i | 0 <= i < skipped :: instants[i] < from
    ensures CountIn(instants, from, to) <= |instants| - skipped
  {
    if |instants| > skipped {
      CountAfter(instants[..|instants| - 1], skipped, from, to);
    } else if instants != [] {
      CountAfter(instants[..|instants| - 1], skipped - 1, from, to);
    }
  }

  lemma {:induction false} SpacedWindows(instants: seq<real>, perMinute: nat, from: real)
    requires Ascending(instants) && Spaced(instants, perMinute)
    ensures CountIn(instants, from, from + 60.0) <= perMinute
  {
    if instants != [] {
      var n := |instants|;
      if instants[n - 1] > from + 60.0 || n <= perMinute {
        SpacedWindows(instants[..n - 1], perMinute, from);
        CountAfter(instants, 0, from, from + 60.0);
      } else {
        assert instants[n - 1 - perMinute] < instants[n - 1] - 60.0 <= from;
        CountAfter(instants, n - perMinute, from, from + 60.0);
      }
    }
  }

  /** No closed minute, anywhere in any run, holds more admissions than the limit. */
  lemma WindowsBounded(limits: Limits, start: real, events: seq<Event>, from: real)
    requires limits.Valid() && Monotonic(start, events)
    ensures CountIn(Run(limits, start, events).admitted, from, from + 60.0) <= limits.perMinute
  {
    RunKeeps(limits, start, events);
    SpacedWindows(Run(limits, start, events).admitted, limits.perMinute, from);
  }

  /** The counter is the number of admitted requests that have not ended, and is bounded. */
  lemma InFlightBounded(limits: Limits, start: real, events: seq<Event>)
    requires limits.Valid() && Monotonic(start, events)
    ensures var s := Run(limits, start, events); s.active == InFlight(s.visits) <= limits.maxInflight
  {
    RunKeeps(limits, start, events);
  }

  lemma {:induction false} PruneCounts(instants: seq<real>, cutoff: real, to: real)
    requires Ordered(instants, to)
    ensures |Prune(instants, cutoff)| == CountIn(instants, cutoff, to)
  {
    PruneIsSuffix(instants, cutoff);
    var kept := |Prune(instants, cutoff)|;
    if instants != [] {
      var front, last := instants[..|instants| - 1], instants[|instants| - 1];
      PruneCounts(front, cutoff, to);
      assert instants == front + [last];
      if cutoff <= last {
        PruneKeepsNew(front, cutoff, last);
      } else {
        AllPruned(instants, cutoff);
        AllPruned(front, cutoff);
      }
    }
  }

  lemma {:induction false} AllPruned(instants: seq<real>, cutoff: real)
    requires forall i | 0 <= i < |instants| :: instants[i] < cutoff
    ensures Prune(instants, cutoff) == []
  {
    if instants != [] {
      AllPruned(instants[1..], cutoff);
    }
  }

  /**
   A request is refused for one of two reasons only: the requests in flight fill the limit, or the
   admissions of the last minute, both ends included, do.
   */
  lemma RefusedExactly(limits: Limits, start: real, events: seq<Event>, now: real)
    requires limits.Valid() && Monotonic(start, events + [Arrive(now)])
    ensures var s := Run(limits, start, events);
      var next := Run(limits, start, events + [Arrive(now)]);
      next.visits == s.visits + [if InFlight(s.visits) == limits.maxInflight
        || CountIn(s.admitted, now - 60.0, now) >= limits.perMinute then Refused else Inside]
  {
    var all := events + [Arrive(now)];
    assert all[..|events|] == events;
    assert Monotonic(start, events) by {
      forall i | 0 <= i < |events| ensures all[i] == events[i] {}
    }
    RunKeeps(limits, start, events);
    ClockBefore(start, all);
    AdmitsExactly(limits, Run(limits, start, events), now);
  }

  lemma AdmitsExactly(limits: Limits, s: State, now: real)
    requires limits.Valid() && Inv(limits, s) && s.clock <= now
    ensures Admits(limits, s.active, s.recent, now) <==>
      InFlight(s.visits) < limits.maxInflight && CountIn(s.admitted, now - 60.0, now) < limits.perMinute
  {
    PruneLater(s.admitted, s.clock - 60.0, now - 60.0);
    PruneCounts(s.admitted, now - 60.0, now);
  }

  // ---- the body -------------------------------------------------------------------------------

  const MAX_BODY := 32768

  /** What one `receive` gives; `Deadline` is the five-second timeout firing in its place. */
  datatype Received = Part(body: string, more: bool) | Disconnect | Deadline
  datatype BodyOutcome = Body(body: string) | Disconnected | TooLarge | TimedOut

  /** Waiting for a message that never comes ends at the deadline. */
  method ReadBody(messages: seq<Received>) returns (outcome: BodyOutcome)
    ensures outcome == BodyOf(messages, "")
  {
    var body := "";
    for i := 0 to |messages|
      invariant BodyOf(messages, "") == BodyOf(messages[i..], body)
    {
      assert messages[i..][1..] == messages[i + 1..];
      match messages[i]
      case Disconnect => return Disconnected;
      case Deadline => return TimedOut;
      case Part(part, more) =>
        body := body + part;
        if |body| > MAX_BODY {
          return TooLarge;
        }
        if !more {
          return Body(body);
        }
    }
    return TimedOut;
  }

  function BodyOf(messages: seq<Received>, read: string): BodyOutcome {
    if messages == [] || messages[0].Deadline? then TimedOut
    else if messages[0].Disconnect? then Disconnected
    else if |read + messages[0].body| > MAX_BODY then TooLarge
    else if !messages[0].more then Body(read + messages[0].body)
    else BodyOf(messages[1..], read + messages[0].body)
  }

  /** One body sent in these pieces: all but the last announce more. */
  function Pieces(parts: seq<string>): seq<Received>
    requires parts != []
  {
    if |parts| == 1 then [Part(parts[0], false)] else [Part(parts[0], true)] + Pieces(parts[1..])
  }

  function Joined(parts: seq<string>): string { if parts == [] then "" else parts[0] + Joined(parts[1..]) }

  /**
   The bound is on the whole body: however it is cut into pieces, and whatever follows it, it is
   read entirely or refused as too large.
   */
  lemma {:induction false} BodyIgnoresPieces(parts: seq<string>, rest: seq<Received>, read: string)
    requires parts != []
    ensures BodyOf(Pieces(parts) + rest, read) ==
      if |read| + |Joined(parts)| > MAX_BODY then TooLarge else Body(read + Joined(parts))
  {
    if |parts| == 1 {
      assert Joined(parts) == parts[0] + "" == parts[0];
    } else {
      OnePieceRead(parts, rest, read);
      if |read + parts[0]| <= MAX_BODY {
        BodyIgnoresPieces(parts[1..], rest, read + parts[0]);
        PlusAssociates(read, parts[0], Joined(parts[1..]));
      }
    }
  }

  lemma OnePieceRead(parts: seq<string>, rest: seq<Received>, read: string)
    requires |parts| > 1
    ensures BodyOf(Pieces(parts) + rest, read) ==
      if |read + parts[0]| > MAX_BODY then TooLarge else BodyOf(Pieces(parts[1..]) + rest, read + parts[0])
  {
    assert (Pieces(parts) + rest)[1..] == Pieces(parts[1..]) + rest;
  }

  function Announced(parts: seq<string>): seq<Received> {
    if parts == [] then [] else [Part(parts[0], true)] + Announced(parts[1..])
  }

  /** An unfinished body is never passed on, and one that is already too large is refused as that. */
  lemma {:induction false} BodyInterrupted(parts: seq<string>, stop: Received, rest: seq<Received>, read: string)
    requires !stop.Part? && |read| <= MAX_BODY
    ensures BodyOf(Announced(parts) + [stop] + rest, read) ==
      if |read| + |Joined(parts)| > MAX_BODY then TooLarge else if stop.Disconnect? then Disconnected else TimedOut
  {
    var all := Announced(parts) + [stop] + rest;
    if parts == [] {
      assert all[0] == stop;
    } else {
      assert all == [Part(parts[0], true)] + (Announced(parts[1..]) + [stop] + rest);
      assert all[1..] == Announced(parts[1..]) + [stop] + rest;
      if |read + parts[0]| <= MAX_BODY {
        BodyInterrupted(parts[1..], stop, rest, read + parts[0]);
      }
    }
  }
}
