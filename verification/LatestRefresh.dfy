/** The serialized latest-wins refresh controller of the portal (portal/src/refresh.ts). */
module LatestRefresh {
  import opened Wrappers

  datatype Mode = Foreground | Background

  /** Calls on the controller, and the settling of the running task. */
  datatype Event = Request(mode: Mode) | Invalidate | Stop | Settle

  datatype State = State(generation: nat, active: bool, queued: Option<Mode>, stopped: bool)

  /** A task handed to the caller: its request id and mode. */
  datatype Task = Task(id: nat, mode: Mode)

  const INITIAL := State(0, false, None, false)

  predicate IsCurrent(s: State, id: nat)
  {
    !s.stopped && id == s.generation
  }

  function Requested(s: State, mode: Mode): (State, Option<Task>)
  {
    if s.stopped then (s, None)
    else if s.active then
      (s.(generation := if mode == Foreground then s.generation + 1 else s.generation,
          queued := Some(if s.queued == Some(Foreground) then Foreground else mode)), None)
    else (s.(generation := s.generation + 1, active := true), Some(Task(s.generation + 1, mode)))
  }

  function Next(s: State, e: Event): (State, Option<Task>)
  {
    match e
    case Request(mode) => Requested(s, mode)
    case Invalidate =>
      (if s.stopped then s
       else s.(generation := s.generation + 1, queued := if s.active then Some(Foreground) else s.queued), None)
    case Stop => (s.(stopped := true, generation := s.generation + 1, queued := None), None)
    case Settle =>
      var idle := s.(active := false);
      if s.queued.Some? && !s.stopped then Requested(idle.(queued := None), s.queued.value) else (idle, None)
  }

  /** The controller itself: a task is started by the method that returns it. */
  class Controller {
    var generation: nat
    var active: bool
    var queuedMode: Option<Mode>
    var stopped: bool

    function Abs(): State
      reads this
    {
      State(generation, active, queuedMode, stopped)
    }

    constructor ()
      ensures Abs() == INITIAL
    {
      generation, active, queuedMode, stopped := 0, false, None, false;
    }

    method Request(mode: Mode) returns (task: Option<Task>)
      modifies this
      ensures (Abs(), task) == Next(old(Abs()), Event.Request(mode))
    {
      if stopped {
        return None;
      }
      if active {
        if mode == Foreground {
          generation := generation + 1;
        }
        queuedMode := Some(if queuedMode == Some(Foreground) || mode == Foreground then Foreground else Background);
        return None;
      }
      generation := generation + 1;
      active := true;
      return Some(Task(generation, mode));
    }

    /** The `finally` callback of the running task. */
    method Settle() returns (task: Option<Task>)
      modifies this
      ensures (Abs(), task) == Next(old(Abs()), Event.Settle)
    {
      active := false;
      if queuedMode.Some? && !stopped {
        var nextMode := queuedMode.value;
        queuedMode := None;
        task := Request(nextMode);
        return;
      }
      return None;
    }

    method Invalidate()
      modifies this
      ensures (Abs(), None) == Next(old(Abs()), Event.Invalidate)
    {
      if stopped {
        return;
      }
      generation := generation + 1;
      if active {
        queuedMode := Some(Foreground);
      }
    }

    method Stop()
      modifies this
      ensures (Abs(), None) == Next(old(Abs()), Event.Stop)
    {
      stopped := true;
      generation := generation + 1;
      queuedMode := None;
    }
  }

  /* ---- Event sequences ---- */

  function StateAt(events: seq<Event>, n: nat): State
    requires n <= |events|
  {
    if n == 0 then INITIAL else Next(StateAt(events, n - 1), events[n - 1]).0
  }

  /** What event `n` starts, if anything. */
  function Started(events: seq<Event>, n: nat): Option<Task>
    requires n < |events|
  {
    Next(StateAt(events, n), events[n]).1
  }

  /** Only a running task settles. */
  ghost predicate Legal(events: seq<Event>)
  {
    forall n :: 0 <= n < |events| && events[n] == Settle ==> Running(events, n).Some?
  }

  datatype Run = Run(task: Task, since: nat)

  /** What is running after `n` events, and the position just after the event that started it. */
  function Running(events: seq<Event>, n: nat): Option<Run>
    requires n <= |events|
  {
    if n == 0 then None
    else if Started(events, n - 1).Some? then Some(Run(Started(events, n - 1).value, n))
    else if events[n - 1] == Settle then None
    else Running(events, n - 1)
  }

  predicate Urgent(e: Event)
  {
    e == Request(Foreground) || e == Invalidate
  }

  predicate Fences(e: Event)
  {
    Urgent(e) || e == Stop
  }

  ghost predicate AnyStop(events: seq<Event>, n: nat)
    requires n <= |events|
  {
    exists i :: 0 <= i < n && events[i] == Stop
  }

  ghost predicate AnyFence(events: seq<Event>, since: nat, n: nat)
    requires n <= |events|
  {
    exists i :: since <= i < n && Fences(events[i])
  }

  ghost predicate AnyUrgent(events: seq<Event>, since: nat, n: nat)
    requires n <= |events|
  {
    exists i :: since <= i < n && Urgent(events[i])
  }

  ghost predicate AnyAsked(events: seq<Event>, since: nat, n: nat)
    requires n <= |events|
  {
    exists i :: since <= i < n && (Urgent(events[i]) || events[i].Request?)
  }

  /**
   The follow-up owed after the current run: foreground if anything urgent came in, else background if anything did.
   */
  ghost function Owed(events: seq<Event>, since: nat, n: nat): Option<Mode>
    requires n <= |events|
  {
    if AnyStop(events, n) then None
    else if AnyUrgent(events, since, n) then Some(Foreground)
    else if AnyAsked(events, since, n) then Some(Background)
    else None
  }

  /** The controller's four variables, read off the event sequence. */
  ghost predicate Exact(events: seq<Event>, n: nat)
    requires n <= |events|
  {
    var s, run := StateAt(events, n), Running(events, n);
    && (s.stopped <==> AnyStop(events, n))
    && (s.active <==> run.Some?)
    && s.queued == (if run.Some? then Owed(events, run.value.since, n) else None)
    && (run.Some? ==>
          && run.value.since <= n && run.value.task.id <= s.generation
          && (run.value.task.id == s.generation <==> !AnyFence(events, run.value.since, n))
          && (AnyStop(events, n) ==> AnyFence(events, run.value.since, n)))
  }

  /** So does settling: the running task ends, and the follow-up it owes starts. */
  lemma SettleKeepsExact(events: seq<Event>, n: nat)
    requires n < |events| && Exact(events, n) && events[n] == Settle && Running(events, n).Some?
    ensures Exact(events, n + 1)
  {
  }

  /** At most one task runs, and the state is exactly what the events since its start say. */
  lemma {:induction false} StateIsExact(events: seq<Event>, n: nat)
    requires Legal(events) && n <= |events|
    ensures Exact(events, n)
  {
    if n > 0 {
      StateIsExact(events, n - 1);
      if events[n - 1] == Settle {
        SettleKeepsExact(events, n - 1);
      }
    }
  }

  /** A task starts only when none is running or in the very step in which the running one settles. */
  lemma AtMostOneTask(events: seq<Event>, n: nat)
    requires Legal(events) && n < |events| && Started(events, n).Some?
    ensures Running(events, n).None? || events[n] == Settle
  {
    StateIsExact(events, n);
  }

  /**
   The running id is current exactly while no foreground request, invalidation or stop has come in since it started.
   */
  lemma CurrentIffUnfenced(events: seq<Event>, n: nat)
    requires Legal(events) && n <= |events| && Running(events, n).Some?
    ensures var run := Running(events, n).value;
      IsCurrent(StateAt(events, n), run.task.id) <==> !AnyFence(events, run.since, n)
  {
    StateIsExact(events, n);
  }

  /** After a stop nothing starts and no id is current. */
  lemma NothingAfterStop(events: seq<Event>, n: nat, id: nat)
    requires Legal(events) && n <= |events| && AnyStop(events, n)
    ensures !IsCurrent(StateAt(events, n), id)
    ensures n < |events| ==> Started(events, n).None?
  {
    StateIsExact(events, n);
  }

  /**
   What settling starts: nothing after a stop or when nothing was asked during the run; otherwise one follow-up,
   in the foreground exactly when a foreground request or an invalidation came in during the run.
   */
  lemma FollowUp(events: seq<Event>, n: nat)
    requires Legal(events) && n < |events| && events[n] == Settle
    ensures Running(events, n).Some?
    ensures var since := Running(events, n).value.since;
      && (Started(events, n).Some? <==> !AnyStop(events, n) && AnyAsked(events, since, n))
      && (Started(events, n).Some? ==> (Started(events, n).value.mode == Foreground <==> AnyUrgent(events, since, n)))
  {
    StateIsExact(events, n);
    var since := Running(events, n).value.since;
    assert AnyUrgent(events, since, n) ==> AnyAsked(events, since, n);
  }

  /** Between a request and the next settling the same task keeps running. */
  lemma {:induction false} SameRun(events: seq<Event>, m: nat, n: nat)
    requires Legal(events) && m <= n <= |events| && Running(events, m).Some?
    requires forall i :: m <= i < n ==> events[i] != Settle
    ensures Running(events, n) == Running(events, m)
    decreases n
  {
    if m < n {
      SameRun(events, m, n - 1);
      StateIsExact(events, n - 1);
    }
  }

  /**
   No request is lost. Every request before a stop starts its own task at once, or a task is running and the first
   settling after it, unless a stop comes first, starts a follow-up: a foreground one for a foreground request.
   */
  lemma RequestIsServed(events: seq<Event>, asked: nat, settled: nat)
    requires Legal(events) && asked < settled < |events| && events[asked].Request? && !AnyStop(events, settled)
    requires events[settled] == Settle && forall i :: asked < i < settled ==> events[i] != Settle
    ensures Started(events, asked).Some? <==> Running(events, asked).None?
    ensures Started(events, asked).Some? ==> Started(events, asked).value.mode == events[asked].mode
    ensures Started(events, asked).None? ==>
      && Started(events, settled).Some?
      && (events[asked] == Request(Foreground) ==> Started(events, settled).value.mode == Foreground)
  {
    StateIsExact(events, asked);
    if Running(events, asked).Some? {
      SameRun(events, asked, settled);
      FollowUp(events, settled);
    }
  }

  lemma NextGrows(s: State, e: Event)
    ensures s.generation <= Next(s, e).0.generation
  {
  }

  lemma {:induction false} GenerationGrows(events: seq<Event>, m: nat, n: nat)
    requires m <= n <= |events|
    ensures StateAt(events, m).generation <= StateAt(events, n).generation
    decreases n
  {
    if m < n {
      GenerationGrows(events, m, n - 1);
      NextGrows(StateAt(events, n - 1), events[n - 1]);
    }
  }

  /** Ids are never reused: later tasks have larger ids, so an older id can never be current again. */
  lemma IdsIncrease(events: seq<Event>, m: nat, n: nat)
    requires m < n < |events| && Started(events, m).Some? && Started(events, n).Some?
    ensures Started(events, m).value.id < Started(events, n).value.id
    ensures !IsCurrent(StateAt(events, n + 1), Started(events, m).value.id)
  {
    GenerationGrows(events, m + 1, n);
  }
}
