/**
 The coalescing reader of the portal (portal/src/refresh.ts). A promise settles in one step and its callbacks run in
 later ones, in registration order; calls may come in between any two of these steps.
 */
module CoalescedRead {
  import opened Wrappers

  /** One call of the underlying read: when it started, whether it settled, whether its cleanup callback ran. */
  datatype Read = Read(started: nat, settled: bool, cleaned: bool)

  /** What a caller's promise follows. */
  datatype Handle = Rejected | Shared(read: nat) | Waits(queue: nat)

  /** A read owed once read `on` has settled, and what it became. */
  datatype Queue = Queue(on: nat, outcome: Option<Handle>)

  datatype State = State(
    calls: seq<Read>, queues: seq<Queue>, pending: Option<nat>, queued: Option<nat>, invalidated: bool, stopped: bool)

  const INITIAL := State([], [], None, None, false, false)

  /** Calls, the settling of a read, its cleanup callback, and the callback of a queued request. */
  datatype Event = Request | Invalidate | Stop | Settle(read: nat) | Cleanup(read: nat) | RunQueue(queue: nat)

  predicate Enabled(s: State, e: Event)
  {
    match e
    case Settle(k) => k < |s.calls| && !s.calls[k].settled
    case Cleanup(k) => k < |s.calls| && s.calls[k].settled && !s.calls[k].cleaned
    case RunQueue(q) =>
      q < |s.queues| && s.queues[q].outcome.None? && s.queues[q].on < |s.calls| && s.calls[s.queues[q].on].cleaned
    case _ => true
  }

  function StartRead(s: State, now: nat): (State, Handle)
  {
    if s.stopped then (s, Rejected)
    else (s.(calls := s.calls + [Read(now, false, false)], pending := Some(|s.calls|)), Shared(|s.calls|))
  }

  function Requested(s: State, now: nat): (State, Handle)
  {
    if s.stopped then (s, Rejected)
    else if s.pending.None? then StartRead(s.(invalidated := false), now)
    else if !s.invalidated then (s, Shared(s.pending.value))
    else if s.queued.Some? then (s, Waits(s.queued.value))
    else (s.(queues := s.queues + [Queue(s.pending.value, None)], queued := Some(|s.queues|)), Waits(|s.queues|))
  }

  function Next(s: State, e: Event, now: nat): State
    requires Enabled(s, e)
  {
    match e
    case Request => Requested(s, now).0
    case Invalidate => if s.pending.Some? then s.(invalidated := true) else s
    case Stop => s.(stopped := true)
    case Settle(k) => s.(calls := s.calls[k := s.calls[k].(settled := true)])
    case Cleanup(k) =>
      s.(calls := s.calls[k := s.calls[k].(cleaned := true)],
         pending := if s.pending == Some(k) && !s.invalidated then None else s.pending)
    case RunQueue(q) =>
      var (s', reply) := StartRead(s.(queued := None, invalidated := false), now);
      s'.(queues := s'.queues[q := s'.queues[q].(outcome := Some(reply))])
  }

  /** The reader's variables, beside the promises it has created. */
  class Reader {
    var calls: seq<Read>
    var queues: seq<Queue>
    var pending: Option<nat>
    var queued: Option<nat>
    var invalidated: bool
    var stopped: bool

    function Abs(): State
      reads this
    {
      State(calls, queues, pending, queued, invalidated, stopped)
    }

    constructor ()
      ensures Abs() == INITIAL
    {
      calls, queues, pending, queued, invalidated, stopped := [], [], None, None, false, false;
    }

    method Start(now: nat) returns (h: Handle)
      modifies this
      ensures (Abs(), h) == StartRead(old(Abs()), now)
    {
      if stopped {
        return Rejected;
      }
      calls := calls + [Read(now, false, false)];
      pending := Some(|calls| - 1);
      return Shared(|calls| - 1);
    }

    method Request(now: nat) returns (h: Handle)
      modifies this
      ensures (Abs(), h) == Requested(old(Abs()), now)
    {
      if stopped {
        return Rejected;
      }
      if pending.None? {
        invalidated := false;
        h := Start(now);
        return;
      }
      if !invalidated {
        return Shared(pending.value);
      }
      if queued.Some? {
        return Waits(queued.value);
      }
      queues := queues + [Queue(pending.value, None)];
      queued := Some(|queues| - 1);
      return Waits(queued.value);
    }

    method Invalidate(now: nat)
      modifies this
      ensures Abs() == Next(old(Abs()), Event.Invalidate, now)
    {
      if pending.Some? {
        invalidated := true;
      }
    }

    method Stop(now: nat)
      modifies this
      ensures Abs() == Next(old(Abs()), Event.Stop, now)
    {
      stopped := true;
    }

    method Settle(k: nat, now: nat)
      requires Enabled(Abs(), Event.Settle(k))
      modifies this
      ensures Abs() == Next(old(Abs()), Event.Settle(k), now)
    {
      calls := calls[k := calls[k].(settled := true)];
    }

    method Cleanup(k: nat, now: nat)
      requires Enabled(Abs(), Event.Cleanup(k))
      modifies this
      ensures Abs() == Next(old(Abs()), Event.Cleanup(k), now)
    {
      calls := calls[k := calls[k].(cleaned := true)];
      if pending == Some(k) && !invalidated {
        pending := None;
      }
    }

    method RunQueue(q: nat, now: nat)
      requires Enabled(Abs(), Event.RunQueue(q))
      modifies this
      ensures Abs() == Next(old(Abs()), Event.RunQueue(q), now)
    {
      queued := None;
      invalidated := false;
      var reply := Start(now);
      queues := queues[q := queues[q].(outcome := Some(reply))];
    }
  }

  /* ---- Event sequences ---- */

  /** States before each event: `states[n]` before event `n`, and the last one after all of them. */
  ghost predicate Trace(events: seq<Event>, states: seq<State>)
  {
    && |states| == |events| + 1 && states[0] == INITIAL
    && forall n :: 0 <= n < |events| ==> Enabled(states[n], events[n]) && states[n + 1] == Next(states[n], events[n], n)
  }

  ghost predicate InvalidatedBefore(events: seq<Event>, n: nat, time: nat)
    requires n <= |events|
  {
    forall u :: 0 <= u < n && events[u] == Invalidate ==> u < time
  }

  /** A queued read implies a pending, invalidated one; only the pending read, the newest, has its cleanup to come. */
  ghost predicate Inv(s: State)
  {
    && (s.pending.Some? ==> s.pending.value == |s.calls| - 1)
    && (forall k :: 0 <= k < |s.calls| && !s.calls[k].cleaned ==> s.pending == Some(k))
    && (s.queued.Some? ==>
      s.queued.value < |s.queues| && s.pending == Some(s.queues[s.queued.value].on) && s.invalidated)
    && (forall q :: 0 <= q < |s.queues| && s.queues[q].outcome.None? ==> s.queued == Some(q))
    && (forall k :: 0 <= k < |s.calls| && s.calls[k].cleaned ==> s.calls[k].settled)
  }

  lemma NextKeepsInv(s: State, e: Event, now: nat)
    requires Inv(s) && Enabled(s, e)
    ensures Inv(Next(s, e, now))
  {
    match e
    case Request => {}
    case Invalidate => {}
    case Stop => {}
    case Settle(_) => {}
    case Cleanup(_) => {}
    case RunQueue(_) => {}
  }

  /** Unless invalidated, the pending read started after every invalidation so far. */
  ghost predicate PendingIsFresh(s: State, events: seq<Event>, n: nat)
    requires n <= |events|
  {
    s.pending.Some? && s.pending.value < |s.calls| && !s.invalidated && !s.stopped ==>
      InvalidatedBefore(events, n, s.calls[s.pending.value].started)
  }

  lemma {:induction false} TraceInv(events: seq<Event>, states: seq<State>, n: nat)
    requires Trace(events, states) && n <= |events|
    ensures Inv(states[n]) && PendingIsFresh(states[n], events, n)
  {
    if n > 0 {
      TraceInv(events, states, n - 1);
      NextKeepsInv(states[n - 1], events[n - 1], n - 1);
      assert states[n] == Next(states[n - 1], events[n - 1], n - 1);
    }
  }

  /** At most one read is in flight. */
  lemma AtMostOneInFlight(events: seq<Event>, states: seq<State>, n: nat, j: nat, k: nat)
    requires Trace(events, states) && n <= |events| && j < |states[n].calls| && k < |states[n].calls|
    requires !states[n].calls[j].settled && !states[n].calls[k].settled
    ensures j == k
  {
    TraceInv(events, states, n);
  }

  /** The promise a request returns. */
  ghost function HandleAt(events: seq<Event>, states: seq<State>, t: nat): Handle
    requires Trace(events, states) && t < |events|
  {
    Requested(states[t], t).1
  }

  lemma NextKeepsCalls(s: State, e: Event, now: nat)
    requires Enabled(s, e)
    ensures var s' := Next(s, e, now);
      && |s.calls| <= |s'.calls| && |s.queues| <= |s'.queues|
      && (forall k :: 0 <= k < |s.calls| ==> s'.calls[k].started == s.calls[k].started)
      && (forall k :: |s.calls| <= k < |s'.calls| ==> s'.calls[k].started == now)
      && (s.stopped ==> s'.stopped && |s'.calls| == |s.calls|)
  {
  }

  /** Reads are never forgotten or renumbered; stopping freezes their number. */
  lemma {:induction false} CallsStay(events: seq<Event>, states: seq<State>, m: nat, n: nat)
    requires Trace(events, states) && m <= n <= |events|
    ensures |states[m].calls| <= |states[n].calls| && |states[m].queues| <= |states[n].queues|
    ensures forall k :: 0 <= k < |states[m].calls| ==> states[n].calls[k].started == states[m].calls[k].started
    ensures states[m].stopped ==> states[n].stopped && |states[n].calls| == |states[m].calls|
    decreases n
  {
    if m < n {
      CallsStay(events, states, m, n - 1);
      NextKeepsCalls(states[n - 1], events[n - 1], n - 1);
      assert states[n] == Next(states[n - 1], events[n - 1], n - 1);
    }
  }

  /** Stopping prevents every later read and rejects every later request. */
  lemma StopPreventsReads(events: seq<Event>, states: seq<State>, t: nat, n: nat)
    requires Trace(events, states) && t < n <= |events| && events[t] == Stop
    ensures |states[n].calls| == |states[t].calls|
    ensures n < |events| ==> HandleAt(events, states, n) == Rejected
  {
    assert states[t + 1] == Next(states[t], events[t], t);
    CallsStay(events, states, t + 1, n);
  }

  /** While open at `t`, a queue can only ever become a read started at `t` or later. */
  lemma {:induction false} QueueStartsLater(events: seq<Event>, states: seq<State>, q: nat, t: nat, n: nat)
    requires Trace(events, states) && t <= n <= |events|
    requires q < |states[t].queues| && states[t].queues[q].outcome.None?
    ensures q < |states[n].queues|
    ensures match states[n].queues[q].outcome
      case Some(Shared(r)) => r < |states[n].calls| && states[n].calls[r].started >= t
      case Some(Waits(_)) => false
      case _ => true
    decreases n
  {
    if t < n {
      QueueStartsLater(events, states, q, t, n - 1);
      NextKeepsCalls(states[n - 1], events[n - 1], n - 1);
    }
  }

  /** A request leaves its queue open. */
  lemma WaitingIsOpen(events: seq<Event>, states: seq<State>, t: nat)
    requires Trace(events, states) && t < |events| && events[t] == Request && HandleAt(events, states, t).Waits?
    ensures var q := HandleAt(events, states, t).queue;
      q < |states[t + 1].queues| && states[t + 1].queues[q].outcome.None? && states[t + 1].invalidated
  {
    TraceInv(events, states, t);
    TraceInv(events, states, t + 1);
    var s := states[t];
    assert states[t + 1] == Next(s, events[t], t);
    if s.queued.Some? {
      OpenQueue(events, states, t);
    }
  }

  lemma {:induction false} OpenQueue(events: seq<Event>, states: seq<State>, n: nat)
    requires Trace(events, states) && n <= |events| && states[n].queued.Some?
    ensures states[n].queued.value < |states[n].queues| && states[n].queues[states[n].queued.value].outcome.None?
  {
    if n > 0 {
      TraceInv(events, states, n - 1);
      assert states[n] == Next(states[n - 1], events[n - 1], n - 1);
      if states[n - 1].queued.Some? {
        OpenQueue(events, states, n - 1);
      }
    }
  }

  /** The read that finally serves the request made at `t`, as far as it is known after `n` events. */
  ghost function ServedBy(events: seq<Event>, states: seq<State>, t: nat, n: nat): Option<nat>
    requires Trace(events, states) && t < n <= |events|
  {
    match HandleAt(events, states, t)
    case Rejected => None
    case Shared(r) => Some(r)
    case Waits(q) =>
      if q < |states[n].queues| && states[n].queues[q].outcome.Some? && states[n].queues[q].outcome.value.Shared?
      then Some(states[n].queues[q].outcome.value.read) else None
  }

  /** A request made after an invalidation never receives the result of a read started before it. */
  lemma RequestIsFresh(events: seq<Event>, states: seq<State>, u: nat, t: nat, n: nat)
    requires Trace(events, states) && u < t < n <= |events| && events[u] == Invalidate && events[t] == Request
    ensures var r := ServedBy(events, states, t, n);
      r.Some? ==> r.value < |states[n].calls| && states[n].calls[r.value].started > u
  {
    TraceInv(events, states, t);
    assert states[t + 1] == Next(states[t], events[t], t);
    match HandleAt(events, states, t)
    case Rejected => {}
    case Shared(r) => {
      CallsStay(events, states, t + 1, n);
    }
    case Waits(q) => {
      WaitingIsOpen(events, states, t);
      QueueStartsLater(events, states, q, t + 1, n);
    }
  }

  /* ---- Progress ---- */

  /**
   The callback of a queued request starts the read it owes, a new one made at that moment, unless the reader was
   stopped; it never ends in a rejection otherwise.
   */
  lemma OwedReadStarts(events: seq<Event>, states: seq<State>, q: nat, n: nat)
    requires Trace(events, states) && n < |events| && events[n] == RunQueue(q)
    ensures q < |states[n + 1].queues|
    ensures var r, after := |states[n].calls|, states[n + 1];
      if states[n].stopped then after.queues[q].outcome == Some(Rejected) && |after.calls| == r
      else
        && after.queues[q].outcome == Some(Shared(r)) && after.pending == Some(r) && !after.invalidated
        && |after.calls| == r + 1 && after.calls[r] == Read(n, false, false)
  {
    assert states[n + 1] == Next(states[n], events[n], n);
  }

  /** An owed read waits for the pending one and for nothing else. */
  lemma OwedReadIsEnabled(events: seq<Event>, states: seq<State>, q: nat, n: nat)
    requires Trace(events, states) && n <= |events| && q < |states[n].queues| && states[n].queues[q].outcome.None?
    ensures states[n].pending == Some(states[n].queues[q].on) && states[n].queues[q].on < |states[n].calls|
    ensures Enabled(states[n], RunQueue(q)) <==> states[n].calls[states[n].queues[q].on].cleaned
  {
    TraceInv(events, states, n);
    PendingExists(events, states, n);
  }

  lemma {:induction false} PendingExists(events: seq<Event>, states: seq<State>, n: nat)
    requires Trace(events, states) && n <= |events|
    ensures states[n].pending.Some? ==> states[n].pending.value < |states[n].calls|
    ensures states[n].pending.Some? && !states[n].invalidated && !states[n].stopped ==>
      !states[n].calls[states[n].pending.value].cleaned
  {
    if n > 0 {
      PendingExists(events, states, n - 1);
      TraceInv(events, states, n - 1);
      assert states[n] == Next(states[n - 1], events[n - 1], n - 1);
    }
  }

  /** A promise shared at once is never that of an old read: it starts now, or its cleanup is still to come. */
  lemma SharedIsInFlight(events: seq<Event>, states: seq<State>, t: nat, r: nat)
    requires Trace(events, states) && t < |events| && events[t] == Request
    requires HandleAt(events, states, t) == Shared(r)
    ensures r < |states[t + 1].calls|
    ensures if r == |states[t].calls| then states[t + 1].calls[r] == Read(t, false, false)
      else r < |states[t].calls| && !states[t].calls[r].cleaned && states[t + 1].calls == states[t].calls
  {
    PendingExists(events, states, t);
    assert states[t + 1] == Next(states[t], events[t], t);
  }

  /* ---- Sharing ---- */

  ghost predicate NoInvalidate(events: seq<Event>, m: nat, n: nat)
    requires n <= |events|
  {
    forall u :: m <= u < n ==> events[u] != Invalidate
  }

  /** Without invalidations, a queue stays open or the flag it waited on is cleared. */
  lemma {:induction false} FlagStaysClear(events: seq<Event>, states: seq<State>, m: nat, n: nat)
    requires Trace(events, states) && m <= n <= |events| && NoInvalidate(events, m, n) && !states[m].invalidated
    ensures !states[n].invalidated
    decreases n
  {
    if m < n {
      FlagStaysClear(events, states, m, n - 1);
      assert states[n] == Next(states[n - 1], events[n - 1], n - 1);
    }
  }

  lemma {:induction false} OpenOrClear(events: seq<Event>, states: seq<State>, q: nat, m: nat, n: nat)
    requires Trace(events, states) && m <= n <= |events| && NoInvalidate(events, m, n)
    requires q < |states[m].queues| && states[m].queues[q].outcome.None?
    ensures q < |states[n].queues| && (states[n].queues[q].outcome.None? || !states[n].invalidated)
    decreases n
  {
    if m < n {
      OpenOrClear(events, states, q, m, n - 1);
    }
  }

  /**
   Two requests with no invalidation between them share: they get the same promise until the cleanup of the first one's
   read has run or while that read is still owed, and the second joins the read that the first one's turn became.
   */
  lemma RequestsShare(events: seq<Event>, states: seq<State>, t: nat, n: nat)
    requires Trace(events, states) && t < n < |events| && events[t] == Request && events[n] == Request
    requires NoInvalidate(events, t, n) && !states[n].stopped
    ensures match HandleAt(events, states, t)
      case Rejected => false
      case Shared(r) => r < |states[n].calls|
        && (!states[n].calls[r].cleaned ==> HandleAt(events, states, n) == Shared(r))
      case Waits(q) =>
        && q < |states[n].queues|
        && (states[n].queues[q].outcome.None? ==> HandleAt(events, states, n) == Waits(q))
        && (states[n].queues[q].outcome.Some? ==>
              var h := states[n].queues[q].outcome.value;
              h.Shared? ==>
                && h.read < |states[n].calls|
                && (!states[n].calls[h.read].cleaned ==> HandleAt(events, states, n) == h))
  {
    CallsStay(events, states, t, n);
    TraceInv(events, states, t);
    TraceInv(events, states, n);
    assert states[t + 1] == Next(states[t], events[t], t);
    CallsStay(events, states, t + 1, n);
    match HandleAt(events, states, t)
    case Rejected => { assert false; }
    case Shared(r) => {
      FlagStaysClear(events, states, t + 1, n);
    }
    case Waits(q) => {
      WaitingIsOpen(events, states, t);
      OpenOrClear(events, states, q, t + 1, n);
      QueueStartsLater(events, states, q, t + 1, n);
    }
  }
}
