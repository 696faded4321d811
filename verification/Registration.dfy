/**
 Registering imported resources (tenant/import.go): registerOne is a get, a create and a second get against a
 store that other registrations and other callers change in between.
 */
module Registration {
  datatype Spec = Spec(fields: map<string, string>)

  type Objects = map<string, Spec>

  datatype State = Created | Existing | Conflict | Failed

  /** Where a run of registerOne stands: before the first get, before the create, before the second get, or done. */
  datatype Phase = Start | Absent | Lost | Done(state: State)

  datatype Run = Run(name: string, spec: Spec, phase: Phase)

  /** Served and answered; refused with no effect; or carried out with the reply lost. */
  datatype Answer = Served | Refused | Unreported

  function Compare(objects: Objects, run: Run): State
    requires run.name in objects
  {
    if objects[run.name] == run.spec then Existing else Conflict
  }

  /** One request of one run. */
  function Advance(objects: Objects, run: Run, answer: Answer): (Objects, Run)
  {
    match run.phase
    case Start =>
      (objects,
       if !answer.Served? then run.(phase := Done(Failed))
       else if run.name in objects then run.(phase := Done(Compare(objects, run)))
       else run.(phase := Absent))
    case Absent =>
      if answer.Refused? then (objects, run.(phase := Done(Failed)))
      else if run.name in objects then (objects, run.(phase := if answer.Served? then Lost else Done(Failed)))
      else (objects[run.name := run.spec], run.(phase := Done(if answer.Served? then Created else Failed)))
    case Lost =>
      (objects,
       if answer.Served? && run.name in objects then run.(phase := Done(Compare(objects, run)))
       else run.(phase := Done(Failed)))
    case Done(_) => (objects, run)
  }

  /** What other callers do to the store. */
  datatype Write = Add(name: string, spec: Spec) | Replace(name: string, spec: Spec) | Delete(name: string)

  function Written(objects: Objects, w: Write): Objects
  {
    match w
    case Add(name, spec) => if name in objects then objects else objects[name := spec]
    case Replace(name, spec) => if name in objects then objects[name := spec] else objects
    case Delete(name) => objects - {name}
  }

  datatype Event = Request(run: nat, answer: Answer) | Outside(write: Write)

  datatype System = System(objects: Objects, runs: seq<Run>)

  function Next(s: System, e: Event): System
  {
    match e
    case Outside(w) => s.(objects := Written(s.objects, w))
    case Request(i, answer) =>
      if i >= |s.runs| then s
      else
        var (objects, run) := Advance(s.objects, s.runs[i], answer);
        System(objects, s.runs[i := run])
  }

  function After(s: System, events: seq<Event>): System
    decreases |events|
  {
    if events == [] then s else Next(After(s, events[..|events| - 1]), events[|events| - 1])
  }

  /** A request either leaves the store alone or creates an absent name with the run's own specification. */
  lemma OnlyWriteIsCreate(s: System, i: nat, answer: Answer)
    requires i < |s.runs|
    ensures var s' := Next(s, Request(i, answer));
      && |s'.runs| == |s.runs| && s'.runs[i].name == s.runs[i].name && s'.runs[i].spec == s.runs[i].spec
      && (forall j :: 0 <= j < |s.runs| && j != i ==> s'.runs[j] == s.runs[j])
      && (s'.objects == s.objects
          || (s.runs[i].name !in s.objects && s'.objects == s.objects[s.runs[i].name := s.runs[i].spec]))
      && (s'.runs[i].phase == Done(Created) && s.runs[i].phase != Done(Created) ==>
            s.runs[i].name !in s.objects && s.runs[i].name in s'.objects)
  {
  }

  /* ---- Counting creations, whatever others do ---- */

  function CreatedUpTo(runs: seq<Run>, name: string, n: nat): nat
    requires n <= |runs|
  {
    if n == 0 then 0
    else
      var last := runs[n - 1];
      CreatedUpTo(runs, name, n - 1) + if last.name == name && last.phase == Done(Created) then 1 else 0
  }

  lemma {:induction false} CreatedUpdate(runs: seq<Run>, name: string, n: nat, i: nat, run: Run)
    requires n <= |runs| && i < |runs| && run.name == runs[i].name
    ensures CreatedUpTo(runs[i := run], name, n) == CreatedUpTo(runs, name, n)
      + (if i < n && run.name == name && run.phase == Done(Created) then 1 else 0)
      - (if i < n && run.name == name && runs[i].phase == Done(Created) then 1 else 0)
  {
    if n > 0 {
      CreatedUpdate(runs, name, n - 1, i, run);
    }
  }

  function Deletions(events: seq<Event>, name: string): nat
    decreases |events|
  {
    if events == [] then 0
    else Deletions(events[..|events| - 1], name) + if events[|events| - 1] == Outside(Delete(name)) then 1 else 0
  }

  function Presence(objects: Objects, name: string): nat
  {
    if name in objects then 1 else 0
  }

  /**
   Conservation: reports of "created" are paid for by deletions, however many runs interleave, whatever is edited
   and whichever replies are lost.
   */
  lemma {:induction false} CreationsAreConserved(s: System, events: seq<Event>, name: string)
    ensures |After(s, events).runs| == |s.runs|
    ensures var s' := After(s, events);
      CreatedUpTo(s'.runs, name, |s.runs|) + Presence(s.objects, name)
      <= CreatedUpTo(s.runs, name, |s.runs|) + Deletions(events, name) + Presence(s'.objects, name)
    decreases |events|
  {
    if events != [] {
      var before, e := After(s, events[..|events| - 1]), events[|events| - 1];
      CreationsAreConserved(s, events[..|events| - 1], name);
      if e.Request? && e.run < |before.runs| {
        OnlyWriteIsCreate(before, e.run, e.answer);
        CreatedUpdate(before.runs, name, |s.runs|, e.run, Next(before, e).runs[e.run]);
      }
    }
  }

  /**
   So, without deletions, at most one run per name reports "created", and none does when the name was there already.
   */
  lemma AtMostOneCreated(s: System, events: seq<Event>, name: string)
    requires forall i :: 0 <= i < |s.runs| ==> s.runs[i].phase == Start
    requires Deletions(events, name) == 0
    ensures |After(s, events).runs| == |s.runs|
    ensures CreatedUpTo(After(s, events).runs, name, |s.runs|) <= if name in s.objects then 0 else 1
  {
    CreationsAreConserved(s, events, name);
    NoneCreated(s.runs, name, |s.runs|);
  }

  lemma {:induction false} NoneCreated(runs: seq<Run>, name: string, n: nat)
    requires n <= |runs| && forall i :: 0 <= i < |runs| ==> runs[i].phase == Start
    ensures CreatedUpTo(runs, name, n) == 0
  {
    if n > 0 {
      NoneCreated(runs, name, n - 1);
    }
  }

  /* ---- Agreement with the store when nothing is deleted or edited ---- */

  ghost predicate Quiet(events: seq<Event>)
  {
    forall i :: 0 <= i < |events| && events[i].Outside? ==> events[i].write.Add?
  }

  /** What a finished run says about the store. */
  ghost predicate Truthful(objects: Objects, run: Run)
  {
    match run.phase
    case Done(Created) => run.name in objects && objects[run.name] == run.spec
    case Done(Existing) => run.name in objects && objects[run.name] == run.spec
    case Done(Conflict) => run.name in objects && objects[run.name] != run.spec
    case Lost => run.name in objects
    case _ => true
  }

  ghost predicate Grows(a: Objects, b: Objects)
  {
    forall n :: n in a ==> n in b && b[n] == a[n]
  }

  lemma {:induction false} ReportsAgreeWithStore(s: System, events: seq<Event>)
    requires Quiet(events) && forall i :: 0 <= i < |s.runs| ==> Truthful(s.objects, s.runs[i])
    ensures var s' := After(s, events);
      && |s'.runs| == |s.runs| && Grows(s.objects, s'.objects)
      && (forall i :: 0 <= i < |s'.runs| ==>
            Truthful(s'.objects, s'.runs[i]) && s'.runs[i].name == s.runs[i].name && s'.runs[i].spec == s.runs[i].spec)
    decreases |events|
  {
    if events != [] {
      var before, e := After(s, events[..|events| - 1]), events[|events| - 1];
      ReportsAgreeWithStore(s, events[..|events| - 1]);
      if e.Request? && e.run < |before.runs| {
        OnlyWriteIsCreate(before, e.run, e.answer);
      }
      assert Grows(before.objects, Next(before, e).objects);
    }
  }

  /**
   Every name a registration left behind was already there, was added by others, or carries a registered
   specification.
   */
  lemma {:induction false} NothingElseAppears(s: System, events: seq<Event>, name: string)
    requires Quiet(events) && name !in s.objects
    requires forall i :: 0 <= i < |events| ==> !(events[i].Outside? && events[i].write.name == name)
    ensures var s' := After(s, events);
      |s'.runs| == |s.runs|
        && (name in s'.objects ==>
          exists i :: 0 <= i < |s.runs| && s.runs[i].name == name && s.runs[i].spec == s'.objects[name])
    ensures forall i :: 0 <= i < |s.runs| ==>
      After(s, events).runs[i].name == s.runs[i].name && After(s, events).runs[i].spec == s.runs[i].spec
    decreases |events|
  {
    if events != [] {
      var before, e := After(s, events[..|events| - 1]), events[|events| - 1];
      NothingElseAppears(s, events[..|events| - 1], name);
      if e.Request? && e.run < |before.runs| {
        OnlyWriteIsCreate(before, e.run, e.answer);
      }
    }
  }

  /** The bound is sharp: one deletion is enough for a second run to report "created" for the same name. */
  lemma DeletionAllowsSecondCreate(name: string, spec: Spec)
    ensures var s := System(map[], [Run(name, spec, Start), Run(name, spec, Start)]);
      var events := [Request(0, Served), Request(0, Served), Outside(Delete(name)), Request(1, Served),
        Request(1, Served)];
      Deletions(events, name) == 1
        && After(s, events).runs == [Run(name, spec, Done(Created)), Run(name, spec, Done(Created))]
  {
    var s := System(map[], [Run(name, spec, Start), Run(name, spec, Start)]);
    var e1, e2, e3, e4, e5 := Request(0, Served), Request(0, Served), Outside(Delete(name)), Request(1, Served),
      Request(1, Served);
    var events := [e1, e2, e3, e4, e5];
    assert events[..4] == [e1, e2, e3, e4] && [e1, e2, e3, e4][..3] == [e1, e2, e3] && [e1, e2, e3][..2] == [e1, e2];
    assert [e1, e2][..1] == [e1] && [e1][..0] == [];
    var s1 := Next(s, e1);
    assert After(s, [e1]) == s1;
    var s2 := Next(s1, e2);
    assert After(s, [e1, e2]) == s2;
    var s3 := Next(s2, e3);
    assert After(s, [e1, e2, e3]) == s3;
    var s4 := Next(s3, e4);
    assert After(s, [e1, e2, e3, e4]) == s4;
    assert After(s, events) == Next(s4, e5);
    assert Deletions([e1], name) == 0 && Deletions([e1, e2], name) == 0;
    assert Deletions([e1, e2, e3], name) == 1 && Deletions([e1, e2, e3, e4], name) == 1;
  }
}

/** The registration request itself: one registerOne per item, in item order. */
module RegistrationBatch {
  import opened Wrappers
  import opened Registration

  datatype Item = Item(index: nat, name: string, spec: Spec)

  datatype RegistrationResult = RegistrationResult(index: nat, name: string, state: State)

  /** What other callers write before a request, and how that request is answered. */
  datatype Turn = Turn(others: seq<Write>, answer: Answer)

  function WrittenAll(objects: Objects, ws: seq<Write>): Objects
    decreases |ws|
  {
    if ws == [] then objects else Written(WrittenAll(objects, ws[..|ws| - 1]), ws[|ws| - 1])
  }

  /** The run started on `turns`, taking one turn per request until it is done. */
  function Finish(objects: Objects, run: Run, turns: seq<Turn>): (Objects, Run)
    decreases |turns|
  {
    if run.phase.Done? || turns == [] then (objects, run)
    else
      var (objects', run') := Advance(WrittenAll(objects, turns[0].others), run, turns[0].answer);
      Finish(objects', run', turns[1..])
  }

  datatype GetReply = Found(spec: Spec) | NotFound | GetError

  datatype CreateReply = Stored | AlreadyExists | CreateError

  class Cluster {
    var objects: Objects

    constructor (objects: Objects)
      ensures this.objects == objects
    {
      this.objects := objects;
    }

    method Others(ws: seq<Write>)
      modifies this
      ensures objects == WrittenAll(old(objects), ws)
    {
      for i := 0 to |ws|
        invariant objects == WrittenAll(old(objects), ws[..i])
      {
        assert ws[..i + 1][..i] == ws[..i];
        objects := Written(objects, ws[i]);
      }
      assert ws[..|ws|] == ws;
    }

    method Get(name: string, turn: Turn) returns (r: GetReply)
      modifies this
      ensures objects == WrittenAll(old(objects), turn.others)
      ensures r == if !turn.answer.Served? then GetError else if name in objects then Found(objects[name]) else NotFound
    {
      Others(turn.others);
      r := if !turn.answer.Served? then GetError else if name in objects then Found(objects[name]) else NotFound;
    }

    method Create(name: string, spec: Spec, turn: Turn) returns (r: CreateReply)
      modifies this
      ensures var seen := WrittenAll(old(objects), turn.others);
        && objects == (if turn.answer.Refused? || name in seen then seen else seen[name := spec])
        && r == if !turn.answer.Served? then CreateError else if name in seen then AlreadyExists else Stored
    {
      Others(turn.others);
      var present := name in objects;
      if !turn.answer.Refused? && !present {
        objects := objects[name := spec];
      }
      r := if !turn.answer.Served? then CreateError else if present then AlreadyExists else Stored;
    }
  }

  /** Three turns always finish a run. */
  lemma FinishUnrolls(objects: Objects, run: Run, turns: seq<Turn>)
    requires |turns| == 3 && run.phase == Start
    ensures Finish(objects, run, turns) ==
      var (o1, r1) := Advance(WrittenAll(objects, turns[0].others), run, turns[0].answer);
      if r1.phase.Done? then (o1, r1) else
        var (o2, r2) := Advance(WrittenAll(o1, turns[1].others), r1, turns[1].answer);
        if r2.phase.Done? then (o2, r2) else Advance(WrittenAll(o2, turns[2].others), r2, turns[2].answer)
  {
    var (o1, r1) := Advance(WrittenAll(objects, turns[0].others), run, turns[0].answer);
    if !r1.phase.Done? {
      var (o2, r2) := Advance(WrittenAll(o1, turns[1].others), r1, turns[1].answer);
      assert turns[1..][0] == turns[1] && turns[1..][1..] == turns[2..];
      assert Finish(o1, r1, turns[1..]) == Finish(o2, r2, turns[2..]);
      if !r2.phase.Done? {
        var (o3, r3) := Advance(WrittenAll(o2, turns[2].others), r2, turns[2].answer);
        assert Finish(o2, r2, turns[2..]) == Finish(o3, r3, turns[2..][1..]);
      }
    }
  }

  /**
   What registering `item` must answer. `first`, `second` and `third` are the store as the get, the create and the
   second get find it, each with the writes of others before it; a create changes nothing when the name is there.
   */
  ghost predicate Reports(objects: Objects, item: Item, turns: seq<Turn>, state: State)
    requires |turns| == 3
  {
    var first := WrittenAll(objects, turns[0].others);
    var second := WrittenAll(first, turns[1].others);
    var third := WrittenAll(second, turns[2].others);
    if turns[0].answer != Served then state == Failed
    else if item.name in first then state == if first[item.name] == item.spec then Existing else Conflict
    else if turns[1].answer != Served then state == Failed
    else if item.name !in second then state == Created
    else if turns[2].answer != Served then state == Failed
    else if item.name !in third then state == Failed
    else state == if third[item.name] == item.spec then Existing else Conflict
  }

  /** The get that decides: the first one, or the one after a create that found the name taken. */
  ghost predicate Decides(objects: Objects, item: Item, turns: seq<Turn>, found: Spec)
    requires |turns| == 3
  {
    var first := WrittenAll(objects, turns[0].others);
    var second := WrittenAll(first, turns[1].others);
    var third := WrittenAll(second, turns[2].others);
    if item.name in first then found == first[item.name]
    else item.name in second && item.name in third && found == third[item.name]
  }

  /** When every request is served, each answer says exactly what was found. */
  lemma ServedReports(objects: Objects, item: Item, turns: seq<Turn>, state: State)
    requires |turns| == 3 && Reports(objects, item, turns, state)
    requires forall i :: 0 <= i < 3 ==> turns[i].answer == Served
    ensures var first := WrittenAll(objects, turns[0].others);
      var second := WrittenAll(first, turns[1].others);
      && (state == Existing <==> Decides(objects, item, turns, item.spec))
      && (state == Conflict <==> exists found :: found != item.spec && Decides(objects, item, turns, found))
      && (state == Created <==> item.name !in first && item.name !in second)
      && (state == Failed <==>
            && item.name !in first && item.name in second
            && item.name !in WrittenAll(second, turns[2].others))
  {
    var first := WrittenAll(objects, turns[0].others);
    var third := WrittenAll(WrittenAll(first, turns[1].others), turns[2].others);
    if state == Conflict {
      assert Decides(objects, item, turns, if item.name in first then first[item.name] else third[item.name]);
    }
  }

  lemma FinishReports(objects: Objects, item: Item, turns: seq<Turn>)
    requires |turns| == 3
    ensures var run := Finish(objects, Run(item.name, item.spec, Start), turns).1;
      run.phase.Done? && Reports(objects, item, turns, run.phase.state)
  {
    FinishUnrolls(objects, Run(item.name, item.spec, Start), turns);
  }

  method RegisterOne(cluster: Cluster, item: Item, turns: seq<Turn>) returns (result: RegistrationResult)
    requires |turns| == 3
    modifies cluster
    ensures result.index == item.index && result.name == item.name
    ensures Finish(old(cluster.objects), Run(item.name, item.spec, Start), turns)
         == (cluster.objects, Run(item.name, item.spec, Done(result.state)))
    ensures Reports(old(cluster.objects), item, turns, result.state)
  {
    FinishReports(cluster.objects, item, turns);
    FinishUnrolls(cluster.objects, Run(item.name, item.spec, Start), turns);
    result := RegistrationResult(item.index, item.name, Failed);
    var first := cluster.Get(item.name, turns[0]);
    if first.Found? {
      result := result.(state := if first.spec == item.spec then Existing else Conflict);
      return;
    }
    if first != NotFound {
      return;
    }
    var created := cluster.Create(item.name, item.spec, turns[1]);
    if created.Stored? {
      result := result.(state := Created);
      return;
    }
    if created != AlreadyExists {
      return;
    }
    var second := cluster.Get(item.name, turns[2]);
    if second.Found? {
      result := result.(state := if second.spec == item.spec then Existing else Conflict);
    }
  }

  function Started(items: seq<Item>): (runs: seq<Run>)
    ensures |runs| == |items|
  {
    seq(|items|, i requires 0 <= i < |items| => Run(items[i].name, items[i].spec, Start))
  }

  /** The store and the finished runs after the first `n` items. */
  function Batch(objects: Objects, items: seq<Item>, turns: seq<seq<Turn>>, n: nat): (r: (Objects, seq<Run>))
    requires n <= |items| == |turns|
    ensures |r.1| == n
  {
    if n == 0 then (objects, []) else
      var (before, runs) := Batch(objects, items, turns, n - 1);
      var (after, run) := Finish(before, Run(items[n - 1].name, items[n - 1].spec, Start), turns[n - 1]);
      (after, runs + [run])
  }

  predicate ThreeEach(turns: seq<seq<Turn>>)
  {
    forall i :: 0 <= i < |turns| ==> |turns[i]| == 3
  }

  /** Each run of a batch answers for the store that the items before it left. */
  lemma {:induction false} BatchReports(objects: Objects, items: seq<Item>, turns: seq<seq<Turn>>, n: nat, i: nat)
    requires i < n <= |items| == |turns| && ThreeEach(turns)
    ensures var run := Batch(objects, items, turns, n).1[i];
      run.phase.Done? && Reports(Batch(objects, items, turns, i).0, items[i], turns[i], run.phase.state)
  {
    if i < n - 1 {
      BatchReports(objects, items, turns, n - 1, i);
    } else {
      FinishReports(Batch(objects, items, turns, i).0, items[i], turns[i]);
    }
  }

  /** The batch loop of serveRegistration: one result per item, in item order. */
  method RegisterAll(cluster: Cluster, items: seq<Item>, turns: seq<seq<Turn>>)
    returns (results: seq<RegistrationResult>)
    requires |turns| == |items| && ThreeEach(turns)
    modifies cluster
    ensures |results| == |items|
    ensures cluster.objects == Batch(old(cluster.objects), items, turns, |items|).0
    ensures forall i :: 0 <= i < |items| ==>
      && results[i].index == items[i].index && results[i].name == items[i].name
      && Batch(old(cluster.objects), items, turns, |items|).1[i] ==
        Run(items[i].name, items[i].spec, Done(results[i].state))
    ensures forall i :: 0 <= i < |items| ==>
      Reports(Batch(old(cluster.objects), items, turns, i).0, items[i], turns[i], results[i].state)
  {
    results := [];
    for n := 0 to |items|
      invariant |results| == n && cluster.objects == Batch(old(cluster.objects), items, turns, n).0
      invariant forall i :: 0 <= i < n ==>
        && results[i].index == items[i].index && results[i].name == items[i].name
        && Batch(old(cluster.objects), items, turns, n).1[i] ==
          Run(items[i].name, items[i].spec, Done(results[i].state))
    {
      var result := RegisterOne(cluster, items[n], turns[n]);
      results := results + [result];
    }
    forall i | 0 <= i < |items|
      ensures Reports(Batch(old(cluster.objects), items, turns, i).0, items[i], turns[i], results[i].state)
    {
      BatchReports(old(cluster.objects), items, turns, |items|, i);
    }
  }

  /* ---- A batch is one of the interleavings ---- */

  lemma {:induction false} AfterAppend(s: System, a: seq<Event>, b: seq<Event>)
    ensures After(s, a + b) == After(After(s, a), b)
    decreases |b|
  {
    if b == [] {
      assert a + b == a;
    } else {
      assert (a + b)[..|a + b| - 1] == a + b[..|b| - 1];
      AfterAppend(s, a, b[..|b| - 1]);
    }
  }

  ghost predicate OnlyAdds(ws: seq<Write>)
  {
    forall i :: 0 <= i < |ws| ==> ws[i].Add?
  }

  ghost predicate QuietTurns(turns: seq<Turn>)
  {
    forall i :: 0 <= i < |turns| ==> OnlyAdds(turns[i].others)
  }

  ghost function AsEvents(ws: seq<Write>): (events: seq<Event>)
    ensures |events| == |ws| && forall i :: 0 <= i < |ws| ==> events[i] == Outside(ws[i])
  {
    seq(|ws|, i requires 0 <= i < |ws| => Outside(ws[i]))
  }

  lemma {:induction false} WritesAreEvents(s: System, ws: seq<Write>)
    ensures After(s, AsEvents(ws)) == System(WrittenAll(s.objects, ws), s.runs)
    decreases |ws|
  {
    if ws != [] {
      var shorter := ws[..|ws| - 1];
      assert AsEvents(ws)[..|ws| - 1] == AsEvents(shorter);
      WritesAreEvents(s, shorter);
    }
  }

  lemma TurnIsEvents(s: System, i: nat, turn: Turn) returns (events: seq<Event>)
    requires i < |s.runs|
    ensures var (objects, run) := Advance(WrittenAll(s.objects, turn.others), s.runs[i], turn.answer);
      After(s, events) == System(objects, s.runs[i := run])
    ensures OnlyAdds(turn.others) ==> Quiet(events)
  {
    events := AsEvents(turn.others) + [Request(i, turn.answer)];
    WritesAreEvents(s, turn.others);
    assert events[..|events| - 1] == AsEvents(turn.others);
  }

  lemma {:induction false} FinishIsEvents(s: System, i: nat, turns: seq<Turn>) returns (events: seq<Event>)
    requires i < |s.runs|
    ensures var (objects, run) := Finish(s.objects, s.runs[i], turns);
      After(s, events) == System(objects, s.runs[i := run])
    ensures QuietTurns(turns) ==> Quiet(events)
    decreases |turns|
  {
    events := [];
    if !s.runs[i].phase.Done? && turns != [] {
      var first := TurnIsEvents(s, i, turns[0]);
      var rest := FinishIsEvents(After(s, first), i, turns[1..]);
      events := first + rest;
      AfterAppend(s, first, rest);
      assert After(s, first).runs[i := Finish(s.objects, s.runs[i], turns).1] ==
        s.runs[i := Finish(s.objects, s.runs[i], turns).1];
    } else {
      assert s.runs[i := s.runs[i]] == s.runs;
    }
  }

  lemma Placed(runs: seq<Run>, started: seq<Run>, run: Run)
    requires |runs| < |started|
    ensures var n := |runs|;
      (runs + started[n..])[n] == started[n] && (runs + started[n..])[n := run] == (runs + [run]) + started[n + 1..]
  {
  }

  /** Whatever is proved of every interleaving holds of a batch. */
  lemma {:induction false} BatchIsEvents(objects: Objects, items: seq<Item>, turns: seq<seq<Turn>>, n: nat)
    returns (events: seq<Event>)
    requires n <= |items| == |turns|
    ensures var (after, runs) := Batch(objects, items, turns, n);
      After(System(objects, Started(items)), events) == System(after, runs + Started(items)[n..])
    ensures (forall i :: 0 <= i < n ==> QuietTurns(turns[i])) ==> Quiet(events)
  {
    var s := System(objects, Started(items));
    events := [];
    if n > 0 {
      var first := BatchIsEvents(objects, items, turns, n - 1);
      var (before, runs) := Batch(objects, items, turns, n - 1);
      var start := Run(items[n - 1].name, items[n - 1].spec, Start);
      var (after, run) := Finish(before, start, turns[n - 1]);
      Placed(runs, Started(items), run);
      var rest := FinishIsEvents(System(before, runs + Started(items)[n - 1..]), n - 1, turns[n - 1]);
      events := first + rest;
      AfterAppend(s, first, rest);
    }
  }

  /** Every item is stored with its own specification. */
  ghost predicate Registered(objects: Objects, items: seq<Item>)
  {
    forall i :: 0 <= i < |items| ==> items[i].name in objects && objects[items[i].name] == items[i].spec
  }

  lemma {:induction false} AddsGrow(objects: Objects, ws: seq<Write>)
    requires OnlyAdds(ws)
    ensures Grows(objects, WrittenAll(objects, ws))
    decreases |ws|
  {
    if ws != [] {
      AddsGrow(objects, ws[..|ws| - 1]);
    }
  }

  /**
   Replaying a fully registered batch reports "existing" for every item, in item order, and writes nothing of its own.
   */
  lemma {:induction false} ReplayIsExisting(objects: Objects, items: seq<Item>, turns: seq<seq<Turn>>, n: nat)
    requires n <= |items| == |turns| && Registered(objects, items) && ThreeEach(turns)
    requires forall i :: 0 <= i < |turns| ==> OnlyAdds(turns[i][0].others) && turns[i][0].answer == Served
    ensures var (after, runs) := Batch(objects, items, turns, n);
      Grows(objects, after) && forall i :: 0 <= i < n ==> runs[i] == Run(items[i].name, items[i].spec, Done(Existing))
    ensures (forall i :: 0 <= i < |turns| ==> turns[i][0].others == []) ==> Batch(objects, items, turns, n).0 == objects
  {
    if n > 0 {
      ReplayIsExisting(objects, items, turns, n - 1);
      var (before, _) := Batch(objects, items, turns, n - 1);
      AddsGrow(before, turns[n - 1][0].others);
      FinishUnrolls(before, Run(items[n - 1].name, items[n - 1].spec, Start), turns[n - 1]);
    }
  }

  ghost predicate Succeeded(runs: seq<Run>)
  {
    forall i :: 0 <= i < |runs| ==> runs[i].phase in {Done(Created), Done(Existing)}
  }

  /**
   A batch that succeeded without deletions or edits leaves every item registered, so that its replay changes nothing.
   */
  lemma SucceededThenReplay(objects: Objects, items: seq<Item>, turns: seq<seq<Turn>>, again: seq<seq<Turn>>)
    requires |items| == |turns| == |again| && ThreeEach(again)
    requires forall i :: 0 <= i < |turns| ==> QuietTurns(turns[i])
    requires Succeeded(Batch(objects, items, turns, |items|).1)
    requires forall i :: 0 <= i < |again| ==> again[i][0] == Turn([], Served)
    ensures var (after, runs) := Batch(objects, items, turns, |items|);
      && Registered(after, items)
      && Batch(after, items, again, |items|).0 == after
      && forall i :: 0 <= i < |items| ==>
        Batch(after, items, again, |items|).1[i] == Run(items[i].name, items[i].spec, Done(Existing))
  {
    var s := System(objects, Started(items));
    var events := BatchIsEvents(objects, items, turns, |items|);
    ReportsAgreeWithStore(s, events);
    var (after, runs) := Batch(objects, items, turns, |items|);
    assert After(s, events) == System(after, runs);
    assert Registered(after, items) by {
      forall i | 0 <= i < |items|
        ensures items[i].name in after && after[items[i].name] == items[i].spec
      {
        assert Truthful(after, runs[i]);
      }
    }
    ReplayIsExisting(after, items, again, |items|);
  }

  /* ---- The names of a batch ---- */

  datatype BatchError = Invalid(index: nat) | Duplicate(index: nat)

  /** Item `i` is the first that does not normalize or repeats an earlier name. */
  ghost predicate FirstBad<T(!new)>(raw: seq<T>, normalize: T -> Option<(string, Spec)>, i: nat)
  {
    && i < |raw|
    && (forall j :: 0 <= j < i ==> normalize(raw[j]).Some?)
    && (forall j, k :: 0 <= j < k < i ==> normalize(raw[j]).value.0 != normalize(raw[k]).value.0)
    && (normalize(raw[i]).None? || exists j :: 0 <= j < i && normalize(raw[j]).value.0 == normalize(raw[i]).value.0)
  }

  /** The normalizing loop of serveRegistration: the request is accepted only when its names are distinct. */
  method NormalizeItems<T(!new)>(raw: seq<T>, normalize: T -> Option<(string, Spec)>)
    returns (r: Result<seq<Item>, BatchError>)
    ensures r.Ok? ==> |r.value| == |raw|
    ensures r.Ok? ==>
      forall i :: 0 <= i < |raw| ==>
        normalize(raw[i]) == Some((r.value[i].name, r.value[i].spec)) && r.value[i].index == i
    ensures r.Ok? ==> forall i, j :: 0 <= i < j < |raw| ==> r.value[i].name != r.value[j].name
    ensures r.Err? ==> FirstBad(raw, normalize, r.error.index)
    ensures r.Err? ==> (r.error.Invalid? <==> normalize(raw[r.error.index]).None?)
  {
    var items: seq<Item> := [];
    var seen: set<string> := {};
    for i := 0 to |raw|
      invariant |items| == i
      invariant forall j :: 0 <= j < i ==>
        normalize(raw[j]) == Some((items[j].name, items[j].spec)) && items[j].index == j
      invariant forall j, k :: 0 <= j < k < i ==> items[j].name != items[k].name
      invariant seen == set j | 0 <= j < i :: items[j].name
    {
      var normal := normalize(raw[i]);
      if normal.None? {
        return Err(Invalid(i));
      }
      if normal.value.0 in seen {
        return Err(Duplicate(i));
      }
      seen := seen + {normal.value.0};
      items := items + [Item(i, normal.value.0, normal.value.1)];
    }
    return Ok(items);
  }
}
