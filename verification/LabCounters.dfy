/** What the counters of the in-memory order service count. */
module LabCounters {
  import opened Common
  import opened Lab
  import opened LabRuns

  /** The three ways a call can have ended. */
  datatype Way = AsCreated | AsReplayed | AsError

  function WayOf(response: Response): Way {
    match response
    case Created(_) => AsCreated
    case Replayed(_) => AsReplayed
    case Error => AsError
  }

  predicate Ended(call: Call, way: Way) {
    call.stage.Counted? && WayOf(call.stage.response) == way
  }

  ghost function EndedAs(calls: map<nat, Call>, way: Way): set<nat> {
    set id | id in calls && Ended(calls[id], way)
  }

  ghost predicate Counts(calls: map<nat, Call>, c: Counters) {
    && c.succeeded == |EndedAs(calls, AsCreated)|
    && c.suppressed == |EndedAs(calls, AsReplayed)|
    && c.failed == |EndedAs(calls, AsError)|
    && c.total == |calls.Keys|
  }

  lemma OneEnds(calls: map<nat, Call>, id: nat, call: Call, way: Way)
    requires id in calls && !calls[id].stage.Counted?
    ensures |EndedAs(calls[id := call], way)| == |EndedAs(calls, way)| + if Ended(call, way) then 1 else 0
  {
    var before, after := EndedAs(calls, way), EndedAs(calls[id := call], way);
    assert id !in before;
    assert after == if Ended(call, way) then before + {id} else before;
  }

  lemma CountCounts(calls: map<nat, Call>, c: Counters, id: nat, response: Response)
    requires Counts(calls, c) && id in calls && !calls[id].stage.Counted?
    ensures Counts(calls[id := calls[id].(stage := Counted(response))], Bump(c, response))
  {
    var call := calls[id].(stage := Counted(response));
    OneEnds(calls, id, call, AsCreated);
    OneEnds(calls, id, call, AsReplayed);
    OneEnds(calls, id, call, AsError);
    assert calls[id := call].Keys == calls.Keys;
  }

  lemma MoveCounts(calls: map<nat, Call>, c: Counters, id: nat, stage: Stage)
    requires Counts(calls, c) && id in calls && !calls[id].stage.Counted? && !stage.Counted?
    ensures Counts(calls[id := calls[id].(stage := stage)], c)
  {
    var call := calls[id].(stage := stage);
    OneEnds(calls, id, call, AsCreated);
    OneEnds(calls, id, call, AsReplayed);
    OneEnds(calls, id, call, AsError);
    assert calls[id := call].Keys == calls.Keys;
  }

  lemma BeginCounts(calls: map<nat, Call>, c: Counters, id: nat, input: Input)
    requires Counts(calls, c) && id !in calls
    ensures Counts(calls[id := Call(input, Begun)], c.(total := c.total + 1))
  {
    var after := calls[id := Call(input, Begun)];
    forall way: Way ensures EndedAs(after, way) == EndedAs(calls, way) {
    }
    assert after.Keys == calls.Keys + {id};
  }

  lemma EmptyCounts()
    ensures Counts(map[], Counters(0, 0, 0, 0))
  {
    forall way: Way ensures EndedAs(map[], way) == {} {
    }
  }

  lemma StepCounts(s: System, a: Action)
    requires s.store.Valid() && Counts(s.calls, s.counters)
    ensures Counts(Step(s, a).calls, Step(s, a).counters)
  {
    var s' := Step(s, a);
    match a
    case Begin(id, input) =>
      if id !in s.calls {
        BeginCounts(s.calls, s.counters, id, input);
      }
    case Count(id) =>
      if id in s.calls && Verdict(s, id).Some? {
        CountCounts(s.calls, s.counters, id, Verdict(s, id).value);
      }
    case Enter(id, _) => StageCounts(s, id, s');
    case Operate(id, _, _) => StageCounts(s, id, s');
    case Report(id) => StageCounts(s, id, s');
    case ResetAll => EmptyCounts();
    case _ =>
  }

  /** A step that moves a call on without ending it. */
  lemma StageCounts(s: System, id: nat, s': System)
    requires Counts(s.calls, s.counters) && s'.counters == s.counters
    requires || s'.calls == s.calls
             || (id in s.calls && id in s'.calls && !s.calls[id].stage.Counted? && !s'.calls[id].stage.Counted?
                 && s'.calls == s.calls[id := s.calls[id].(stage := s'.calls[id].stage)])
    ensures Counts(s'.calls, s'.counters)
  {
    if s'.calls != s.calls {
      MoveCounts(s.calls, s.counters, id, s'.calls[id].stage);
    }
  }

  /** In every run each counter is the number of calls, since the last Reset, that ended in its way:
      ordersSucceeded of those that created an order, duplicatesSuppressed of the replays, ordersFailed of
      the errors, and ordersTotal of all that began. */
  lemma {:induction false} CountersCountCalls(retention: int, time: int, acts: seq<Action>)
    ensures Counts(Run(retention, time, acts).calls, Run(retention, time, acts).counters)
  {
    if acts == [] {
      EmptyCounts();
    } else {
      CountersCountCalls(retention, time, acts[..|acts| - 1]);
      StepCounts(Run(retention, time, acts[..|acts| - 1]), acts[|acts| - 1]);
    }
  }
}
