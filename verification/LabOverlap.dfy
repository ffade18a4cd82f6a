/** Two overlapping calls of the in-memory order service with equal inputs: one order, handed to both. */
module LabOverlap {
  import opened Common
  import opened Domain
  import opened EventLog
  import opened Lab
  import opened LabRuns
  import opened Coalescing
  import I = Idempotency

  /** How the leader of cell `c` stands: it runs, or it has reported and is counted as what it reported. */
  ghost predicate Leads(s: System, a: nat, c: nat) {
    && a in s.calls && a in s.idem.calls
    && match s.idem.calls[a].pc
       case Leading(mine) =>
         mine == c && (s.calls[a].stage == InRegistry || s.calls[a].stage.Saved? || s.calls[a].stage.Failing?)
       case Led(mine, Ok(order)) =>
         && mine == c && (s.calls[a].stage == Reported || s.calls[a].stage == Counted(Created(order)))
       case Led(mine, Err(_)) => mine == c && (s.calls[a].stage == Reported || s.calls[a].stage == Counted(Error))
       case _ => false
  }

  /** How a follower stands: it waits for cell `c`, has its leader's result, or has given up. */
  ghost predicate Follows(s: System, a: nat, b: nat, c: nat) {
    && b in s.calls && a in s.idem.calls && b in s.idem.calls
    && match s.idem.calls[b].pc
       case Waiting(mine) => mine == c && s.calls[b].stage == InRegistry
       case Replayed(mine, Ok(order)) =>
         && mine == c && s.idem.calls[a].pc == I.Led(c, I.Ok(order))
         && (s.calls[b].stage == InRegistry || s.calls[b].stage == Counted(Response.Replayed(order)))
       case Replayed(mine, Err(error)) =>
         && mine == c && s.idem.calls[a].pc == I.Led(c, I.Err(error))
         && (s.calls[b].stage == InRegistry || s.calls[b].stage == Counted(Error))
       case GaveUp => s.calls[b].stage == InRegistry || s.calls[b].stage == Counted(Error)
       case _ => false
  }

  ghost predicate Paired(s: System, a: nat, b: nat, c: nat) {
    a != b && Leads(s, a, c) && Follows(s, a, b, c)
  }

  lemma RegistryStepKeepsPair(s: System, i: I.Action<Order>, s': System, a: nat, b: nat, c: nat)
    requires I.Invariant(TTL, s.idem) && Paired(s, a, b, c)
    requires s' == s.(idem := I.Step(TTL, true, s.idem, i)) && (i.Tick? || i.Receive? || i.Cancel?)
    ensures Paired(s', a, b, c)
  {
    assert I.CallInvariant(s.idem, a) && I.CallInvariant(s.idem, b);
    if i.Receive? && i.id == b && s.idem.calls[b].pc.Waiting? {
      assert I.CellInvariant(TTL, s.idem, c);
    }
  }

  /** Both calls stand where they stood. */
  ghost predicate Untouched(s: System, s': System, id: nat) {
    && id in s.calls && id in s.idem.calls && id in s'.calls && id in s'.idem.calls
    && s'.calls[id] == s.calls[id] && s'.idem.calls[id] == s.idem.calls[id]
  }

  lemma UntouchedKeepsPair(s: System, s': System, a: nat, b: nat, c: nat)
    requires Paired(s, a, b, c) && Untouched(s, s', a) && Untouched(s, s', b)
    ensures Paired(s', a, b, c)
  {
  }

  lemma OperateKeepsPair(s: System, id: nat, ok: bool, freshID: string, a: nat, b: nat, c: nat)
    requires s.store.Valid() && Paired(s, a, b, c)
    ensures Paired(Step(s, Operate(id, ok, freshID)), a, b, c)
  {
    var s' := Step(s, Operate(id, ok, freshID));
    assert Untouched(s, s', b);
    if id != a {
      assert Untouched(s, s', a);
    }
  }

  lemma ReportKeepsPair(s: System, id: nat, result: I.Result<Order>, a: nat, b: nat, c: nat)
    requires Invariant(s) && Paired(s, a, b, c) && id in s.calls
    requires s.calls[id].stage == (match result case Ok(order) => Saved(order) case Err(error) => Failing(error))
    ensures Paired(Step(s, Report(id)), a, b, c)
  {
    assert LabRuns.CallInvariant(s, id);
    ReportSeats(s.idem, id, result);
    var s' := Step(s, Report(id));
    assert Untouched(s, s', b);
    if id != a {
      assert Untouched(s, s', a);
    }
  }

  lemma CountKeepsPair(s: System, id: nat, a: nat, b: nat, c: nat)
    requires s.store.Valid() && Paired(s, a, b, c)
    ensures Paired(Step(s, Count(id)), a, b, c)
  {
    var s' := Step(s, Count(id));
    if id != a {
      assert Untouched(s, s', a);
    }
    if id != b {
      assert Untouched(s, s', b);
    }
  }

  lemma EntryKeepsPair(s: System, x: Action, a: nat, b: nat, c: nat)
    requires Invariant(s) && Paired(s, a, b, c) && (x.Begin? || x.Enter?)
    ensures Paired(Step(s, x), a, b, c)
  {
    var s' := Step(s, x);
    if x.Enter? && s' != s {
      EnterSeats(s.idem, x.id, s.calls[x.id].input.Scope(), s.calls[x.id].input.Print(), x.now);
    }
    assert Untouched(s, s', a) && Untouched(s, s', b);
  }

  lemma StepKeepsPair(s: System, x: Action, a: nat, b: nat, c: nat)
    requires Invariant(s) && Paired(s, a, b, c) && x != ResetAll
    ensures Paired(Step(s, x), a, b, c)
  {
    match x
    case Tick(d) => RegistryStepKeepsPair(s, I.Tick(d), Step(s, x), a, b, c);
    case Receive(id) => RegistryStepKeepsPair(s, I.Receive(id), Step(s, x), a, b, c);
    case Cancel(id) => RegistryStepKeepsPair(s, I.Cancel(id), Step(s, x), a, b, c);
    case Report(id) =>
      if id in s.calls && s.calls[id].stage.Saved? {
        ReportKeepsPair(s, id, I.Ok(s.calls[id].stage.order), a, b, c);
      } else if id in s.calls && s.calls[id].stage.Failing? {
        ReportKeepsPair(s, id, I.Err(s.calls[id].stage.error), a, b, c);
      }
    case Operate(id, ok, freshID) => OperateKeepsPair(s, id, ok, freshID, a, b, c);
    case Count(id) => CountKeepsPair(s, id, a, b, c);
    case _ => EntryKeepsPair(s, x, a, b, c);
  }

  lemma LeaderHolds(s: System, a: nat, now: int)
    requires Invariant(s) && a in s.calls && Leading(s, a)
    ensures Holds(s.idem, s.idem.calls[a].pc.cell, s.calls[a].input.Scope(), now)
    ensures Print(s.idem, s.idem.calls[a].pc.cell) == s.calls[a].input.Print()
    ensures s.calls[a].stage == InRegistry || s.calls[a].stage.Saved? || s.calls[a].stage.Failing?
  {
    assert LabRuns.CallInvariant(s, a);
    assert I.CallInvariant(s.idem, a);
    assert I.CellInvariant(TTL, s.idem, s.idem.calls[a].pc.cell);
  }

  lemma JoinsHolder(idem: I.System<Order>, id: nat, scope: I.Scope, mark: string, now: int, c: nat)
    requires I.Invariant(TTL, idem) && id !in idem.calls && now <= idem.time
    requires Holds(idem, c, scope, now) && Print(idem, c) == mark
    ensures I.Step(TTL, true, idem, I.Enter(id, scope, mark, now)).calls
            == idem.calls[id := I.Call(scope, mark, I.Waiting(c))]
  {
    EntersFrom(TTL, true, idem, id, scope, mark, now);
  }

  /** A call that enters while another with the same input leads, follows it. */
  lemma EnteringPairs(s: System, a: nat, b: nat, now: int)
    requires Invariant(s) && a in s.calls && Leading(s, a)
    requires b in s.calls && s.calls[b] == Call(s.calls[a].input, Begun) && s.calls[a].input.Valid()
    requires now <= s.idem.time
    ensures Paired(Step(s, Enter(b, now)), a, b, s.idem.calls[a].pc.cell)
  {
    assert LabRuns.CallInvariant(s, b);
    LeaderHolds(s, a, now);
    JoinsHolder(s.idem, b, s.calls[a].input.Scope(), s.calls[a].input.Print(), now, s.idem.calls[a].pc.cell);
  }

  lemma RunMore(retention: int, time: int, acts: seq<Action>, x: Action)
    ensures Run(retention, time, acts + [x]) == Step(Run(retention, time, acts), x)
  {
    assert (acts + [x])[..|acts|] == acts;
  }

  lemma PairOneMore(retention: int, time: int, acts: seq<Action>, x: Action, a: nat, b: nat, c: nat)
    requires Paired(Run(retention, time, acts), a, b, c) && x != ResetAll
    ensures Paired(Run(retention, time, acts + [x]), a, b, c)
  {
    InvariantAlways(retention, time, acts);
    RunMore(retention, time, acts, x);
    StepKeepsPair(Run(retention, time, acts), x, a, b, c);
  }

  lemma {:induction false} PairLasts(retention: int, time: int, acts: seq<Action>, rest: seq<Action>, a: nat, b: nat,
                                     c: nat)
    requires Paired(Run(retention, time, acts), a, b, c)
    requires forall i | 0 <= i < |rest| :: rest[i] != ResetAll
    ensures Paired(Run(retention, time, acts + rest), a, b, c)
    decreases |rest|
  {
    if rest == [] {
      assert acts + rest == acts;
    } else {
      PairOneMore(retention, time, acts, rest[0], a, b, c);
      PairLasts(retention, time, acts + [rest[0]], rest[1..], a, b, c);
      assert acts + [rest[0]] + rest[1..] == acts + rest;
    }
  }

  lemma EntryPairs(retention: int, time: int, acts: seq<Action>, a: nat, b: nat, now: int)
    requires var s := Run(retention, time, acts);
             && a in s.calls && Leading(s, a) && s.calls[a].input.Valid()
             && b in s.calls && s.calls[b] == Call(s.calls[a].input, Begun) && now <= s.idem.time
    ensures Paired(Run(retention, time, acts + [Enter(b, now)]), a, b, Run(retention, time, acts).idem.calls[a].pc.cell)
  {
    InvariantAlways(retention, time, acts);
    RunMore(retention, time, acts, Enter(b, now));
    EnteringPairs(Run(retention, time, acts), a, b, now);
  }

  /** What two calls with equal inputs may answer, if the second enters while the first leads. */
  ghost predicate OneOutcome(first: Response, second: Response, gaveUp: bool) {
    match first
    case Created(order) => second == (if gaveUp then Error else Response.Replayed(order))
    case Replayed(_) => false
    case Error => second == Error
  }

  /** In every run, whatever else happens in between: if the first creates an order, the second replays
      that very order unless its caller has given up waiting; if the first fails, so does the second. */
  lemma OverlappingCallsShareOneOrder(retention: int, time: int, acts: seq<Action>, s: System, a: nat, b: nat, now: int,
                                      rest: seq<Action>, s': System)
    requires s == Run(retention, time, acts) && s' == Run(retention, time, acts + [Enter(b, now)] + rest)
    requires a in s.calls && Leading(s, a) && s.calls[a].input.Valid()
    requires b in s.calls && s.calls[b] == Call(s.calls[a].input, Begun) && now <= s.idem.time
    requires forall i | 0 <= i < |rest| :: rest[i] != ResetAll
    ensures a in s'.calls && b in s'.calls && b in s'.idem.calls
    ensures s'.calls[a].stage.Counted? && s'.calls[b].stage.Counted? ==>
              OneOutcome(s'.calls[a].stage.response, s'.calls[b].stage.response, s'.idem.calls[b].pc.GaveUp?)
  {
    EntryPairs(retention, time, acts, a, b, now);
    PairLasts(retention, time, acts + [Enter(b, now)], rest, a, b, s.idem.calls[a].pc.cell);
  }

  /* ---------- it happens ---------- */

  /** Both calls arrive and enter, the first one first. */
  ghost function BothEnter(s: System, a: nat, b: nat, input: Input, now: int): (s': System)
    requires s.store.Valid()
    ensures s'.store.Valid()
  {
    Step(Step(Step(Step(s, Begin(a, input)), Begin(b, input)), Enter(a, now)), Enter(b, now))
  }

  /** The first creates its order and reports, the second receives it, and both are counted. */
  ghost function BothFinish(s: System, a: nat, b: nat, freshID: string): (s': System)
    requires s.store.Valid()
    ensures s'.store.Valid()
  {
    Step(Step(Step(Step(Step(s, Operate(a, true, freshID)), Report(a)), Receive(b)), Count(a)), Count(b))
  }

  ghost predicate BothIn(s: System, a: nat, b: nat, input: Input, c: nat) {
    && a in s.calls && s.calls[a] == Call(input, InRegistry) && a in s.idem.calls && s.idem.calls[a].pc == I.Leading(c)
    && b in s.calls && s.calls[b] == Call(input, InRegistry) && b in s.idem.calls && s.idem.calls[b].pc == I.Waiting(c)
  }

  /** The first leads the next cell and the second is about to enter. */
  ghost predicate FirstIn(s: System, a: nat, b: nat, input: Input, c: nat) {
    && a in s.calls && s.calls[a] == Call(input, InRegistry) && a in s.idem.calls && s.idem.calls[a].pc == I.Leading(c)
    && b in s.calls && s.calls[b] == Call(input, Begun)
  }

  lemma FirstEnters(s: System, a: nat, b: nat, input: Input, now: int)
    requires Invariant(s) && a != b && input.Valid() && now <= s.idem.time
    requires a in s.calls && s.calls[a] == Call(input, Begun) && b in s.calls && s.calls[b] == Call(input, Begun)
    requires forall c: nat :: !Holds(s.idem, c, input.Scope(), now)
    ensures var s' := Step(s, Enter(a, now));
            && Invariant(s') && FirstIn(s', a, b, input, |s.idem.leaders|)
            && s'.store == s.store && s'.counters == s.counters && s'.idem.time == s.idem.time
  {
    assert LabRuns.CallInvariant(s, a);
    StepKeepsInvariant(s, Enter(a, now));
    EntersFrom(TTL, true, s.idem, a, input.Scope(), input.Print(), now);
  }

  lemma SecondEnters(s: System, a: nat, b: nat, input: Input, c: nat, now: int)
    requires Invariant(s) && a != b && input.Valid() && now <= s.idem.time && FirstIn(s, a, b, input, c)
    ensures var s' := Step(s, Enter(b, now));
            && Invariant(s') && BothIn(s', a, b, input, c) && s'.store == s.store && s'.counters == s.counters
  {
    StepKeepsInvariant(s, Enter(b, now));
    assert LabRuns.CallInvariant(s, b);
    LeaderHolds(s, a, now);
    JoinsHolder(s.idem, b, input.Scope(), input.Print(), now, c);
  }

  lemma BothBegin(s: System, a: nat, b: nat, input: Input)
    requires Invariant(s) && a != b && a !in s.calls && b !in s.calls
    ensures var s' := Step(Step(s, Begin(a, input)), Begin(b, input));
            && Invariant(s') && a in s'.calls && s'.calls[a] == Call(input, Begun)
            && b in s'.calls && s'.calls[b] == Call(input, Begun)
            && s'.idem == s.idem && s'.store == s.store
            && s'.counters == s.counters.(total := s.counters.total + 2)
  {
    StepKeepsInvariant(s, Begin(a, input));
    StepKeepsInvariant(Step(s, Begin(a, input)), Begin(b, input));
  }

  lemma BothAreIn(s: System, a: nat, b: nat, input: Input, now: int)
    requires Invariant(s) && a != b && a !in s.calls && b !in s.calls && input.Valid() && now <= s.idem.time
    requires forall c: nat :: !Holds(s.idem, c, input.Scope(), now)
    ensures var s' := BothEnter(s, a, b, input, now);
            && Invariant(s') && BothIn(s', a, b, input, |s.idem.leaders|)
            && s'.store == s.store && s'.counters == s.counters.(total := s.counters.total + 2)
  {
    BothBegin(s, a, b, input);
    var s2 := Step(Step(s, Begin(a, input)), Begin(b, input));
    FirstEnters(s2, a, b, input, now);
    SecondEnters(Step(s2, Enter(a, now)), a, b, input, |s.idem.leaders|, now);
  }

  /** The first answered that it created the order, the second that it replays it, and nothing else was
      stored or counted. */
  ghost predicate Shared(s: System, a: nat, b: nat, order: Order, orders: map<string, Order>, c: Counters) {
    && a in s.calls && s.calls[a].stage == Counted(Created(order))
    && b in s.calls && s.calls[b].stage == Counted(Response.Replayed(order))
    && s.store.orders == orders[order.id := order]
    && s.counters == Counters(c.total + 2, c.succeeded + 1, c.failed, c.suppressed + 1)
  }

  /** Two such calls of a tenant and key that nobody holds make one order, of the input's fields: the one
      answers that it created it, the other that it is a replay, and they are counted as one success and
      one suppressed duplicate. */
  lemma OverlappingCallsSucceed(s: System, a: nat, b: nat, input: Input, now: int, freshID: string, s': System)
    requires Invariant(s) && a != b && a !in s.calls && b !in s.calls && now <= s.idem.time
    requires input.tenant != "" && input.key != "" && input.eventID != "" && 1 <= input.quantity <= 12
    requires forall c: nat :: !Holds(s.idem, c, input.Scope(), now)
    requires freshID !in s.store.orders && s' == BothEnter(s, a, b, input, now)
    ensures Shared(BothFinish(s', a, b, freshID), a, b,
                   Order(freshID, input.tenant, input.eventID, input.quantity, s.store.nextSequence + 1),
                   s.store.orders, s.counters)
  {
    BothAreIn(s, a, b, input, now);
    FinishTogether(s', a, b, input, |s.idem.leaders|, freshID, s.counters,
                   Order(freshID, input.tenant, input.eventID, input.quantity, s.store.nextSequence + 1),
                   s.store.orders);
  }

  ghost predicate Halfway(s: System, a: nat, b: nat, order: Order, orders: map<string, Order>, c: nat) {
    && s.store.orders == orders[order.id := order]
    && a in s.calls && a in s.idem.calls && b in s.calls && b in s.idem.calls
    && s.calls[a].stage == Saved(order) && s.idem.calls[a].pc == I.Leading(c)
    && s.calls[b].stage == InRegistry && s.idem.calls[b].pc == I.Waiting(c)
  }

  lemma FirstSaves(s: System, a: nat, b: nat, input: Input, c: nat, freshID: string)
    requires s.store.Valid() && a != b && BothIn(s, a, b, input, c) && freshID !in s.store.orders
    ensures var s' := Step(s, Operate(a, true, freshID));
            && Halfway(s', a, b,
                       Order(freshID, input.tenant, input.eventID, input.quantity, s.store.nextSequence + 1),
                       s.store.orders, c)
            && s'.counters == s.counters && s'.idem == s.idem
  {
    SaveAdds(s.store, NewOrder(input, freshID));
  }

  lemma SecondReceives(s: System, a: nat, b: nat, order: Order, orders: map<string, Order>, c: nat)
    requires I.Invariant(TTL, s.idem) && s.store.Valid() && a != b && Halfway(s, a, b, order, orders, c)
    ensures var s' := Step(Step(s, Report(a)), Receive(b));
            && s'.store == s.store && s'.counters == s.counters
            && a in s'.calls && a in s'.idem.calls && b in s'.calls && b in s'.idem.calls
            && s'.calls[a].stage == Reported && s'.idem.calls[a].pc == I.Led(c, I.Ok(order))
            && s'.calls[b].stage == InRegistry && s'.idem.calls[b].pc == I.Replayed(c, I.Ok(order))
  {
    assert I.CallInvariant(s.idem, a);
    ReportSeats(s.idem, a, I.Ok(order));
    var s1 := Step(s, Report(a));
    assert s1.idem.registry.cells[c].outcome == Some(I.Ok(order));
  }

  lemma BothCounted(s: System, a: nat, b: nat, order: Order, orders: map<string, Order>, c: nat, before: Counters)
    requires s.store.Valid() && a != b && s.store.orders == orders[order.id := order]
    requires a in s.calls && a in s.idem.calls && b in s.calls && b in s.idem.calls
    requires s.calls[a].stage == Reported && s.idem.calls[a].pc == I.Led(c, I.Ok(order))
    requires s.calls[b].stage == InRegistry && s.idem.calls[b].pc == I.Replayed(c, I.Ok(order))
    requires s.counters == before.(total := before.total + 2)
    ensures Shared(Step(Step(s, Count(a)), Count(b)), a, b, order, orders, before)
  {
  }

  lemma FinishTogether(s: System, a: nat, b: nat, input: Input, c: nat, freshID: string, before: Counters, order: Order,
                       orders: map<string, Order>)
    requires I.Invariant(TTL, s.idem) && s.store.Valid()
    requires a != b && BothIn(s, a, b, input, c) && freshID !in s.store.orders
    requires s.counters == before.(total := before.total + 2)
    requires order == Order(freshID, input.tenant, input.eventID, input.quantity, s.store.nextSequence + 1)
    requires orders == s.store.orders
    ensures Shared(BothFinish(s, a, b, freshID), a, b, order, orders, before)
  {
    FirstSaves(s, a, b, input, c, freshID);
    var s1 := Step(s, Operate(a, true, freshID));
    SecondReceives(s1, a, b, order, orders, c);
    BothCounted(Step(Step(s1, Report(a)), Receive(b)), a, b, order, orders, c, before);
  }
}
