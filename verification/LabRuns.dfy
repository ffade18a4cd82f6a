/**
 Calls of the in-memory order service in any interleaving, with its Reset. A call holds the lifecycle
 lock for reading while it runs, so Reset waits until none is in flight. How the dependency answers
 a leader is left open here.
 */
module LabRuns {
  import opened Common
  import opened Domain
  import opened EventLog
  import opened Lab
  import I = Idempotency
  import Fingerprint
  import D = Dependency

  /** How far a call has got: counted in ordersTotal; in the registry; a leader whose order is in the
      store, or whose dependency failed; a leader that reported; counted as ended. */
  datatype Stage =
    | Begun
    | InRegistry
    | Saved(order: Order)
    | Failing(error: string)
    | Reported
    | Counted(response: Response)

  datatype Call = Call(input: Input, stage: Stage)

  datatype System = System(idem: I.System<Order>, store: Store, calls: map<nat, Call>, counters: Counters)

  datatype Action =
    | Tick(d: nat)
    | Begin(id: nat, input: Input)
    | Enter(id: nat, now: int)
    | Operate(id: nat, ok: bool, freshID: string)
    | Report(id: nat)
    | Receive(id: nat)
    | Cancel(id: nat)
    | Count(id: nat)
    | ResetAll

  function Start(retention: int, time: int): System {
    System(I.Start(TTL, time), New(retention), map[], Counters(0, 0, 0, 0))
  }

  function At(s: System, id: nat, stage: Stage): System
    requires id in s.calls
  {
    s.(calls := s.calls[id := s.calls[id].(stage := stage)])
  }

  predicate InFlight(s: System, id: nat) {
    id in s.calls && !s.calls[id].stage.Counted?
  }

  /** Whether the call is due to be counted, and as what. */
  function Verdict(s: System, id: nat): Option<Response>
    requires id in s.calls
  {
    match s.calls[id].stage
    case Begun => if s.calls[id].input.Valid() then None else Some(Error)
    case InRegistry =>
      if id !in s.idem.calls then None
      else
        (match s.idem.calls[id].pc
         case Replayed(_, Ok(order)) => Some(Response.Replayed(order))
         case Replayed(_, Err(_)) => Some(Error)
         case Refused => Some(Error)
         case GaveUp => Some(Error)
         case _ => None)
    case Reported =>
      if id !in s.idem.calls then None
      else
        (match s.idem.calls[id].pc
         case Led(_, Ok(order)) => Some(Created(order))
         case Led(_, Err(_)) => Some(Error)
         case _ => None)
    case _ => None
  }

  predicate Leading(s: System, id: nat) {
    id in s.idem.calls && s.idem.calls[id].pc.Leading?
  }

  ghost function Step(s: System, a: Action): (s': System)
    requires s.store.Valid()
    ensures s'.store.Valid()
  {
    match a
    case Tick(d) => s.(idem := I.Step(TTL, true, s.idem, I.Tick(d)))
    case Begin(id, input) =>
      if id in s.calls then s
      else s.(calls := s.calls[id := Call(input, Begun)], counters := s.counters.(total := s.counters.total + 1))
    case Enter(id, now) =>
      if id in s.calls && s.calls[id].stage == Begun && s.calls[id].input.Valid()
         && id !in s.idem.calls && now <= s.idem.time
      then
        var input := s.calls[id].input;
        At(s, id, InRegistry).(idem := I.Step(TTL, true, s.idem, I.Enter(id, input.Scope(), input.Print(), now)))
      else s
    case Operate(id, ok, freshID) =>
      if id in s.calls && s.calls[id].stage == InRegistry && Leading(s, id) && freshID !in s.store.orders then
        var input := s.calls[id].input;
        var order := NewOrder(input, freshID);
        SaveKeepsValid(s.store, order, "order.confirmed");
        if ok
        then At(s, id, Saved(Append(s.store, order, "order.confirmed").1)).(
               store := Save(s.store, order, "order.confirmed"))
        else At(s, id, Failing("inventory dependency failed"))
      else s
    case Report(id) =>
      if id in s.calls && s.calls[id].stage.Saved?
      then At(s, id, Reported).(idem := I.Step(TTL, true, s.idem, I.Report(id, I.Ok(s.calls[id].stage.order))))
      else if id in s.calls && s.calls[id].stage.Failing?
      then At(s, id, Reported).(idem := I.Step(TTL, true, s.idem, I.Report(id, I.Err(s.calls[id].stage.error))))
      else s
    case Receive(id) => s.(idem := I.Step(TTL, true, s.idem, I.Receive(id)))
    case Cancel(id) => s.(idem := I.Step(TTL, true, s.idem, I.Cancel(id)))
    case Count(id) =>
      if id in s.calls && Verdict(s, id).Some?
      then At(s, id, Counted(Verdict(s, id).value)).(counters := Bump(s.counters, Verdict(s, id).value))
      else s
    case ResetAll =>
      if exists id :: InFlight(s, id) then s
      else System(I.Start(TTL, s.idem.time), EventLog.Reset(s.store), map[], Counters(0, 0, 0, 0))
  }

  ghost function Run(retention: int, time: int, acts: seq<Action>): (s: System)
    ensures s.store.Valid()
  {
    if acts == [] then Start(retention, time)
    else Step(Run(retention, time, acts[..|acts| - 1]), acts[|acts| - 1])
  }

  /* ---------- the invariant ---------- */

  ghost predicate Stored(s: System, order: Order) {
    order.id in s.store.orders && s.store.orders[order.id] == order
  }

  ghost predicate Fits(order: Order, input: Input) {
    order.tenantID == input.tenant && order.eventID == input.eventID && order.quantity == input.quantity
  }

  /** The order of a call that led successfully. */
  ghost predicate Led(s: System, id: nat) {
    id in s.idem.calls && s.idem.calls[id].pc.Led? && s.idem.calls[id].pc.result.Ok?
  }

  /** The call's order is in the store but the call is not counted yet. */
  ghost predicate Uncounted(s: System, id: nat) {
    id in s.calls && (s.calls[id].stage.Saved? || (s.calls[id].stage.Reported? && Led(s, id)))
  }

  ghost function InFlightCalls(s: System): set<nat> {
    set id | id in s.calls && InFlight(s, id)
  }

  ghost function UncountedCalls(s: System): set<nat> {
    set id | id in s.calls && Uncounted(s, id)
  }

  ghost predicate CallInvariant(s: System, id: nat)
    requires id in s.calls
  {
    var call := s.calls[id];
    && (id in s.idem.calls ==>
          && s.idem.calls[id].scope == call.input.Scope()
          && s.idem.calls[id].fingerprint == call.input.Print())
    && (match call.stage
        case Begun => id !in s.idem.calls
        case InRegistry => id in s.idem.calls && !s.idem.calls[id].pc.Led?
        case Saved(order) => Leading(s, id) && Stored(s, order) && Fits(order, call.input)
        case Failing(_) => Leading(s, id)
        case Reported => id in s.idem.calls && s.idem.calls[id].pc.Led?
        case Counted(response) =>
          !Leading(s, id) && (!response.Error? ==> Stored(s, response.order) && Fits(response.order, call.input)))
    && (Led(s, id) ==>
          && Stored(s, s.idem.calls[id].pc.result.value)
          && Fits(s.idem.calls[id].pc.result.value, call.input))
  }

  ghost predicate Tally(s: System) {
    && s.counters.total == s.counters.succeeded + s.counters.failed + s.counters.suppressed + |InFlightCalls(s)|
    && s.store.nextSequence == |s.store.orders|
    && s.store.nextSequence == s.counters.succeeded + |UncountedCalls(s)|
  }

  ghost predicate Invariant(s: System) {
    && s.store.Valid()
    && I.Invariant(TTL, s.idem)
    && s.idem.calls.Keys <= s.calls.Keys
    && (forall id | id in s.calls :: CallInvariant(s, id))
    && Tally(s)
  }

  /** A replay's order is the one its leader created, for the same tenant and key, and so for the same
      event and quantity. */
  lemma ReplayFits(s: System, id: nat, order: Order)
    requires Invariant(s) && id in s.idem.calls && s.idem.calls[id].pc.Replayed?
             && s.idem.calls[id].pc.result == I.Ok(order)
    ensures Stored(s, order) && Fits(order, s.calls[id].input)
    ensures exists leader :: leader in s.calls && leader in s.idem.calls
                             && s.idem.calls[leader].pc == I.Led(s.idem.calls[id].pc.cell, I.Ok(order))
                             && s.calls[leader].input.tenant == s.calls[id].input.tenant
                             && s.calls[leader].input.key == s.calls[id].input.key
  {
    var c := s.idem.calls[id].pc.cell;
    assert I.CallInvariant(s.idem, id);
    assert I.CellInvariant(TTL, s.idem, c);
    var leader := s.idem.leaders[c].call;
    assert CallInvariant(s, leader) && CallInvariant(s, id);
    var mine, theirs := s.calls[id].input, s.calls[leader].input;
    Fingerprint.LabInjective(mine.eventID, mine.quantity, theirs.eventID, theirs.quantity);
  }

  /* ---------- every step keeps it ---------- */

  /** Only call `id` moved, and no stored order was lost. */
  ghost predicate OnlyMoves(s: System, s': System, id: nat) {
    && s'.calls.Keys == s.calls.Keys + {id}
    && (forall x | x in s.calls && x != id :: s'.calls[x] == s.calls[x])
    && s'.idem.calls.Keys <= s.idem.calls.Keys + {id} && s.idem.calls.Keys <= s'.idem.calls.Keys
    && (forall x | x in s.idem.calls && x != id :: s'.idem.calls[x] == s.idem.calls[x])
    && (forall o | o in s.store.orders :: o in s'.store.orders && s'.store.orders[o] == s.store.orders[o])
  }

  function One(b: bool): nat {
    if b then 1 else 0
  }

  lemma OtherCallKept(s: System, s': System, id: nat, x: nat)
    requires OnlyMoves(s, s', id) && x != id && x in s.calls && CallInvariant(s, x)
    ensures CallInvariant(s', x)
  {
  }

  lemma Difference(a: set<nat>, b: set<nat>, id: nat)
    requires a - {id} == b - {id}
    ensures |a| + One(id in b) == |b| + One(id in a)
  {
    var c := a - {id};
    assert a == if id in a then c + {id} else c;
    assert b == if id in b then c + {id} else c;
  }

  lemma MoveCounts(s: System, s': System, id: nat)
    requires OnlyMoves(s, s', id)
    ensures |InFlightCalls(s')| + One(InFlight(s, id)) == |InFlightCalls(s)| + One(InFlight(s', id))
    ensures |UncountedCalls(s')| + One(Uncounted(s, id)) == |UncountedCalls(s)| + One(Uncounted(s', id))
  {
    assert InFlightCalls(s') - {id} == InFlightCalls(s) - {id};
    Difference(InFlightCalls(s'), InFlightCalls(s), id);
    assert UncountedCalls(s') - {id} == UncountedCalls(s) - {id};
    Difference(UncountedCalls(s'), UncountedCalls(s), id);
  }

  /** What a step that moves only call `id` has to show; the rest of the invariant follows. */
  ghost predicate Moves(s: System, s': System, id: nat) {
    && OnlyMoves(s, s', id)
    && s'.store.Valid()
    && CallInvariant(s', id)
    && s'.counters.total - (s'.counters.succeeded + s'.counters.failed + s'.counters.suppressed) - One(InFlight(s', id))
       == s.counters.total - (s.counters.succeeded + s.counters.failed + s.counters.suppressed) - One(InFlight(s, id))
    && s'.store.nextSequence - s.store.nextSequence == |s'.store.orders| - |s.store.orders|
    && s'.store.nextSequence - s.store.nextSequence
       == s'.counters.succeeded - s.counters.succeeded + One(Uncounted(s', id)) - One(Uncounted(s, id))
  }

  lemma MoveKeeps(s: System, s': System, id: nat)
    requires Invariant(s) && I.Invariant(TTL, s'.idem) && Moves(s, s', id)
    ensures Invariant(s')
  {
    MoveCounts(s, s', id);
    forall x | x in s'.calls ensures CallInvariant(s', x) {
      if x != id {
        OtherCallKept(s, s', id, x);
      }
    }
  }

  lemma QuietSeats(idem: I.System<Order>, a: I.Action<Order>, id: nat)
    requires a.Tick? || a.Receive? || a.Cancel?
    ensures var after := I.Step(TTL, true, idem, a);
            && after.calls.Keys == idem.calls.Keys
            && (id in idem.calls ==>
                  && after.calls[id].scope == idem.calls[id].scope
                  && after.calls[id].fingerprint == idem.calls[id].fingerprint
                  && (after.calls[id] == idem.calls[id]
                      || (idem.calls[id].pc.Waiting? && !after.calls[id].pc.Leading? && !after.calls[id].pc.Led?)))
  {
  }

  /** Steps of the registry that change no call's leadership keep everything else as it is. */
  lemma RegistryStepKeeps(s: System, a: I.Action<Order>, s': System)
    requires Invariant(s) && s' == s.(idem := I.Step(TTL, true, s.idem, a))
    requires a.Tick? || a.Receive? || a.Cancel?
    ensures Invariant(s')
  {
    I.StepKeepsInvariant(TTL, true, s.idem, a);
    QuietSeats(s.idem, a, 0);
    forall id | id in s'.calls ensures CallInvariant(s', id) && (Led(s, id) <==> Led(s', id)) {
      assert CallInvariant(s, id);
      QuietSeats(s.idem, a, id);
    }
    assert InFlightCalls(s') == InFlightCalls(s);
    assert UncountedCalls(s') == UncountedCalls(s);
  }

  lemma BeginMoves(s: System, id: nat, input: Input)
    requires s.store.Valid() && id !in s.calls && s.idem.calls.Keys <= s.calls.Keys
    ensures Moves(s, Step(s, Begin(id, input)), id)
    ensures Step(s, Begin(id, input)).idem == s.idem
  {
    var s' := Step(s, Begin(id, input));
    assert s'.calls == s.calls[id := Call(input, Begun)] && s'.store == s.store;
    assert CallInvariant(s', id);
  }

  /** Entering the registry seats the caller there and nobody else; nobody enters as a finished leader. */
  lemma EnterSeats(idem: I.System<Order>, id: nat, scope: I.Scope, mark: string, now: int)
    requires idem.registry.WellFormed() && id !in idem.calls && now <= idem.time
    ensures var after := I.Step(TTL, true, idem, I.Enter(id, scope, mark, now));
            && after.calls.Keys == idem.calls.Keys + {id}
            && after.calls == idem.calls[id := after.calls[id]]
            && after.calls[id].scope == scope && after.calls[id].fingerprint == mark && !after.calls[id].pc.Led?
  {
  }

  lemma EnterMoves(s: System, id: nat, now: int)
    requires s.store.Valid() && s.idem.registry.WellFormed()
    requires id in s.calls && s.calls[id].stage == Begun && s.calls[id].input.Valid() && CallInvariant(s, id)
    requires now <= s.idem.time
    ensures Moves(s, Step(s, Enter(id, now)), id)
  {
    EnterSeats(s.idem, id, s.calls[id].input.Scope(), s.calls[id].input.Print(), now);
  }

  lemma SaveAdds(store: Store, order: Order)
    requires store.Valid() && order.id !in store.orders
    ensures var after, saved := Save(store, order, "order.confirmed"), Append(store, order, "order.confirmed").1;
            && after.Valid()
            && saved == order.(sequence := saved.sequence)
            && after.orders == store.orders[order.id := saved]
            && |after.orders| == |store.orders| + 1
            && after.nextSequence == store.nextSequence + 1
  {
    SaveKeepsValid(store, order, "order.confirmed");
    assert store.orders.Keys !! {order.id};
  }

  lemma OperateMoves(s: System, id: nat, ok: bool, freshID: string)
    requires s.store.Valid()
    requires id in s.calls && s.calls[id].stage == InRegistry && CallInvariant(s, id) && Leading(s, id)
    requires freshID !in s.store.orders
    ensures Moves(s, Step(s, Operate(id, ok, freshID)), id)
  {
    var input := s.calls[id].input;
    SaveAdds(s.store, NewOrder(input, freshID));
  }

  lemma ReportSeats(idem: I.System<Order>, id: nat, result: I.Result<Order>)
    requires I.Invariant(TTL, idem) && id in idem.calls && idem.calls[id].pc.Leading?
    ensures I.Step(TTL, true, idem, I.Report(id, result)).calls
            == idem.calls[id := idem.calls[id].(pc := I.Led(idem.calls[id].pc.cell, result))]
  {
    assert I.CallInvariant(idem, id);
  }

  lemma ReportMoves(s: System, id: nat, result: I.Result<Order>)
    requires s.store.Valid() && id in s.calls && CallInvariant(s, id)
    requires s.calls[id].stage == (match result case Ok(order) => Saved(order) case Err(error) => Failing(error))
    requires Leading(s, id)
    requires I.Step(TTL, true, s.idem, I.Report(id, result)).calls
             == s.idem.calls[id := s.idem.calls[id].(pc := I.Led(s.idem.calls[id].pc.cell, result))]
    ensures Moves(s, Step(s, Report(id)), id)
    ensures Step(s, Report(id)).idem == I.Step(TTL, true, s.idem, I.Report(id, result))
  {
    var s' := Step(s, Report(id));
    assert s'.calls == s.calls[id := s.calls[id].(stage := Reported)] && s'.store == s.store;
    assert CallInvariant(s', id);
  }

  lemma ReportKeeps(s: System, id: nat, result: I.Result<Order>)
    requires Invariant(s) && id in s.calls
    requires s.calls[id].stage == (match result case Ok(order) => Saved(order) case Err(error) => Failing(error))
    ensures Invariant(Step(s, Report(id)))
  {
    assert CallInvariant(s, id);
    ReportSeats(s.idem, id, result);
    ReportMoves(s, id, result);
    I.StepKeepsInvariant(TTL, true, s.idem, I.Report(id, result));
    MoveKeeps(s, Step(s, Report(id)), id);
  }

  lemma CountMoves(s: System, id: nat)
    requires s.store.Valid() && id in s.calls && CallInvariant(s, id) && Verdict(s, id).Some?
    requires var v := Verdict(s, id).value; v.Replayed? ==> Stored(s, v.order) && Fits(v.order, s.calls[id].input)
    ensures Moves(s, Step(s, Count(id)), id)
    ensures Step(s, Count(id)).idem == s.idem
  {
    var s' := Step(s, Count(id));
    assert CallInvariant(s', id);
    assert !Uncounted(s', id) && (Uncounted(s, id) <==> Verdict(s, id).value.Created?);
  }

  lemma CountKeeps(s: System, id: nat)
    requires Invariant(s) && id in s.calls && Verdict(s, id).Some?
    ensures Invariant(Step(s, Count(id)))
  {
    if Verdict(s, id).value.Replayed? {
      ReplayFits(s, id, Verdict(s, id).value.order);
    }
    CountMoves(s, id);
    MoveKeeps(s, Step(s, Count(id)), id);
  }

  lemma EmptyTally(s: System)
    requires s.calls.Keys == {} && s.counters == Counters(0, 0, 0, 0) && s.store.nextSequence == |s.store.orders| == 0
    ensures Tally(s)
  {
    assert InFlightCalls(s) == {};
    assert UncountedCalls(s) == {};
  }

  lemma EmptyKeeps(s: System)
    requires s.store.Valid() && I.Invariant(TTL, s.idem)
    requires s.calls.Keys == s.idem.calls.Keys == {}
    requires s.counters == Counters(0, 0, 0, 0) && s.store.nextSequence == |s.store.orders| == 0
    ensures Invariant(s)
  {
    EmptyTally(s);
  }

  lemma StepKeepsInvariant(s: System, a: Action)
    requires Invariant(s)
    ensures Invariant(Step(s, a))
  {
    if Step(s, a) != s {
      match a
      case Tick(d) => RegistryStepKeeps(s, I.Tick(d), Step(s, a));
      case Begin(id, input) =>
        BeginMoves(s, id, input);
        MoveKeeps(s, Step(s, a), id);
      case Enter(id, now) =>
        EnterMoves(s, id, now);
        I.StepKeepsInvariant(TTL, true, s.idem, I.Enter(id, s.calls[id].input.Scope(), s.calls[id].input.Print(), now));
        MoveKeeps(s, Step(s, a), id);
      case Operate(id, ok, freshID) =>
        OperateMoves(s, id, ok, freshID);
        MoveKeeps(s, Step(s, a), id);
      case Report(id) =>
        var stage := s.calls[id].stage;
        ReportKeeps(s, id, if stage.Saved? then I.Ok(stage.order) else I.Err(stage.error));
      case Receive(id) => RegistryStepKeeps(s, I.Receive(id), Step(s, a));
      case Cancel(id) => RegistryStepKeeps(s, I.Cancel(id), Step(s, a));
      case Count(id) => CountKeeps(s, id);
      case ResetAll =>
        I.StartInvariant<Order>(TTL, s.idem.time);
        EmptyKeeps(Step(s, a));
    }
  }

  lemma {:induction false} InvariantAlways(retention: int, time: int, acts: seq<Action>)
    ensures Invariant(Run(retention, time, acts))
  {
    if acts == [] {
      I.StartInvariant<Order>(TTL, time);
      EmptyKeeps(Start(retention, time));
    } else {
      InvariantAlways(retention, time, acts[..|acts| - 1]);
      StepKeepsInvariant(Run(retention, time, acts[..|acts| - 1]), acts[|acts| - 1]);
    }
  }

  /* ---------- main results ---------- */

  /** In every run, Reset included: each call counted once in total is in flight or ended in exactly one
      way; and when none is in flight, events logged = orders stored = orders counted as succeeded. */
  lemma CountersAreConserved(retention: int, time: int, acts: seq<Action>)
    ensures var s := Run(retention, time, acts);
            && s.counters.total == s.counters.succeeded + s.counters.failed + s.counters.suppressed + |InFlightCalls(s)|
            && (InFlightCalls(s) == {} ==> s.store.nextSequence == |s.store.orders| == s.counters.succeeded)
  {
    InvariantAlways(retention, time, acts);
    var s := Run(retention, time, acts);
    assert UncountedCalls(s) <= InFlightCalls(s);
  }

  /** Every success, first or replayed, hands out an order that is in the store and carries the caller's
      own tenant, event and quantity. */
  lemma SuccessIsStoredAndFits(retention: int, time: int, acts: seq<Action>, id: nat)
    requires var s := Run(retention, time, acts);
             id in s.calls && s.calls[id].stage.Counted? && !s.calls[id].stage.response.Error?
    ensures var s := Run(retention, time, acts);
            var order := s.calls[id].stage.response.order;
            && order.id in s.store.orders && s.store.orders[order.id] == order
            && Fits(order, s.calls[id].input)
  {
    InvariantAlways(retention, time, acts);
    assert CallInvariant(Run(retention, time, acts), id);
  }

  /** The later one registered after the earlier one's result had expired, half an hour after it registered. */
  ghost predicate HalfHourApart(idem: I.System<Order>, i: nat, j: nat) {
    && i < |idem.leaders| == |idem.registry.cells| && j < |idem.leaders|
    && idem.registry.cells[i].Expired(idem.leaders[j].registeredAt)
    && idem.leaders[j].registeredAt >= idem.leaders[i].registeredAt + 1_800_000_000_000
  }

  lemma LaterIsApart(idem: I.System<Order>, i: nat, j: nat)
    requires I.Invariant(TTL, idem) && i < j < |idem.leaders| && idem.leaders[i].scope == idem.leaders[j].scope
    requires idem.registry.cells[i].outcome.Some? && idem.registry.cells[i].outcome.value.Ok?
    ensures HalfHourApart(idem, i, j)
  {
    assert I.CellInvariant(TTL, idem, i);
    assert I.Spaced(idem, i, j);
  }

  lemma LeadersAreApart(idem: I.System<Order>, a: nat, b: nat)
    requires I.Invariant(TTL, idem) && a != b && a in idem.calls && b in idem.calls
    requires idem.calls[a].scope == idem.calls[b].scope
    requires idem.calls[a].pc.Led? && idem.calls[a].pc.result.Ok? && idem.calls[b].pc.Led?
             && idem.calls[b].pc.result.Ok?
    ensures var i, j := idem.calls[a].pc.cell, idem.calls[b].pc.cell;
            HalfHourApart(idem, i, j) || HalfHourApart(idem, j, i)
  {
    assert I.CallInvariant(idem, a) && I.CallInvariant(idem, b);
    var i, j := idem.calls[a].pc.cell, idem.calls[b].pc.cell;
    assert I.CellInvariant(TTL, idem, i) && I.CellInvariant(TTL, idem, j);
    if i < j {
      LaterIsApart(idem, i, j);
    } else {
      LaterIsApart(idem, j, i);
    }
  }

  /** Two calls that each led for one tenant and key, the first of them successfully, registered at
      least 30 minutes apart, the later one after the earlier one's result had expired: within that time
      one key creates one order. */
  lemma OneOrderPerKeyAndTtl(retention: int, time: int, acts: seq<Action>, a: nat, b: nat)
    requires var s := Run(retention, time, acts);
             && a != b && a in s.idem.calls && b in s.idem.calls
             && s.idem.calls[a].scope == s.idem.calls[b].scope
             && s.idem.calls[a].pc.Led? && s.idem.calls[a].pc.result.Ok?
             && s.idem.calls[b].pc.Led? && s.idem.calls[b].pc.result.Ok?
    ensures var idem := Run(retention, time, acts).idem;
            var i, j := idem.calls[a].pc.cell, idem.calls[b].pc.cell;
            HalfHourApart(idem, i, j) || HalfHourApart(idem, j, i)
  {
    InvariantAlways(retention, time, acts);
    LeadersAreApart(Run(retention, time, acts).idem, a, b);
  }

  /* ---------- one uninterrupted call is a run of steps ---------- */

  /** All steps of one call in a row; those its decision does not call for do nothing. */
  ghost function Uninterrupted(s: System, id: nat, input: Input, enter: int, ok: bool, freshID: string,
                               d: nat): (s': System)
    requires s.store.Valid()
    ensures s'.store.Valid()
  {
    Ending(Step(Step(s, Begin(id, input)), Enter(id, enter)), id, ok, freshID, d)
  }

  ghost function Ending(s: System, id: nat, ok: bool, freshID: string, d: nat): (s': System)
    requires s.store.Valid()
    ensures s'.store.Valid()
  {
    Step(Step(Step(Step(Step(s, Receive(id)), Operate(id, ok, freshID)), Tick(d)), Report(id)), Count(id))
  }

  ghost predicate Ends(s: System, s': System, id: nat, store: Store, registry: I.Registry<Order>, response: Response) {
    && s'.store == store && s'.idem.registry == registry
    && id in s'.calls && s'.calls[id].stage == Counted(response)
    && s'.counters == Bump(s.counters, response)
  }

  ghost predicate EndsAs(s: System, s': System, id: nat, served: (World, Response)) {
    Ends(s, s', id, served.0.store, served.0.registry, served.1)
  }

  lemma InvalidEnds(s: System, id: nat, ok: bool, freshID: string, d: nat)
    requires s.store.Valid() && s.idem.registry.WellFormed()
    requires id in s.calls && s.calls[id].stage == Begun && !s.calls[id].input.Valid() && id !in s.idem.calls
    ensures Ends(s, Ending(s, id, ok, freshID, d), id, s.store, s.idem.registry, Error)
  {
    assert Step(s, Receive(id)) == s && Step(s, Operate(id, ok, freshID)) == s;
    var s3 := Step(s, Tick(d));
    assert Step(s3, Report(id)) == s3;
  }

  lemma RefusedEnds(s: System, id: nat, ok: bool, freshID: string, d: nat)
    requires s.store.Valid() && s.idem.registry.WellFormed()
    requires id in s.calls && s.calls[id].stage == InRegistry && id in s.idem.calls && s.idem.calls[id].pc.Refused?
    ensures Ends(s, Ending(s, id, ok, freshID, d), id, s.store, s.idem.registry, Error)
  {
    assert Step(s, Receive(id)) == s && Step(s, Operate(id, ok, freshID)) == s;
    var s3 := Step(s, Tick(d));
    assert Step(s3, Report(id)) == s3;
  }

  lemma FollowerEnds(s: System, id: nat, ok: bool, freshID: string, d: nat)
    requires s.store.Valid() && s.idem.registry.WellFormed()
    requires id in s.calls && s.calls[id].stage == InRegistry && id in s.idem.calls && s.idem.calls[id].pc.Waiting?
    requires s.idem.calls[id].pc.cell < |s.idem.registry.cells|
             && s.idem.registry.cells[s.idem.calls[id].pc.cell].outcome.Some?
    ensures var outcome := s.idem.registry.cells[s.idem.calls[id].pc.cell].outcome;
            Ends(s, Ending(s, id, ok, freshID, d), id, s.store, s.idem.registry, Followed(outcome))
  {
    var s1 := Step(s, Receive(id));
    var cell := s.idem.calls[id].pc.cell;
    assert s1.idem.calls[id].pc == I.Replayed(cell, s.idem.registry.cells[cell].outcome.value);
    assert Step(s1, Operate(id, ok, freshID)) == s1;
    var s3 := Step(s1, Tick(d));
    assert Step(s3, Report(id)) == s3;
  }

  lemma LeaderEnds(s: System, id: nat, ok: bool, freshID: string, d: nat)
    requires s.store.Valid() && s.idem.registry.WellFormed()
    requires id in s.calls && s.calls[id].stage == InRegistry && id in s.idem.calls && s.idem.calls[id].pc.Leading?
    requires s.idem.calls[id].scope == s.calls[id].input.Scope() && s.idem.calls[id].pc.cell < |s.idem.registry.cells|
    requires freshID !in s.store.orders
    ensures var (store, result, response) := Lead(s.store, s.calls[id].input, ok, freshID);
            Ends(s, Ending(s, id, ok, freshID, d), id, store,
                 I.Complete(TTL, s.idem.registry, s.calls[id].input.Scope(), s.idem.calls[id].pc.cell, result,
                     s.idem.time + d), response)
  {
    assert Step(s, Receive(id)) == s;
    var s2 := Step(s, Operate(id, ok, freshID));
    var s3 := Step(s2, Tick(d));
    var (_, result, response) := Lead(s.store, s.calls[id].input, ok, freshID);
    OperateLeads(s, id, ok, freshID);
    assert s3 == s2.(idem := s2.idem.(time := s2.idem.time + d));
    ReportThenCount(s3, id, result, response);
  }

  lemma OperateLeads(s: System, id: nat, ok: bool, freshID: string)
    requires s.store.Valid() && id in s.calls && s.calls[id].stage == InRegistry && Leading(s, id)
             && freshID !in s.store.orders
    ensures var s' := Step(s, Operate(id, ok, freshID));
            var (store, result, response) := Lead(s.store, s.calls[id].input, ok, freshID);
            && s'.store == store && s'.idem == s.idem && s'.counters == s.counters && id in s'.calls
            && s'.calls[id].stage == (match result case Ok(order) => Saved(order) case Err(error) => Failing(error))
            && response == (match result case Ok(order) => Created(order) case Err(_) => Error)
  {
  }

  lemma ReportThenCount(s: System, id: nat, result: I.Result<Order>, response: Response)
    requires s.store.Valid() && s.idem.registry.WellFormed()
    requires id in s.calls && id in s.idem.calls && s.idem.calls[id].pc.Leading?
    requires s.idem.calls[id].pc.cell < |s.idem.registry.cells|
    requires s.calls[id].stage == (match result case Ok(order) => Saved(order) case Err(error) => Failing(error))
    requires response == (match result case Ok(order) => Created(order) case Err(_) => Error)
    ensures Ends(s, Step(Step(s, Report(id)), Count(id)), id, s.store,
                 I.Complete(TTL, s.idem.registry, s.idem.calls[id].scope, s.idem.calls[id].pc.cell, result,
                     s.idem.time), response)
  {
    var s' := Step(s, Report(id));
    assert s'.idem.calls[id].pc == I.Led(s.idem.calls[id].pc.cell, result) && s'.calls[id].stage == Reported;
  }

  /** With nobody in flight no follower waits: what it finds is finished. */
  lemma NothingPending(s: System, cell: nat)
    requires Invariant(s) && !(exists id :: InFlight(s, id)) && cell < |s.idem.registry.cells|
    ensures s.idem.registry.cells[cell].outcome.Some?
  {
    assert I.CellInvariant(TTL, s.idem, cell);
    var leader := s.idem.leaders[cell].call;
    assert CallInvariant(s, leader);
    assert !InFlight(s, leader);
  }

  lemma Entered(s: System, id: nat, input: Input, enter: int)
    requires s.store.Valid() && s.idem.registry.WellFormed() && id !in s.calls && id !in s.idem.calls
             && enter <= s.idem.time
    ensures var s2 := Step(Step(s, Begin(id, input)), Enter(id, enter));
            && s2.store == s.store && s2.counters == s.counters.(total := s.counters.total + 1) && id in s2.calls
            && if input.Valid()
               then s2.calls[id] == Call(input, InRegistry)
                    && s2.idem == I.EnterStep(TTL, true, s.idem, id, input.Scope(), input.Print(), enter)
               else s2.calls[id] == Call(input, Begun) && s2.idem == s.idem
  {
  }

  /** Where a call stands after Enter agrees with what the registry decided, and nothing is pending. */
  ghost predicate Stands(s: System, id: nat, decision: I.Decision) {
    && s.store.Valid() && s.idem.registry.WellFormed() && InRange(s.idem.registry, decision)
    && id in s.calls && s.calls[id].stage == InRegistry && id in s.idem.calls
    && s.idem.calls[id].scope == s.calls[id].input.Scope()
    && match decision
       case Conflict => s.idem.calls[id].pc.Refused?
       case Follow(cell) => s.idem.calls[id].pc == I.Waiting(cell) && s.idem.registry.cells[cell].outcome.Some?
       case Lead(cell) => s.idem.calls[id].pc == I.Leading(cell)
  }

  lemma ActEnds(s: System, w: World, dependency: D.State, ok: bool, id: nat, decision: I.Decision, freshID: string,
                d: nat, served: (World, Response))
    requires Stands(s, id, decision) && freshID !in s.store.orders
    requires w.store == s.store && w.registry == s.idem.registry
    requires served == Act(w, decision, s.calls[id].input, dependency, ok, s.idem.time + d, freshID)
    ensures EndsAs(s, Ending(s, id, ok, freshID, d), id, served)
  {
    match decision
    case Conflict => RefusedEnds(s, id, ok, freshID, d);
    case Follow(cell) => FollowerEnds(s, id, ok, freshID, d);
    case Lead(cell) => LeaderEnds(s, id, ok, freshID, d);
  }

  lemma EnterStands(s: System, s2: System, id: nat, input: Input, enter: int)
    requires s.store.Valid() && s.idem.registry.WellFormed()
    requires forall cell: nat | cell < |s.idem.registry.cells| :: s.idem.registry.cells[cell].outcome.Some?
    requires s2.store == s.store && id in s2.calls && s2.calls[id] == Call(input, InRegistry)
    requires s2.idem == I.EnterStep(TTL, true, s.idem, id, input.Scope(), input.Print(), enter)
    ensures var (r, decision) := I.Decide(I.MaybePurge(TTL, s.idem.registry, enter), input.Scope(), input.Print(),
            enter);
            s2.idem.registry == r && s2.idem.time == s.idem.time && Stands(s2, id, decision)
  {
    DecidedInRange(s.idem.registry, enter, input);
  }

  lemma ServeIsAct(w: World, input: Input, decision: I.Decision, r: I.Registry<Order>, clock: Clock, freshID: string,
                   dependency: D.State, ok: bool)
    requires w.store.Valid() && w.registry.WellFormed()
    requires I.Decide(I.MaybePurge(TTL, w.registry, clock.enter), input.Scope(), input.Print(), clock.enter)
             == (r, decision)
    ensures InRange(r, decision)
    ensures Serve(w, input, clock, freshID, dependency, ok)
            == Act(w.(registry := r), decision, input, dependency, ok, clock.finish, freshID)
  {
    DecidedInRange(w.registry, clock.enter, input);
  }

  lemma ServeEnds(w: World, s: System, id: nat, decision: I.Decision, clock: Clock, freshID: string,
                  dependency: D.State, ok: bool, d: nat)
    requires w.store.Valid() && w.registry.WellFormed() && freshID !in w.store.orders && clock.finish == s.idem.time + d
    requires Stands(s, id, decision) && s.store == w.store
    requires var input := s.calls[id].input;
             I.Decide(I.MaybePurge(TTL, w.registry, clock.enter), input.Scope(), input.Print(), clock.enter)
             == (s.idem.registry, decision)
    ensures EndsAs(s, Ending(s, id, ok, freshID, d), id, Serve(w, s.calls[id].input, clock, freshID, dependency, ok))
  {
    var input := s.calls[id].input;
    ServeIsAct(w, input, decision, s.idem.registry, clock, freshID, dependency, ok);
    ActEnds(s, w.(registry := s.idem.registry), dependency, ok, id, decision, freshID, d,
        Serve(w, input, clock, freshID, dependency, ok));
  }

  /** The call of `Lab.Service.CreateOrder` is one run of the steps above, whatever the dependency
      answers: same store, registry, counters and response. */
  lemma UninterruptedIsServe(s: System, w: World, id: nat, input: Input, clock: Clock, freshID: string,
                             dependency: D.State, ok: bool, d: nat)
    requires Invariant(s) && !(exists other :: InFlight(s, other)) && id !in s.calls && freshID !in s.store.orders
    requires clock.enter <= s.idem.time && clock.finish == s.idem.time + d
    requires w.store == s.store && w.registry == s.idem.registry
    ensures EndsAs(s.(counters := s.counters.(total := s.counters.total + 1)),
                   Uninterrupted(s, id, input, clock.enter, ok, freshID, d), id,
                   if input.Valid() then Serve(w, input, clock, freshID, dependency, ok) else (w, Error))
  {
    var s2 := Step(Step(s, Begin(id, input)), Enter(id, clock.enter));
    forall cell: nat | cell < |s.idem.registry.cells| ensures s.idem.registry.cells[cell].outcome.Some? {
      NothingPending(s, cell);
    }
    Entered(s, id, input, clock.enter);
    if input.Valid() {
      EnterStands(s, s2, id, input, clock.enter);
      var decision := I.Decide(I.MaybePurge(TTL, w.registry, clock.enter), input.Scope(), input.Print(), clock.enter).1;
      ServeEnds(w, s2, id, decision, clock, freshID, dependency, ok, d);
    } else {
      InvalidEnds(s2, id, ok, freshID, d);
    }
  }
}
