/**
 The control flow of Service.CreateOrder, RedisCoordinator.Do/execute/release and
 PostgresRepository.CreateOrder/resolveConcurrentCreate, as written, against the shared state.

 Before every call other requests, expiries and replicas may take any number of steps, and the call
 itself may fail. The code keeps its own local variables and never looks at the program counters of
 the step system; each call requires the counter to stand where the code is. So the code's paths are
 exactly the step system's, and what is proved about its runs holds of the code.
 */
module OrderDriver {
  import opened Common
  import opened Domain
  import opened Orders
  import opened OrderSafety
  import OrderRequests

  /** What the outside does: the steps of others before the n-th call, and how that call fares. */
  datatype World = World(others: nat -> seq<Action>, fault: nat -> Fault)

  /** Not a step of this request. */
  predicate Spares(a: Action, id: nat) {
    match a
    case Arrive(other, _, _) => other != id
    case Advance(other, _, _) => other != id
    case GiveUp(other) => other != id
    case _ => true
  }

  predicate Foreign(acts: seq<Action>, id: nat) {
    forall i | 0 <= i < |acts| :: Spares(acts[i], id)
  }

  datatype Error = NoError | BadInput | Unavailable | Conflicting | WithoutOrder | Broken

  function ErrorOf(response: Response): Error {
    match response
    case Success(_, _) => NoError
    case Conflict => Conflicting
    case Missing => WithoutOrder
    case Invalid => BadInput
    case Failed => Broken
  }

  lemma {:induction false} RunAppend(s: System, a: seq<Action>, b: seq<Action>)
    ensures RunFrom(s, a + b) == RunFrom(RunFrom(s, a), b)
  {
    if b == [] {
      assert a + b == a;
    } else {
      RunAppend(s, a, b[..|b| - 1]);
      assert (a + b)[..|a + b| - 1] == a + b[..|b| - 1];
    }
  }

  lemma {:induction false} OthersLeaveRequest(s: System, acts: seq<Action>, id: nat)
    requires Foreign(acts, id) && id in s.requests
    ensures id in RunFrom(s, acts).requests && RunFrom(s, acts).requests[id] == s.requests[id]
  {
    if acts != [] {
      OthersLeaveRequest(s, acts[..|acts| - 1], id);
    }
  }

  /** Where a request stands once the repository has returned to it. */
  function Returned(mode: Mode, response: Response): Pc {
    if mode == Fallback then Done(response)
    else if response.Success? then Publish(response.order, response.replayed)
    else Release(Some(response))
  }

  /** Some id no order has, and a number above all of theirs. */
  function Unused(rows: seq<Row>): Draw {
    if rows == [] then Draw("x", 1)
    else
      var d, order := Unused(rows[..|rows| - 1]), rows[|rows| - 1].order;
      Draw(d.id + order.id, d.sequence + order.sequence)
  }

  lemma {:induction false} UnusedIsLonger(rows: seq<Row>)
    ensures var d := Unused(rows);
            && |d.id| >= 1 && d.sequence >= 1
            && forall row | row in rows :: |row.order.id| < |d.id| && row.order.sequence < d.sequence
  {
    if rows != [] {
      UnusedIsLonger(rows[..|rows| - 1]);
      assert rows == rows[..|rows| - 1] + [rows[|rows| - 1]];
    }
  }

  class Cluster {
    var state: System
    var calls: nat
    const world: World
    ghost var trace: seq<Action>

    ghost predicate Valid()
      reads this
    {
      state == Run(trace)
    }

    /** The request stands at this program counter. */
    predicate At(id: nat, input: Input, pc: Pc)
      reads this
    {
      id in state.requests && state.requests[id].input == input && state.requests[id].pc == pc
    }

    constructor (world: World)
      ensures Valid() && this.world == world && trace == []
    {
      state, calls, this.world, trace := EMPTY, 0, world, [];
    }

    method Take(a: Action)
      requires Valid()
      modifies this
      ensures Valid() && state == Step(old(state), a) && trace == old(trace) + [a] && calls == old(calls)
    {
      state := Step(state, a);
      trace := trace + [a];
      assert trace[..|trace| - 1] == old(trace);
    }

    /** Let the others run, then make the call; `Advance` says what it does to the shared state. */
    method Call(id: nat, drawn: Draw) returns (before: System, fault: Fault)
      requires Valid() && id in state.requests
      requires forall n :: Foreign(world.others(n), id)
      modifies this
      ensures Valid() && old(trace) <= trace
      ensures id in before.requests && before.requests[id] == old(state).requests[id]
      ensures state == Step(before, Advance(id, fault, drawn))
    {
      Others(id);
      before, fault := state, world.fault(calls);
      Take(Advance(id, fault, drawn));
    }

    method Others(id: nat)
      requires Valid() && id in state.requests
      requires forall n :: Foreign(world.others(n), id)
      modifies this
      ensures Valid() && old(trace) <= trace
      ensures id in state.requests && state.requests[id] == old(state).requests[id]
    {
      var acts := world.others(calls);
      calls := calls + 1;
      OthersLeaveRequest(state, acts, id);
      RunAppend(EMPTY, trace, acts);
      state := RunFrom(state, acts);
      trace := trace + acts;
    }

    /* ---------- Redis ---------- */

    method LoadResult(id: nat, ghost input: Input, scope: Scope) returns (failed: bool, result: Option<Cached>)
      requires Valid() && scope == input.scope && (At(id, input, Look) || At(id, input, Recheck))
      requires forall n :: Foreign(world.others(n), id)
      modifies this
      ensures Valid() && old(trace) <= trace
      ensures var seen := if result.None? then Option<Response>.None
                          else Some(Verdict(result.value.order, result.value.fingerprint, input.fingerprint));
              if old(At(id, input, Look)) then
                At(id, input, if failed then Find(Fallback) else if seen.None? then Lock else Done(seen.value))
              else
                At(id, input, if failed then Release(None) else if seen.None? then Find(Coordinated) else Release(seen))
    {
      var before, fault := Call(id, NOTHING);
      failed := fault != Fine;
      result := if scope in before.redis.results then Some(before.redis.results[scope]) else None;
    }

    method TakeLock(id: nat, ghost input: Input) returns (failed: bool, acquired: bool)
      requires Valid() && At(id, input, Lock)
      requires forall n :: Foreign(world.others(n), id)
      modifies this
      ensures Valid() && old(trace) <= trace
      ensures At(id, input, if failed then Find(Fallback) else if acquired then Recheck else Poll)
    {
      var before, fault := Call(id, NOTHING);
      failed := fault != Fine;
      acquired := before.requests[id].input.scope !in before.redis.locks;
    }

    method StoreResult(id: nat, ghost input: Input, ghost order: Order, ghost replayed: bool) returns (failed: bool)
      requires Valid() && At(id, input, Publish(order, replayed))
      requires forall n :: Foreign(world.others(n), id)
      modifies this
      ensures Valid() && old(trace) <= trace
      ensures At(id, input, Release(if failed then None else Some(Success(order, replayed))))
    {
      var before, fault := Call(id, NOTHING);
      failed := fault != Fine;
    }

    method ReleaseLock(id: nat, ghost input: Input, ghost outcome: Option<Response>)
      requires Valid() && At(id, input, Release(outcome))
      requires forall n :: Foreign(world.others(n), id)
      modifies this
      ensures Valid() && old(trace) <= trace
      ensures At(id, input, if outcome.Some? then Done(outcome.value) else Find(Fallback))
    {
      var _, _ := Call(id, NOTHING);
    }

    /* ---------- PostgreSQL ---------- */

    method FindOrder(id: nat, ghost input: Input, scope: Scope, ghost mode: Mode)
      returns (failed: bool, found: Option<Row>)
      requires Valid() && scope == input.scope && (At(id, input, Find(mode)) || At(id, input, Resolve(mode)))
      requires forall n :: Foreign(world.others(n), id)
      modifies this
      ensures Valid() && old(trace) <= trace
      ensures failed ==> At(id, input, Returned(mode, Failed))
      ensures !failed && found.Some? ==>
                var row := found.value;
                At(id, input, Returned(mode, Verdict(row.order, row.input.fingerprint, input.fingerprint)))
      ensures !failed && found.None? ==>
                At(id, input, if old(At(id, input, Find(mode))) then Insert(mode) else Returned(mode, Missing))
    {
      var before, fault := Call(id, NOTHING);
      failed := fault != Fine || (before.requests[id].pc.Find? && !Selectable(scope));
      found := FindRow(before.db.orders, scope);
    }

    /** The inserts and the commit, with an id no order has yet. */
    method InsertOrder(id: nat, ghost input: Input, ghost mode: Mode) returns (failed: bool, order: Option<Order>)
      requires Valid() && At(id, input, Insert(mode))
      requires forall n :: Foreign(world.others(n), id)
      modifies this
      ensures Valid() && old(trace) <= trace
      ensures At(id, input, if failed then Returned(mode, Failed)
                            else if order.Some? then Returned(mode, Success(order.value, false))
                            else Resolve(mode))
    {
      Others(id);
      UnusedIsLonger(state.db.orders);
      assert Fresh(state.db, Unused(state.db.orders));
      var drawn :| Fresh(state.db, drawn);
      var before, fault := state, world.fault(calls);
      Take(Advance(id, fault, drawn));
      failed := fault != Fine || !Insertable(before.requests[id].input);
      order := Commit(before.db, before.requests[id].input, drawn, id).1;
    }

    /* ---------- postgres.go ---------- */

    method RepositoryCreate(id: nat, input: Input, ghost mode: Mode)
      returns (order: Option<Order>, replayed: bool, err: Error)
      requires Valid() && At(id, input, Find(mode))
      requires forall n :: Foreign(world.others(n), id)
      modifies this
      ensures Valid() && old(trace) <= trace
      ensures err == NoError <==> order.Some?
      ensures err != Unavailable && err != BadInput
      ensures err == NoError ==> At(id, input, Returned(mode, Success(order.value, replayed)))
      ensures err == Conflicting ==> At(id, input, Returned(mode, Conflict))
      ensures err == WithoutOrder ==> At(id, input, Returned(mode, Missing))
      ensures err == Broken ==> At(id, input, Returned(mode, Failed))
    {
      var failed, existing := FindOrder(id, input, input.scope, mode);
      if failed {
        return None, false, Broken;
      }
      if existing.Some? {
        if existing.value.input.fingerprint != input.fingerprint {
          return None, false, Conflicting;
        }
        return Some(existing.value.order), true, NoError;
      }
      failed, order := InsertOrder(id, input, mode);
      if failed {
        return None, false, Broken;
      }
      if order.None? {
        order, replayed, err := ResolveConcurrentCreate(id, input, mode);
        return;
      }
      return order, false, NoError;
    }

    method ResolveConcurrentCreate(id: nat, input: Input, ghost mode: Mode)
      returns (order: Option<Order>, replayed: bool, err: Error)
      requires Valid() && At(id, input, Resolve(mode))
      requires forall n :: Foreign(world.others(n), id)
      modifies this
      ensures Valid() && old(trace) <= trace
      ensures err == NoError <==> order.Some?
      ensures err != Unavailable && err != BadInput
      ensures err == NoError ==> At(id, input, Returned(mode, Success(order.value, replayed)))
      ensures err == Conflicting ==> At(id, input, Returned(mode, Conflict))
      ensures err == WithoutOrder ==> At(id, input, Returned(mode, Missing))
      ensures err == Broken ==> At(id, input, Returned(mode, Failed))
    {
      var failed, found := FindOrder(id, input, input.scope, mode);
      if failed {
        return None, false, Broken;
      }
      if found.None? {
        return None, false, WithoutOrder;
      }
      if found.value.input.fingerprint != input.fingerprint {
        return None, false, Conflicting;
      }
      return Some(found.value.order), true, NoError;
    }

    /* ---------- coordinator.go ---------- */

    /** The polling loop; `patience` is how many polls the caller's context lasts. The repository's own
        replay flag comes back beside the coordinator's, as the captured variable does. */
    method Do(id: nat, input: Input, patience: nat)
      returns (order: Option<Order>, replayed: bool, repositoryReplayed: bool, err: Error)
      requires Valid() && At(id, input, Look)
      requires forall n :: Foreign(world.others(n), id)
      modifies this
      ensures Valid() && old(trace) <= trace
      ensures err == NoError <==> order.Some?
      ensures err == Unavailable ==> At(id, input, Find(Fallback))
      ensures err == NoError ==> At(id, input, Done(Success(order.value, replayed || repositoryReplayed)))
      ensures err != BadInput
      ensures err != NoError && err != Unavailable ==>
                exists response :: At(id, input, Done(response)) && ErrorOf(response) == err
    {
      order, replayed, repositoryReplayed, err := None, false, false, Broken;
      var polls := 0;
      while true
        invariant Valid() && At(id, input, Look) && old(trace) <= trace && polls <= patience
        invariant forall n :: Foreign(world.others(n), id)
        invariant order.None? && !replayed && !repositoryReplayed && err == Broken
        decreases patience - polls
      {
        var failed, result := LoadResult(id, input, input.scope);
        if failed {
          err := Unavailable;
          return;
        }
        if result.Some? {
          if result.value.fingerprint != input.fingerprint {
            assert At(id, input, Done(Conflict));
            err := Conflicting;
            return;
          }
          return Some(result.value.order), true, false, NoError;
        }
        var acquired;
        failed, acquired := TakeLock(id, input);
        if failed {
          err := Unavailable;
          return;
        }
        if acquired {
          order, replayed, repositoryReplayed, err := Execute(id, input);
          return;
        }
        if polls == patience {
          Take(GiveUp(id));
          assert At(id, input, Done(Failed));
          return;
        }
        polls := polls + 1;
        var _, _ := Call(id, NOTHING);
      }
    }

    method Execute(id: nat, input: Input)
      returns (order: Option<Order>, replayed: bool, repositoryReplayed: bool, err: Error)
      requires Valid() && At(id, input, Recheck)
      requires forall n :: Foreign(world.others(n), id)
      modifies this
      ensures Valid() && old(trace) <= trace
      ensures err == NoError <==> order.Some?
      ensures err == Unavailable ==> At(id, input, Find(Fallback))
      ensures err == NoError ==> At(id, input, Done(Success(order.value, replayed || repositoryReplayed)))
      ensures err != BadInput
      ensures err != NoError && err != Unavailable ==>
                exists response :: At(id, input, Done(response)) && ErrorOf(response) == err
    {
      ghost var outcome;
      order, replayed, repositoryReplayed, err, outcome := UnderLock(id, input);
      ReleaseLock(id, input, outcome);
      assert outcome.Some? ==> At(id, input, Done(outcome.value));
    }

    /** The body of execute, before its deferred release. */
    method UnderLock(id: nat, input: Input)
      returns (order: Option<Order>, replayed: bool, repositoryReplayed: bool, err: Error,
          ghost outcome: Option<Response>)
      requires Valid() && At(id, input, Recheck)
      requires forall n :: Foreign(world.others(n), id)
      modifies this
      ensures Valid() && old(trace) <= trace && At(id, input, Release(outcome))
      ensures err == NoError <==> order.Some?
      ensures err == Unavailable <==> outcome.None?
      ensures err == NoError ==> outcome == Some(Success(order.value, replayed || repositoryReplayed))
      ensures err != BadInput && (err != Unavailable ==> ErrorOf(outcome.value) == err)
    {
      order, replayed, repositoryReplayed, err, outcome := None, false, false, Unavailable, None;
      var failed, result := LoadResult(id, input, input.scope);
      if failed {
        return;
      }
      if result.Some? {
        if result.value.fingerprint != input.fingerprint {
          return None, false, false, Conflicting, Some(Conflict);
        }
        return Some(result.value.order), true, false, NoError, Some(Success(result.value.order, true));
      }
      var created;
      created, repositoryReplayed, err := RepositoryCreate(id, input, Coordinated);
      if err != NoError {
        outcome := Some(if err == Conflicting then Conflict else if err == WithoutOrder then Missing else Failed);
        return;
      }
      failed := StoreResult(id, input, created.value, repositoryReplayed);
      if failed {
        err := Unavailable;
        return;
      }
      return created, false, repositoryReplayed, NoError, Some(Success(created.value, repositoryReplayed));
    }

    /* ---------- service.go ---------- */

    /** One call of Service.CreateOrder. It returns what the step system says this request returned, and
        everything it and the others did is one run of the step system. An order that comes back is the
        caller's: its tenant, event and quantity. */
    method CreateOrder(id: nat, raw: RawRequest, webhookURL: string, patience: nat)
      returns (order: Option<Order>, replayed: bool, err: Error)
      requires Valid() && id !in state.requests
      requires forall n :: Foreign(world.others(n), id)
      modifies this
      ensures Valid() && old(trace) <= trace
      ensures id in state.requests && state.requests[id].pc.Done?
      ensures var response := state.requests[id].pc.response;
              && err == ErrorOf(response)
              && (err == NoError ==> order == Some(response.order) && replayed == response.replayed)
      ensures err == BadInput <==> !OrderRequests.InBounds(raw)
      ensures err == BadInput ==> state.db == old(state).db && state.redis == old(state).redis
      ensures err == NoError ==> order.value.tenantID == raw.tenant && order.value.eventID == raw.eventID
                                 && order.value.quantity == raw.quantity
    {
      var prepared := Enter(id, raw, webhookURL);
      if prepared.None? {
        return None, false, BadInput;
      }
      order, replayed, err := CreatePrepared(id, prepared.value, patience);
      if err == NoError {
        SuccessMatchesTheRequest(trace, id);
      }
    }

    method Enter(id: nat, raw: RawRequest, webhookURL: string) returns (prepared: Option<Input>)
      requires Valid() && id !in state.requests
      modifies this
      ensures Valid() && old(trace) <= trace && prepared == Prepare(raw, webhookURL)
      ensures if prepared.Some? then At(id, prepared.value, Look)
              else id in state.requests && state.requests[id].pc == Done(Invalid)
                   && state.db == old(state).db && state.redis == old(state).redis
    {
      Take(Arrive(id, raw, webhookURL));
      prepared := Prepare(raw, webhookURL);
    }

    /** The coordinator first, PostgreSQL alone if that is unavailable. */
    method CreatePrepared(id: nat, input: Input, patience: nat)
      returns (order: Option<Order>, replayed: bool, err: Error)
      requires Valid() && At(id, input, Look)
      requires forall n :: Foreign(world.others(n), id)
      modifies this
      ensures Valid() && old(trace) <= trace
      ensures id in state.requests && state.requests[id].pc.Done? && state.requests[id].input == input
      ensures err != BadInput
      ensures var response := state.requests[id].pc.response;
              && err == ErrorOf(response)
              && (err == NoError ==> order == Some(response.order) && replayed == response.replayed)
    {
      var coordinationReplayed, repositoryReplayed;
      order, coordinationReplayed, repositoryReplayed, err := Do(id, input, patience);
      if err == Unavailable {
        order, repositoryReplayed, err := RepositoryCreate(id, input, Fallback);
        coordinationReplayed := false;
      }
      replayed := err == NoError && (coordinationReplayed || repositoryReplayed);
    }
  }
}
