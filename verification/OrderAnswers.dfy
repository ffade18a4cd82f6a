/** How a request of Service.CreateOrder is answered when nobody interferes, whatever Redis does. */
module OrderAnswers {
  import opened Common
  import opened Domain
  import opened Orders
  import opened OrderSafety
  import opened OrderRequests
  import Fingerprint

  /** A request's next n calls: PostgreSQL answers, and each call to Redis may fare as it will. */
  function Calls(s: System, id: nat, redis: nat -> Fault, drawn: Draw, n: nat): System
    decreases n
  {
    if n == 0 then s else Calls(OneCall(s, id, redis(n), drawn), id, redis, drawn, n - 1)
  }

  function OneCall(s: System, id: nat, redis: Fault, drawn: Draw): System {
    var onDatabase := id in s.requests
        && (s.requests[id].pc.Find? || s.requests[id].pc.Insert? || s.requests[id].pc.Resolve?);
    Step(s, Advance(id, if onDatabase then Fine else redis, drawn))
  }

  predicate SameFields(row: Row, input: Input) {
    && row.input.eventID == input.eventID && row.input.quantity == input.quantity
    && row.input.source == input.source && row.input.externalID == input.externalID
  }

  /** The answer to expect: the order of the tenant and key if there is one for the same four fields, a
      conflict if there is one for others, and a new order if there is none. */
  function Expected(db: Database, input: Input, drawn: Draw): Response {
    match FindRow(db.orders, input.scope)
    case Some(row) => if SameFields(row, input) then Success(row.order, true) else Conflict
    case None => Success(Order(drawn.id, input.scope.tenant, input.eventID, input.quantity, drawn.sequence), false)
  }

  /** The tables once the request has been answered: with its order, if there was none of its key. */
  function After(db: Database, input: Input, drawn: Draw, id: nat): Database {
    if FindRow(db.orders, input.scope).Some? then db else Commit(db, input, drawn, id).0
  }

  /** Redis once it has been answered: the result of a success is stored, and its own lock is gone. */
  function Settled(redis: Redis, input: Input, id: nat, response: Response): Redis {
    Redis(if response.Success? then redis.results[input.scope := Cached(input.fingerprint, response.order)]
          else redis.results,
          if input.scope in redis.locks && redis.locks[input.scope] == id then redis.locks - {input.scope}
          else redis.locks)
  }

  /** As expected, but a success may call itself a replay. */
  predicate Alike(response: Response, expected: Response) {
    response == expected || (expected.Success? && response == Success(expected.order, true))
  }

  ghost predicate Ends(s: System, id: nat, input: Input, response: Response, db: Database, redis: Redis) {
    && id in s.requests && s.requests[id].input == input && s.requests[id].pc == Done(response)
    && s.db == db && s.redis == redis
  }

  /** The request is done as expected; exactly so if no call failed (`calm`), and then Redis is settled. */
  ghost predicate Answered(s: System, id: nat, input: Input, expected: Response, db: Database, calm: bool,
                           redis: Redis) {
    && id in s.requests && s.requests[id].input == input && s.requests[id].pc.Done? && s.db == db
    && Alike(s.requests[id].pc.response, expected)
    && (calm ==> s.requests[id].pc.response == expected && s.redis == redis)
  }

  ghost predicate Calm(redis: nat -> Fault, n: nat) {
    forall m: nat | m <= n :: redis(m) == Fine
  }

  /** What the request can rely on: a row of its key is a stored one, with the fingerprint of its fields. */
  ghost predicate Ready(db: Database, input: Input, drawn: Draw) {
    && input.fingerprint == Fingerprint.Product(input.eventID, input.quantity, input.source, input.externalID)
    && match FindRow(db.orders, input.scope)
       case Some(row) =>
         Selectable(input.scope) && (row.input.fingerprint == input.fingerprint <==> SameFields(row, input))
       case None => Insertable(input) && Fresh(db, drawn)
  }

  lemma DoneStays(s: System, id: nat, redis: nat -> Fault, drawn: Draw, n: nat)
    requires id in s.requests && s.requests[id].pc.Done?
    ensures Calls(s, id, redis, drawn, n) == s
    decreases n
  {
    if n > 0 {
      DoneStays(OneCall(s, id, redis(n), drawn), id, redis, drawn, n - 1);
    }
  }

  lemma FromRelease(s: System, id: nat, redis: nat -> Fault, drawn: Draw, n: nat, response: Response)
    requires id in s.requests && s.requests[id].pc == Release(Some(response)) && n >= 1
    ensures Ends(Calls(s, id, redis, drawn, n), id, s.requests[id].input, response, s.db,
                 if redis(n) == Lost then s.redis else ReleaseScript(s.redis, s.requests[id].input.scope, id))
  {
    DoneStays(OneCall(s, id, redis(n), drawn), id, redis, drawn, n - 1);
  }

  /** PostgreSQL alone, as the fallback. */
  lemma FromFallback(s: System, id: nat, redis: nat -> Fault, drawn: Draw, n: nat)
    requires id in s.requests && s.requests[id].pc == Find(Fallback) && n >= 2
    requires Ready(s.db, s.requests[id].input, drawn)
    ensures var input := s.requests[id].input;
            Ends(Calls(s, id, redis, drawn, n), id, input, Expected(s.db, input, drawn), After(s.db, input, drawn, id),
                 s.redis)
  {
    var s1 := OneCall(s, id, redis(n), drawn);
    if FindRow(s.db.orders, s.requests[id].input.scope).Some? {
      DoneStays(s1, id, redis, drawn, n - 1);
    } else {
      DoneStays(OneCall(s1, id, redis(n - 1), drawn), id, redis, drawn, n - 2);
    }
  }

  /** Redis has failed under the lock. */
  lemma FromGivingUp(s: System, id: nat, redis: nat -> Fault, drawn: Draw, n: nat)
    requires id in s.requests && s.requests[id].pc == Release(None) && n >= 3
    requires Ready(s.db, s.requests[id].input, drawn)
    ensures var input, s' := s.requests[id].input, Calls(s, id, redis, drawn, n);
            Ends(s', id, input, Expected(s.db, input, drawn), After(s.db, input, drawn, id), s'.redis)
  {
    FromFallback(OneCall(s, id, redis(n), drawn), id, redis, drawn, n - 1);
  }

  lemma FromPublish(s: System, id: nat, redis: nat -> Fault, drawn: Draw, n: nat, order: Order, replayed: bool)
    requires id in s.requests && s.requests[id].pc == Publish(order, replayed) && n >= 4
    requires var input := s.requests[id].input;
             Ready(s.db, input, drawn) && Expected(s.db, input, drawn) == Success(order, true)
    ensures var input := s.requests[id].input;
            Answered(Calls(s, id, redis, drawn, n), id, input, Success(order, replayed), s.db, Calm(redis, n),
                     Settled(s.redis, input, id, Success(order, replayed)))
  {
    var s1 := OneCall(s, id, redis(n), drawn);
    if redis(n) == Fine {
      FromRelease(s1, id, redis, drawn, n - 1, Success(order, replayed));
    } else {
      FromGivingUp(s1, id, redis, drawn, n - 1);
    }
  }

  /** The insert under the lock. */
  lemma FromInsert(s: System, id: nat, redis: nat -> Fault, drawn: Draw, n: nat)
    requires id in s.requests && s.requests[id].pc == Insert(Coordinated) && n >= 5
    requires var input := s.requests[id].input; Ready(s.db, input, drawn) && FindRow(s.db.orders, input.scope).None?
    ensures var input := s.requests[id].input;
            Answered(Calls(s, id, redis, drawn, n), id, input, Expected(s.db, input, drawn),
                     After(s.db, input, drawn, id), Calm(redis, n),
                     Settled(s.redis, input, id, Expected(s.db, input, drawn)))
  {
    var input := s.requests[id].input;
    var s1, order := OneCall(s, id, redis(n), drawn), NewOrder(input, drawn);
    CommitFinds(s.db, input, drawn, id);
    FromPublish(s1, id, redis, drawn, n - 1, order, false);
  }

  lemma FromFind(s: System, id: nat, redis: nat -> Fault, drawn: Draw, n: nat)
    requires id in s.requests && s.requests[id].pc == Find(Coordinated) && n >= 6
    requires Ready(s.db, s.requests[id].input, drawn)
    ensures var input := s.requests[id].input;
            Answered(Calls(s, id, redis, drawn, n), id, input, Expected(s.db, input, drawn),
                     After(s.db, input, drawn, id), Calm(redis, n),
                     Settled(s.redis, input, id, Expected(s.db, input, drawn)))
  {
    var input := s.requests[id].input;
    var s1, found := OneCall(s, id, redis(n), drawn), FindRow(s.db.orders, input.scope);
    if found.None? {
      FromInsert(s1, id, redis, drawn, n - 1);
    } else if SameFields(found.value, input) {
      FromPublish(s1, id, redis, drawn, n - 1, found.value.order, true);
    } else {
      FromRelease(s1, id, redis, drawn, n - 1, Conflict);
    }
  }

  lemma FromRecheck(s: System, id: nat, redis: nat -> Fault, drawn: Draw, n: nat)
    requires id in s.requests && s.requests[id].pc == Recheck && n >= 7
    requires Ready(s.db, s.requests[id].input, drawn) && s.requests[id].input.scope !in s.redis.results
    ensures var input := s.requests[id].input;
            Answered(Calls(s, id, redis, drawn, n), id, input, Expected(s.db, input, drawn),
                     After(s.db, input, drawn, id), Calm(redis, n),
                     Settled(s.redis, input, id, Expected(s.db, input, drawn)))
  {
    var s1 := OneCall(s, id, redis(n), drawn);
    if redis(n) == Fine {
      FromFind(s1, id, redis, drawn, n - 1);
    } else {
      FromGivingUp(s1, id, redis, drawn, n - 1);
    }
  }

  lemma LockStep(s: System, id: nat, fault: Fault, drawn: Draw)
    requires id in s.requests && s.requests[id].pc == Lock && s.requests[id].input.scope !in s.redis.locks
    ensures var s1, r := OneCall(s, id, fault, drawn), s.requests[id];
            && s1.db == s.db && id in s1.requests && s1.redis.results == s.redis.results
            && s1.requests[id] == r.(pc := if fault == Fine then Recheck else Find(Fallback))
            && (fault == Fine ==> s1.redis.locks == s.redis.locks[r.input.scope := id])
  {
  }

  lemma LockIsReturned(redis: Redis, taken: Redis, input: Input, id: nat, response: Response)
    requires input.scope !in redis.locks
    requires taken.results == redis.results && taken.locks == redis.locks[input.scope := id]
    ensures Settled(taken, input, id, response) == Settled(redis, input, id, response)
  {
    assert taken.locks - {input.scope} == redis.locks;
  }

  lemma FromLock(s: System, id: nat, redis: nat -> Fault, drawn: Draw, n: nat)
    requires id in s.requests && s.requests[id].pc == Lock && n >= 8
    requires var input := s.requests[id].input;
             Ready(s.db, input, drawn) && input.scope !in s.redis.results && input.scope !in s.redis.locks
    ensures var input := s.requests[id].input;
            Answered(Calls(s, id, redis, drawn, n), id, input, Expected(s.db, input, drawn),
                     After(s.db, input, drawn, id), Calm(redis, n),
                     Settled(s.redis, input, id, Expected(s.db, input, drawn)))
  {
    var s1, input := OneCall(s, id, redis(n), drawn), s.requests[id].input;
    LockStep(s, id, redis(n), drawn);
    if redis(n) == Fine {
      FromRecheck(s1, id, redis, drawn, n - 1);
      LockIsReturned(s.redis, s1.redis, input, id, Expected(s.db, input, drawn));
    } else {
      FromFallback(s1, id, redis, drawn, n - 1);
    }
  }

  lemma LookStep(s: System, id: nat, fault: Fault, drawn: Draw)
    requires id in s.requests && s.requests[id].pc == Look && Ready(s.db, s.requests[id].input, drawn)
    requires var scope := s.requests[id].input.scope; scope in s.redis.results ==> CacheInvariant(s, scope)
    ensures var s1, r := OneCall(s, id, fault, drawn), s.requests[id];
            && s1.db == s.db && s1.redis == s.redis && id in s1.requests
            && s1.requests[id] == r.(pc := if fault != Fine then Find(Fallback)
                                           else if r.input.scope !in s.redis.results then Lock
                                           else Done(Expected(s.db, r.input, drawn)))
  {
  }

  /** What the cache holds is what an answer would store. */
  lemma CachedIsSettled(s: System, input: Input, drawn: Draw, id: nat)
    requires Ready(s.db, input, drawn) && input.scope in s.redis.results && CacheInvariant(s, input.scope)
    requires input.scope in s.redis.locks ==> s.redis.locks[input.scope] != id
    ensures Settled(s.redis, input, id, Expected(s.db, input, drawn)) == s.redis
    ensures FindRow(s.db.orders, input.scope).Some?
  {
    assert s.redis.results[input.scope := s.redis.results[input.scope]] == s.redis.results;
  }

  lemma FromCache(s: System, id: nat, redis: nat -> Fault, drawn: Draw, n: nat)
    requires id in s.requests && s.requests[id].pc == Look && n >= 1 && redis(n) == Fine
    requires var input := s.requests[id].input;
             && Ready(s.db, input, drawn) && input.scope in s.redis.results && CacheInvariant(s, input.scope)
             && (input.scope in s.redis.locks ==> s.redis.locks[input.scope] != id)
    ensures var input := s.requests[id].input;
            Ends(Calls(s, id, redis, drawn, n), id, input, Expected(s.db, input, drawn),
                 After(s.db, input, drawn, id), Settled(s.redis, input, id, Expected(s.db, input, drawn)))
  {
    LookStep(s, id, redis(n), drawn);
    DoneStays(OneCall(s, id, redis(n), drawn), id, redis, drawn, n - 1);
    CachedIsSettled(s, s.requests[id].input, drawn, id);
  }

  lemma FromNoCache(s: System, id: nat, redis: nat -> Fault, drawn: Draw, n: nat)
    requires id in s.requests && s.requests[id].pc == Look && n >= 9
    requires var input := s.requests[id].input;
             && Ready(s.db, input, drawn)
             && (redis(n) == Fine ==> input.scope !in s.redis.results && input.scope !in s.redis.locks)
    ensures var input := s.requests[id].input;
            Answered(Calls(s, id, redis, drawn, n), id, input, Expected(s.db, input, drawn),
                     After(s.db, input, drawn, id), Calm(redis, n),
                     Settled(s.redis, input, id, Expected(s.db, input, drawn)))
  {
    var s1 := OneCall(s, id, redis(n), drawn);
    if redis(n) != Fine {
      FromFallback(s1, id, redis, drawn, n - 1);
    } else {
      FromLock(s1, id, redis, drawn, n - 1);
    }
  }

  lemma FromLook(s: System, id: nat, redis: nat -> Fault, drawn: Draw, n: nat)
    requires id in s.requests && s.requests[id].pc == Look && n >= 9
    requires var input := s.requests[id].input;
             && Ready(s.db, input, drawn)
             && (input.scope in s.redis.results ==> CacheInvariant(s, input.scope))
             && (input.scope in s.redis.locks ==> s.redis.locks[input.scope] != id)
             && (redis(n) == Fine && input.scope in s.redis.locks ==> input.scope in s.redis.results)
    ensures var input := s.requests[id].input;
            Answered(Calls(s, id, redis, drawn, n), id, input, Expected(s.db, input, drawn),
                     After(s.db, input, drawn, id), Calm(redis, n),
                     Settled(s.redis, input, id, Expected(s.db, input, drawn)))
  {
    if redis(n) == Fine && s.requests[id].input.scope in s.redis.results {
      FromCache(s, id, redis, drawn, n);
    } else {
      FromNoCache(s, id, redis, drawn, n);
    }
  }

  /** A stored row's fingerprint is a request's exactly if their four fields are the same. */
  lemma FingerprintIsFields(s: System, input: Input)
    requires Invariant(s) && FindRow(s.db.orders, input.scope).Some?
    requires input.fingerprint == Fingerprint.Product(input.eventID, input.quantity, input.source, input.externalID)
    ensures var row := FindRow(s.db.orders, input.scope).value;
            Selectable(input.scope) && (row.input.fingerprint == input.fingerprint <==> SameFields(row, input))
  {
    var row := FindRow(s.db.orders, input.scope).value;
    FindRowFinds(s.db.orders, input.scope);
    assert RequestInvariant(s, row.writer);
    if row.input.fingerprint == input.fingerprint {
      Fingerprint.StoredPinsAll(input.eventID, input.quantity, input.source, input.externalID,
                                row.input.eventID, row.input.quantity, row.input.source, row.input.externalID);
    }
  }

  lemma ArrivalIsReady(s: System, id: nat, raw: RawRequest, webhookURL: string, drawn: Draw)
    requires Invariant(s) && id !in s.requests && InBounds(raw)
    requires FindRow(s.db.orders, Scope(raw.tenant, raw.key)).None? ==>
               && Fresh(s.db, drawn)
               && Storable(raw.tenant) && Storable(raw.key) && Storable(raw.source)
               && Storable(raw.externalID) && Storable(raw.eventID)
    ensures var s1 := Step(s, Arrive(id, raw, webhookURL));
            && s1.db == s.db && s1.redis == s.redis
            && id in s1.requests && s1.requests[id].pc == Look && Carries(s1.requests[id].input, raw, webhookURL)
            && Ready(s1.db, s1.requests[id].input, drawn)
  {
    var s1 := Step(s, Arrive(id, raw, webhookURL));
    if FindRow(s1.db.orders, s1.requests[id].input.scope).Some? {
      FingerprintIsFields(s, s1.requests[id].input);
    }
  }

  lemma LockStaysNamed(s: System, a: Action, scope: Scope)
    requires scope in s.redis.locks ==> s.redis.locks[scope] in s.requests
    ensures var s' := Step(s, a); scope in s'.redis.locks ==> s'.redis.locks[scope] in s'.requests
  {
    if a.Advance? && a.id in s.requests {
      match s.requests[a.id].pc
      case Find(_) =>
      case Insert(_) =>
      case Resolve(_) =>
      case _ =>
    }
  }

  /** A lock always carries the token of a request that has arrived. */
  lemma {:induction false} LockIsNamed(acts: seq<Action>, scope: Scope)
    requires scope in Run(acts).redis.locks
    ensures Run(acts).redis.locks[scope] in Run(acts).requests
  {
    if acts != [] {
      var before := acts[..|acts| - 1];
      if scope in Run(before).redis.locks {
        LockIsNamed(before, scope);
      }
      LockStaysNamed(Run(before), acts[|acts| - 1], scope);
    }
  }

  /** After any run, a request that nothing else interferes with is answered as `Expected` says of its
      caller's own fields, and exactly its own order is added if there was none, whatever its calls to
      Redis do. If none of them fails, and nobody holds the lock unless a result is there already, the
      answer also says rightly whether it is a replay, its result is stored and no lock is left. */
  lemma AloneIsAnswered(acts: seq<Action>, id: nat, raw: RawRequest, webhookURL: string, redis: nat -> Fault,
                        drawn: Draw,
                        s: System, s1: System, s2: System)
    requires s == Run(acts) && id !in s.requests && InBounds(raw)
    requires FindRow(s.db.orders, Scope(raw.tenant, raw.key)).None? ==>
               && Fresh(s.db, drawn)
               && Storable(raw.tenant) && Storable(raw.key) && Storable(raw.source)
               && Storable(raw.externalID) && Storable(raw.eventID)
    requires var scope := Scope(raw.tenant, raw.key);
             redis(9) == Fine && scope in s.redis.locks ==> scope in s.redis.results
    requires s1 == Step(s, Arrive(id, raw, webhookURL)) && s2 == Calls(s1, id, redis, drawn, 9)
    ensures id in s1.requests && Carries(s1.requests[id].input, raw, webhookURL)
    ensures var input := s1.requests[id].input;
            Answered(s2, id, input, Expected(s.db, input, drawn), After(s.db, input, drawn, id), Calm(redis, 9),
                     Settled(s.redis, input, id, Expected(s.db, input, drawn)))
  {
    InvariantAlways(acts);
    ArrivalIsReady(s, id, raw, webhookURL, drawn);
    if Scope(raw.tenant, raw.key) in s.redis.locks {
      LockIsNamed(acts, Scope(raw.tenant, raw.key));
    }
    assert Scope(raw.tenant, raw.key) in s.redis.results ==> CacheInvariant(s, Scope(raw.tenant, raw.key));
    FromLook(s1, id, redis, drawn, 9);
  }

  /** One that waits for the holder of the lock finds the holder's result at its next look. */
  lemma WaiterIsAnswered(s: System, id: nat, redis: nat -> Fault, drawn: Draw)
    requires Invariant(s) && id in s.requests && s.requests[id].pc == Poll
             && s.requests[id].input.scope in s.redis.results
    requires redis(1) == Fine
    ensures var input := s.requests[id].input;
            Ends(Calls(s, id, redis, drawn, 2), id, input, Expected(s.db, input, drawn), s.db, s.redis)
  {
    var s1, input := OneCall(s, id, redis(2), drawn), s.requests[id].input;
    assert RequestInvariant(s, id) && CacheInvariant(s, input.scope);
    FingerprintIsFields(s, input);
    LookStep(s1, id, redis(1), drawn);
    DoneStays(OneCall(s1, id, redis(1), drawn), id, redis, drawn, 0);
  }

  /** In every reachable state a call to PostgreSQL that fails makes the request fail, at once as the
      fallback and otherwise by its next call, which releases the lock; no such call changes Redis, and the
      tables only if it was an insert that took effect before its answer was lost. */
  lemma FailureIsReported(acts: seq<Action>, id: nat, fault: Fault, drawn: Draw, next: Fault, s: System, s1: System)
    requires s == Run(acts) && s1 == Step(s, Advance(id, fault, drawn)) && id in s.requests && fault != Fine
    requires s.requests[id].pc.Find? || s.requests[id].pc.Insert? || s.requests[id].pc.Resolve?
    requires s.requests[id].pc.Insert? ==> Fresh(s.db, drawn)
    ensures id in s1.requests && s1.redis == s.redis
    ensures s1.db == s.db || (s.requests[id].pc.Insert? && fault == Late)
    ensures s1.requests[id].pc == if s.requests[id].pc.mode == Fallback then Done(Failed) else Release(Some(Failed))
    ensures var s2 := Step(s1, Advance(id, next, drawn));
            id in s2.requests && s2.requests[id].pc == Done(Failed) && s2.db == s1.db
  {
  }
}
