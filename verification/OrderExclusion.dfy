/**
 Order creation while Redis neither fails nor lets a lock or result expire: PostgreSQL may still
 fail, commits may lose their acknowledgement, requests may stop or give up, in any interleaving.
 */
module OrderExclusion {
  import opened Common
  import opened Orders

  predicate OnDatabase(pc: Pc) {
    pc.Find? || pc.Insert? || pc.Resolve?
  }

  /** Inside execute, between taking the lock and releasing it. */
  predicate Holding(pc: Pc) {
    pc.Recheck? || OnDatabase(pc) || pc.Publish? || pc.Release?
  }

  /** Running fn, or about to publish what it returned. */
  predicate Executing(pc: Pc) {
    OnDatabase(pc) || pc.Publish?
  }

  predicate QuietStep(s: System, a: Action) {
    match a
    case ExpireLock(_) => false
    case ExpireResult(_) => false
    case Advance(id, fault, _) => fault == Fine || (id in s.requests && OnDatabase(s.requests[id].pc))
    case _ => true
  }

  predicate QuietRun(acts: seq<Action>) {
    acts == [] || (QuietRun(acts[..|acts| - 1]) && QuietStep(Run(acts[..|acts| - 1]), acts[|acts| - 1]))
  }

  ghost predicate Exclusive(s: System, id: nat)
    requires id in s.requests
  {
    var r := s.requests[id];
    var scope := r.input.scope;
    && (Holding(r.pc) <==> scope in s.redis.locks && s.redis.locks[scope] == id)
    && (r.pc.Find? || r.pc.Insert? || r.pc.Resolve? ==> r.pc.mode == Coordinated)
    && (r.pc.Release? ==> r.pc.outcome.Some?)
    && (Executing(r.pc) ==> scope !in s.redis.results)
    && (r.pc.Publish? ==> r.executed)
    && (r.executed ==> r.pc.Publish? || scope in s.redis.results)
  }

  ghost predicate Invariant(s: System) {
    && (forall id | id in s.requests :: Exclusive(s, id))
    && (forall i, j | && i in s.requests && j in s.requests && i != j
                      && s.requests[i].executed && s.requests[j].executed ::
          s.requests[i].input.scope != s.requests[j].input.scope)
  }

  lemma OneHolder(s: System, i: nat, j: nat)
    requires Invariant(s) && i in s.requests && j in s.requests
    requires Holding(s.requests[i].pc) && Holding(s.requests[j].pc)
             && s.requests[i].input.scope == s.requests[j].input.scope
    ensures i == j
  {
    assert Exclusive(s, i) && Exclusive(s, j);
  }

  /** A step of request `id` that leaves other scopes' keys alone. */
  lemma StepOfOne(s: System, s': System, id: nat)
    requires Invariant(s) && id in s'.requests && s'.requests == s.requests[id := s'.requests[id]]
    requires Exclusive(s', id)
    requires id in s.requests ==> s'.requests[id].input == s.requests[id].input
    requires var scope := s'.requests[id].input.scope;
             && (forall other | other != scope ::
                   && (other in s'.redis.locks <==> other in s.redis.locks)
                   && (other in s.redis.locks ==> s'.redis.locks[other] == s.redis.locks[other])
                   && (other in s'.redis.results <==> other in s.redis.results))
             && (forall j | j in s.requests && j != id ::
                   (scope in s'.redis.locks && s'.redis.locks[scope] == j)
                       <==> (scope in s.redis.locks && s.redis.locks[scope] == j))
             && (scope in s.redis.results ==> scope in s'.redis.results)
             && (scope in s'.redis.results && scope !in s.redis.results ==>
                   forall j | j in s.requests && j != id && s.requests[j].input.scope == scope ::
                       !Executing(s.requests[j].pc))
             && (s'.requests[id].executed && (id !in s.requests || !s.requests[id].executed) ==>
                   forall j | j in s.requests && j != id && s.requests[j].input.scope == scope ::
                       !s.requests[j].executed)
    ensures Invariant(s')
  {
    forall other | other in s'.requests ensures Exclusive(s', other) {
      if other != id {
        assert Exclusive(s, other);
      }
    }
  }

  lemma DatabaseStepKeeps(s: System, id: nat, fault: Fault, drawn: Draw)
    requires Invariant(s) && id in s.requests && OnDatabase(s.requests[id].pc)
    ensures Invariant(DatabaseStep(s, id, fault, drawn))
  {
    var s' := DatabaseStep(s, id, fault, drawn);
    assert Exclusive(s, id);
    forall j | j in s.requests && j != id && s.requests[j].input.scope == s.requests[id].input.scope
      ensures !s.requests[j].executed
    {
      assert Exclusive(s, j);
      if s.requests[j].pc.Publish? {
        OneHolder(s, id, j);
      }
    }
    StepOfOne(s, s', id);
  }

  lemma RedisStepKeeps(s: System, id: nat)
    requires Invariant(s) && id in s.requests
    requires s.requests[id].pc.Look? || s.requests[id].pc.Lock? || s.requests[id].pc.Recheck?
             || s.requests[id].pc.Publish? || s.requests[id].pc.Release?
    ensures Invariant(RedisStep(s, id, Fine))
  {
    var s' := RedisStep(s, id, Fine);
    assert Exclusive(s, id);
    if s.requests[id].pc.Publish? {
      forall j | j in s.requests && j != id && s.requests[j].input.scope == s.requests[id].input.scope
        ensures !Executing(s.requests[j].pc)
      {
        if Executing(s.requests[j].pc) {
          OneHolder(s, id, j);
        }
      }
    }
    if s.requests[id].pc.Lock? {
      forall j | j in s.requests && j != id
        ensures s.requests[j].input.scope == s.requests[id].input.scope ==> Exclusive(s, j)
      {
        assert Exclusive(s, j);
      }
    }
    StepOfOne(s, s', id);
  }

  lemma StepKeepsInvariant(s: System, a: Action)
    requires Invariant(s) && QuietStep(s, a)
    requires forall scope | scope in s.redis.locks :: s.redis.locks[scope] in s.requests
    ensures Invariant(Step(s, a))
  {
    var s' := Step(s, a);
    match a
    case Arrive(id, raw, url) =>
      if id !in s.requests {
        StepOfOne(s, s', id);
      }
    case Advance(id, fault, drawn) =>
      if id in s.requests {
        match s.requests[id].pc
        case Done(_) =>
        case Poll =>
          assert Exclusive(s, id);
          StepOfOne(s, s', id);
        case Find(_) => DatabaseStepKeeps(s, id, fault, drawn);
        case Insert(_) => DatabaseStepKeeps(s, id, fault, drawn);
        case Resolve(_) => DatabaseStepKeeps(s, id, fault, drawn);
        case _ => RedisStepKeeps(s, id);
      }
    case GiveUp(id) =>
      if s' != s {
        assert Exclusive(s, id);
        StepOfOne(s, s', id);
      }
    case _ =>
  }

  lemma LockOwnersStay(s: System, a: Action)
    requires forall scope | scope in s.redis.locks :: s.redis.locks[scope] in s.requests
    ensures var s' := Step(s, a);
            s.requests.Keys <= s'.requests.Keys
            && forall scope | scope in s'.redis.locks :: s'.redis.locks[scope] in s'.requests
  {
    if a.Advance? && a.id in s.requests {
      match s.requests[a.id].pc
      case Lock =>
      case Release(_) =>
      case _ =>
    }
  }

  lemma {:induction false} LocksHaveOwners(acts: seq<Action>)
    ensures forall scope | scope in Run(acts).redis.locks :: Run(acts).redis.locks[scope] in Run(acts).requests
  {
    if acts != [] {
      LocksHaveOwners(acts[..|acts| - 1]);
      LockOwnersStay(Run(acts[..|acts| - 1]), acts[|acts| - 1]);
    }
  }

  lemma {:induction false} InvariantAlways(acts: seq<Action>)
    requires QuietRun(acts)
    ensures Invariant(Run(acts))
  {
    if acts != [] {
      InvariantAlways(acts[..|acts| - 1]);
      LocksHaveOwners(acts[..|acts| - 1]);
      StepKeepsInvariant(Run(acts[..|acts| - 1]), acts[|acts| - 1]);
    }
  }

  /* ---------- main results ---------- */

  /** At most one request per tenant and key is inside execute at a time, from the second look at the
      result to the release, and only while it owns the lock. */
  lemma OneExecutor(acts: seq<Action>, i: nat, j: nat)
    requires QuietRun(acts)
    requires var s := Run(acts);
             && i in s.requests && Holding(s.requests[i].pc)
             && j in s.requests && Holding(s.requests[j].pc)
             && s.requests[i].input.scope == s.requests[j].input.scope
    ensures i == j
    ensures var s := Run(acts);
            s.requests[i].input.scope in s.redis.locks && s.redis.locks[s.requests[i].input.scope] == i
  {
    InvariantAlways(acts);
    OneHolder(Run(acts), i, j);
    assert Exclusive(Run(acts), i);
  }

  /** fn succeeds at most once per tenant and key. */
  lemma ExecutedOnce(acts: seq<Action>, i: nat, j: nat)
    requires QuietRun(acts)
    requires var s := Run(acts);
             && i in s.requests && s.requests[i].executed
             && j in s.requests && s.requests[j].executed
             && s.requests[i].input.scope == s.requests[j].input.scope
    ensures i == j
  {
    InvariantAlways(acts);
  }

  /** Nobody ever creates an order without the lock. */
  lemma NobodyFallsBack(acts: seq<Action>, id: nat)
    requires QuietRun(acts) && id in Run(acts).requests
    ensures var pc := Run(acts).requests[id].pc;
            && pc != Find(Fallback) && pc != Insert(Fallback) && pc != Resolve(Fallback) && pc != Release(None)
  {
    InvariantAlways(acts);
    assert Exclusive(Run(acts), id);
  }
}
