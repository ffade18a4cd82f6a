/**
 The in-process idempotency registry of internal/reliability/idempotency.go.

 Entries are shared by pointer between the map, the leader and its followers, so they live in
 `cells` and a pointer is an index into it. `Decide`, `Purge` and `Complete` are the locked
 sections; operations run and followers wait outside the lock.
 */
module Idempotency {
  import opened Common

  datatype Scope = Scope(tenant: string, key: string)

  datatype Result<+T> = Ok(value: T) | Err(error: string)

  /** `outcome` is None until `ready` is closed; `expiresAt` None is the zero time. */
  datatype Entry<+T> = Entry(fingerprint: string, outcome: Option<Result<T>>, expiresAt: Option<int>) {
    predicate Expired(now: int) {
      expiresAt.Some? && now >= expiresAt.value
    }
  }

  datatype Registry<T> = Registry(cells: seq<Entry<T>>, entries: map<Scope, nat>, nextPurge: int) {
    predicate WellFormed() {
      forall k | k in entries :: entries[k] < |cells|
    }

    predicate Stale(k: Scope, now: int) {
      k in entries && entries[k] < |cells| && cells[entries[k]].Expired(now)
    }

    function StaleKeys(now: int): set<Scope> {
      set k | k in entries && Stale(k, now)
    }
  }

  datatype Decision = Conflict | Follow(cell: nat) | Lead(cell: nat)

  function Purge<T>(ttl: int, r: Registry<T>, now: int): Registry<T> {
    Registry(r.cells, map k | k in r.entries && !r.Stale(k, now) :: r.entries[k], now + Min(ttl, MINUTE))
  }

  function MaybePurge<T>(ttl: int, r: Registry<T>, now: int): Registry<T> {
    if now < r.nextPurge then r else Purge(ttl, r, now)
  }

  function Decide<T>(r: Registry<T>, scope: Scope, fingerprint: string, now: int): (Registry<T>, Decision)
    requires r.WellFormed()
  {
    if scope in r.entries && !r.cells[r.entries[scope]].Expired(now) then
      (r, if r.cells[r.entries[scope]].fingerprint != fingerprint then Conflict else Follow(r.entries[scope]))
    else
      (r.(cells := r.cells + [Entry(fingerprint, None, None)], entries := r.entries[scope := |r.cells|]),
          Lead(|r.cells|))
  }

  function Complete<T>(ttl: int, r: Registry<T>, scope: Scope, cell: nat, result: Result<T>, now: int): Registry<T>
    requires cell < |r.cells|
  {
    var done := r.cells[cell].(outcome := Some(result));
    match result
    case Ok(_) => r.(cells := r.cells[cell := done.(expiresAt := Some(now + ttl))])
    case Err(_) => r.(cells := r.cells[cell := done], entries := r.entries - {scope})
  }

  lemma PurgeDropsStale<T>(ttl: int, r: Registry<T>, now: int)
    ensures Purge(ttl, r, now).entries == r.entries - r.StaleKeys(now)
  {
  }

  lemma DropOne<K, V>(m: map<K, V>, k: K)
    requires k in m
    ensures |m - {k}| == |m| - 1
  {
    assert (m - {k}).Keys == m.Keys - {k};
  }

  /** The loop has dealt with everything but `todo`. */
  ghost predicate Sifted<T>(r: Registry<T>, now: int, todo: set<Scope>, kept: map<Scope, nat>) {
    && (forall k :: k in kept <==> k in r.entries && (k in todo || !r.Stale(k, now)))
    && (forall k | k in kept :: kept[k] == r.entries[k])
  }

  lemma SiftOne<T>(r: Registry<T>, now: int, todo: set<Scope>, kept: map<Scope, nat>, k: Scope)
    requires k in todo && todo <= r.entries.Keys && Sifted(r, now, todo, kept)
    ensures k in kept && kept[k] == r.entries[k]
    ensures Sifted(r, now, todo - {k}, if r.Stale(k, now) then kept - {k} else kept)
    ensures |kept - {k}| == |kept| - 1
  {
    DropOne(kept, k);
  }

  lemma SiftedAll<T>(r: Registry<T>, now: int, kept: map<Scope, nat>)
    requires Sifted(r, now, {}, kept)
    ensures kept == r.entries - r.StaleKeys(now)
    ensures |kept| + |r.StaleKeys(now)| == |r.entries|
  {
    var gone := r.StaleKeys(now);
    assert kept.Keys == r.entries.Keys - gone;
  }

  /** The deletion loop of purgeExpiredLocked. */
  method DeleteStale<T>(r: Registry<T>, now: int) returns (kept: map<Scope, nat>, removed: nat)
    requires r.WellFormed()
    ensures kept == r.entries - r.StaleKeys(now)
    ensures removed == |r.StaleKeys(now)|
  {
    kept, removed := r.entries, 0;
    var todo := r.entries.Keys;
    while todo != {}
      invariant todo <= r.entries.Keys && Sifted(r, now, todo, kept)
      invariant removed + |kept| == |r.entries|
    {
      var k :| k in todo;
      SiftOne(r, now, todo, kept, k);
      todo := todo - {k};
      var entry := r.cells[kept[k]];
      if entry.expiresAt.Some? && now >= entry.expiresAt.value {
        kept := kept - {k};
        removed := removed + 1;
      }
    }
    SiftedAll(r, now, kept);
  }

  class IdempotencyRegistry<T> {
    const ttl: int
    var cells: seq<Entry<T>>
    var entries: map<Scope, nat>
    var nextPurge: int

    ghost function Value(): Registry<T>
      reads this
    {
      Registry(cells, entries, nextPurge)
    }

    constructor (ttl: int, now: int)
      requires ttl > 0
      ensures this.ttl == ttl && Value() == Registry([], map[], now + Min(ttl, MINUTE))
    {
      this.ttl := ttl;
      cells, entries, nextPurge := [], map[], now + Min(ttl, MINUTE);
    }

    /** The first locked section of DoWithFingerprint; `now` was read before the lock. */
    method Begin(scope: Scope, fingerprint: string, now: int) returns (decision: Decision)
      requires Value().WellFormed()
      modifies this
      ensures Value().WellFormed()
      ensures (Value(), decision) == Decide(MaybePurge(ttl, old(Value()), now), scope, fingerprint, now)
    {
      var _ := PurgeExpiredLocked(now, false);
      if scope in entries {
        var cell := entries[scope];
        if cells[cell].expiresAt.None? || now < cells[cell].expiresAt.value {
          if cells[cell].fingerprint != fingerprint {
            return Conflict;
          }
          return Follow(cell);
        }
      }
      ghost var before := entries;
      entries := entries - {scope};
      decision := Lead(|cells|);
      entries := entries[scope := |cells|];
      cells := cells + [Entry(fingerprint, None, None)];
      assert entries == before[scope := |cells| - 1];
    }

    /** The second locked section, run by the leader; the clock is read under the lock. */
    method Finish(scope: Scope, cell: nat, result: Result<T>, now: int)
      requires Value().WellFormed() && cell < |cells|
      modifies this
      ensures Value().WellFormed() && Value() == Complete(ttl, old(Value()), scope, cell, result, now)
    {
      cells := cells[cell := cells[cell].(outcome := Some(result))];
      if result.Ok? {
        cells := cells[cell := cells[cell].(expiresAt := Some(now + ttl))];
      } else {
        entries := entries - {scope};
      }
    }

    method PurgeExpired(now: int) returns (removed: nat)
      requires Value().WellFormed()
      modifies this
      ensures Value().WellFormed() && Value() == Purge(ttl, old(Value()), now)
      ensures removed == |old(Value()).StaleKeys(now)|
    {
      removed := PurgeExpiredLocked(now, true);
    }

    method PurgeExpiredLocked(now: int, force: bool) returns (removed: nat)
      requires Value().WellFormed()
      modifies this
      ensures Value().WellFormed()
      ensures Value() == if force then Purge(ttl, old(Value()), now) else MaybePurge(ttl, old(Value()), now)
      ensures removed == if force || now >= old(nextPurge) then |old(Value()).StaleKeys(now)| else 0
    {
      if !force && now < nextPurge {
        return 0;
      }
      PurgeDropsStale(ttl, Value(), now);
      entries, removed := DeleteStale(Registry(cells, entries, nextPurge), now);
      nextPurge := now + Min(ttl, MINUTE);
    }
  }

  /* ---------- any interleaving of callers ---------- */

  /** Where a call of DoWithFingerprint stands. A finished replay remembers the cell it read. */
  datatype Pc<+T> =
    | Leading(cell: nat)
    | Waiting(cell: nat)
    | Led(cell: nat, result: Result<T>)
    | Replayed(cell: nat, result: Result<T>)
    | Refused
    | GaveUp

  datatype Call<+T> = Call(scope: Scope, fingerprint: string, pc: Pc<T>)

  /** Who registered a cell, for which scope, and at what time by the clock on the wall. */
  datatype Leader = Leader(scope: Scope, call: nat, registeredAt: int)

  datatype System<T> = System(registry: Registry<T>, time: int, calls: map<nat, Call<T>>, leaders: seq<Leader>)

  datatype Action<+T> =
    | Tick(d: nat)
    | Enter(id: nat, scope: Scope, fingerprint: string, now: int)
    | Report(id: nat, result: Result<T>)
    | Receive(id: nat)
    | Cancel(id: nat)
    | ForcePurge(now: int)

  function Start<T>(ttl: int, time: int): System<T> {
    System(Registry([], map[], time + Min(ttl, MINUTE)), time, map[], [])
  }

  function EnterStep<T>(ttl: int, purging: bool, s: System<T>, id: nat, scope: Scope, fingerprint: string,
                        now: int): System<T>
    requires s.registry.WellFormed()
  {
    var r := if purging then MaybePurge(ttl, s.registry, now) else s.registry;
    match Decide(r, scope, fingerprint, now)
    case (r', Conflict) => s.(registry := r', calls := s.calls[id := Call(scope, fingerprint, Refused)])
    case (r', Follow(c)) => s.(registry := r', calls := s.calls[id := Call(scope, fingerprint, Waiting(c))])
    case (r', Lead(c)) => System(r', s.time, s.calls[id := Call(scope, fingerprint, Leading(c))],
                                 s.leaders + [Leader(scope, id, s.time)])
  }

  /** One step. `now` may be any earlier reading of the clock; with `purging` false the registry is a
      plain expiry map that never purges. Steps a caller cannot take leave the state alone. */
  function Step<T>(ttl: int, purging: bool, s: System<T>, a: Action<T>): System<T> {
    if !s.registry.WellFormed() then s
    else
      match a
      case Tick(d) => s.(time := s.time + d)
      case Enter(id, scope, fingerprint, now) =>
        if id in s.calls || now > s.time then s else EnterStep(ttl, purging, s, id, scope, fingerprint, now)
      case Report(id, result) =>
        if id in s.calls && s.calls[id].pc.Leading? && s.calls[id].pc.cell < |s.registry.cells| then
          var call := s.calls[id];
          s.(registry := Complete(ttl, s.registry, call.scope, call.pc.cell, result, s.time),
             calls := s.calls[id := call.(pc := Led(call.pc.cell, result))])
        else s
      case Receive(id) =>
        if id in s.calls && s.calls[id].pc.Waiting? && s.calls[id].pc.cell < |s.registry.cells|
           && s.registry.cells[s.calls[id].pc.cell].outcome.Some? then
          var call := s.calls[id];
          s.(calls := s.calls[id := call.(pc := Replayed(call.pc.cell, s.registry.cells[call.pc.cell].outcome.value))])
        else s
      case Cancel(id) =>
        if id in s.calls && s.calls[id].pc.Waiting?
        then s.(calls := s.calls[id := s.calls[id].(pc := GaveUp)]) else s
      case ForcePurge(now) =>
        if purging && now <= s.time then s.(registry := Purge(ttl, s.registry, now)) else s
  }

  function Run<T>(ttl: int, purging: bool, time: int, acts: seq<Action<T>>): System<T> {
    if acts == [] then Start(ttl, time)
    else Step(ttl, purging, Run(ttl, purging, time, acts[..|acts| - 1]), acts[|acts| - 1])
  }

  /* ---------- the invariant ---------- */

  ghost predicate CellInvariant<T>(ttl: int, s: System<T>, c: nat)
    requires c < |s.registry.cells| == |s.leaders|
  {
    var cell, leader := s.registry.cells[c], s.leaders[c];
    var mapped := leader.scope in s.registry.entries && s.registry.entries[leader.scope] == c;
    && leader.registeredAt <= s.time
    && leader.call in s.calls
    && s.calls[leader.call].scope == leader.scope
    && s.calls[leader.call].fingerprint == cell.fingerprint
    && match cell.outcome
       case None => mapped && cell.expiresAt == None && s.calls[leader.call].pc == Leading(c)
       case Some(Err(_)) => !mapped && cell.expiresAt == None && s.calls[leader.call].pc == Led(c, cell.outcome.value)
       case Some(Ok(_)) =>
         && cell.expiresAt.Some?
         && leader.registeredAt <= cell.expiresAt.value - ttl <= s.time
         && (!mapped ==> cell.Expired(s.time))
         && s.calls[leader.call].pc == Led(c, cell.outcome.value)
  }

  ghost predicate CallInvariant<T>(s: System<T>, id: nat)
    requires id in s.calls && |s.registry.cells| == |s.leaders|
  {
    var call := s.calls[id];
    match call.pc
    case Leading(c) => c < |s.leaders| && s.leaders[c].call == id && s.registry.cells[c].outcome == None
    case Waiting(c) =>
      c < |s.leaders| && s.leaders[c].scope == call.scope && s.registry.cells[c].fingerprint == call.fingerprint
    case Led(c, result) => c < |s.leaders| && s.leaders[c].call == id && s.registry.cells[c].outcome == Some(result)
    case Replayed(c, result) =>
      && c < |s.leaders| && s.leaders[c].scope == call.scope
      && s.registry.cells[c].fingerprint == call.fingerprint
      && s.registry.cells[c].outcome == Some(result)
    case _ => true
  }

  /** A later leader of the scope registered only after the earlier one's result had expired, or after
      the earlier one had failed. */
  ghost predicate Spaced<T>(s: System<T>, i: nat, j: nat)
    requires i < j < |s.leaders| == |s.registry.cells|
  {
    s.leaders[i].scope == s.leaders[j].scope ==>
      && s.registry.cells[i].outcome.Some?
      && (s.registry.cells[i].outcome.value.Ok? ==> s.registry.cells[i].Expired(s.leaders[j].registeredAt))
  }

  ghost predicate Invariant<T>(ttl: int, s: System<T>) {
    && s.registry.WellFormed()
    && |s.registry.cells| == |s.leaders|
    && (forall k | k in s.registry.entries :: s.leaders[s.registry.entries[k]].scope == k)
    && (forall c: nat | c < |s.leaders| :: CellInvariant(ttl, s, c))
    && (forall id | id in s.calls :: CallInvariant(s, id))
    && (forall i: nat, j: nat | i < j < |s.leaders| :: Spaced(s, i, j))
  }

  lemma PurgeKeepsInvariant<T>(ttl: int, s: System<T>, now: int)
    requires Invariant(ttl, s) && now <= s.time
    ensures Invariant(ttl, s.(registry := Purge(ttl, s.registry, now)))
  {
    var s' := s.(registry := Purge(ttl, s.registry, now));
    forall c: nat | c < |s.leaders| ensures CellInvariant(ttl, s', c) {
      assert CellInvariant(ttl, s, c);
    }
    forall id | id in s.calls ensures CallInvariant(s', id) {
      assert CallInvariant(s, id);
    }
    forall i: nat, j: nat | i < j < |s.leaders| ensures Spaced(s', i, j) {
      assert Spaced(s, i, j);
    }
  }

  lemma EnterKeepsInvariant<T>(ttl: int, s: System<T>, id: nat, scope: Scope, fingerprint: string, now: int)
    requires Invariant(ttl, s) && now <= s.time && id !in s.calls
    ensures Invariant(ttl, EnterStep(ttl, false, s, id, scope, fingerprint, now))
  {
    var s' := EnterStep(ttl, false, s, id, scope, fingerprint, now);
    var n := |s.leaders|;
    forall c: nat | c < |s'.leaders| ensures CellInvariant(ttl, s', c) {
      if c < n {
        assert CellInvariant(ttl, s, c);
      }
    }
    forall x | x in s'.calls ensures CallInvariant(s', x) {
      if x != id {
        assert CallInvariant(s, x);
      }
    }
    forall i: nat, j: nat | i < j < |s'.leaders| ensures Spaced(s', i, j) {
      assert CellInvariant(ttl, s, i);
      if j < n {
        assert Spaced(s, i, j);
      }
    }
  }

  lemma ReportKeepsInvariant<T>(ttl: int, s: System<T>, id: nat, result: Result<T>)
    requires ttl > 0 && Invariant(ttl, s)
    requires id in s.calls && s.calls[id].pc.Leading?
    ensures Invariant(ttl, Step(ttl, false, s, Report(id, result)))
  {
    assert CallInvariant(s, id);
    var cell := s.calls[id].pc.cell;
    assert CellInvariant(ttl, s, cell);
    var s' := Step(ttl, false, s, Report(id, result));
    forall c: nat | c < |s'.leaders| ensures CellInvariant(ttl, s', c) {
      assert CellInvariant(ttl, s, c);
    }
    forall x | x in s'.calls ensures CallInvariant(s', x) {
      assert CallInvariant(s, x);
    }
    forall i: nat, j: nat | i < j < |s'.leaders| ensures Spaced(s', i, j) {
      assert Spaced(s, i, j);
    }
  }

  lemma OtherStepsKeepInvariant<T>(ttl: int, s: System<T>, a: Action<T>)
    requires Invariant(ttl, s) && (a.Tick? || a.Receive? || a.Cancel?)
    ensures Invariant(ttl, Step(ttl, false, s, a))
  {
    var s' := Step(ttl, false, s, a);
    forall c: nat | c < |s'.leaders| ensures CellInvariant(ttl, s', c) {
      assert CellInvariant(ttl, s, c);
    }
    forall x | x in s'.calls ensures CallInvariant(s', x) {
      assert CallInvariant(s, x);
    }
    forall i: nat, j: nat | i < j < |s'.leaders| ensures Spaced(s', i, j) {
      assert Spaced(s, i, j);
    }
  }

  lemma StepKeepsInvariant<T>(ttl: int, purging: bool, s: System<T>, a: Action<T>)
    requires ttl > 0 && Invariant(ttl, s)
    ensures Invariant(ttl, Step(ttl, purging, s, a))
  {
    match a
    case Enter(id, scope, fingerprint, now) =>
      if id !in s.calls && now <= s.time {
        if purging && now >= s.registry.nextPurge {
          PurgeKeepsInvariant(ttl, s, now);
          EnterKeepsInvariant(ttl, s.(registry := Purge(ttl, s.registry, now)), id, scope, fingerprint, now);
        } else {
          EnterKeepsInvariant(ttl, s, id, scope, fingerprint, now);
        }
      }
    case Report(id, result) =>
      if id in s.calls && s.calls[id].pc.Leading? {
        ReportKeepsInvariant(ttl, s, id, result);
      }
    case ForcePurge(now) =>
      if now <= s.time {
        PurgeKeepsInvariant(ttl, s, now);
      }
    case _ => OtherStepsKeepInvariant(ttl, s, a);
  }

  lemma StartInvariant<T>(ttl: int, time: int)
    ensures Invariant(ttl, Start<T>(ttl, time))
  {
  }

  lemma {:induction false} InvariantAlways<T>(ttl: int, purging: bool, time: int, acts: seq<Action<T>>)
    requires ttl > 0
    ensures Invariant(ttl, Run(ttl, purging, time, acts))
  {
    if acts == [] {
      StartInvariant<T>(ttl, time);
    } else {
      InvariantAlways(ttl, purging, time, acts[..|acts| - 1]);
      StepKeepsInvariant(ttl, purging, Run(ttl, purging, time, acts[..|acts| - 1]), acts[|acts| - 1]);
    }
  }

  /* ---------- main results ---------- */

  /** At most one leader per scope is in flight, and while it is the map holds exactly its entry. */
  lemma OneLeaderPerScope<T>(ttl: int, purging: bool, time: int, acts: seq<Action<T>>, a: nat, b: nat)
    requires ttl > 0
    requires var s := Run(ttl, purging, time, acts);
             && a in s.calls && s.calls[a].pc.Leading?
             && b in s.calls && s.calls[b].pc.Leading?
             && s.calls[a].scope == s.calls[b].scope
    ensures a == b
    ensures var s := Run(ttl, purging, time, acts);
            s.calls[a].scope in s.registry.entries && s.registry.entries[s.calls[a].scope] == s.calls[a].pc.cell
  {
    var s := Run(ttl, purging, time, acts);
    InvariantAlways(ttl, purging, time, acts);
    assert CallInvariant(s, a) && CallInvariant(s, b);
    assert CellInvariant(ttl, s, s.calls[a].pc.cell) && CellInvariant(ttl, s, s.calls[b].pc.cell);
  }

  /** A failing leader's delete removes its own entry and nothing else. */
  lemma FailureDeletesOwnEntry<T>(ttl: int, purging: bool, time: int, acts: seq<Action<T>>, id: nat, error: string)
    requires ttl > 0
    requires var s := Run(ttl, purging, time, acts); id in s.calls && s.calls[id].pc.Leading?
    ensures var s := Run(ttl, purging, time, acts);
            var before := s.registry.entries;
            var after := Step(ttl, purging, s, Report(id, Err(error))).registry.entries;
            && s.calls[id].scope in before && before[s.calls[id].scope] == s.calls[id].pc.cell
            && after == map k | k in before && before[k] != s.calls[id].pc.cell :: before[k]
  {
    var s := Run(ttl, purging, time, acts);
    InvariantAlways(ttl, purging, time, acts);
    assert CallInvariant(s, id);
    assert CellInvariant(ttl, s, s.calls[id].pc.cell);
  }

  /** Of two leaders of one scope the later registers, by the clock at its locked section, no sooner
      than ttl after the earlier one completed successfully; clock readings taken before the lock may
      be arbitrarily old. */
  lemma SuccessfulLeadersAreTtlApart<T>(ttl: int, purging: bool, time: int, acts: seq<Action<T>>, i: nat, j: nat)
    requires ttl > 0
    requires var s := Run(ttl, purging, time, acts); i < j < |s.leaders| && s.leaders[i].scope == s.leaders[j].scope
    ensures var s := Run(ttl, purging, time, acts);
            && |s.registry.cells| == |s.leaders|
            && s.registry.cells[i].outcome.Some?
            && (s.registry.cells[i].outcome.value.Ok? ==>
                  && s.registry.cells[i].expiresAt.Some?
                  && var completedAt := s.registry.cells[i].expiresAt.value - ttl;
                     s.leaders[i].registeredAt <= completedAt && completedAt + ttl <= s.leaders[j].registeredAt)
  {
    var s := Run(ttl, purging, time, acts);
    InvariantAlways(ttl, purging, time, acts);
    assert CellInvariant(ttl, s, i) && Spaced(s, i, j);
  }

  /** Every replayed result is the result of one leader with the same scope and fingerprint. */
  lemma ReplayNamesOneLeader<T>(ttl: int, purging: bool, time: int, acts: seq<Action<T>>, id: nat)
    requires ttl > 0
    requires var s := Run(ttl, purging, time, acts); id in s.calls && s.calls[id].pc.Replayed?
    ensures var s := Run(ttl, purging, time, acts);
            exists leader :: leader in s.calls
                             && s.calls[leader].pc == Led(s.calls[id].pc.cell, s.calls[id].pc.result)
                             && s.calls[leader].scope == s.calls[id].scope
                             && s.calls[leader].fingerprint == s.calls[id].fingerprint
  {
    var s := Run(ttl, purging, time, acts);
    InvariantAlways(ttl, purging, time, acts);
    assert CallInvariant(s, id);
    assert CellInvariant(ttl, s, s.calls[id].pc.cell);
    assert s.leaders[s.calls[id].pc.cell].call in s.calls;
  }

  /* ---------- purging refines a map that never purges ---------- */

  function Reading<T>(a: Action<T>): Option<int> {
    match a
    case Enter(_, _, _, now) => Some(now)
    case ForcePurge(now) => Some(now)
    case _ => None
  }

  /** The readings of calls and forced purges come in the order in which they take the lock. */
  ghost predicate Ordered<T>(acts: seq<Action<T>>) {
    forall i, j | 0 <= i < j < |acts| ::
      Reading(acts[i]).Some? && Reading(acts[j]).Some? ==> Reading(acts[i]).value <= Reading(acts[j]).value
  }

  /** Everything but the map agrees; the map has lost only results that are expired at `t`. */
  ghost predicate Simulates<T>(s: System<T>, plain: System<T>, t: int) {
    && s.time == plain.time && s.calls == plain.calls && s.leaders == plain.leaders
    && s.registry.cells == plain.registry.cells
    && s.registry.WellFormed() && plain.registry.WellFormed()
    && (forall k | k in s.registry.entries ::
          k in plain.registry.entries && plain.registry.entries[k] == s.registry.entries[k])
    && (forall k | k in plain.registry.entries && k !in s.registry.entries :: plain.registry.Stale(k, t))
  }

  lemma EnterSimulates<T>(ttl: int, s: System<T>, plain: System<T>, id: nat, scope: Scope, fingerprint: string,
                          now: int, t: int)
    requires Simulates(s, plain, t) && t <= now
    ensures Simulates(EnterStep(ttl, true, s, id, scope, fingerprint, now),
                      EnterStep(ttl, false, plain, id, scope, fingerprint, now), now)
  {
    var r := MaybePurge(ttl, s.registry, now);
    assert Simulates(s.(registry := r), plain, now);
    if scope in plain.registry.entries && scope !in r.entries {
      assert plain.registry.Stale(scope, now);
    }
  }

  lemma ReportSimulates<T>(ttl: int, s: System<T>, plain: System<T>, id: nat, result: Result<T>, t: int)
    requires ttl > 0 && Invariant(ttl, s) && Simulates(s, plain, t)
    requires id in s.calls && s.calls[id].pc.Leading?
    ensures Simulates(Step(ttl, true, s, Report(id, result)), Step(ttl, false, plain, Report(id, result)), t)
  {
    assert CallInvariant(s, id);
    var cell, scope := s.calls[id].pc.cell, s.calls[id].scope;
    assert CellInvariant(ttl, s, cell);
    forall k | k in plain.registry.entries && k !in s.registry.entries ensures plain.registry.entries[k] != cell {
      assert plain.registry.Stale(k, t);
    }
  }

  lemma StepSimulates<T>(ttl: int, s: System<T>, plain: System<T>, a: Action<T>, t: int)
    requires ttl > 0 && Invariant(ttl, s) && Simulates(s, plain, t)
    requires Reading(a).Some? ==> t <= Reading(a).value
    ensures Simulates(Step(ttl, true, s, a), Step(ttl, false, plain, a),
                      if Reading(a).Some? then Reading(a).value else t)
  {
    match a
    case Enter(id, scope, fingerprint, now) =>
      if id !in s.calls && now <= s.time {
        EnterSimulates(ttl, s, plain, id, scope, fingerprint, now, t);
      }
    case Report(id, result) =>
      if id in s.calls && s.calls[id].pc.Leading? {
        ReportSimulates(ttl, s, plain, id, result, t);
      }
    case _ =>
  }

  lemma {:induction false} RunSimulates<T>(ttl: int, time: int, acts: seq<Action<T>>, t: int)
    requires ttl > 0 && Ordered(acts)
    requires forall i | 0 <= i < |acts| :: Reading(acts[i]).Some? ==> Reading(acts[i]).value <= t
    ensures Simulates(Run(ttl, true, time, acts), Run(ttl, false, time, acts), t)
  {
    if acts != [] {
      var before, a := acts[..|acts| - 1], acts[|acts| - 1];
      var u := if Reading(a).Some? then Reading(a).value else t;
      RunSimulates(ttl, time, before, u);
      InvariantAlways(ttl, true, time, before);
      StepSimulates(ttl, Run(ttl, true, time, before), Run(ttl, false, time, before), a, u);
    }
  }

  /** With ordered readings no caller can tell a purging registry from one that never purges: every
      call stands exactly where it would, with the same result. */
  lemma PurgingIsInvisible<T>(ttl: int, time: int, acts: seq<Action<T>>)
    requires ttl > 0 && Ordered(acts)
    ensures Run(ttl, true, time, acts).calls == Run(ttl, false, time, acts).calls
  {
    RunSimulates(ttl, time, acts, Bound(acts));
  }

  function Bound<T>(acts: seq<Action<T>>): (t: int)
    ensures forall i | 0 <= i < |acts| :: Reading(acts[i]).Some? ==> Reading(acts[i]).value <= t
  {
    if acts == [] then 0
    else
      var t, r := Bound(acts[..|acts| - 1]), Reading(acts[|acts| - 1]);
      assert forall i | 0 <= i < |acts| - 1 :: acts[i] == acts[..|acts| - 1][i];
      if r.Some? && r.value > t then r.value else t
  }

  /** Exactly which late readings can tell: after a purge at `p`, a call reading `now` is decided
      differently iff its scope held a result that had expired at `p` but not yet at `now`. */
  lemma PurgeShowsIff<T>(ttl: int, r: Registry<T>, p: int, scope: Scope, fingerprint: string, now: int)
    requires r.WellFormed()
    ensures Decide(Purge(ttl, r, p), scope, fingerprint, now).1 != Decide(r, scope, fingerprint, now).1
            <==> r.Stale(scope, p) && !r.Stale(scope, now)
    ensures forall k :: k in Purge(ttl, r, p).entries <==> k in r.entries && !r.Stale(k, p)
  {
    if r.Stale(scope, p) {
      assert Decide(Purge(ttl, r, p), scope, fingerprint, now).1 == Lead(|r.cells|);
    }
  }

  lemma RunMore<T>(ttl: int, purging: bool, time: int, acts: seq<Action<T>>, a: Action<T>)
    ensures Run(ttl, purging, time, acts + [a]) == Step(ttl, purging, Run(ttl, purging, time, acts), a)
  {
    assert (acts + [a])[..|acts|] == acts;
  }

  /** A result, and the time at which it expires. */
  function Expiring<T>(ttl: nat, scope: Scope, fingerprint: string, value: T): seq<Action<T>> {
    [Enter(0, scope, fingerprint, 0)] + [Report(0, Ok(value))] + [Tick(ttl)]
  }

  /** A purge then, and a caller whose clock reading is older than its wait for the lock. */
  function LateReading<T>(ttl: nat, scope: Scope, fingerprint: string, value: T): seq<Action<T>> {
    Expiring(ttl, scope, fingerprint, value) + [ForcePurge(ttl)] + [Enter(1, scope, fingerprint, ttl - 1)]
  }

  /** Such a caller leads, where without the purge it would have followed; so for every ttl. */
  lemma LateReadingSeesPurge<T>(ttl: nat, scope: Scope, fingerprint: string, value: T)
    requires ttl > 0
    ensures var acts := LateReading(ttl, scope, fingerprint, value);
            var s, plain := Run(ttl, true, 0, acts), Run(ttl, false, 0, acts);
            && 1 in s.calls && s.calls[1].pc == Leading(1)
            && 1 in plain.calls && plain.calls[1].pc == Waiting(0)
  {
    LateReadingRuns(ttl, true, scope, fingerprint, value);
    LateReadingRuns(ttl, false, scope, fingerprint, value);
  }

  ghost predicate Kept<T>(s: System<T>, ttl: nat, scope: Scope, fingerprint: string, value: T) {
    && s.registry.cells == [Entry(fingerprint, Some(Ok(value)), Some(ttl))]
    && s.registry.entries == map[scope := 0] && s.time == ttl && s.calls.Keys == {0}
  }

  lemma ExpiringReach<T>(ttl: nat, purging: bool, scope: Scope, fingerprint: string, value: T)
    requires ttl > 0
    ensures Kept(Run(ttl, purging, 0, Expiring(ttl, scope, fingerprint, value)), ttl, scope, fingerprint, value)
  {
    var a1: seq<Action<T>> := [Enter(0, scope, fingerprint, 0)];
    RunMore<T>(ttl, purging, 0, [], Enter(0, scope, fingerprint, 0));
    assert [] + a1 == a1;
    FirstCaller<T>(ttl, purging, scope, fingerprint);
    RunMore(ttl, purging, 0, a1, Report(0, Ok(value)));
    RunMore(ttl, purging, 0, a1 + [Report(0, Ok(value))], Tick(ttl));
    FirstResult(Run(ttl, purging, 0, a1), ttl, purging, scope, fingerprint, value);
  }

  ghost predicate Started<T>(s: System<T>, scope: Scope, fingerprint: string) {
    && s.registry.cells == [Entry(fingerprint, None, None)] && s.registry.entries == map[scope := 0]
    && s.calls == map[0 := Call(scope, fingerprint, Leading(0))] && s.time == 0
  }

  lemma FirstCaller<T>(ttl: nat, purging: bool, scope: Scope, fingerprint: string)
    requires ttl > 0
    ensures Started(Step(ttl, purging, Start<T>(ttl, 0), Enter(0, scope, fingerprint, 0)), scope, fingerprint)
  {
  }

  lemma FirstResult<T>(s: System<T>, ttl: nat, purging: bool, scope: Scope, fingerprint: string, value: T)
    requires ttl > 0 && Started(s, scope, fingerprint)
    ensures Kept(Step(ttl, purging, Step(ttl, purging, s, Report(0, Ok(value))), Tick(ttl)),
                 ttl, scope, fingerprint, value)
  {
  }

  lemma LateReadingRuns<T>(ttl: nat, purging: bool, scope: Scope, fingerprint: string, value: T)
    requires ttl > 0
    ensures var s := Run(ttl, purging, 0, LateReading(ttl, scope, fingerprint, value));
            1 in s.calls && s.calls[1].pc == if purging then Leading(1) else Waiting(0)
  {
    var kept := Expiring(ttl, scope, fingerprint, value);
    ExpiringReach(ttl, purging, scope, fingerprint, value);
    RunMore(ttl, purging, 0, kept, ForcePurge(ttl));
    RunMore(ttl, purging, 0, kept + [ForcePurge(ttl)], Enter(1, scope, fingerprint, ttl - 1));
    LateCaller(Run(ttl, purging, 0, kept), ttl, purging, scope, fingerprint, value);
  }

  lemma LateCaller<T>(s: System<T>, ttl: nat, purging: bool, scope: Scope, fingerprint: string, value: T)
    requires ttl > 0 && Kept(s, ttl, scope, fingerprint, value)
    ensures var s' := Step(ttl, purging, Step(ttl, purging, s, ForcePurge(ttl)), Enter(1, scope, fingerprint, ttl - 1));
            1 in s'.calls && s'.calls[1].pc == if purging then Leading(1) else Waiting(0)
  {
    assert s.registry.WellFormed();
    var s1 := Step(ttl, purging, s, ForcePurge(ttl));
    assert s1.registry.entries == if purging then map[] else map[scope := 0];
  }
}
