/**
 Durable order creation: internal/product/service.go, coordinator.go and the order half of postgres.go.

 Every call to Redis or PostgreSQL is one step of one request, and any number of requests of any
 number of service instances interleave. Each call may fail, before or after it took effect; Redis
 may drop a lock or a result at any time (expiry); a request may stop for ever at any step.
 A lock's token is the id of the request that drew it, so tokens are distinct.
 */
module Orders {
  import opened Common
  import opened Domain
  import Fingerprint

  datatype Scope = Scope(tenant: string, key: string)

  datatype RawRequest = RawRequest(tenant: string, key: string, source: string, externalID: string, eventID: string,
                                   quantity: int)

  datatype Input = Input(
    scope: Scope, fingerprint: string, source: string, externalID: string,
    eventID: string, quantity: int, webhookURL: string)

  /** Defaults, bounds and fingerprint of Service.CreateOrder; None is ErrInvalidInput. */
  function Prepare(raw: RawRequest, webhookURL: string): Option<Input> {
    var source := if raw.source == "" then "api" else raw.source;
    var externalID := if raw.externalID == "" then raw.eventID else raw.externalID;
    if raw.tenant == "" || |raw.tenant| > 100 || raw.key == "" || |raw.key| > 200 || |source| > 50
       || externalID == "" || |externalID| > 200 || raw.eventID == "" || |raw.eventID| > 200
       || raw.quantity < 1 || raw.quantity > 12
    then None
    else Some(Input(Scope(raw.tenant, raw.key), Fingerprint.Product(raw.eventID, raw.quantity, source, externalID),
                    source, externalID, raw.eventID, raw.quantity, webhookURL))
  }

  /* ---------- PostgreSQL ---------- */

  /** `writer` is the request whose transaction wrote the row. */
  datatype Row = Row(order: Order, input: Input, writer: nat)

  datatype EventRow = EventRow(sequence: nat, orderID: string, tenantID: string)

  datatype Notice = Notice(order: Order, targetURL: string)

  datatype Database = Database(orders: seq<Row>, events: seq<EventRow>, deliveries: seq<Notice>)

  /** What an insert draws anew: the order id, and the number from the event sequence. Numbers are drawn
      before the commit, so they need not ascend with it. */
  datatype Draw = Draw(id: string, sequence: nat)

  const NOTHING: Draw := Draw("", 0)

  /** A text column stores no NUL: a statement with one in a parameter fails. */
  predicate Storable(text: string) {
    Fingerprint.NUL !in text
  }

  predicate Selectable(scope: Scope) {
    Storable(scope.tenant) && Storable(scope.key)
  }

  predicate Insertable(input: Input) {
    Selectable(input.scope) && Storable(input.eventID) && Storable(input.source) && Storable(input.externalID)
  }

  /** SELECT by tenant and idempotency key. */
  function FindRow(rows: seq<Row>, scope: Scope): Option<Row> {
    if rows == [] then None
    else if rows[|rows| - 1].input.scope == scope then Some(rows[|rows| - 1])
    else FindRow(rows[..|rows| - 1], scope)
  }

  function NewOrder(input: Input, drawn: Draw): Order {
    Order(drawn.id, input.scope.tenant, input.eventID, input.quantity, drawn.sequence)
  }

  /** The inserts and the commit, or the unique violation (None). */
  function Commit(db: Database, input: Input, drawn: Draw, writer: nat): (Database, Option<Order>) {
    var order := NewOrder(input, drawn);
    if FindRow(db.orders, input.scope).Some? then (db, None)
    else (Database(db.orders + [Row(order, input, writer)],
                   db.events + [EventRow(order.sequence, order.id, order.tenantID)],
                   db.deliveries + (if input.webhookURL == "" then [] else [Notice(order, input.webhookURL)])),
          Some(order))
  }

  predicate Fresh(db: Database, drawn: Draw) {
    forall row | row in db.orders :: row.order.id != drawn.id && row.order.sequence != drawn.sequence
  }

  /* ---------- Redis ---------- */

  datatype Cached = Cached(fingerprint: string, order: Order)

  datatype Redis = Redis(results: map<Scope, Cached>, locks: map<Scope, nat>)

  function SetNX(r: Redis, scope: Scope, token: nat): Redis {
    if scope in r.locks then r else r.(locks := r.locks[scope := token])
  }

  /** The release script: delete the lock only if it still holds this token. */
  function ReleaseScript(r: Redis, scope: Scope, token: nat): Redis {
    if scope in r.locks && r.locks[scope] == token then r.(locks := r.locks - {scope}) else r
  }

  function SetResult(r: Redis, scope: Scope, c: Cached): Redis {
    r.(results := r.results[scope := c])
  }

  /* ---------- one request ---------- */

  /** Missing is the error "idempotency conflict committed without an order". */
  datatype Response = Success(order: Order, replayed: bool) | Conflict | Missing | Invalid | Failed

  /** Whether the repository runs under the Redis lock or as the fallback. */
  datatype Mode = Coordinated | Fallback

  /** The next call a request makes. `Release(None)` releases the lock and then falls back. */
  datatype Pc =
    | Look
    | Lock
    | Poll
    | Recheck
    | Find(mode: Mode)
    | Insert(mode: Mode)
    | Resolve(mode: Mode)
    | Publish(order: Order, replayed: bool)
    | Release(outcome: Option<Response>)
    | Done(response: Response)

  /** `executed` is set when the request's fn has succeeded under the lock. */
  datatype Request = Request(input: Input, pc: Pc, executed: bool)

  function Verdict(order: Order, stored: string, fingerprint: string): Response {
    if stored != fingerprint then Conflict else Success(order, true)
  }

  /** How CreateOrder of the repository returns, to the coordinator or to the service. */
  function Return(r: Request, mode: Mode, response: Response): Request {
    if mode == Fallback then r.(pc := Done(response))
    else if response.Success? then r.(pc := Publish(response.order, response.replayed), executed := true)
    else r.(pc := Release(Some(response)))
  }

  datatype System = System(db: Database, redis: Redis, requests: map<nat, Request>)

  const EMPTY: System := System(Database([], [], []), Redis(map[], map[]), map[])

  datatype Action =
    | Arrive(id: nat, raw: RawRequest, webhookURL: string)
    | Advance(id: nat, fault: Fault, drawn: Draw)
    | GiveUp(id: nat)
    | ExpireLock(scope: Scope)
    | ExpireResult(scope: Scope)

  function With(s: System, id: nat, r: Request): System {
    s.(requests := s.requests[id := r])
  }

  function RedisStep(s: System, id: nat, fault: Fault): System
    requires id in s.requests
    requires s.requests[id].pc.Look? || s.requests[id].pc.Lock? || s.requests[id].pc.Recheck?
             || s.requests[id].pc.Publish? || s.requests[id].pc.Release?
  {
    var r := s.requests[id];
    var scope := r.input.scope;
    match r.pc
    case Look =>
      if fault != Fine then With(s, id, r.(pc := Find(Fallback)))
      else if scope !in s.redis.results then With(s, id, r.(pc := Lock))
      else
        var c := s.redis.results[scope];
        With(s, id, r.(pc := Done(Verdict(c.order, c.fingerprint, r.input.fingerprint))))
    case Lock =>
      var redis := if fault == Lost then s.redis else SetNX(s.redis, scope, id);
      var next := if fault != Fine then Find(Fallback) else if scope in s.redis.locks then Poll else Recheck;
      With(s.(redis := redis), id, r.(pc := next))
    case Recheck =>
      if fault != Fine then With(s, id, r.(pc := Release(None)))
      else if scope !in s.redis.results then With(s, id, r.(pc := Find(Coordinated)))
      else
        var c := s.redis.results[scope];
        With(s, id, r.(pc := Release(Some(Verdict(c.order, c.fingerprint, r.input.fingerprint)))))
    case Publish(order, replayed) =>
      var redis := if fault == Lost then s.redis else SetResult(s.redis, scope, Cached(r.input.fingerprint, order));
      With(s.(redis := redis), id, r.(pc := Release(if fault == Fine then Some(Success(order, replayed)) else None)))
    case Release(outcome) =>
      var redis := if fault == Lost then s.redis else ReleaseScript(s.redis, scope, id);
      With(s.(redis := redis), id, r.(pc := if outcome.Some? then Done(outcome.value) else Find(Fallback)))
  }

  /** Where a request stands after its inserts; None for the unique violation. */
  function AfterInsert(r: Request, mode: Mode, fault: Fault, order: Option<Order>): Request {
    if fault != Fine then Return(r, mode, Failed)
    else if order.Some? then Return(r, mode, Success(order.value, false))
    else r.(pc := Resolve(mode))
  }

  function DatabaseStep(s: System, id: nat, fault: Fault, drawn: Draw): System
    requires id in s.requests
    requires s.requests[id].pc.Find? || s.requests[id].pc.Insert? || s.requests[id].pc.Resolve?
  {
    var r := s.requests[id];
    var found := FindRow(s.db.orders, r.input.scope);
    match r.pc
    case Find(mode) =>
      if fault != Fine || !Selectable(r.input.scope) then With(s, id, Return(r, mode, Failed))
      else if found.None? then With(s, id, r.(pc := Insert(mode)))
      else With(s, id, Return(r, mode, Verdict(found.value.order, found.value.input.fingerprint, r.input.fingerprint)))
    case Insert(mode) =>
      if fault == Lost || !Insertable(r.input) then With(s, id, Return(r, mode, Failed))
      else
        var (db, order) := Commit(s.db, r.input, drawn, id);
        With(s.(db := db), id, AfterInsert(r, mode, fault, order))
    case Resolve(mode) =>
      With(s, id, Return(r, mode,
                         if fault != Fine then Failed
                         else if found.None? then Missing
                         else Verdict(found.value.order, found.value.input.fingerprint, r.input.fingerprint)))
  }

  function Step(s: System, a: Action): System {
    match a
    case Arrive(id, raw, webhookURL) =>
      if id in s.requests then s
      else
        var input := Prepare(raw, webhookURL);
        if input.None?
        then
          var refused := Input(Scope(raw.tenant, raw.key), "", "", "", raw.eventID, raw.quantity, "");
          With(s, id, Request(refused, Done(Invalid), false))
        else With(s, id, Request(input.value, Look, false))
    case Advance(id, fault, drawn) =>
      if id !in s.requests then s
      else
        (match s.requests[id].pc
        case Done(_) => s
        case Poll => With(s, id, s.requests[id].(pc := Look))
        case Find(_) => DatabaseStep(s, id, fault, drawn)
        case Insert(_) => if Fresh(s.db, drawn) then DatabaseStep(s, id, fault, drawn) else s
        case Resolve(_) => DatabaseStep(s, id, fault, drawn)
        case _ => RedisStep(s, id, fault))
    case GiveUp(id) =>
      if id in s.requests && s.requests[id].pc == Poll then With(s, id, s.requests[id].(pc := Done(Failed))) else s
    case ExpireLock(scope) => s.(redis := s.redis.(locks := s.redis.locks - {scope}))
    case ExpireResult(scope) => s.(redis := s.redis.(results := s.redis.results - {scope}))
  }

  function RunFrom(s: System, acts: seq<Action>): System {
    if acts == [] then s else Step(RunFrom(s, acts[..|acts| - 1]), acts[|acts| - 1])
  }

  function Run(acts: seq<Action>): System {
    RunFrom(EMPTY, acts)
  }
}
