/** What holds of order creation in every run, faults and expiries included. */
module OrderSafety {
  import opened Common
  import opened Domain
  import opened Orders
  import Fingerprint

  lemma {:induction false} FindRowFinds(rows: seq<Row>, scope: Scope)
    ensures match FindRow(rows, scope)
            case Some(row) => row in rows && row.input.scope == scope
            case None => forall k | 0 <= k < |rows| :: rows[k].input.scope != scope
  {
    if rows != [] {
      FindRowFinds(rows[..|rows| - 1], scope);
      assert forall k | 0 <= k < |rows| - 1 :: rows[..|rows| - 1][k] == rows[k];
    }
  }

  lemma FindRowAppend(rows: seq<Row>, row: Row, scope: Scope)
    ensures FindRow(rows + [row], scope) == if row.input.scope == scope then Some(row) else FindRow(rows, scope)
  {
    assert (rows + [row])[..|rows|] == rows;
  }

  /** The deliveries a list of orders calls for, in order. */
  function Notices(rows: seq<Row>): seq<Notice> {
    if rows == [] then []
    else
      var row := rows[|rows| - 1];
      Notices(rows[..|rows| - 1]) + if row.input.webhookURL == "" then [] else [Notice(row.order, row.input.webhookURL)]
  }

  ghost predicate DatabaseInvariant(db: Database) {
    && (forall i, j | 0 <= i < j < |db.orders| ::
          && db.orders[i].input.scope != db.orders[j].input.scope
          && db.orders[i].order.id != db.orders[j].order.id
          && db.orders[i].order.sequence != db.orders[j].order.sequence)
    && (forall i | 0 <= i < |db.orders| ::
          var row := db.orders[i];
          && Insertable(row.input)
          && row.order.tenantID == row.input.scope.tenant
          && row.order.eventID == row.input.eventID && row.order.quantity == row.input.quantity)
    && |db.events| == |db.orders|
    && (forall i | 0 <= i < |db.orders| ::
          db.events[i] == EventRow(db.orders[i].order.sequence, db.orders[i].order.id, db.orders[i].order.tenantID))
    && db.deliveries == Notices(db.orders)
  }

  /** A response agrees with the committed row of the request's scope. */
  ghost predicate Agrees(db: Database, id: nat, input: Input, response: Response) {
    var row := FindRow(db.orders, input.scope);
    match response
    case Success(order, replayed) =>
      && row.Some? && row.value.order == order && row.value.input.fingerprint == input.fingerprint
      && (!replayed ==> row.value.writer == id)
    case Conflict => row.Some? && row.value.input.fingerprint != input.fingerprint
    case Missing => false
    case _ => true
  }

  /** A request stands where what it has seen allows. */
  ghost predicate Sound(db: Database, id: nat, r: Request) {
    && (r.pc != Done(Invalid) ==>
          r.input.fingerprint
          == Fingerprint.Product(r.input.eventID, r.input.quantity, r.input.source, r.input.externalID))
    && match r.pc
    case Resolve(_) => FindRow(db.orders, r.input.scope).Some?
    case Publish(order, replayed) => Agrees(db, id, r.input, Success(order, replayed))
    case Release(Some(response)) => response != Invalid && Agrees(db, id, r.input, response)
    case Done(response) => Agrees(db, id, r.input, response)
    case _ => true
  }

  ghost predicate RequestInvariant(s: System, id: nat)
    requires id in s.requests
  {
    Sound(s.db, id, s.requests[id])
  }

  ghost predicate CacheInvariant(s: System, scope: Scope)
    requires scope in s.redis.results
  {
    var row, c := FindRow(s.db.orders, scope), s.redis.results[scope];
    row.Some? && row.value.order == c.order && row.value.input.fingerprint == c.fingerprint
  }

  ghost predicate Invariant(s: System) {
    && DatabaseInvariant(s.db)
    && (forall id | id in s.requests :: RequestInvariant(s, id))
    && (forall scope | scope in s.redis.results :: CacheInvariant(s, scope))
    && (forall row | row in s.db.orders ::
          && row.writer in s.requests
          && s.requests[row.writer].input == row.input && s.requests[row.writer].pc != Done(Invalid))
  }

  /** Committed rows are never changed or removed. */
  ghost predicate OnlyGrows(db: Database, db': Database) {
    forall scope :: FindRow(db.orders, scope).Some? ==> FindRow(db'.orders, scope) == FindRow(db.orders, scope)
  }

  lemma CommitFinds(db: Database, input: Input, drawn: Draw, writer: nat)
    ensures var (db', order) := Commit(db, input, drawn, writer);
            && OnlyGrows(db, db')
            && FindRow(db'.orders, input.scope).Some?
            && (order.Some? ==> FindRow(db'.orders, input.scope) == Some(Row(order.value, input, writer)))
            && db'.orders == if order.Some? then db.orders + [Row(order.value, input, writer)] else db.orders
  {
    var (db', order) := Commit(db, input, drawn, writer);
    if order.Some? {
      var row := Row(order.value, input, writer);
      forall scope
        ensures FindRow(db'.orders, scope) == if input.scope == scope then Some(row) else FindRow(db.orders, scope)
      {
        FindRowAppend(db.orders, row, scope);
      }
    }
  }

  lemma CommittedIsSound(db: Database, db': Database, row: Row)
    requires DatabaseInvariant(db)
    requires Insertable(row.input)
    requires row.order
             == Order(row.order.id, row.input.scope.tenant, row.input.eventID, row.input.quantity, row.order.sequence)
    requires forall i | 0 <= i < |db.orders| ::
               db.orders[i].order.id != row.order.id && db.orders[i].order.sequence != row.order.sequence
               && db.orders[i].input.scope != row.input.scope
    requires db'.orders == db.orders + [row]
    requires db'.events == db.events + [EventRow(row.order.sequence, row.order.id, row.order.tenantID)]
    requires db'.deliveries
             == db.deliveries + if row.input.webhookURL == "" then [] else [Notice(row.order, row.input.webhookURL)]
    ensures DatabaseInvariant(db')
  {
    assert db'.orders[..|db.orders|] == db.orders;
  }

  lemma CommitKeepsDatabase(db: Database, input: Input, drawn: Draw, writer: nat)
    requires DatabaseInvariant(db) && Fresh(db, drawn) && Insertable(input)
    ensures DatabaseInvariant(Commit(db, input, drawn, writer).0)
  {
    var (db', order) := Commit(db, input, drawn, writer);
    FindRowFinds(db.orders, input.scope);
    if order.Some? {
      forall i | 0 <= i < |db.orders|
        ensures db.orders[i].order.id != drawn.id && db.orders[i].order.sequence != drawn.sequence
                && db.orders[i].input.scope != input.scope
      {
        assert db.orders[i] in db.orders;
      }
      CommittedIsSound(db, db', Row(order.value, input, writer));
    }
  }

  /** What a step of request `id` has to show; the rest of the invariant follows. */
  lemma StepOfOne(s: System, s': System, id: nat)
    requires Invariant(s)
    requires DatabaseInvariant(s'.db) && OnlyGrows(s.db, s'.db)
    requires forall row | row in s'.db.orders :: row in s.db.orders || row.writer == id
    requires id in s'.requests && s'.requests.Keys == s.requests.Keys + {id} && RequestInvariant(s', id)
    requires forall row | row in s'.db.orders && row.writer == id ::
               s'.requests[id].input == row.input && s'.requests[id].pc != Done(Invalid)
    requires forall other | other in s.requests && other != id :: s'.requests[other] == s.requests[other]
    requires forall scope | scope in s'.redis.results ::
               (scope in s.redis.results && s'.redis.results[scope] == s.redis.results[scope])
                   || CacheInvariant(s', scope)
    ensures Invariant(s')
  {
    forall other | other in s'.requests ensures RequestInvariant(s', other) {
      if other != id {
        assert RequestInvariant(s, other);
      }
    }
    forall scope | scope in s'.redis.results ensures CacheInvariant(s', scope) {
      if scope in s.redis.results && s'.redis.results[scope] == s.redis.results[scope] {
        assert CacheInvariant(s, scope);
      }
    }
  }

  lemma ReturnIsSound(db: Database, id: nat, r: Request, mode: Mode, response: Response)
    requires Sound(db, id, r) && r.pc != Done(Invalid) && response != Invalid && Agrees(db, id, r.input, response)
    ensures Sound(db, id, Return(r, mode, response))
    ensures Return(r, mode, response).input == r.input && Return(r, mode, response).pc != Done(Invalid)
  {
  }

  /** Where Find and Resolve, which only read, take a request. */
  function AfterRead(db: Database, r: Request, fault: Fault): Request
    requires r.pc.Find? || r.pc.Resolve?
  {
    var found := FindRow(db.orders, r.input.scope);
    if fault != Fine || (r.pc.Find? && !Selectable(r.input.scope)) then Return(r, r.pc.mode, Failed)
    else if found.Some?
    then Return(r, r.pc.mode, Verdict(found.value.order, found.value.input.fingerprint, r.input.fingerprint))
    else if r.pc.Find? then r.(pc := Insert(r.pc.mode))
    else Return(r, r.pc.mode, Missing)
  }

  lemma ReadOnly(s: System, id: nat, fault: Fault, drawn: Draw)
    requires id in s.requests && (s.requests[id].pc.Find? || s.requests[id].pc.Resolve?)
    ensures DatabaseStep(s, id, fault, drawn) == With(s, id, AfterRead(s.db, s.requests[id], fault))
  {
  }

  lemma ReadIsSound(db: Database, id: nat, r: Request, fault: Fault)
    requires (r.pc.Find? || r.pc.Resolve?) && Sound(db, id, r)
    ensures Sound(db, id, AfterRead(db, r, fault))
    ensures AfterRead(db, r, fault).input == r.input && AfterRead(db, r, fault).pc != Done(Invalid)
  {
    var found := FindRow(db.orders, r.input.scope);
    if fault != Fine || (r.pc.Find? && !Selectable(r.input.scope)) {
      ReturnIsSound(db, id, r, r.pc.mode, Failed);
    } else if found.Some? {
      ReturnIsSound(db, id, r, r.pc.mode,
                    Verdict(found.value.order, found.value.input.fingerprint, r.input.fingerprint));
    }
  }

  lemma InsertIsSound(db: Database, db': Database, id: nat, r: Request, fault: Fault, order: Option<Order>)
    requires r.pc.Insert? && Sound(db, id, r)
    requires FindRow(db'.orders, r.input.scope).Some?
    requires order.Some? ==> FindRow(db'.orders, r.input.scope) == Some(Row(order.value, r.input, id))
    ensures Sound(db', id, AfterInsert(r, r.pc.mode, fault, order))
    ensures AfterInsert(r, r.pc.mode, fault, order).input == r.input
            && AfterInsert(r, r.pc.mode, fault, order).pc != Done(Invalid)
  {
    if fault != Fine {
      ReturnIsSound(db', id, r, r.pc.mode, Failed);
    } else if order.Some? {
      ReturnIsSound(db', id, r, r.pc.mode, Success(order.value, false));
    }
  }

  /** Moving one request to where the (possibly larger) database allows keeps the invariant. */
  lemma MoveKeepsInvariant(s: System, db': Database, id: nat, r': Request)
    requires Invariant(s) && id in s.requests && r'.input == s.requests[id].input && r'.pc != Done(Invalid)
    requires s.requests[id].pc != Done(Invalid)
    requires DatabaseInvariant(db') && OnlyGrows(s.db, db') && Sound(db', id, r')
    requires forall row | row in db'.orders :: row in s.db.orders || (row.writer == id && row.input == r'.input)
    ensures Invariant(With(s.(db := db'), id, r'))
  {
    StepOfOne(s, With(s.(db := db'), id, r'), id);
  }

  lemma InsertKeepsInvariant(s: System, id: nat, fault: Fault, drawn: Draw)
    requires Invariant(s) && id in s.requests && s.requests[id].pc.Insert? && Fresh(s.db, drawn)
    ensures Invariant(DatabaseStep(s, id, fault, drawn))
  {
    var r := s.requests[id];
    assert RequestInvariant(s, id);
    if fault == Lost || !Insertable(r.input) {
      ReturnIsSound(s.db, id, r, r.pc.mode, Failed);
      MoveKeepsInvariant(s, s.db, id, Return(r, r.pc.mode, Failed));
    } else {
      var (db', order) := Commit(s.db, r.input, drawn, id);
      CommitKeepsDatabase(s.db, r.input, drawn, id);
      CommitFinds(s.db, r.input, drawn, id);
      InsertIsSound(s.db, db', id, r, fault, order);
      MoveKeepsInvariant(s, db', id, AfterInsert(r, r.pc.mode, fault, order));
    }
  }

  lemma ReadKeepsInvariant(s: System, id: nat, fault: Fault, drawn: Draw)
    requires Invariant(s) && id in s.requests && (s.requests[id].pc.Find? || s.requests[id].pc.Resolve?)
    ensures Invariant(DatabaseStep(s, id, fault, drawn))
  {
    assert RequestInvariant(s, id);
    ReadOnly(s, id, fault, drawn);
    ReadIsSound(s.db, id, s.requests[id], fault);
    MoveKeepsInvariant(s, s.db, id, AfterRead(s.db, s.requests[id], fault));
    assert s.(db := s.db) == s;
  }

  lemma RedisStepKeepsInvariant(s: System, id: nat, fault: Fault)
    requires Invariant(s) && id in s.requests
    requires s.requests[id].pc.Look? || s.requests[id].pc.Lock? || s.requests[id].pc.Recheck?
             || s.requests[id].pc.Publish? || s.requests[id].pc.Release?
    ensures Invariant(RedisStep(s, id, fault))
  {
    var s' := RedisStep(s, id, fault);
    assert RequestInvariant(s, id);
    var scope := s.requests[id].input.scope;
    if scope in s.redis.results {
      assert CacheInvariant(s, scope);
    }
    OwnRedisStep(s, id, fault);
    StepOfOne(s, s', id);
  }

  lemma OwnRedisStep(s: System, id: nat, fault: Fault)
    requires id in s.requests && RequestInvariant(s, id)
    requires s.requests[id].pc.Look? || s.requests[id].pc.Lock? || s.requests[id].pc.Recheck?
             || s.requests[id].pc.Publish? || s.requests[id].pc.Release?
    requires var scope := s.requests[id].input.scope; scope in s.redis.results ==> CacheInvariant(s, scope)
    ensures var s' := RedisStep(s, id, fault);
            && s'.db == s.db && s'.requests == s.requests[id := s'.requests[id]] && RequestInvariant(s', id)
            && s'.requests[id].input == s.requests[id].input && s'.requests[id].pc != Done(Invalid)
            && (forall scope | scope in s'.redis.results ::
                  (scope in s.redis.results && s'.redis.results[scope] == s.redis.results[scope])
                      || CacheInvariant(s', scope))
  {
  }

  lemma StepKeepsInvariant(s: System, a: Action)
    requires Invariant(s)
    ensures Invariant(Step(s, a))
  {
    var s' := Step(s, a);
    if a.Advance? && a.id in s.requests {
      match s.requests[a.id].pc
      case Done(_) =>
      case Poll => SmallStepKeepsInvariant(s, a);
      case Find(_) => ReadKeepsInvariant(s, a.id, a.fault, a.drawn);
      case Insert(_) =>
        if Fresh(s.db, a.drawn) {
          InsertKeepsInvariant(s, a.id, a.fault, a.drawn);
        }
      case Resolve(_) => ReadKeepsInvariant(s, a.id, a.fault, a.drawn);
      case _ => RedisStepKeepsInvariant(s, a.id, a.fault);
    } else {
      SmallStepKeepsInvariant(s, a);
    }
  }

  lemma SmallStepKeepsInvariant(s: System, a: Action)
    requires Invariant(s)
    requires a.Advance? && a.id in s.requests ==> s.requests[a.id].pc.Poll?
    ensures Invariant(Step(s, a))
  {
    var s' := Step(s, a);
    match a
    case Arrive(id, raw, url) =>
      if id !in s.requests {
        ArriveKeepsInvariant(s, id, raw, url);
      }
    case ExpireLock(_) => ExpiryKeepsInvariant(s, s');
    case ExpireResult(_) => ExpiryKeepsInvariant(s, s');
    case _ =>
      if s' != s {
        PollKeepsInvariant(s, a.id, s'.requests[a.id].pc);
      }
  }

  lemma ArriveKeepsInvariant(s: System, id: nat, raw: RawRequest, url: string)
    requires Invariant(s) && id !in s.requests
    ensures Invariant(Step(s, Arrive(id, raw, url)))
  {
    assert forall row | row in s.db.orders :: row.writer != id;
    StepOfOne(s, Step(s, Arrive(id, raw, url)), id);
  }

  lemma PollKeepsInvariant(s: System, id: nat, pc: Pc)
    requires Invariant(s) && id in s.requests && s.requests[id].pc == Poll && (pc == Look || pc == Done(Failed))
    ensures Invariant(With(s, id, s.requests[id].(pc := pc)))
  {
    assert RequestInvariant(s, id);
    StepOfOne(s, With(s, id, s.requests[id].(pc := pc)), id);
  }

  lemma ExpiryKeepsInvariant(s: System, s': System)
    requires Invariant(s) && s'.db == s.db && s'.requests == s.requests
    requires forall scope | scope in s'.redis.results ::
               scope in s.redis.results && s'.redis.results[scope] == s.redis.results[scope]
    ensures Invariant(s')
  {
    forall id | id in s'.requests ensures RequestInvariant(s', id) {
      assert RequestInvariant(s, id);
    }
    forall scope | scope in s'.redis.results ensures CacheInvariant(s', scope) {
      assert CacheInvariant(s, scope);
    }
  }

  lemma {:induction false} InvariantAlways(acts: seq<Action>)
    ensures Invariant(Run(acts))
  {
    if acts != [] {
      InvariantAlways(acts[..|acts| - 1]);
      StepKeepsInvariant(Run(acts[..|acts| - 1]), acts[|acts| - 1]);
    }
  }

  /* ---------- main results ---------- */

  /** The deliveries carrying an order of this id. */
  function NoticesFor(deliveries: seq<Notice>, orderID: string): seq<Notice> {
    if deliveries == [] then []
    else
      var n := deliveries[|deliveries| - 1];
      NoticesFor(deliveries[..|deliveries| - 1], orderID) + if n.order.id == orderID then [n] else []
  }

  function NoticeOf(row: Row): seq<Notice> {
    if row.input.webhookURL == "" then [] else [Notice(row.order, row.input.webhookURL)]
  }

  lemma NoticesOneMore(rows: seq<Row>, id: string)
    requires rows != []
    ensures var row := rows[|rows| - 1];
            NoticesFor(Notices(rows), id)
            == NoticesFor(Notices(rows[..|rows| - 1]), id) + if row.order.id == id then NoticeOf(row) else []
  {
    var before, row := rows[..|rows| - 1], rows[|rows| - 1];
    if row.input.webhookURL == "" {
      assert Notices(rows) == Notices(before);
    } else {
      var n := Notice(row.order, row.input.webhookURL);
      assert Notices(rows) == Notices(before) + [n];
      assert (Notices(before) + [n])[..|Notices(before)|] == Notices(before);
    }
  }

  lemma {:induction false} NoNotice(rows: seq<Row>, id: string)
    requires forall i | 0 <= i < |rows| :: rows[i].order.id != id
    ensures NoticesFor(Notices(rows), id) == []
  {
    if rows != [] {
      NoticesOneMore(rows, id);
      NoNotice(rows[..|rows| - 1], id);
    }
  }

  lemma {:induction false} OneNoticeEach(rows: seq<Row>, i: nat)
    requires forall j, k | 0 <= j < k < |rows| :: rows[j].order.id != rows[k].order.id
    requires i < |rows|
    ensures NoticesFor(Notices(rows), rows[i].order.id) == NoticeOf(rows[i])
  {
    var before, id := rows[..|rows| - 1], rows[i].order.id;
    NoticesOneMore(rows, id);
    if i == |rows| - 1 {
      NoNotice(before, id);
    } else {
      OneNoticeEach(before, i);
      assert before[i] == rows[i] && rows[|rows| - 1].order.id != id;
    }
  }

  /** In every run each (tenant, key) has at most one committed order, every order exactly one event,
      and exactly one delivery if its request had a webhook URL, none otherwise. */
  lemma OneOrderOneEventOneDelivery(acts: seq<Action>, i: nat)
    requires i < |Run(acts).db.orders|
    ensures var db := Run(acts).db;
            var row := db.orders[i];
            && (forall j | 0 <= j < |db.orders| && db.orders[j].input.scope == row.input.scope :: j == i)
            && (forall k | 0 <= k < |db.events| :: db.events[k].orderID == row.order.id <==> k == i)
            && |db.events| == |db.orders|
            && NoticesFor(db.deliveries, row.order.id)
               == if row.input.webhookURL == "" then [] else [Notice(row.order, row.input.webhookURL)]
  {
    InvariantAlways(acts);
    OneNoticeEach(Run(acts).db.orders, i);
  }

  /** Every successful response names the one committed order of its tenant and key, and that order was
      written for the same fingerprint. */
  lemma SuccessNamesTheOrder(acts: seq<Action>, id: nat)
    requires var s := Run(acts); id in s.requests && s.requests[id].pc.Done? && s.requests[id].pc.response.Success?
    ensures var s := Run(acts);
            exists row :: row in s.db.orders && row.input.scope == s.requests[id].input.scope
                          && row.order == s.requests[id].pc.response.order
                          && row.input.fingerprint == s.requests[id].input.fingerprint
  {
    var s := Run(acts);
    InvariantAlways(acts);
    assert RequestInvariant(s, id);
    FindRowFinds(s.db.orders, s.requests[id].input.scope);
  }

  /** So it carries the tenant, event and quantity asked for, whatever characters the request contains:
      a stored row has no NUL, and then only the very same fields have its fingerprint. */
  lemma SuccessMatchesTheRequest(acts: seq<Action>, id: nat)
    requires var s := Run(acts); id in s.requests && s.requests[id].pc.Done? && s.requests[id].pc.response.Success?
    ensures var r := Run(acts).requests[id];
            var order := r.pc.response.order;
            order.tenantID == r.input.scope.tenant && order.eventID == r.input.eventID
                && order.quantity == r.input.quantity
  {
    var s := Run(acts);
    var input := s.requests[id].input;
    InvariantAlways(acts);
    SuccessNamesTheOrder(acts, id);
    var row :| row in s.db.orders && row.input.scope == input.scope && row.order == s.requests[id].pc.response.order
               && row.input.fingerprint == input.fingerprint;
    assert RequestInvariant(s, id) && RequestInvariant(s, row.writer);
    Fingerprint.StoredPinsAll(input.eventID, input.quantity, input.source, input.externalID,
                              row.input.eventID, row.input.quantity, row.input.source, row.input.externalID);
  }

  /** At most one response per tenant and key says it was not replayed, and it comes from the request
      whose own transaction wrote the order. */
  lemma AtMostOneFirstResponse(acts: seq<Action>, a: nat, b: nat)
    requires var s := Run(acts);
             && a in s.requests && s.requests[a].pc.Done? && s.requests[a].pc.response.Success?
                && !s.requests[a].pc.response.replayed
             && b in s.requests && s.requests[b].pc.Done? && s.requests[b].pc.response.Success?
                && !s.requests[b].pc.response.replayed
             && s.requests[a].input.scope == s.requests[b].input.scope
    ensures a == b
  {
    InvariantAlways(acts);
    assert RequestInvariant(Run(acts), a) && RequestInvariant(Run(acts), b);
  }

  /** A conflict, from Redis or from PostgreSQL, means a committed order of that tenant and key with
      another fingerprint; "conflict committed without an order" is never returned. */
  lemma ConflictIsReal(acts: seq<Action>, id: nat)
    requires id in Run(acts).requests && Run(acts).requests[id].pc.Done?
    ensures var s := Run(acts);
            && s.requests[id].pc.response != Missing
            && (s.requests[id].pc.response == Conflict ==>
                  exists row :: row in s.db.orders && row.input.scope == s.requests[id].input.scope
                                && row.input.fingerprint != s.requests[id].input.fingerprint)
  {
    var s := Run(acts);
    InvariantAlways(acts);
    assert RequestInvariant(s, id);
    FindRowFinds(s.db.orders, s.requests[id].input.scope);
  }

  /** Every cached result is the committed order of its tenant and key, with the fingerprint it was committed under. */
  lemma CacheAgreesWithDatabase(acts: seq<Action>, scope: Scope)
    requires scope in Run(acts).redis.results
    ensures var s := Run(acts);
            exists row :: row in s.db.orders && row.input.scope == scope
                          && s.redis.results[scope] == Cached(row.input.fingerprint, row.order)
  {
    var s := Run(acts);
    InvariantAlways(acts);
    assert CacheInvariant(s, scope);
    FindRowFinds(s.db.orders, scope);
  }

  /** In any step a lock is released only by the request whose token it carries, or by expiry: no other
      request removes it, and none takes it over. */
  lemma ReleaseSparesOthers(s: System, a: Action, scope: Scope)
    requires scope in s.redis.locks
    requires var locks' := Step(s, a).redis.locks; scope !in locks' || locks'[scope] != s.redis.locks[scope]
    ensures scope !in Step(s, a).redis.locks
    ensures a == ExpireLock(scope)
            || (a.Advance? && a.id == s.redis.locks[scope] && a.id in s.requests
                && s.requests[a.id].pc.Release? && s.requests[a.id].input.scope == scope)
  {
    if a.Advance? && a.id in s.requests {
      match s.requests[a.id].pc
      case Lock =>
      case Release(_) =>
      case _ =>
    }
  }

  lemma RunMore(s: System, acts: seq<Action>, a: Action)
    ensures RunFrom(s, acts + [a]) == Step(RunFrom(s, acts), a)
  {
    assert (acts + [a])[..|acts|] == acts;
  }
}
