/**
 Which request tells its caller "not replayed", in every run of order creation: the one whose insert was
 acknowledged and whose result, if it ran under the lock, was stored.
 */
module FirstResponse {
  import opened Common
  import opened Orders
  import opened OrderSafety
  import Fingerprint

  /** What can happen to the request that writes an order. */
  datatype Event =
    | Acknowledged(mode: Mode)
    | Unacknowledged
    | Stored
    | NotStored

  /** This step inserts an order for its request. */
  predicate Writes(s: System, a: Action) {
    && a.Advance? && a.id in s.requests && s.requests[a.id].pc.Insert?
    && a.fault != Lost && Fresh(s.db, a.drawn) && Insertable(s.requests[a.id].input)
    && FindRow(s.db.orders, s.requests[a.id].input.scope).None?
  }

  /** This step puts its request's own new order into Redis, or fails to. */
  predicate Publishes(s: System, a: Action) {
    a.Advance? && a.id in s.requests && Publishing(s.requests[a.id].pc)
  }

  predicate Happens(s: System, a: Action, id: nat, e: Event) {
    && a.Advance? && a.id == id
    && match e
       case Acknowledged(mode) => Writes(s, a) && a.fault == Fine && s.requests[id].pc.mode == mode
       case Unacknowledged => Writes(s, a) && a.fault == Late
       case Stored => Publishes(s, a) && a.fault == Fine
       case NotStored => Publishes(s, a) && a.fault != Fine
  }

  predicate Happened(acts: seq<Action>, id: nat, e: Event) {
    acts != [] && (Happened(acts[..|acts| - 1], id, e) || Happens(Run(acts[..|acts| - 1]), acts[|acts| - 1], id, e))
  }

  ghost predicate Wrote(s: System, id: nat) {
    exists row :: row in s.db.orders && row.writer == id
  }

  /** On its way to answer, or having answered, "not replayed". */
  predicate First(pc: Pc) {
    match pc
    case Release(Some(Success(_, replayed))) => !replayed
    case Done(Success(_, replayed)) => !replayed
    case _ => false
  }

  /** About to store the result of its own insert. */
  predicate Publishing(pc: Pc) {
    match pc
    case Publish(_, replayed) => !replayed
    case _ => false
  }

  /** The events of one request so far. */
  datatype Past = Past(underLock: bool, fallback: bool, late: bool, stored: bool, notStored: bool)

  function PastOf(acts: seq<Action>, id: nat): Past {
    Past(Happened(acts, id, Acknowledged(Coordinated)), Happened(acts, id, Acknowledged(Fallback)),
         Happened(acts, id, Unacknowledged), Happened(acts, id, Stored), Happened(acts, id, NotStored))
  }

  function Later(p: Past, s: System, a: Action, id: nat): Past {
    Past(p.underLock || Happens(s, a, id, Acknowledged(Coordinated)),
         p.fallback || Happens(s, a, id, Acknowledged(Fallback)),
         p.late || Happens(s, a, id, Unacknowledged), p.stored || Happens(s, a, id, Stored),
         p.notStored || Happens(s, a, id, NotStored))
  }

  /** At most one insert of a request takes effect, and the past says how it fared. */
  ghost predicate Accounted(s: System, id: nat, p: Past) {
    && (Wrote(s, id) <==> p.underLock || p.fallback || p.late)
    && !(p.underLock && p.fallback) && !(p.underLock && p.late) && !(p.fallback && p.late)
  }

  /** A result is stored, or failed to be, only once and only for an insert acknowledged under the lock. */
  ghost predicate Placed(pc: Pc, p: Past) {
    && (First(pc) <==> p.fallback || p.stored)
    && (p.stored || p.notStored || Publishing(pc) <==> p.underLock)
    && !(p.stored && p.notStored) && (Publishing(pc) ==> !p.stored && !p.notStored)
  }

  ghost predicate PastInvariant(s: System, id: nat, p: Past) {
    && Accounted(s, id, p)
    && (id in s.requests ==> Placed(s.requests[id].pc, p))
    && (id !in s.requests ==> p == Past(false, false, false, false, false))
  }

  lemma WritesOnce(s: System, a: Action)
    requires Invariant(s) && Writes(s, a)
    ensures !Wrote(s, a.id)
  {
    FindRowFinds(s.db.orders, s.requests[a.id].input.scope);
    assert forall row | row in s.db.orders :: row.input.scope != s.requests[a.id].input.scope;
  }

  /** Which rows a step adds. */
  lemma RowsAfter(s: System, a: Action)
    ensures Step(s, a).db.orders
            == if Writes(s, a)
               then s.db.orders + [Row(NewOrder(s.requests[a.id].input, a.drawn), s.requests[a.id].input, a.id)]
               else s.db.orders
  {
    if a.Advance? && a.id in s.requests {
      match s.requests[a.id].pc
      case Find(_) =>
      case Insert(_) =>
      case Resolve(_) =>
      case _ =>
    }
  }

  lemma AccountedAfter(s: System, a: Action, id: nat, p: Past)
    requires Accounted(s, id, p) && (Writes(s, a) ==> !Wrote(s, a.id))
    ensures Accounted(Step(s, a), id, Later(p, s, a, id))
  {
    RowsAfter(s, a);
    if Writes(s, a) {
      var row := Row(NewOrder(s.requests[a.id].input, a.drawn), s.requests[a.id].input, a.id);
      assert row in Step(s, a).db.orders;
      assert forall r :: r in Step(s, a).db.orders <==> r in s.db.orders || r == row;
    }
  }

  /** A step that is not an Advance of `id` moves it at most from polling to giving up. */
  lemma OtherStep(s: System, a: Action, id: nat)
    requires id in s.requests && !(a.Advance? && a.id == id)
    ensures id in Step(s, a).requests
    ensures Step(s, a).requests[id].pc == s.requests[id].pc
            || (s.requests[id].pc == Poll && Step(s, a).requests[id].pc == Done(Failed))
  {
    if a.Advance? && a.id in s.requests {
      match s.requests[a.id].pc
      case Find(_) =>
      case Insert(_) =>
      case Resolve(_) =>
      case _ =>
    }
  }

  lemma OwnStepOnDatabase(s: System, a: Action, p: Past)
    requires a.Advance? && a.id in s.requests && Placed(s.requests[a.id].pc, p) && Accounted(s, a.id, p)
    requires s.requests[a.id].pc.Find? || s.requests[a.id].pc.Insert? || s.requests[a.id].pc.Resolve?
    requires Writes(s, a) ==> !Wrote(s, a.id)
    ensures Placed(Step(s, a).requests[a.id].pc, Later(p, s, a, a.id))
  {
    var pc' := Step(s, a).requests[a.id].pc;
    if s.requests[a.id].pc.Insert? {
      if Writes(s, a) {
        assert !p.underLock && !p.fallback;
      } else {
        assert Later(p, s, a, a.id) == p;
        assert !First(pc') && !Publishing(pc');
      }
    } else {
      assert Later(p, s, a, a.id) == p;
      ReadOnly(s, a.id, a.fault, a.drawn);
      assert !First(pc') && !Publishing(pc');
    }
  }

  lemma OwnStepOnRedis(s: System, a: Action, p: Past)
    requires a.Advance? && a.id in s.requests && Placed(s.requests[a.id].pc, p)
    requires !s.requests[a.id].pc.Find? && !s.requests[a.id].pc.Insert? && !s.requests[a.id].pc.Resolve?
    ensures Placed(Step(s, a).requests[a.id].pc, Later(p, s, a, a.id))
  {
    match s.requests[a.id].pc
    case Publish(_, _) =>
    case Release(_) =>
    case _ =>
  }

  lemma PastAfter(s: System, a: Action, id: nat, p: Past)
    requires PastInvariant(s, id, p) && (Writes(s, a) ==> !Wrote(s, a.id))
    ensures PastInvariant(Step(s, a), id, Later(p, s, a, id))
  {
    AccountedAfter(s, a, id, p);
    if id in s.requests {
      if a.Advance? && a.id == id {
        if s.requests[id].pc.Find? || s.requests[id].pc.Insert? || s.requests[id].pc.Resolve? {
          OwnStepOnDatabase(s, a, p);
        } else {
          OwnStepOnRedis(s, a, p);
        }
      } else {
        OtherStep(s, a, id);
      }
    }
  }

  lemma {:induction false} PastAlways(acts: seq<Action>, id: nat)
    ensures PastInvariant(Run(acts), id, PastOf(acts, id))
  {
    if acts != [] {
      var before, a := acts[..|acts| - 1], acts[|acts| - 1];
      PastAlways(before, id);
      InvariantAlways(before);
      if Writes(Run(before), a) {
        WritesOnce(Run(before), a);
      }
      PastAfter(Run(before), a, id, PastOf(before, id));
      assert PastOf(acts, id) == Later(PastOf(before, id), Run(before), a, id);
    }
  }

  /* ---------- main results ---------- */

  /** The request that wrote an order and has answered said "not replayed" exactly if its insert was
      acknowledged and it did not fail to store its result. */
  lemma FirstResponseIff(acts: seq<Action>, row: Row)
    requires row in Run(acts).db.orders
    requires row.writer in Run(acts).requests && Run(acts).requests[row.writer].pc.Done?
    ensures Run(acts).requests[row.writer].pc == Done(Success(row.order, false))
            <==> !Happened(acts, row.writer, Unacknowledged) && !Happened(acts, row.writer, NotStored)
  {
    var s, id := Run(acts), row.writer;
    InvariantAlways(acts);
    PastAlways(acts, id);
    assert Wrote(s, id);
    assert RequestInvariant(s, id);
    OnlyRowOf(s, row);
  }

  /** The same for any request, by what did happen: as the fallback an acknowledged insert is enough,
      under the lock the result was stored as well. */
  lemma FirstResponseOnlyIff(acts: seq<Action>, id: nat)
    requires id in Run(acts).requests && Run(acts).requests[id].pc.Done?
    ensures First(Run(acts).requests[id].pc)
            <==> Happened(acts, id, Acknowledged(Fallback))
                 || (Happened(acts, id, Acknowledged(Coordinated)) && Happened(acts, id, Stored))
  {
    PastAlways(acts, id);
  }

  lemma OnlyRowOf(s: System, row: Row)
    requires Invariant(s) && row in s.db.orders
    ensures FindRow(s.db.orders, row.input.scope) == Some(row)
  {
    FindRowFinds(s.db.orders, row.input.scope);
    var found := FindRow(s.db.orders, row.input.scope).value;
    var i :| 0 <= i < |s.db.orders| && s.db.orders[i] == row;
    var j :| 0 <= j < |s.db.orders| && s.db.orders[j] == found;
    assert i == j;
  }

  /* ---------- a run without ---------- */

  /** One request, alone, whose write of the result to Redis fails. */
  function LostPublish(): seq<Action> {
    [Arrive(0, RawRequest("t", "k", "", "", "e", 1), "")]
    + [Advance(0, Fine, NOTHING)] + [Advance(0, Fine, NOTHING)]
    + [Advance(0, Fine, NOTHING)] + [Advance(0, Fine, NOTHING)]
    + [Advance(0, Fine, Draw("o", 1))] + [Advance(0, Lost, NOTHING)]
    + [Advance(0, Fine, NOTHING)] + [Advance(0, Fine, NOTHING)]
  }

  /** Its fallback then finds the order it has itself just committed and answers "replayed": the key has
      an order and a successful response, but no response with replayed = false. */
  lemma FirstResponseMayBeMissing()
    ensures var s := Run(LostPublish());
            && |s.db.orders| == 1 && s.db.orders[0].writer == 0
            && s.requests.Keys == {0}
            && s.requests[0].pc == Done(Success(s.db.orders[0].order, true))
  {
    var a1 := [Arrive(0, RawRequest("t", "k", "", "", "e", 1), "")];
    assert a1[..0] == [];
    var s1 := Run(a1);
    var input := s1.requests[0].input;
    assert s1 == System(Database([], [], []), Redis(map[], map[]), map[0 := Request(input, Look, false)]);
    var a2 := a1 + [Advance(0, Fine, NOTHING)];
    RunMore(EMPTY, a1, Advance(0, Fine, NOTHING));
    var a3 := a2 + [Advance(0, Fine, NOTHING)];
    RunMore(EMPTY, a2, Advance(0, Fine, NOTHING));
    var a4 := a3 + [Advance(0, Fine, NOTHING)];
    RunMore(EMPTY, a3, Advance(0, Fine, NOTHING));
    var a5 := a4 + [Advance(0, Fine, NOTHING)];
    RunMore(EMPTY, a4, Advance(0, Fine, NOTHING));
    var locks := map[input.scope := 0];
    assert Run(a5) == System(Database([], [], []), Redis(map[], locks),
                             map[0 := Request(input, Insert(Coordinated), false)]);
    LostPublishEnds(a5, input);
  }

  lemma LostPublishEnds(acts: seq<Action>, input: Input)
    requires input.webhookURL == "" && Insertable(input)
    requires Run(acts) == System(Database([], [], []), Redis(map[], map[input.scope := 0]),
                                 map[0 := Request(input, Insert(Coordinated), false)])
    requires input.fingerprint == Fingerprint.Product(input.eventID, input.quantity, input.source, input.externalID)
    ensures var s := Run(acts + [Advance(0, Fine, Draw("o", 1))] + [Advance(0, Lost, NOTHING)]
                         + [Advance(0, Fine, NOTHING)] + [Advance(0, Fine, NOTHING)]);
            && |s.db.orders| == 1 && s.db.orders[0].writer == 0
            && s.requests.Keys == {0}
            && s.requests[0].pc == Done(Success(s.db.orders[0].order, true))
  {
    var b1 := acts + [Advance(0, Fine, Draw("o", 1))];
    RunMore(EMPTY, acts, Advance(0, Fine, Draw("o", 1)));
    var order := NewOrder(input, Draw("o", 1));
    assert Run(b1).db.orders == [Row(order, input, 0)];
    assert Run(b1).requests == map[0 := Request(input, Publish(order, false), true)];
    var b2 := b1 + [Advance(0, Lost, NOTHING)];
    RunMore(EMPTY, b1, Advance(0, Lost, NOTHING));
    assert Run(b2).requests == map[0 := Request(input, Release(None), true)] && Run(b2).db == Run(b1).db;
    var b3 := b2 + [Advance(0, Fine, NOTHING)];
    RunMore(EMPTY, b2, Advance(0, Fine, NOTHING));
    assert Run(b3).requests == map[0 := Request(input, Find(Fallback), true)];
    RunMore(EMPTY, b3, Advance(0, Fine, NOTHING));
  }
}
