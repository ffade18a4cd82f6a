/** What a request of Service.CreateOrder carries and answers, by what its caller passed in. */
module OrderRequests {
  import opened Common
  import opened Domain
  import opened Orders
  import opened OrderSafety

  /** The bounds of Service.CreateOrder, with the defaults for source and external id. */
  predicate InBounds(raw: RawRequest) {
    && 1 <= |raw.tenant| <= 100 && 1 <= |raw.key| <= 200
    && |raw.source| <= 50 && |raw.externalID| <= 200 && 1 <= |raw.eventID| <= 200
    && 1 <= raw.quantity <= 12
  }

  /** The request carries what its caller passed in. */
  predicate Carries(input: Input, raw: RawRequest, webhookURL: string) {
    && input.scope.tenant == raw.tenant && input.scope.key == raw.key
    && input.eventID == raw.eventID && input.quantity == raw.quantity && input.webhookURL == webhookURL
    && input.source == (if raw.source == "" then "api" else raw.source)
    && input.externalID == (if raw.externalID == "" then raw.eventID else raw.externalID)
  }

  lemma InputStaysOne(s: System, a: Action, id: nat)
    requires id in s.requests
    ensures id in Step(s, a).requests && Step(s, a).requests[id].input == s.requests[id].input
  {
    if a.Advance? && a.id in s.requests {
      match s.requests[a.id].pc
      case Find(_) =>
      case Insert(_) =>
      case Resolve(_) =>
      case _ =>
    }
  }

  lemma InsertStaysValid(s: System, id: nat, fault: Fault, drawn: Draw)
    requires id in s.requests && RequestInvariant(s, id) && s.requests[id].pc.Insert?
    ensures DatabaseStep(s, id, fault, drawn).requests[id].pc != Done(Invalid)
  {
    var r := s.requests[id];
    if fault != Lost && Insertable(r.input) {
      CommitFinds(s.db, r.input, drawn, id);
      InsertIsSound(s.db, Commit(s.db, r.input, drawn, id).0, id, r, fault, Commit(s.db, r.input, drawn, id).1);
    }
  }

  /** No step of a request ends in Invalid: only its arrival does. */
  lemma OwnStepStaysValid(s: System, id: nat, fault: Fault, drawn: Draw)
    requires id in s.requests && RequestInvariant(s, id) && s.requests[id].pc != Done(Invalid)
    requires var scope := s.requests[id].input.scope; scope in s.redis.results ==> CacheInvariant(s, scope)
    ensures Step(s, Advance(id, fault, drawn)).requests[id].pc != Done(Invalid)
  {
    var r := s.requests[id];
    match r.pc
    case Done(_) =>
    case Poll =>
    case Find(_) =>
      ReadOnly(s, id, fault, drawn);
      ReadIsSound(s.db, id, r, fault);
    case Resolve(_) =>
      ReadOnly(s, id, fault, drawn);
      ReadIsSound(s.db, id, r, fault);
    case Insert(_) => InsertStaysValid(s, id, fault, drawn);
    case _ => OwnRedisStep(s, id, fault);
  }

  lemma OthersStay(s: System, a: Action, id: nat)
    requires id in s.requests && (a.Advance? && a.id == id ==> s.requests[id].pc.Done?)
    ensures id in Step(s, a).requests
    ensures a != GiveUp(id) ==> Step(s, a).requests[id] == s.requests[id]
    ensures Step(s, a).requests[id].pc == Done(Invalid) <==> s.requests[id].pc == Done(Invalid)
  {
    if a.Advance? && a.id in s.requests {
      match s.requests[a.id].pc
      case Find(_) =>
      case Insert(_) =>
      case Resolve(_) =>
      case _ =>
    }
  }

  lemma InvalidStaysOne(s: System, a: Action, id: nat)
    requires id in s.requests && RequestInvariant(s, id)
    requires var scope := s.requests[id].input.scope; scope in s.redis.results ==> CacheInvariant(s, scope)
    ensures id in Step(s, a).requests
    ensures Step(s, a).requests[id].pc == Done(Invalid) <==> s.requests[id].pc == Done(Invalid)
  {
    if a.Advance? && a.id == id && !s.requests[id].pc.Done? {
      InputStaysOne(s, a, id);
      OwnStepStaysValid(s, id, a.fault, a.drawn);
    } else {
      OthersStay(s, a, id);
    }
  }

  lemma {:induction false} RequestStays(before: seq<Action>, after: seq<Action>, id: nat)
    requires id in Run(before).requests
    ensures var r := Run(before).requests[id];
            && id in Run(before + after).requests && Run(before + after).requests[id].input == r.input
            && (Run(before + after).requests[id].pc == Done(Invalid) <==> r.pc == Done(Invalid))
  {
    if after == [] {
      assert before + after == before;
    } else {
      var acts := before + after[..|after| - 1];
      RequestStays(before, after[..|after| - 1], id);
      assert before + after == acts + [after[|after| - 1]];
      RunMore(EMPTY, acts, after[|after| - 1]);
      InvariantAlways(acts);
      InputStaysOne(Run(acts), after[|after| - 1], id);
      assert RequestInvariant(Run(acts), id);
      var scope := Run(acts).requests[id].input.scope;
      assert scope in Run(acts).redis.results ==> CacheInvariant(Run(acts), scope);
      InvalidStaysOne(Run(acts), after[|after| - 1], id);
    }
  }

  /** In every run a request carries its caller's tenant, key, event, quantity, source, external id and the
      webhook URL for good, and is refused as invalid, at once and for good, exactly if a bound is broken. */
  lemma RequestIsTheCallers(before: seq<Action>, id: nat, raw: RawRequest, webhookURL: string, after: seq<Action>)
    requires id !in Run(before).requests
    ensures var s := Run(before + [Arrive(id, raw, webhookURL)] + after);
            && id in s.requests
            && (s.requests[id].pc == Done(Invalid) <==> !InBounds(raw))
            && (InBounds(raw) ==> Carries(s.requests[id].input, raw, webhookURL))
  {
    RunMore(EMPTY, before, Arrive(id, raw, webhookURL));
    RequestStays(before + [Arrive(id, raw, webhookURL)], after, id);
  }

  /** So whoever is answered with an order, gets the tenant, event and quantity it asked for. */
  lemma AnswerIsTheCallers(before: seq<Action>, id: nat, raw: RawRequest, webhookURL: string, after: seq<Action>)
    requires id !in Run(before).requests
    requires var r := Run(before + [Arrive(id, raw, webhookURL)] + after).requests;
             id in r && r[id].pc.Done? && r[id].pc.response.Success?
    ensures var order := Run(before + [Arrive(id, raw, webhookURL)] + after).requests[id].pc.response.order;
            order.tenantID == raw.tenant && order.eventID == raw.eventID && order.quantity == raw.quantity
  {
    RequestIsTheCallers(before, id, raw, webhookURL, after);
    SuccessMatchesTheRequest(before + [Arrive(id, raw, webhookURL)] + after, id);
  }

  /** And a delivery goes to the URL the caller's service is configured with: the row a request writes
      calls for one delivery to it, or for none if there is no URL. */
  lemma DeliveryIsTheCallers(before: seq<Action>, id: nat, raw: RawRequest, webhookURL: string, after: seq<Action>,
                             i: nat)
    requires id !in Run(before).requests
    requires var db := Run(before + [Arrive(id, raw, webhookURL)] + after).db;
             i < |db.orders| && db.orders[i].writer == id
    ensures var db := Run(before + [Arrive(id, raw, webhookURL)] + after).db;
            && db.orders[i].order.tenantID == raw.tenant
            && db.orders[i].order.eventID == raw.eventID && db.orders[i].order.quantity == raw.quantity
            && NoticesFor(db.deliveries, db.orders[i].order.id)
               == if webhookURL == "" then [] else [Notice(db.orders[i].order, webhookURL)]
  {
    var acts := before + [Arrive(id, raw, webhookURL)] + after;
    RequestIsTheCallers(before, id, raw, webhookURL, after);
    InvariantAlways(acts);
    assert Run(acts).db.orders[i] in Run(acts).db.orders;
    OneOrderOneEventOneDelivery(acts, i);
  }
}
