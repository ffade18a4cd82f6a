/** What the event log and the store hold: the latest of what was saved, told from the calls alone. */
module Retention {
  import opened Common
  import opened Domain
  import opened EventLog
  import opened Subscriptions

  /** The events of the orders saved since the last Reset, numbered from 1. */
  function Saved(acts: seq<Action>): seq<Event> {
    if acts == [] then []
    else
      var before := Saved(acts[..|acts| - 1]);
      match acts[|acts| - 1]
      case SaveOrder(order, kind) => before + [Event(|before| + 1, kind, order.id, order.tenantID)]
      case ResetAll => []
      case _ => before
  }

  /** The orders saved since then, each as last saved and with the number of that event. */
  function SavedOrders(acts: seq<Action>): map<string, Order> {
    if acts == [] then map[]
    else
      var before := SavedOrders(acts[..|acts| - 1]);
      match acts[|acts| - 1]
      case SaveOrder(order, _) => before[order.id := order.(sequence := |Saved(acts[..|acts| - 1])| + 1)]
      case ResetAll => map[]
      case _ => before
  }

  /** The last `most` of them, or all if there are no more. */
  function Latest(events: seq<Event>, most: nat): seq<Event> {
    events[|events| - Min(|events|, most)..]
  }

  ghost predicate Holds(m: Store, events: seq<Event>, orders: map<string, Order>, most: nat) {
    m.retention == most && m.nextSequence == |events| && m.events == Latest(events, most) && m.orders == orders
  }

  lemma SaveHolds(m: Store, events: seq<Event>, orders: map<string, Order>, most: nat, order: Order, kind: string)
    requires m.Valid() && most >= 1 && Holds(m, events, orders, most)
    ensures Holds(Save(m, order, kind), events + [Event(|events| + 1, kind, order.id, order.tenantID)],
                  orders[order.id := order.(sequence := |events| + 1)], most)
  {
    SaveKeepsValid(m, order, kind);
    var e := Event(|events| + 1, kind, order.id, order.tenantID);
    assert Latest(events, most) + [e] == (events + [e])[|events| - |Latest(events, most)|..];
    assert Append(m, order, kind).0.events == Latest(events + [e], most);
  }

  /** In every run the store holds all orders saved since the last Reset, and the log the events of the
      latest of these saves: as many as asked for, or 500 if less than one was. */
  lemma {:induction false} HoldsTheLatest(retention: int, acts: seq<Action>)
    ensures Holds(Run(retention, acts).store, Saved(acts), SavedOrders(acts), if retention < 1 then 500 else retention)
  {
    if acts != [] {
      var before := acts[..|acts| - 1];
      HoldsTheLatest(retention, before);
      if acts[|acts| - 1].SaveOrder? {
        SaveHolds(Run(retention, before).store, Saved(before), SavedOrders(before),
                  if retention < 1 then 500 else retention, acts[|acts| - 1].order, acts[|acts| - 1].kind);
      }
    }
  }
}
