/**
 The bounded event log and its subscriptions, internal/store/memory.go.

 A Go channel is a bounded queue with a closed flag; sending to or closing a closed channel panics,
 so `Send` and `Close` require an open one. `consumed` is what the reader of a channel has taken out.
 Channels are shared with their readers, so they live in `channels` and are referred to by index.
 */
module EventLog {
  import opened Domain

  datatype Channel = Channel(capacity: nat, buffered: seq<Event>, closed: bool, consumed: seq<Event>) {
    predicate Full() {
      |buffered| >= capacity
    }

    function Send(e: Event): Channel
      requires !closed && !Full()
    {
      this.(buffered := buffered + [e])
    }

    function Close(): Channel
      requires !closed
    {
      this.(closed := true)
    }

    /** Everything ever sent on the channel. */
    function Sent(): seq<Event> {
      consumed + buffered
    }
  }

  datatype Subscriber = Subscriber(tenantID: string, channel: nat) {
    predicate Wants(e: Event) {
      tenantID == "" || tenantID == e.tenantID
    }
  }

  datatype Store = Store(
    orders: map<string, Order>,
    events: seq<Event>,
    nextSequence: nat,
    retention: nat,
    evictedThrough: map<string, nat>,
    subscribers: map<nat, Subscriber>,
    nextSubscriber: nat,
    channels: seq<Channel>)
  {
    /** A registered subscriber has its own channel, still open. */
    ghost predicate Valid() {
      && retention >= 1
      && |channels| == nextSubscriber
      && (forall id | id in subscribers ::
            1 <= id <= nextSubscriber && subscribers[id].channel == id - 1 && !channels[id - 1].closed)
    }

    function Watermark(tenant: string): nat {
      if tenant in evictedThrough then evictedThrough[tenant] else 0
    }
  }

  function New(retention: int): Store {
    Store(map[], [], 0, if retention < 1 then 500 else retention, map[], map[], 0, [])
  }

  /** The tenant's events above a sequence number, in log order. */
  function Above(log: seq<Event>, tenant: string, sequence: nat): seq<Event> {
    if log == [] then []
    else
      var e := log[|log| - 1];
      Above(log[..|log| - 1], tenant, sequence) + if e.tenantID == tenant && e.sequence > sequence then [e] else []
  }

  /** What a subscriber of this tenant wants out of a stretch of events. */
  function Wanted(log: seq<Event>, tenant: string): seq<Event> {
    if log == [] then []
    else
      var e := log[|log| - 1];
      Wanted(log[..|log| - 1], tenant) + if tenant == "" || tenant == e.tenantID then [e] else []
  }

  function Evict(marks: map<string, nat>, dropped: seq<Event>): map<string, nat> {
    if dropped == [] then marks
    else
      var before, e := Evict(marks, dropped[..|dropped| - 1]), dropped[|dropped| - 1];
      var mark := if e.tenantID in before then before[e.tenantID] else 0;
      before[e.tenantID := if mark >= e.sequence then mark else e.sequence]
  }

  /** Deliver `e` to the registered subscribers whose ids are in `ids`: send, or close on overflow. */
  ghost function Deliver(m: Store, e: Event, ids: set<nat>): Store
    requires m.Valid()
  {
    m.(subscribers := map id | id in m.subscribers
                               && !(id in ids && m.subscribers[id].Wants(e) && m.channels[id - 1].Full()) ::
                                  m.subscribers[id],
       channels := seq(|m.channels|, i requires 0 <= i < |m.channels| =>
                         if i + 1 in ids && i + 1 in m.subscribers && m.subscribers[i + 1].Wants(e)
                         then if m.channels[i].Full() then m.channels[i].Close() else m.channels[i].Send(e)
                         else m.channels[i]))
  }

  ghost function CloseAll(m: Store, ids: set<nat>): Store
    requires m.Valid()
  {
    m.(subscribers := m.subscribers - ids,
       channels := seq(|m.channels|, i requires 0 <= i < |m.channels| =>
                         if i + 1 in ids && i + 1 in m.subscribers then m.channels[i].Close() else m.channels[i]))
  }

  function Append(m: Store, order: Order, kind: string): (Store, Order, Event) {
    var saved := order.(sequence := m.nextSequence + 1);
    var e := Event(m.nextSequence + 1, kind, order.id, order.tenantID);
    var all := m.events + [e];
    var cut := if |all| > m.retention then |all| - m.retention else 0;
    (m.(nextSequence := m.nextSequence + 1,
        orders := m.orders[order.id := saved],
        events := all[cut..],
        evictedThrough := Evict(m.evictedThrough, all[..cut])), saved, e)
  }

  ghost function Save(m: Store, order: Order, kind: string): Store
    requires m.Valid()
  {
    var (m', _, e) := Append(m, order, kind);
    Deliver(m', e, m'.subscribers.Keys)
  }

  function Expired(m: Store, tenant: string, cursor: nat): bool {
    cursor > 0 && cursor <= m.Watermark(tenant)
  }

  function Subscribe(m: Store, tenant: string, buffer: int): Store {
    m.(nextSubscriber := m.nextSubscriber + 1,
       channels := m.channels + [Channel(if buffer < 1 then 32 else buffer, [], false, [])],
       subscribers := m.subscribers[m.nextSubscriber + 1 := Subscriber(tenant, |m.channels|)])
  }

  ghost function Cancel(m: Store, id: nat): Store
    requires m.Valid()
  {
    CloseAll(m, {id})
  }

  ghost function Reset(m: Store): Store
    requires m.Valid()
  {
    CloseAll(m, m.subscribers.Keys).(orders := map[], events := [], evictedThrough := map[], nextSequence := 0)
  }

  function Receive(m: Store, channel: nat): Store {
    if channel < |m.channels| && m.channels[channel].buffered != [] then
      var c := m.channels[channel];
      m.(channels := m.channels[channel := c.(buffered := c.buffered[1..], consumed := c.consumed + [c.buffered[0]])])
    else m
  }

  lemma DeliverKeepsValid(m: Store, e: Event, ids: set<nat>)
    requires m.Valid()
    ensures Deliver(m, e, ids).Valid()
  {
  }

  lemma SaveKeepsValid(m: Store, order: Order, kind: string)
    requires m.Valid()
    ensures Append(m, order, kind).0.Valid() && Save(m, order, kind).Valid()
  {
    var (m', _, e) := Append(m, order, kind);
    DeliverKeepsValid(m', e, m'.subscribers.Keys);
  }

  /* ---------- the loops ---------- */

  lemma DeliverOneMore(m: Store, e: Event, ids: set<nat>, id: nat)
    requires m.Valid() && id in m.subscribers && id !in ids
    ensures var d := Deliver(m, e, ids);
            var d' := Deliver(m, e, ids + {id});
            && id in d.subscribers && d.subscribers[id] == m.subscribers[id]
            && |d.channels| == |m.channels| && d.channels[id - 1] == m.channels[id - 1]
            && d' == if !m.subscribers[id].Wants(e) then d
                     else if m.channels[id - 1].Full()
                     then d.(subscribers := d.subscribers - {id},
                             channels := d.channels[id - 1 := m.channels[id - 1].Close()])
                     else d.(channels := d.channels[id - 1 := m.channels[id - 1].Send(e)])
  {
    var d, d' := Deliver(m, e, ids), Deliver(m, e, ids + {id});
    if m.subscribers[id].Wants(e) {
      var c := if m.channels[id - 1].Full() then m.channels[id - 1].Close() else m.channels[id - 1].Send(e);
      assert d'.channels == d.channels[id - 1 := c];
      if m.channels[id - 1].Full() {
        assert d'.subscribers == d.subscribers - {id};
      } else {
        assert d'.subscribers == d.subscribers;
      }
    } else {
      assert d'.channels == d.channels && d'.subscribers == d.subscribers;
    }
  }

  lemma CloseOneMore(m: Store, ids: set<nat>, id: nat)
    requires m.Valid() && id in m.subscribers && id !in ids
    ensures var d := CloseAll(m, ids);
            && id in d.subscribers && d.subscribers[id] == m.subscribers[id]
            && |d.channels| == |m.channels| && d.channels[id - 1] == m.channels[id - 1]
            && CloseAll(m, ids + {id}) == d.(subscribers := d.subscribers - {id},
                                             channels := d.channels[id - 1 := m.channels[id - 1].Close()])
  {
    var d, d' := CloseAll(m, ids), CloseAll(m, ids + {id});
    assert d'.channels == d.channels[id - 1 := m.channels[id - 1].Close()];
    assert d'.subscribers == d.subscribers - {id};
  }

  /** The fan-out loop of Save. */
  method FanOut(m: Store, e: Event) returns (subscribers: map<nat, Subscriber>, channels: seq<Channel>)
    requires m.Valid()
    ensures m.(subscribers := subscribers, channels := channels) == Deliver(m, e, m.subscribers.Keys)
  {
    subscribers, channels := m.subscribers, m.channels;
    var todo := m.subscribers.Keys;
    ghost var done := {};
    assert channels == Deliver(m, e, {}).channels;
    while todo != {}
      invariant todo + done == m.subscribers.Keys && todo !! done
      invariant subscribers == Deliver(m, e, done).subscribers
      invariant channels == Deliver(m, e, done).channels
    {
      var id :| id in todo;
      DeliverOneMore(m, e, done, id);
      todo := todo - {id};
      done := done + {id};
      var s := subscribers[id];
      if s.tenantID != "" && s.tenantID != e.tenantID {
        continue;
      }
      if !channels[s.channel].Full() {
        channels := channels[s.channel := channels[s.channel].Send(e)];
      } else {
        subscribers := subscribers - {id};
        channels := channels[s.channel := channels[s.channel].Close()];
      }
    }
    assert done == m.subscribers.Keys;
  }

  /** The closing loop of Reset. */
  method CloseEvery(m: Store) returns (channels: seq<Channel>)
    requires m.Valid()
    ensures channels == CloseAll(m, m.subscribers.Keys).channels
  {
    var subscribers := m.subscribers;
    channels := m.channels;
    ghost var done := {};
    assert channels == CloseAll(m, {}).channels;
    while subscribers.Keys != {}
      invariant done <= m.subscribers.Keys
      invariant subscribers == CloseAll(m, done).subscribers
      invariant channels == CloseAll(m, done).channels
      decreases subscribers.Keys
    {
      var id :| id in subscribers.Keys;
      CloseOneMore(m, done, id);
      done := done + {id};
      channels := channels[subscribers[id].channel := channels[subscribers[id].channel].Close()];
      subscribers := subscribers - {id};
    }
    assert done == m.subscribers.Keys by {
      assert forall id | id in m.subscribers && id !in done :: id in subscribers;
    }
  }

  /** The watermark loop of Save. */
  method RaiseMarks(before: map<string, nat>, evicted: seq<Event>) returns (marks: map<string, nat>)
    ensures marks == Evict(before, evicted)
  {
    marks := before;
    var i := 0;
    while i < |evicted|
      invariant 0 <= i <= |evicted| && marks == Evict(before, evicted[..i])
    {
      assert evicted[..i + 1][..i] == evicted[..i];
      var gone := evicted[i];
      var mark := if gone.tenantID in marks then marks[gone.tenantID] else 0;
      marks := marks[gone.tenantID := if mark >= gone.sequence then mark else gone.sequence];
      i := i + 1;
    }
    assert evicted[..i] == evicted;
  }

  /** The two-index swap loop of RecentEvents. */
  method Reverse(s: seq<Event>) returns (r: seq<Event>)
    ensures |r| == |s| && forall i | 0 <= i < |s| :: r[i] == s[|s| - 1 - i]
  {
    r := s;
    var left, right := 0, |s| - 1;
    while left < right
      invariant 0 <= left && right == |s| - 1 - left && left <= right + 1 && |r| == |s|
      invariant forall i | left <= i <= right :: r[i] == s[i]
      invariant forall i | 0 <= i < |s| && !(left <= i <= right) :: r[i] == s[|s| - 1 - i]
    {
      assert r[left] == s[left] && r[right] == s[right];
      r := r[left := r[right]][right := r[left]];
      left, right := left + 1, right - 1;
    }
  }

  class Memory {
    var orders: map<string, Order>
    var events: seq<Event>
    var nextSequence: nat
    const retention: nat
    var evictedThrough: map<string, nat>
    var subscribers: map<nat, Subscriber>
    var nextSubscriber: nat
    var channels: seq<Channel>

    function Value(): Store
      reads this
    {
      Store(orders, events, nextSequence, retention, evictedThrough, subscribers, nextSubscriber, channels)
    }

    constructor (retention: int)
      ensures Value() == New(retention) && Value().Valid()
    {
      this.retention := if retention < 1 then 500 else retention;
      orders, events, nextSequence, evictedThrough := map[], [], 0, map[];
      subscribers, nextSubscriber, channels := map[], 0, [];
    }

    method SaveOrder(order: Order, kind: string) returns (saved: Order)
      requires Value().Valid()
      modifies this
      ensures Value().Valid() && Value() == Save(old(Value()), order, kind)
      ensures saved == order.(sequence := old(nextSequence) + 1)
    {
      SaveKeepsValid(Value(), order, kind);
      var event;
      saved, event := AppendEvent(order, kind);
      ghost var appended := Value();
      subscribers, channels := FanOut(Value(), event);
      assert Value() == Deliver(appended, event, appended.subscribers.Keys);
    }

    /** Save up to the fan-out: number the order, log the event, trim the log. */
    method AppendEvent(order: Order, kind: string) returns (saved: Order, event: Event)
      modifies this
      ensures (Value(), saved, event) == Append(old(Value()), order, kind)
    {
      nextSequence := nextSequence + 1;
      saved := order.(sequence := nextSequence);
      orders := orders[order.id := saved];
      event := Event(nextSequence, kind, order.id, order.tenantID);
      events := events + [event];
      if |events| > retention {
        evictedThrough := RaiseMarks(evictedThrough, events[..|events| - retention]);
        events := events[|events| - retention..];
      } else {
        assert events[..0] == [] && events[0..] == events;
      }
    }

    method EventsSince(tenant: string, sequence: nat) returns (result: seq<Event>)
      ensures result == Above(events, tenant, sequence)
    {
      result := [];
      var i := 0;
      while i < |events|
        invariant 0 <= i <= |events|
        invariant result == Above(events[..i], tenant, sequence)
      {
        assert events[..i + 1][..i] == events[..i];
        if events[i].tenantID == tenant && events[i].sequence > sequence {
          result := result + [events[i]];
        }
        i := i + 1;
      }
      assert events[..i] == events;
    }

    /** Newest first. */
    method RecentEvents(limit: int) returns (result: seq<Event>)
      ensures |result| == if limit <= 0 || limit > |events| then |events| else limit
      ensures forall i | 0 <= i < |result| :: result[i] == events[|events| - 1 - i]
    {
      var take := if limit <= 0 || limit > |events| then |events| else limit;
      var start := |events| - take;
      result := events[start..];
      result := Reverse(result);
    }

    method SubscribeSince(tenant: string, sequence: nat, buffer: int)
      returns (replay: seq<Event>, channel: nat, id: nat, expired: bool)
      requires Value().Valid()
      modifies this
      ensures Value().Valid() && Value() == Subscribe(old(Value()), tenant, buffer)
      ensures replay == Above(events, tenant, sequence) && expired == Expired(old(Value()), tenant, sequence)
      ensures id == nextSubscriber && channel == id - 1
    {
      expired := sequence > 0 && sequence <= if tenant in evictedThrough then evictedThrough[tenant] else 0;
      replay := EventsSince(tenant, sequence);
      nextSubscriber := nextSubscriber + 1;
      id := nextSubscriber;
      channel := |channels|;
      channels := channels + [Channel(if buffer < 1 then 32 else buffer, [], false, [])];
      subscribers := subscribers[id := Subscriber(tenant, channel)];
    }

    /** The function SubscribeSince returns; calling it again does nothing. */
    method CancelSubscription(id: nat)
      requires Value().Valid()
      modifies this
      ensures Value().Valid() && Value() == Cancel(old(Value()), id)
      ensures id !in old(subscribers) ==> Value() == old(Value())
    {
      ghost var was := Value();
      if id in subscribers {
        CloseOneMore(was, {}, id);
        var current := subscribers[id];
        subscribers := subscribers - {id};
        channels := channels[current.channel := channels[current.channel].Close()];
        assert CloseAll(was, {}).channels == was.channels && {} + {id} == {id};
      } else {
        assert CloseAll(was, {id}).channels == was.channels;
        assert was.subscribers - {id} == was.subscribers;
      }
    }

    method ResetStore()
      requires Value().Valid()
      modifies this
      ensures Value().Valid() && Value() == Reset(old(Value()))
    {
      channels := CloseEvery(Value());
      subscribers := map[];
      orders, events, evictedThrough, nextSequence := map[], [], map[], 0;
    }
  }
}
