/**
 When a subscriber is dropped. Its channel has room for as many events as it asked for, and it is
 closed only by a save that finds no room left, by its own cancel, or by a Reset.
 */
module Overflow {
  import opened Common
  import opened Domain
  import opened EventLog
  import opened Subscriptions

  /** The events sent on a channel and not yet received. */
  function Waiting(s: System, channel: nat): seq<Event>
    requires channel < |s.store.channels|
  {
    s.store.channels[channel].buffered
  }

  ghost predicate Registered(s: System, channel: nat) {
    channel + 1 in s.store.subscribers && channel < |s.store.channels| == |s.origins|
  }

  /** Whether a subscriber made for `tenant` is meant by an event of this order. */
  predicate Concerns(tenant: string, order: Order) {
    tenant == "" || tenant == order.tenantID
  }

  lemma CapacityStaysOne(s: System, a: Action, channel: nat)
    requires s.store.Valid() && channel < |s.store.channels|
    ensures channel < |Step(s, a).store.channels|
    ensures Step(s, a).store.channels[channel].capacity == s.store.channels[channel].capacity
  {
  }

  lemma {:induction false} CapacityStays(s: System, acts: seq<Action>, channel: nat)
    requires s.store.Valid() && channel < |s.store.channels|
    ensures channel < |RunFrom(s, acts).store.channels|
    ensures RunFrom(s, acts).store.channels[channel].capacity == s.store.channels[channel].capacity
  {
    if acts != [] {
      CapacityStays(s, acts[..|acts| - 1], channel);
      CapacityStaysOne(RunFrom(s, acts[..|acts| - 1]), acts[|acts| - 1], channel);
    }
  }

  /** A subscription gets its tenant's events and the buffer it asked for, or 32 if it asked for none, and
      keeps both in every run. */
  lemma BufferAsAsked(retention: int, before: seq<Action>, tenant: string, buffer: int, after: seq<Action>)
    ensures var s := Run(retention, before);
            var now := RunFrom(Step(s, SubscribeTo(tenant, buffer)), after);
            var channel := |s.store.channels|;
            && channel < |now.store.channels|
            && now.store.channels[channel].capacity == (if buffer < 1 then 32 else buffer)
            && channel < |now.origins| && now.origins[channel].tenant == tenant
  {
    var s := Run(retention, before);
    InvariantAlways(retention, before);
    StepKeepsInvariant(s, SubscribeTo(tenant, buffer));
    OriginsStay(Step(s, SubscribeTo(tenant, buffer)), after, |s.store.channels|);
    CapacityStays(Step(s, SubscribeTo(tenant, buffer)), after, |s.store.channels|);
  }

  /** In every reachable state a save reaches a registered subscriber it concerns exactly if that has room:
      then the event joins what is waiting and the subscriber stays; otherwise it is closed and removed
      with what is waiting left to be read. A subscriber it does not concern notices nothing. */
  lemma SaveReachesIff(retention: int, acts: seq<Action>, channel: nat, order: Order, kind: string)
    requires Registered(Run(retention, acts), channel)
    ensures var s := Run(retention, acts);
            var s' := Step(s, SaveOrder(order, kind));
            var capacity := s.store.channels[channel].capacity;
            && |Waiting(s, channel)| <= capacity && channel < |s'.store.channels|
            && if !Concerns(s.origins[channel].tenant, order) then
                 Registered(s', channel) && Waiting(s', channel) == Waiting(s, channel)
               else if |Waiting(s, channel)| < capacity then
                 && Registered(s', channel) && !s'.store.channels[channel].closed
                 && Waiting(s', channel)
                    == Waiting(s, channel) + [Event(s.store.nextSequence + 1, kind, order.id, order.tenantID)]
               else
                 && !Registered(s', channel) && s'.store.channels[channel].closed
                 && Waiting(s', channel) == Waiting(s, channel)
  {
    InvariantAlways(retention, acts);
    assert ChannelInvariant(Run(retention, acts), channel);
    OneSave(Run(retention, acts), channel, order, kind);
  }

  lemma OneSave(s: System, channel: nat, order: Order, kind: string)
    requires s.store.Valid() && Registered(s, channel) && ChannelInvariant(s, channel)
    ensures var s' := Step(s, SaveOrder(order, kind));
            var c, c' := s.store.channels[channel], s'.store.channels[channel];
            && |s'.store.channels| == |s'.origins| == |s.store.channels|
            && if !Concerns(s.origins[channel].tenant, order) then channel + 1 in s'.store.subscribers && c' == c
               else if |c.buffered| < c.capacity then
                 && channel + 1 in s'.store.subscribers && !c'.closed
                 && c'.buffered == c.buffered + [Event(s.store.nextSequence + 1, kind, order.id, order.tenantID)]
               else channel + 1 !in s'.store.subscribers && c'.closed && c'.buffered == c.buffered
  {
  }

  /** In every reachable state a step closes an open channel exactly if it is a save of an event that
      concerns its subscriber and finds it full, its cancel, or a Reset. */
  lemma ClosedBy(retention: int, acts: seq<Action>, channel: nat, a: Action)
    requires var s := Run(retention, acts); channel < |s.store.channels| && !s.store.channels[channel].closed
    ensures var s := Run(retention, acts);
            && channel < |s.origins| && channel < |Step(s, a).store.channels|
            && (Step(s, a).store.channels[channel].closed
                <==> || a == CancelId(channel + 1) || a == ResetAll
                     || (&& a.SaveOrder? && Concerns(s.origins[channel].tenant, a.order)
                         && |Waiting(s, channel)| == s.store.channels[channel].capacity))
  {
    var s := Run(retention, acts);
    InvariantAlways(retention, acts);
    assert ChannelInvariant(s, channel);
    if a.SaveOrder? {
      SaveReachesIff(retention, acts, channel, a.order, a.kind);
      OneSave(s, channel, a.order, a.kind);
    } else {
      ClosedByOther(s, channel, a);
    }
  }

  lemma ClosedByOther(s: System, channel: nat, a: Action)
    requires s.store.Valid() && channel < |s.store.channels| && !s.store.channels[channel].closed
    requires channel + 1 in s.store.subscribers && !a.SaveOrder?
    ensures channel < |Step(s, a).store.channels|
    ensures Step(s, a).store.channels[channel].closed <==> a == CancelId(channel + 1) || a == ResetAll
  {
  }

  /** A reader takes the oldest waiting event, from an open channel or a closed one. */
  lemma ReaderTakesOldest(retention: int, acts: seq<Action>, channel: nat)
    requires channel < |Run(retention, acts).store.channels|
    ensures var s := Run(retention, acts);
            var s' := Step(s, ReceiveFrom(channel));
            && channel < |s'.store.channels|
            && s'.store.channels[channel].closed == s.store.channels[channel].closed
            && if Waiting(s, channel) == [] then s' == s
               else s'.store.channels[channel].consumed == s.store.channels[channel].consumed + [Waiting(s, channel)[0]]
                    && Waiting(s', channel) == Waiting(s, channel)[1..]
  {
  }
}
