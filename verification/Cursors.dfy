/**
 Exactly which cursors a client of the event log can come back with. Numbers start again with every
 Reset and a cursor does not say which log it was taken from, so there are two questions: what a cursor
 from the present log is good for, and what one from before a Reset does.
 */
module Cursors {
  import opened Common
  import opened Domain
  import opened EventLog
  import opened Subscriptions

  /* ---------- cursors taken since the last Reset ---------- */

  lemma MarkIsWithinLog(retention: int, acts: seq<Action>, tenant: string)
    ensures Run(retention, acts).store.Watermark(tenant) <= Run(retention, acts).store.nextSequence
  {
    InvariantAlways(retention, acts);
    var s := Run(retention, acts);
    MarkIsHighest(s.Log()[..s.Cut()], tenant);
    assert s.store.Watermark(tenant) == Mark(s.store.evictedThrough, tenant);
  }

  /** What the channel's subscriber has been sent, if it is registered. */
  function SentTo(s: System, channel: nat): Option<seq<Event>> {
    if channel < |s.store.channels| && channel + 1 in s.store.subscribers
    then Some(s.store.channels[channel].Sent()) else None
  }

  /** A cursor beyond the last number is never reported expired, yet the tenant's next event, numbered at
      or below the cursor, is sent live. */
  lemma StaleCursorReceivesOldEvent(retention: int, before: seq<Action>, tenant: string, cursor: nat, buffer: int,
                                    order: Order, kind: string)
    requires tenant != "" && order.tenantID == tenant && cursor > Run(retention, before).store.nextSequence
    ensures var s := Run(retention, before);
            && !Expired(s.store, tenant, cursor)
            && s.store.nextSequence + 1 <= cursor
            && SentTo(Step(Step(s, SubscribeTo(tenant, buffer)), SaveOrder(order, kind)), |s.store.channels|)
               == Some([Event(s.store.nextSequence + 1, kind, order.id, tenant)])
  {
    MarkIsWithinLog(retention, before, tenant);
    NextIsSent(Run(retention, before), tenant, buffer, order, kind);
  }

  lemma NextIsSent(s: System, tenant: string, buffer: int, order: Order, kind: string)
    requires s.store.Valid() && order.tenantID == tenant
    ensures SentTo(Step(Step(s, SubscribeTo(tenant, buffer)), SaveOrder(order, kind)), |s.store.channels|)
            == Some([Event(s.store.nextSequence + 1, kind, order.id, tenant)])
  {
    var s1, e := Step(s, SubscribeTo(tenant, buffer)), Event(s.store.nextSequence + 1, kind, order.id, tenant);
    assert s1.store.channels[|s.store.channels|].Sent() == [];
    SentOne(s1, order, kind, |s.store.channels|, e);
  }

  lemma NothingAboveNext(retention: int, before: seq<Action>, tenant: string, cursor: nat, buffer: int, order: Order,
                         kind: string)
    requires cursor > Run(retention, before).store.nextSequence
    ensures var now := Step(Step(Run(retention, before), SubscribeTo(tenant, buffer)), SaveOrder(order, kind));
            Above(now.Log(), tenant, cursor) == []
  {
    var s := Run(retention, before);
    var s1 := Step(s, SubscribeTo(tenant, buffer));
    InvariantAlways(retention, before);
    StepKeepsInvariant(s, SubscribeTo(tenant, buffer));
    SaveKeepsLog(s1, order, kind);
    NothingBeyond(Step(s1, SaveOrder(order, kind)), tenant, cursor);
  }

  lemma NothingBeyond(s: System, tenant: string, cursor: nat)
    requires LogInvariant(s) && s.store.nextSequence <= cursor
    ensures Above(s.Log(), tenant, cursor) == []
  {
    NothingAboveIff(s.Log(), tenant, cursor);
  }

  /** A subscriber that has been sent nothing yet. */
  lemma SentOne(s: System, order: Order, kind: string, channel: nat, e: Event)
    requires s.store.Valid() && channel < |s.store.channels| && channel + 1 in s.store.subscribers
    requires s.store.subscribers[channel + 1].tenantID == order.tenantID
    requires s.store.channels[channel].Sent() == [] && s.store.channels[channel].capacity >= 1
    requires e == Event(s.store.nextSequence + 1, kind, order.id, order.tenantID)
    ensures SentTo(Step(s, SaveOrder(order, kind)), channel) == Some([e])
  {
    var c' := Step(s, SaveOrder(order, kind)).store.channels[channel];
    assert c'.Sent() == [e];
  }

  /** So a cursor that was good before a Reset is not reported expired after it, and the new log's first
      event reaches its subscriber although it lies below. */
  lemma CursorOutlivesReset(retention: int, before: seq<Action>, tenant: string, cursor: nat, buffer: int,
                            order: Order, kind: string)
    requires tenant != "" && order.tenantID == tenant
    requires 0 < cursor <= Run(retention, before).store.nextSequence
    ensures var s := Run(retention, before + [ResetAll]);
            && !Expired(s.store, tenant, cursor)
            && SentTo(Step(Step(s, SubscribeTo(tenant, buffer)), SaveOrder(order, kind)), |s.store.channels|)
               == Some([Event(1, kind, order.id, tenant)])
  {
    RunMore(retention, before, ResetAll);
    StaleCursorReceivesOldEvent(retention, before + [ResetAll], tenant, cursor, buffer, order, kind);
  }

  lemma EvictedCursorHasGap(retention: int, before: seq<Action>, tenant: string, cursor: nat)
    requires Run(retention, before).store.Watermark(tenant) > cursor
    ensures !GapFree(Run(retention, before), tenant, cursor, 1, [])
  {
    InvariantAlways(retention, before);
    ReplayCompleteIff(retention, before, tenant, cursor);
  }

  lemma StaleCursorHasGap(retention: int, before: seq<Action>, tenant: string, cursor: nat)
    requires tenant != "" && Run(retention, before).store.nextSequence < cursor
    ensures !GapFree(Run(retention, before), tenant, cursor, 1, [SaveOrder(Order("o", tenant, "e", 1, 0), "k")])
  {
    var s, order := Run(retention, before), Order("o", tenant, "e", 1, 0);
    NextIsSent(s, tenant, 1, order, "k");
    NothingAboveNext(retention, before, tenant, cursor, 1, order, "k");
    OneMore(Step(s, SubscribeTo(tenant, 1)), SaveOrder(order, "k"));
  }

  /** In every reachable state a tenant's cursor is good, for every buffer and whatever follows, exactly
      if it lies between the tenant's watermark and the last number given out. */
  lemma GapFreeIff(retention: int, before: seq<Action>, tenant: string, cursor: nat)
    requires tenant != ""
    ensures var s := Run(retention, before);
            (forall buffer, after :: GapFree(s, tenant, cursor, buffer, after))
            <==> s.store.Watermark(tenant) <= cursor <= s.store.nextSequence
  {
    var s := Run(retention, before);
    if s.store.Watermark(tenant) <= cursor <= s.store.nextSequence {
      forall buffer, after ensures GapFree(s, tenant, cursor, buffer, after) {
        GoodCursorIsGapFree(retention, before, tenant, cursor, buffer, after);
      }
    } else if s.store.Watermark(tenant) > cursor {
      EvictedCursorHasGap(retention, before, tenant, cursor);
    } else {
      StaleCursorHasGap(retention, before, tenant, cursor);
    }
  }

  /* ---------- cursors from before a Reset ---------- */

  /** After this continuation, while registered, replay and live events together are all of the tenant's
      events in the log as it then stands: what a client needs that has seen none of this log. */
  ghost predicate Whole(s: System, tenant: string, cursor: nat, buffer: int, after: seq<Action>)
    requires s.store.Valid()
  {
    var now := RunFrom(Step(s, SubscribeTo(tenant, buffer)), after);
    var channel := |s.store.channels|;
    channel < |now.store.channels| && channel + 1 in now.store.subscribers ==>
      Above(s.store.events, tenant, cursor) + now.store.channels[channel].Sent() == Above(now.Log(), tenant, 0)
  }

  /** Every tenant event is numbered above the cursor. */
  ghost predicate AllAbove(log: seq<Event>, tenant: string, cursor: nat) {
    forall i | 0 <= i < |log| :: log[i].tenantID == tenant ==> log[i].sequence > cursor
  }

  lemma {:induction false} AllAboveKeepsAll(log: seq<Event>, tenant: string, cursor: nat)
    requires AllAbove(log, tenant, cursor)
    ensures Above(log, tenant, cursor) == Above(log, tenant, 0)
  {
    if log != [] {
      AllAboveKeepsAll(log[..|log| - 1], tenant, cursor);
    }
  }

  lemma SameMeansAllAbove(log: seq<Event>, events: seq<Event>, tenant: string, cursor: nat)
    requires Ascending(log) && Ascending(events) && forall i | 0 <= i < |log| :: log[i].sequence > 0
    requires Above(events, tenant, cursor) == Above(log, tenant, 0)
    ensures AllAbove(log, tenant, cursor)
  {
    AboveIsExact(log, tenant, 0);
    AboveIsExact(events, tenant, cursor);
    forall i | 0 <= i < |log| && log[i].tenantID == tenant ensures log[i].sequence > cursor {
      assert log[i] in Above(log, tenant, 0);
    }
  }

  /** The replay is the whole log of the tenant exactly if nothing of it was evicted and nothing is
      numbered at or below the cursor. */
  lemma ReplayIsWholeIff(log: seq<Event>, retention: nat, events: seq<Event>, marks: map<string, nat>, tenant: string,
                         cursor: nat)
    requires Windowed(log, retention, events, marks)
    ensures Above(events, tenant, cursor) == Above(log, tenant, 0)
            <==> Mark(marks, tenant) == 0 && AllAbove(log, tenant, cursor)
  {
    WindowIsCompleteIff(log, retention, events, marks, tenant, 0);
    if Above(events, tenant, cursor) == Above(log, tenant, 0) {
      SameMeansAllAbove(log, events, tenant, cursor);
    }
    if AllAbove(log, tenant, cursor) {
      AllAboveKeepsAll(events, tenant, cursor);
    }
  }

  lemma ReplayAndLiveIsWhole(retention: int, before: seq<Action>, tenant: string, cursor: nat, buffer: int,
                             after: seq<Action>)
    requires tenant != ""
    requires var s := Run(retention, before); Above(s.store.events, tenant, cursor) == Above(s.Log(), tenant, 0)
    ensures Whole(Run(retention, before), tenant, cursor, buffer, after)
  {
    var s := Run(retention, before);
    var s1 := Step(s, SubscribeTo(tenant, buffer));
    InvariantAlways(retention, before);
    StepKeepsInvariant(s, SubscribeTo(tenant, buffer));
    var now := RunFrom(s1, after);
    InvariantFrom(s1, after);
    OriginsStay(s1, after, |s.store.channels|);
    if |s.store.channels| + 1 in now.store.subscribers {
      assert ChannelInvariant(now, |s.store.channels|);
      LogOnlyGrew(s, now, tenant, 0);
    }
  }

  /** In every reachable state a client that has seen none of the present log gets all of it, for every
      buffer and whatever follows, exactly if nothing of its tenant was evicted and no event of its
      tenant is numbered at or below its cursor. */
  lemma WholeIff(retention: int, before: seq<Action>, tenant: string, cursor: nat)
    requires tenant != ""
    ensures var s := Run(retention, before);
            (forall buffer, after :: Whole(s, tenant, cursor, buffer, after))
            <==> s.store.Watermark(tenant) == 0 && AllAbove(s.Log(), tenant, cursor)
  {
    var s := Run(retention, before);
    InvariantAlways(retention, before);
    ReplayIsWholeIff(s.Log(), s.store.retention, s.store.events, s.store.evictedThrough, tenant, cursor);
    if Above(s.store.events, tenant, cursor) == Above(s.Log(), tenant, 0) {
      forall buffer, after ensures Whole(s, tenant, cursor, buffer, after) {
        ReplayAndLiveIsWhole(retention, before, tenant, cursor, buffer, after);
      }
    } else {
      assert !Whole(s, tenant, cursor, 1, []);
    }
  }

  lemma {:induction false} HistoryGrows(s: System, acts: seq<Action>)
    requires s.store.Valid()
    ensures |s.history| <= |RunFrom(s, acts).history|
  {
    if acts != [] {
      HistoryGrows(s, acts[..|acts| - 1]);
    }
  }

  lemma {:induction false} RunOn(s: System, earlier: seq<Action>, later: seq<Action>)
    requires s.store.Valid()
    ensures RunFrom(s, earlier + later) == RunFrom(RunFrom(s, earlier), later)
  {
    if later == [] {
      assert earlier + later == earlier;
    } else {
      RunOn(s, earlier, later[..|later| - 1]);
      assert (earlier + later)[..|earlier + later| - 1] == earlier + later[..|later| - 1];
    }
  }

  /** A client that has read up to `cursor` comes back after any `later` run. With its log still the
      present one it gets what it missed exactly if that was not evicted; after a Reset it gets the new
      log exactly if nothing of that was evicted and nothing is numbered at or below its old cursor. */
  lemma ReconnectIff(retention: int, earlier: seq<Action>, later: seq<Action>, tenant: string, cursor: nat)
    requires tenant != "" && cursor <= Run(retention, earlier).store.nextSequence
    ensures var s := Run(retention, earlier + later);
            if s.base == Run(retention, earlier).base then
              (forall buffer, after :: GapFree(s, tenant, cursor, buffer, after))
              <==> s.store.Watermark(tenant) <= cursor
            else
              (forall buffer, after :: Whole(s, tenant, cursor, buffer, after))
              <==> s.store.Watermark(tenant) == 0 && AllAbove(s.Log(), tenant, cursor)
  {
    RunOn(System(New(retention), [], 0, []), earlier, later);
    HistoryGrows(Run(retention, earlier), later);
    InvariantAlways(retention, earlier);
    InvariantAlways(retention, earlier + later);
    GapFreeIff(retention, earlier + later, tenant, cursor);
    WholeIff(retention, earlier + later, tenant, cursor);
  }

  /** A reader of event 1, which comes back when a Reset and one save have given the number to another
      event: its cursor is not expired and in range, and that event is neither replayed nor sent. */
  lemma OldCursorLosesEvent(retention: int, buffer: int, a: Order, b: Order, kind: string)
    requires a.tenantID == b.tenantID != ""
    ensures var s := Run(retention, [SaveOrder(a, kind), ResetAll, SaveOrder(b, kind)]);
            && !Expired(s.store, b.tenantID, 1)
            && s.store.Watermark(b.tenantID) <= 1 == s.store.nextSequence
            && Above(s.store.events, b.tenantID, 1) == []
            && SentTo(Step(s, SubscribeTo(b.tenantID, buffer)), |s.store.channels|) == Some([])
            && Above(s.Log(), b.tenantID, 0) == [Event(1, kind, b.id, b.tenantID)]
  {
    var acts := [SaveOrder(a, kind), ResetAll, SaveOrder(b, kind)];
    assert acts == [SaveOrder(a, kind), ResetAll] + [SaveOrder(b, kind)];
    assert [SaveOrder(a, kind), ResetAll] == [SaveOrder(a, kind)] + [ResetAll];
    RunMore(retention, [SaveOrder(a, kind), ResetAll], SaveOrder(b, kind));
    RunMore(retention, [SaveOrder(a, kind)], ResetAll);
    assert Run(retention, acts).Log() == [Event(1, kind, b.id, b.tenantID)];
    OneEventLog(retention, acts, Event(1, kind, b.id, b.tenantID));
  }

  lemma OneEventLog(retention: int, acts: seq<Action>, e: Event)
    requires Run(retention, acts).Log() == [e]
    ensures var s := Run(retention, acts);
            && s.store.events == [e] && s.store.Watermark(e.tenantID) == 0 && s.store.nextSequence == 1 == e.sequence
            && Above([e], e.tenantID, 1) == [] && Above([e], e.tenantID, 0) == [e]
  {
    InvariantAlways(retention, acts);
    var s := Run(retention, acts);
    assert s.Log()[0].sequence == 1 && s.store.events == [e];
    assert s.Log()[..0] == [] && [e][..0] == [];
    assert s.store.evictedThrough == map[];
  }

  /** Both errors of `expired`, after one eviction: cursor 0 has missed an event and is not reported, and
      cursor 1 has missed nothing and is. */
  lemma ExpiredErrsBothWays(a: Order, b: Order, kind: string)
    requires a.tenantID == b.tenantID != ""
    ensures var s := Run(1, [SaveOrder(a, kind), SaveOrder(b, kind)]);
            && !Expired(s.store, a.tenantID, 0) && Above(s.store.events, a.tenantID, 0) != Above(s.Log(), a.tenantID, 0)
            && Expired(s.store, a.tenantID, 1) && Above(s.store.events, a.tenantID, 1) == Above(s.Log(), a.tenantID, 1)
  {
    var acts := [SaveOrder(a, kind), SaveOrder(b, kind)];
    var first, second := Event(1, kind, a.id, a.tenantID), Event(2, kind, b.id, a.tenantID);
    assert acts == [SaveOrder(a, kind)] + [SaveOrder(b, kind)] && [SaveOrder(a, kind)][..0] == [];
    RunMore(1, [SaveOrder(a, kind)], SaveOrder(b, kind));
    RunMore(1, [], SaveOrder(a, kind));
    var s := Run(1, acts);
    InvariantAlways(1, acts);
    assert s.Log() == [first, second];
    assert [first, second][..1] == [first] && [first][..0] == [];
    assert s.store.Watermark(a.tenantID) == 1;
    ReplayCompleteIff(1, acts, a.tenantID, 0);
    ReplayCompleteIff(1, acts, a.tenantID, 1);
  }
}
