/**
 Runs of the event log: writers, subscribers, cancels, overflows, resets and readers in any order.
 `history` is every event ever saved; the log since the last Reset is its part from `base` on.
 */
module Subscriptions {
  import opened Domain
  import opened EventLog

  /** The tenant a channel was made for, and how much had been saved by then. */
  datatype Origin = Origin(tenant: string, start: nat)

  datatype System = System(store: Store, history: seq<Event>, base: nat, origins: seq<Origin>) {
    function Log(): seq<Event> {
      if base <= |history| then history[base..] else []
    }

    /** How many events of the log have been evicted. */
    function Cut(): int {
      |Log()| - |store.events|
    }
  }

  datatype Action =
    | SaveOrder(order: Order, kind: string)
    | SubscribeTo(tenant: string, buffer: int)
    | CancelId(id: nat)
    | ResetAll
    | ReceiveFrom(channel: nat)

  ghost function Step(s: System, a: Action): (s': System)
    requires s.store.Valid()
    ensures s'.store.Valid()
  {
    match a
    case SaveOrder(order, kind) =>
      SaveKeepsValid(s.store, order, kind);
      s.(store := Save(s.store, order, kind), history := s.history + [Append(s.store, order, kind).2])
    case SubscribeTo(tenant, buffer) =>
      s.(store := Subscribe(s.store, tenant, buffer), origins := s.origins + [Origin(tenant, |s.history|)])
    case CancelId(id) => s.(store := Cancel(s.store, id))
    case ResetAll => s.(store := Reset(s.store), base := |s.history|)
    case ReceiveFrom(channel) => s.(store := Receive(s.store, channel))
  }

  ghost function RunFrom(s: System, acts: seq<Action>): (s': System)
    requires s.store.Valid()
    ensures s'.store.Valid()
  {
    if acts == [] then s else Step(RunFrom(s, acts[..|acts| - 1]), acts[|acts| - 1])
  }

  ghost function Run(retention: int, acts: seq<Action>): (s': System)
    ensures s'.store.Valid()
  {
    RunFrom(System(New(retention), [], 0, []), acts)
  }

  /* ---------- filters ---------- */

  lemma {:induction false} AboveConcat(a: seq<Event>, b: seq<Event>, tenant: string, cursor: nat)
    ensures Above(a + b, tenant, cursor) == Above(a, tenant, cursor) + Above(b, tenant, cursor)
  {
    if b == [] {
      assert a + b == a;
    } else {
      AboveConcat(a, b[..|b| - 1], tenant, cursor);
      assert (a + b)[..|a + b| - 1] == a + b[..|b| - 1];
    }
  }

  lemma WantedOneMore(xs: seq<Event>, e: Event, tenant: string)
    ensures Wanted(xs + [e], tenant) == Wanted(xs, tenant) + if tenant == "" || tenant == e.tenantID then [e] else []
  {
    assert (xs + [e])[..|xs|] == xs;
  }

  /** When every event lies above the cursor, a tenant's live events are its events above the cursor. */
  lemma {:induction false} WantedIsAbove(xs: seq<Event>, tenant: string, cursor: nat)
    requires tenant != "" && forall i | 0 <= i < |xs| :: xs[i].tenantID == tenant ==> xs[i].sequence > cursor
    ensures Wanted(xs, tenant) == Above(xs, tenant, cursor)
  {
    if xs != [] {
      WantedIsAbove(xs[..|xs| - 1], tenant, cursor);
    }
  }

  ghost predicate Ascending(xs: seq<Event>) {
    forall i, j | 0 <= i < j < |xs| :: xs[i].sequence < xs[j].sequence
  }

  /** `Above` keeps exactly the tenant's events above the cursor, each once, in ascending order. */
  lemma {:induction false} AboveIsExact(log: seq<Event>, tenant: string, cursor: nat)
    requires Ascending(log)
    ensures var r := Above(log, tenant, cursor);
            && Ascending(r)
            && (forall e :: e in r <==> e in log && e.tenantID == tenant && e.sequence > cursor)
  {
    if log != [] {
      var before, e := log[..|log| - 1], log[|log| - 1];
      AboveIsExact(before, tenant, cursor);
      assert log == before + [e];
      AscendingOneMore(before, e, Above(before, tenant, cursor));
    }
  }

  lemma AscendingOneMore(before: seq<Event>, e: Event, r: seq<Event>)
    requires Ascending(before + [e]) && Ascending(r) && forall x :: x in r ==> x in before
    ensures Ascending(r + [e])
  {
    forall i | 0 <= i < |r| ensures r[i].sequence < e.sequence {
      assert r[i] in before;
      var k :| 0 <= k < |before| && before[k] == r[i];
      assert (before + [e])[k].sequence < (before + [e])[|before|].sequence;
    }
  }

  lemma {:induction false} NothingAboveIff(xs: seq<Event>, tenant: string, cursor: nat)
    ensures Above(xs, tenant, cursor) == []
            <==> (forall i | 0 <= i < |xs| :: xs[i].tenantID == tenant ==> xs[i].sequence <= cursor)
  {
    if xs != [] {
      NothingAboveIff(xs[..|xs| - 1], tenant, cursor);
      assert forall i | 0 <= i < |xs| - 1 :: xs[..|xs| - 1][i] == xs[i];
    }
  }

  lemma {:induction false} EvictConcat(marks: map<string, nat>, a: seq<Event>, b: seq<Event>)
    ensures Evict(Evict(marks, a), b) == Evict(marks, a + b)
  {
    if b == [] {
      assert a + b == a;
    } else {
      EvictConcat(marks, a, b[..|b| - 1]);
      assert (a + b)[..|a + b| - 1] == a + b[..|b| - 1];
    }
  }

  function Mark(marks: map<string, nat>, tenant: string): nat {
    if tenant in marks then marks[tenant] else 0
  }

  /** A watermark is the highest evicted sequence number of its tenant. */
  lemma {:induction false} MarkIsHighest(dropped: seq<Event>, tenant: string)
    ensures var m := Mark(Evict(map[], dropped), tenant);
            && (forall i | 0 <= i < |dropped| :: dropped[i].tenantID == tenant ==> dropped[i].sequence <= m)
            && (m > 0 ==> exists i :: 0 <= i < |dropped| && dropped[i].tenantID == tenant && dropped[i].sequence == m)
  {
    if dropped != [] {
      var before := dropped[..|dropped| - 1];
      MarkIsHighest(before, tenant);
      assert forall i | 0 <= i < |before| :: before[i] == dropped[i];
      var m := Mark(Evict(map[], before), tenant);
      if m > 0 {
        var i :| 0 <= i < |before| && before[i].tenantID == tenant && before[i].sequence == m;
        assert dropped[i].tenantID == tenant && dropped[i].sequence == m;
      }
      assert dropped[|dropped| - 1] == dropped[|dropped| - 1];
    }
  }

  /* ---------- the invariant ---------- */

  /** `events` is the end of the numbered log, as long as retention allows, and `marks` what eviction of
      the rest has left. */
  ghost predicate Windowed(log: seq<Event>, retention: nat, events: seq<Event>, marks: map<string, nat>) {
    && |events| == (if |log| <= retention then |log| else retention)
    && events == log[|log| - |events|..]
    && marks == Evict(map[], log[..|log| - |events|])
    && (forall i | 0 <= i < |log| :: log[i].sequence == i + 1)
  }

  ghost predicate LogInvariant(s: System) {
    && s.base <= |s.history|
    && s.store.nextSequence == |s.history| - s.base
    && Windowed(s.Log(), s.store.retention, s.store.events, s.store.evictedThrough)
  }

  /** Consumed plus buffered is a prefix of what the subscriber wants since it subscribed, all of it
      while registered; the channel is open exactly while registered. */
  ghost predicate ChannelInvariant(s: System, i: nat)
    requires i < |s.store.channels| == |s.origins|
  {
    var c, o := s.store.channels[i], s.origins[i];
    && o.start <= |s.history|
    && 1 <= c.capacity && |c.buffered| <= c.capacity
    && c.Sent() <= Wanted(s.history[o.start..], o.tenant)
    && (c.closed <==> i + 1 !in s.store.subscribers)
    && (i + 1 in s.store.subscribers ==>
          && s.base <= o.start
          && s.store.subscribers[i + 1].tenantID == o.tenant
          && c.Sent() == Wanted(s.history[o.start..], o.tenant))
  }

  ghost predicate Invariant(s: System) {
    && s.store.Valid()
    && LogInvariant(s)
    && |s.store.channels| == |s.origins|
    && forall i: nat | i < |s.origins| :: ChannelInvariant(s, i)
  }

  /** Trimming a log's window after one append: which part it shows, and which marks that raises. */
  lemma TrimWindow(log: seq<Event>, cut: nat, e: Event, drop: nat)
    requires cut <= |log| && drop <= |log| - cut + 1
    ensures var all := log[cut..] + [e];
            && all[drop..] == (log + [e])[cut + drop..]
            && Evict(Evict(map[], log[..cut]), all[..drop]) == Evict(map[], (log + [e])[..cut + drop])
  {
    var all := log[cut..] + [e];
    assert all == (log + [e])[cut..];
    EvictConcat(map[], log[..cut], all[..drop]);
    assert log[..cut] + all[..drop] == (log + [e])[..cut + drop];
  }

  /** The fan-out does not touch the log. */
  lemma SaveLogs(s: System, order: Order, kind: string)
    requires s.store.Valid()
    ensures var m, m' := Step(s, SaveOrder(order, kind)).store, Append(s.store, order, kind).0;
            && m.nextSequence == m'.nextSequence && m.retention == m'.retention
            && m.events == m'.events && m.evictedThrough == m'.evictedThrough
  {
  }

  lemma WindowOneMore(log: seq<Event>, retention: nat, events: seq<Event>, marks: map<string, nat>, e: Event, drop: nat)
    requires retention >= 1 && Windowed(log, retention, events, marks) && e.sequence == |log| + 1
    requires drop == if |events + [e]| > retention then |events + [e]| - retention else 0
    ensures Windowed(log + [e], retention, (events + [e])[drop..], Evict(marks, (events + [e])[..drop]))
  {
    TrimWindow(log, |log| - |events|, e, drop);
    NumberedOneMore(log, e);
  }

  lemma SaveKeepsLog(s: System, order: Order, kind: string)
    requires s.store.Valid() && LogInvariant(s)
    ensures LogInvariant(Step(s, SaveOrder(order, kind)))
  {
    var m, e := s.store, Append(s.store, order, kind).2;
    var drop := if |m.events| + 1 > m.retention then |m.events| + 1 - m.retention else 0;
    WindowOneMore(s.Log(), m.retention, m.events, m.evictedThrough, e, drop);
    SaveLogs(s, order, kind);
    assert Step(s, SaveOrder(order, kind)).Log() == s.Log() + [e];
  }

  lemma NumberedOneMore(log: seq<Event>, e: Event)
    requires forall i | 0 <= i < |log| :: log[i].sequence == i + 1
    requires e.sequence == |log| + 1
    ensures forall i | 0 <= i < |log + [e]| :: (log + [e])[i].sequence == i + 1
  {
  }

  lemma SaveKeepsChannel(s: System, order: Order, kind: string, i: nat)
    requires s.store.Valid() && i < |s.origins| == |s.store.channels| && ChannelInvariant(s, i)
    ensures ChannelInvariant(Step(s, SaveOrder(order, kind)), i)
  {
    var s' := Step(s, SaveOrder(order, kind));
    var o, e := s.origins[i], Append(s.store, order, kind).2;
    assert s'.history[o.start..] == s.history[o.start..] + [e];
    WantedOneMore(s.history[o.start..], e, o.tenant);
    var c, c' := s.store.channels[i], s'.store.channels[i];
    if i + 1 in s.store.subscribers && s.store.subscribers[i + 1].Wants(e) && !c.Full() {
      assert c'.Sent() == c.Sent() + [e];
    }
  }

  lemma CloseKeepsChannel(s: System, ids: set<nat>, i: nat)
    requires s.store.Valid() && i < |s.origins| == |s.store.channels| && ChannelInvariant(s, i)
    ensures ChannelInvariant(s.(store := CloseAll(s.store, ids)), i)
  {
  }

  lemma ReceiveKeepsChannel(s: System, channel: nat, i: nat)
    requires s.store.Valid() && i < |s.origins| == |s.store.channels| && ChannelInvariant(s, i)
    ensures ChannelInvariant(Step(s, ReceiveFrom(channel)), i)
  {
    var c, c' := s.store.channels[i], Step(s, ReceiveFrom(channel)).store.channels[i];
    assert c'.Sent() == c.Sent();
  }

  lemma SubscribeKeepsChannel(s: System, tenant: string, buffer: int, i: nat)
    requires s.store.Valid() && i < |s.origins| == |s.store.channels| && ChannelInvariant(s, i)
    ensures ChannelInvariant(Step(s, SubscribeTo(tenant, buffer)), i)
  {
  }

  lemma SubscribeMakesChannel(s: System, tenant: string, buffer: int)
    requires s.store.Valid() && |s.origins| == |s.store.channels| && s.base <= |s.history|
    ensures ChannelInvariant(Step(s, SubscribeTo(tenant, buffer)), |s.origins|)
  {
    var s' := Step(s, SubscribeTo(tenant, buffer));
    assert s'.history[|s.history|..] == [];
    assert s'.store.channels[|s.origins|].Sent() == [];
  }

  lemma ResetKeepsChannel(s: System, i: nat)
    requires s.store.Valid() && i < |s.origins| == |s.store.channels| && ChannelInvariant(s, i)
    ensures ChannelInvariant(Step(s, ResetAll), i)
  {
    CloseKeepsChannel(s, s.store.subscribers.Keys, i);
  }

  lemma OtherStepKeepsChannel(s: System, a: Action, i: nat)
    requires s.store.Valid() && i < |s.origins| == |s.store.channels| && ChannelInvariant(s, i)
    requires !a.SaveOrder?
    ensures ChannelInvariant(Step(s, a), i)
  {
    match a
    case SubscribeTo(tenant, buffer) => SubscribeKeepsChannel(s, tenant, buffer, i);
    case CancelId(id) => CloseKeepsChannel(s, {id}, i);
    case ResetAll => ResetKeepsChannel(s, i);
    case ReceiveFrom(channel) => ReceiveKeepsChannel(s, channel, i);
  }

  lemma StepKeepsInvariant(s: System, a: Action)
    requires Invariant(s)
    ensures Invariant(Step(s, a))
  {
    var s' := Step(s, a);
    if a.SaveOrder? {
      SaveKeepsLog(s, a.order, a.kind);
      forall i: nat | i < |s'.origins| ensures ChannelInvariant(s', i) {
        SaveKeepsChannel(s, a.order, a.kind, i);
      }
    } else {
      forall i: nat | i < |s'.origins| ensures ChannelInvariant(s', i) {
        if i < |s.origins| {
          OtherStepKeepsChannel(s, a, i);
        } else {
          SubscribeMakesChannel(s, a.tenant, a.buffer);
        }
      }
    }
  }

  lemma {:induction false} InvariantFrom(s: System, acts: seq<Action>)
    requires Invariant(s)
    ensures Invariant(RunFrom(s, acts))
  {
    if acts != [] {
      InvariantFrom(s, acts[..|acts| - 1]);
      StepKeepsInvariant(RunFrom(s, acts[..|acts| - 1]), acts[|acts| - 1]);
    }
  }

  lemma InvariantAlways(retention: int, acts: seq<Action>)
    ensures Invariant(Run(retention, acts))
  {
    InvariantFrom(System(New(retention), [], 0, []), acts);
  }

  /* ---------- main results ---------- */

  /** Expired means exactly that some evicted event of the tenant has a sequence at or above the cursor. */
  lemma ExpiredIff(retention: int, acts: seq<Action>, tenant: string, cursor: nat)
    ensures var s := Run(retention, acts);
            && 0 <= s.Cut() <= |s.Log()|
            && (Expired(s.store, tenant, cursor)
                <==> cursor > 0 && exists i ::
                       0 <= i < s.Cut() && s.Log()[i].tenantID == tenant && s.Log()[i].sequence >= cursor)
  {
    var s := Run(retention, acts);
    InvariantAlways(retention, acts);
    MarkIsHighest(s.Log()[..s.Cut()], tenant);
    assert forall i | 0 <= i < s.Cut() :: s.Log()[..s.Cut()][i] == s.Log()[i];
  }

  /** The replay misses nothing exactly when no event above the cursor has been evicted. "Expired" is
      the conservative side of that: it also fires when the watermark equals the cursor, and it never
      fires for cursor 0, where the replay is complete only if nothing of the tenant was evicted. */
  lemma ReplayCompleteIff(retention: int, acts: seq<Action>, tenant: string, cursor: nat)
    ensures var s := Run(retention, acts);
            var complete := Above(s.store.events, tenant, cursor) == Above(s.Log(), tenant, cursor);
            && (complete <==> s.store.Watermark(tenant) <= cursor)
            && (cursor > 0 && !Expired(s.store, tenant, cursor) ==> complete)
            && (cursor > 0 && complete && Expired(s.store, tenant, cursor)
                <==> cursor > 0 && s.store.Watermark(tenant) == cursor)
            && (cursor == 0 ==> !Expired(s.store, tenant, cursor))
  {
    var s := Run(retention, acts);
    InvariantAlways(retention, acts);
    WindowIsCompleteIff(s.Log(), s.store.retention, s.store.events, s.store.evictedThrough, tenant, cursor);
    assert s.store.Watermark(tenant) == Mark(s.store.evictedThrough, tenant);
  }

  lemma WindowIsCompleteIff(log: seq<Event>, retention: nat, events: seq<Event>, marks: map<string, nat>,
                            tenant: string, cursor: nat)
    requires Windowed(log, retention, events, marks)
    ensures Above(events, tenant, cursor) == Above(log, tenant, cursor) <==> Mark(marks, tenant) <= cursor
  {
    var evicted := log[..|log| - |events|];
    assert evicted + events == log;
    AboveConcat(evicted, events, tenant, cursor);
    NothingAboveIff(evicted, tenant, cursor);
    MarkIsHighest(evicted, tenant);
  }

  lemma OneStepStays(s: System, a: Action, i: nat)
    requires Invariant(s) && i < |s.origins|
    ensures var s' := Step(s, a);
            && i < |s'.origins| && s'.origins[i] == s.origins[i]
            && s.history <= s'.history
            && (i + 1 in s'.store.subscribers ==> i + 1 in s.store.subscribers && s'.base == s.base)
  {
    match a
    case SaveOrder(order, kind) =>
    case _ =>
  }

  /** What a run cannot change about a channel; only while it is registered is the log sure to be the same one. */
  lemma {:induction false} OriginsStay(s: System, acts: seq<Action>, i: nat)
    requires Invariant(s) && i < |s.origins|
    ensures var s' := RunFrom(s, acts);
            && i < |s'.origins| && s'.origins[i] == s.origins[i]
            && s.history <= s'.history
            && (i + 1 in s'.store.subscribers ==> i + 1 in s.store.subscribers && s'.base == s.base)
  {
    if acts != [] {
      OriginsStay(s, acts[..|acts| - 1], i);
      InvariantFrom(s, acts[..|acts| - 1]);
      OneStepStays(RunFrom(s, acts[..|acts| - 1]), acts[|acts| - 1], i);
    }
  }

  /** A reconnect with 0 < cursor <= nextSequence that is not told "expired": while it stays registered,
      replay followed by everything sent on its channel is exactly the tenant's events above the cursor
      in the log as it now stands - ascending, no gap, no duplicate. */
  lemma ReplayThenLiveIsGapFree(retention: int, before: seq<Action>, tenant: string, cursor: nat, buffer: int,
                                after: seq<Action>)
    requires tenant != ""
    requires var s := Run(retention, before);
             0 < cursor <= s.store.nextSequence && !Expired(s.store, tenant, cursor)
    ensures var s := Run(retention, before);
            var now := RunFrom(Step(s, SubscribeTo(tenant, buffer)), after);
            var channel := |s.store.channels|;
            && channel < |now.store.channels|
            && (channel + 1 in now.store.subscribers ==>
                  var received := Above(s.store.events, tenant, cursor) + now.store.channels[channel].Sent();
                  && received == Above(now.Log(), tenant, cursor)
                  && Ascending(received)
                  && (forall e :: e in received <==> e in now.Log() && e.tenantID == tenant && e.sequence > cursor))
  {
    var s := Run(retention, before);
    var now := RunFrom(Step(s, SubscribeTo(tenant, buffer)), after);
    ReplayCompleteIff(retention, before, tenant, cursor);
    GoodCursorIsGapFree(retention, before, tenant, cursor, buffer, after);
    LogAscends(s, retention, before, tenant, buffer, after);
    AboveIsExact(now.Log(), tenant, cursor);
  }

  lemma LogAscends(s: System, retention: int, before: seq<Action>, tenant: string, buffer: int, after: seq<Action>)
    requires s == Run(retention, before)
    ensures var now := RunFrom(Step(s, SubscribeTo(tenant, buffer)), after);
            Ascending(now.Log()) && |s.store.channels| < |now.store.channels|
  {
    var s1 := Step(s, SubscribeTo(tenant, buffer));
    InvariantAlways(retention, before);
    StepKeepsInvariant(s, SubscribeTo(tenant, buffer));
    InvariantFrom(s1, after);
    OriginsStay(s1, after, |s.store.channels|);
  }

  /** While no Reset came in between, the log is the earlier log plus what was saved since. */
  lemma GrownAbove(log: seq<Event>, saved: seq<Event>, tenant: string, cursor: nat)
    requires tenant != "" && cursor <= |log|
    requires forall i | 0 <= i < |log + saved| :: (log + saved)[i].sequence == i + 1
    ensures Above(log, tenant, cursor) + Wanted(saved, tenant) == Above(log + saved, tenant, cursor)
  {
    AboveConcat(log, saved, tenant, cursor);
    forall i | 0 <= i < |saved| ensures saved[i].sequence > cursor {
      assert saved[i] == (log + saved)[|log| + i];
    }
    WantedIsAbove(saved, tenant, cursor);
  }

  lemma LogOnlyGrew(s: System, now: System, tenant: string, cursor: nat)
    requires LogInvariant(s) && LogInvariant(now)
    requires tenant != "" && cursor <= s.store.nextSequence
    requires s.history <= now.history && now.base == s.base
    ensures Above(s.Log(), tenant, cursor) + Wanted(now.history[|s.history|..], tenant)
            == Above(now.Log(), tenant, cursor)
  {
    var saved := now.history[|s.history|..];
    assert now.history == s.history + saved;
    GrownAbove(s.Log(), saved, tenant, cursor);
    assert now.Log() == s.Log() + saved;
  }

  /** Registered or not, in order or after any overflow, cancel and Reset: what a reader has consumed
      plus what is buffered is a prefix of the events it wanted since subscribing. */
  lemma SentIsAlwaysPrefix(retention: int, acts: seq<Action>, channel: nat)
    requires channel < |Run(retention, acts).store.channels|
    ensures var s := Run(retention, acts);
            && |s.origins| == |s.store.channels|
            && s.origins[channel].start <= |s.history|
            && var wanted := Wanted(s.history[s.origins[channel].start..], s.origins[channel].tenant);
               && s.store.channels[channel].Sent() <= wanted
               && (channel + 1 in s.store.subscribers ==> s.store.channels[channel].Sent() == wanted)
               && (channel + 1 in s.store.subscribers <==> !s.store.channels[channel].closed)
  {
    InvariantAlways(retention, acts);
    assert ChannelInvariant(Run(retention, acts), channel);
  }

  lemma ClosedAfterStep(s: System, a: Action, channel: nat)
    requires s.store.Valid() && channel < |s.store.channels| == |s.origins| && ChannelInvariant(s, channel)
    requires s.store.channels[channel].closed
    ensures var s' := Step(s, a);
            && channel < |s'.store.channels|
            && s'.store.channels[channel].closed
            && s'.store.channels[channel].Sent() == s.store.channels[channel].Sent()
  {
    if a.ReceiveFrom? {
      var c, c' := s.store.channels[channel], Step(s, a).store.channels[channel];
      assert c'.Sent() == c.Sent();
    }
  }

  /** A closed channel stays closed and is never sent to again, whatever follows. */
  lemma {:induction false} ClosedForGood(s: System, acts: seq<Action>, channel: nat)
    requires Invariant(s) && channel < |s.origins| && s.store.channels[channel].closed
    ensures var s' := RunFrom(s, acts);
            && channel < |s'.store.channels|
            && s'.store.channels[channel].closed
            && s'.store.channels[channel].Sent() == s.store.channels[channel].Sent()
  {
    if acts != [] {
      ClosedForGood(s, acts[..|acts| - 1], channel);
      InvariantFrom(s, acts[..|acts| - 1]);
      ClosedAfterStep(RunFrom(s, acts[..|acts| - 1]), acts[|acts| - 1], channel);
    }
  }

  /** The cancel function of one subscription touches only that subscription and its own channel,
      however late it is called. */
  lemma CancelTouchesOnlyItsOwn(retention: int, acts: seq<Action>, id: nat)
    ensures var s := Run(retention, acts);
            var s' := Step(s, CancelId(id));
            && s'.store.subscribers == s.store.subscribers - {id}
            && |s'.store.channels| == |s.store.channels|
            && (forall i | 0 <= i < |s.store.channels| ::
                  s'.store.channels[i] == if i == id - 1 && !s.store.channels[i].closed
                                          then s.store.channels[i].Close() else s.store.channels[i])
            && Step(s', CancelId(id)) == s'
  {
    var s := Run(retention, acts);
    InvariantAlways(retention, acts);
    forall i: nat | i < |s.store.channels| ensures s.store.channels[i].closed <==> i + 1 !in s.store.subscribers {
      assert ChannelInvariant(s, i);
    }
    CancelClosesOne(s.store, id);
    CancelTwice(s.store, id);
  }

  lemma CancelClosesOne(m: Store, id: nat)
    requires m.Valid() && forall i: nat | i < |m.channels| :: m.channels[i].closed <==> i + 1 !in m.subscribers
    ensures var m' := Cancel(m, id);
            && m'.subscribers == m.subscribers - {id} && |m'.channels| == |m.channels|
            && forall i | 0 <= i < |m.channels| ::
                 m'.channels[i] == if i == id - 1 && !m.channels[i].closed then m.channels[i].Close() else m.channels[i]
  {
    var m' := Cancel(m, id);
    assert m'.subscribers == m.subscribers - {id};
    forall i | 0 <= i < |m.channels|
      ensures m'.channels[i] == if i == id - 1 && !m.channels[i].closed then m.channels[i].Close() else m.channels[i]
    {
      assert i + 1 in {id} <==> i == id - 1;
    }
  }

  lemma CancelTwice(m: Store, id: nat)
    requires m.Valid()
    ensures Cancel(m, id).Valid() && Cancel(Cancel(m, id), id) == Cancel(m, id)
  {
    var m' := Cancel(m, id);
    assert Cancel(m', id).channels == m'.channels;
    assert m'.subscribers - {id} == m'.subscribers;
  }

  /* ---------- a subscription's whole life ---------- */

  /** After this continuation, while registered, replay and live events together are the tenant's events
      above the cursor in the log as it then stands. */
  ghost predicate GapFree(s: System, tenant: string, cursor: nat, buffer: int, after: seq<Action>)
    requires s.store.Valid()
  {
    var now := RunFrom(Step(s, SubscribeTo(tenant, buffer)), after);
    var channel := |s.store.channels|;
    channel < |now.store.channels| && channel + 1 in now.store.subscribers ==>
      Above(s.store.events, tenant, cursor) + now.store.channels[channel].Sent() == Above(now.Log(), tenant, cursor)
  }

  lemma GoodCursorIsGapFree(retention: int, before: seq<Action>, tenant: string, cursor: nat, buffer: int,
                            after: seq<Action>)
    requires tenant != ""
    requires var s := Run(retention, before); s.store.Watermark(tenant) <= cursor <= s.store.nextSequence
    ensures GapFree(Run(retention, before), tenant, cursor, buffer, after)
  {
    var s := Run(retention, before);
    InvariantAlways(retention, before);
    var s1 := Step(s, SubscribeTo(tenant, buffer));
    StepKeepsInvariant(s, SubscribeTo(tenant, buffer));
    var now := RunFrom(s1, after);
    InvariantFrom(s1, after);
    var channel := |s.store.channels|;
    OriginsStay(s1, after, channel);
    if channel + 1 in now.store.subscribers {
      assert ChannelInvariant(now, channel);
      ReplayCompleteIff(retention, before, tenant, cursor);
      LogOnlyGrew(s, now, tenant, cursor);
    }
  }

  lemma OneMore(s: System, a: Action)
    requires s.store.Valid()
    ensures RunFrom(s, [a]) == Step(s, a)
  {
    assert [a][..0] == [];
  }

  lemma RunMore(retention: int, before: seq<Action>, a: Action)
    ensures Run(retention, before + [a]) == Step(Run(retention, before), a)
  {
    assert (before + [a])[..|before|] == before;
  }
}
