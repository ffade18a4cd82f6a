/**
 Whom a caller of the idempotency registry follows, whom it conflicts with and when it leads, told
 from the calls made, their results and the clock alone.
 */
module Coalescing {
  import opened Common
  import opened Idempotency

  /** The call that registered cell `c` holds the scope for a reader of the clock at `now`: it is still
      running, or it has succeeded, its result is in the map, and it expires after the reading. */
  ghost predicate Holds<T>(s: System<T>, c: nat, scope: Scope, now: int) {
    && c < |s.leaders| && s.leaders[c].scope == scope && s.leaders[c].call in s.calls
    && match s.calls[s.leaders[c].call].pc
       case Leading(mine) => mine == c
       case Led(mine, Ok(_)) =>
         && mine == c && Mapped(s, c)
         && c < |s.registry.cells| && s.registry.cells[c].expiresAt.Some? && now < s.registry.cells[c].expiresAt.value
       case _ => false
  }

  /** No purge and no later leader has taken the cell out of the map. */
  ghost predicate Mapped<T>(s: System<T>, c: nat) {
    c < |s.leaders| && s.leaders[c].scope in s.registry.entries && s.registry.entries[s.leaders[c].scope] == c
  }

  ghost function Print<T>(s: System<T>, c: nat): string
    requires c < |s.leaders| && s.leaders[c].call in s.calls
  {
    s.calls[s.leaders[c].call].fingerprint
  }

  /** A scope has at most one holder. */
  lemma OneHolder<T>(ttl: int, s: System<T>, c: nat, d: nat, scope: Scope, now: int)
    requires Invariant(ttl, s) && Holds(s, c, scope, now) && Holds(s, d, scope, now)
    ensures c == d
  {
    assert CellInvariant(ttl, s, c) && CellInvariant(ttl, s, d);
    assert CallInvariant(s, s.leaders[c].call) && CallInvariant(s, s.leaders[d].call);
  }

  /** What the map shows a reader is a holder, and every holder is shown. */
  lemma HolderIsShown<T>(ttl: int, s: System<T>, c: nat, scope: Scope, now: int)
    requires Invariant(ttl, s)
    ensures Holds(s, c, scope, now)
            <==> scope in s.registry.entries && s.registry.entries[scope] == c && !s.registry.cells[c].Expired(now)
    ensures Holds(s, c, scope, now) ==> Print(s, c) == s.registry.cells[c].fingerprint
  {
    if c < |s.leaders| {
      assert CellInvariant(ttl, s, c);
      assert CallInvariant(s, s.leaders[c].call);
    }
  }

  /** Where a new caller ends: refused by a holder with another fingerprint, waiting for a holder with its
      own, and leading, registered now, if there is no holder; exactly so. */
  ghost predicate Entered<T>(s: System<T>, s': System<T>, id: nat, scope: Scope, fingerprint: string, now: int) {
    && id in s'.calls && s'.calls[id].scope == scope && s'.calls[id].fingerprint == fingerprint
    && s'.calls == s.calls[id := s'.calls[id]]
    && (s'.calls[id].pc.Refused?
        <==> exists c: nat :: Holds(s, c, scope, now) && Print(s, c) != fingerprint)
    && (forall c: nat ::
          s'.calls[id].pc == Waiting(c) <==> Holds(s, c, scope, now) && Print(s, c) == fingerprint)
    && (s'.calls[id].pc == Leading(|s.leaders|) <==> forall c: nat :: !Holds(s, c, scope, now))
    && (s'.calls[id].pc.Refused? || s'.calls[id].pc.Waiting? || s'.calls[id].pc == Leading(|s.leaders|))
    && s'.leaders == if s'.calls[id].pc.Leading? then s.leaders + [Leader(scope, id, s.time)] else s.leaders
  }

  lemma DecisionIsEntered<T>(ttl: int, s: System<T>, id: nat, scope: Scope, fingerprint: string, now: int)
    requires Invariant(ttl, s) && id !in s.calls && now <= s.time
    ensures Entered(s, EnterStep(ttl, false, s, id, scope, fingerprint, now), id, scope, fingerprint, now)
  {
    forall c: nat
      ensures Holds(s, c, scope, now)
              <==> scope in s.registry.entries && s.registry.entries[scope] == c && !s.registry.cells[c].Expired(now)
      ensures Holds(s, c, scope, now) ==> Print(s, c) == s.registry.cells[c].fingerprint
    {
      HolderIsShown(ttl, s, c, scope, now);
    }
    if scope in s.registry.entries && !s.registry.cells[s.registry.entries[scope]].Expired(now) {
      assert Holds(s, s.registry.entries[scope], scope, now);
    }
  }

  /** A purge on entry, which reads the same clock value, changes no holder. */
  lemma PurgeKeepsHolders<T>(ttl: int, s: System<T>, c: nat, scope: Scope, now: int)
    requires Invariant(ttl, s) && now <= s.time
    ensures Holds(s.(registry := Purge(ttl, s.registry, now)), c, scope, now) <==> Holds(s, c, scope, now)
  {
    PurgeKeepsInvariant(ttl, s, now);
    HolderIsShown(ttl, s, c, scope, now);
    HolderIsShown(ttl, s.(registry := Purge(ttl, s.registry, now)), c, scope, now);
  }

  /** In every reachable state, whatever is purged when. */
  lemma CallerEnters<T>(ttl: int, purging: bool, time: int, acts: seq<Action<T>>, id: nat, scope: Scope,
                        fingerprint: string, now: int)
    requires ttl > 0
    requires var s := Run(ttl, purging, time, acts); id !in s.calls && now <= s.time
    ensures var s := Run(ttl, purging, time, acts);
            Entered(s, Step(ttl, purging, s, Enter(id, scope, fingerprint, now)), id, scope, fingerprint, now)
  {
    var s := Run(ttl, purging, time, acts);
    InvariantAlways(ttl, purging, time, acts);
    EntersFrom(ttl, purging, s, id, scope, fingerprint, now);
  }

  lemma EntersFrom<T>(ttl: int, purging: bool, s: System<T>, id: nat, scope: Scope, fingerprint: string, now: int)
    requires Invariant(ttl, s) && id !in s.calls && now <= s.time
    ensures Entered(s, Step(ttl, purging, s, Enter(id, scope, fingerprint, now)), id, scope, fingerprint, now)
  {
    if purging && now >= s.registry.nextPurge {
      var s1 := s.(registry := Purge(ttl, s.registry, now));
      PurgeKeepsInvariant(ttl, s, now);
      forall c: nat ensures Holds(s1, c, scope, now) <==> Holds(s, c, scope, now) {
        PurgeKeepsHolders(ttl, s, c, scope, now);
      }
      DecisionIsEntered(ttl, s1, id, scope, fingerprint, now);
    } else {
      DecisionIsEntered(ttl, s, id, scope, fingerprint, now);
    }
  }

  /** The result of cell `c`, and how long the map keeps it. */
  ghost predicate Holding<T>(s: System<T>, c: nat, id: nat, scope: Scope, fingerprint: string, value: T, expiry: int) {
    && c < |s.leaders| == |s.registry.cells| && s.leaders[c].scope == scope && s.leaders[c].call == id
    && id in s.calls && s.calls[id] == Call(scope, fingerprint, Led(c, Ok(value)))
    && s.registry.cells[c] == Entry(fingerprint, Some(Ok(value)), Some(expiry))
    && Mapped(s, c)
  }

  /** A leader that reports success holds its scope for the ttl from then on. */
  lemma ReportHolds<T>(ttl: int, purging: bool, s: System<T>, id: nat, value: T)
    requires ttl > 0 && Invariant(ttl, s) && id in s.calls && s.calls[id].pc.Leading?
    ensures var call := s.calls[id];
            Holding(Step(ttl, purging, s, Report(id, Ok(value))), call.pc.cell, id, call.scope, call.fingerprint, value,
                    s.time + ttl)
  {
    assert CallInvariant(s, id);
    assert CellInvariant(ttl, s, s.calls[id].pc.cell);
  }

  /** It goes on holding it until somebody's reading of the clock has reached the expiry. */
  lemma HoldingStays<T>(ttl: int, purging: bool, s: System<T>, a: Action<T>, c: nat, id: nat, scope: Scope,
                        fingerprint: string, value: T, expiry: int)
    requires Invariant(ttl, s) && Holding(s, c, id, scope, fingerprint, value, expiry)
    requires Reading(a).Some? ==> Reading(a).value < expiry
    ensures Holding(Step(ttl, purging, s, a), c, id, scope, fingerprint, value, expiry)
  {
    if a.Report? && a.id in s.calls && s.calls[a.id].pc.Leading? {
      assert CallInvariant(s, a.id);
      assert CellInvariant(ttl, s, s.calls[a.id].pc.cell);
    }
  }

  lemma {:induction false} HoldingLasts<T>(ttl: int, purging: bool, time: int, acts: seq<Action<T>>,
                                           after: seq<Action<T>>, c: nat, id: nat, scope: Scope, fingerprint: string,
                                           value: T, expiry: int)
    requires ttl > 0 && Holding(Run(ttl, purging, time, acts), c, id, scope, fingerprint, value, expiry)
    requires forall i | 0 <= i < |after| :: Reading(after[i]).Some? ==> Reading(after[i]).value < expiry
    ensures Holding(Run(ttl, purging, time, acts + after), c, id, scope, fingerprint, value, expiry)
  {
    if after == [] {
      assert acts + after == acts;
    } else {
      var most, a := acts + after[..|after| - 1], after[|after| - 1];
      HoldingLasts(ttl, purging, time, acts, after[..|after| - 1], c, id, scope, fingerprint, value, expiry);
      InvariantAlways(ttl, purging, time, most);
      assert acts + after == most + [a];
      RunMore(ttl, purging, time, most, a);
      HoldingStays(ttl, purging, Run(ttl, purging, time, most), a, c, id, scope, fingerprint, value, expiry);
    }
  }

  /** Where `other` stands once it has entered and, if it waits, asked for the result. */
  function AsksFor<T>(ttl: int, purging: bool, s: System<T>, other: nat, scope: Scope, fingerprint: string,
                      now: int): System<T> {
    Step(ttl, purging, Step(ttl, purging, s, Enter(other, scope, fingerprint, now)), Receive(other))
  }

  lemma HolderAnswers<T>(ttl: int, purging: bool, s: System<T>, c: nat, id: nat, scope: Scope, theirs: string, value: T,
                         expiry: int, other: nat, fingerprint: string, now: int)
    requires Invariant(ttl, s) && Holding(s, c, id, scope, theirs, value, expiry)
    requires other !in s.calls && now <= s.time && now < expiry
    ensures var s' := AsksFor(ttl, purging, s, other, scope, fingerprint, now);
            && other in s'.calls
            && s'.calls[other].pc == if fingerprint == theirs then Replayed(c, Ok(value)) else Refused
  {
    assert Holds(s, c, scope, now);
    EntersFrom(ttl, purging, s, other, scope, fingerprint, now);
    HoldingStays(ttl, purging, s, Enter(other, scope, fingerprint, now), c, id, scope, theirs, value, expiry);
  }

  lemma HeldIsReplayed<T>(ttl: int, purging: bool, time: int, acts: seq<Action<T>>, after: seq<Action<T>>, c: nat,
                          id: nat,
                          scope: Scope, theirs: string, value: T, expiry: int, other: nat, fingerprint: string,
                              now: int)
    requires ttl > 0 && Holding(Run(ttl, purging, time, acts), c, id, scope, theirs, value, expiry)
    requires forall i | 0 <= i < |after| :: Reading(after[i]).Some? ==> Reading(after[i]).value < expiry
    requires var s := Run(ttl, purging, time, acts + after); other !in s.calls && now <= s.time && now < expiry
    ensures var s' := AsksFor(ttl, purging, Run(ttl, purging, time, acts + after), other, scope, fingerprint, now);
            && other in s'.calls
            && s'.calls[other].pc == if fingerprint == theirs then Replayed(c, Ok(value)) else Refused
  {
    HoldingLasts(ttl, purging, time, acts, after, c, id, scope, theirs, value, expiry);
    InvariantAlways(ttl, purging, time, acts + after);
    HolderAnswers(ttl, purging, Run(ttl, purging, time, acts + after), c, id, scope, theirs, value, expiry, other,
                  fingerprint, now);
  }

  lemma ReportedHolds<T>(ttl: int, purging: bool, time: int, before: seq<Action<T>>, s: System<T>, id: nat, value: T)
    requires ttl > 0 && s == Run(ttl, purging, time, before) && id in s.calls && s.calls[id].pc.Leading?
    ensures Holding(Run(ttl, purging, time, before + [Report(id, Ok(value))]), s.calls[id].pc.cell, id,
                    s.calls[id].scope, s.calls[id].fingerprint, value, s.time + ttl)
  {
    InvariantAlways(ttl, purging, time, before);
    ReportHolds(ttl, purging, s, id, value);
    RunMore(ttl, purging, time, before, Report(id, Ok(value)));
  }

  /** So for the ttl after a success, a repeated call with the same fingerprint gets that very result and
      one with another fingerprint a conflict, whatever else has happened, as long as no reading of the
      clock so far has reached the expiry. */
  lemma SuccessIsReplayed<T>(ttl: int, purging: bool, time: int, before: seq<Action<T>>, s: System<T>, id: nat,
                             value: T,
                             after: seq<Action<T>>, s1: System<T>, other: nat, fingerprint: string, now: int)
    requires ttl > 0 && s == Run(ttl, purging, time, before) && id in s.calls && s.calls[id].pc.Leading?
    requires s1 == Run(ttl, purging, time, before + [Report(id, Ok(value))] + after)
    requires forall i | 0 <= i < |after| :: Reading(after[i]).Some? ==> Reading(after[i]).value < s.time + ttl
    requires other !in s1.calls && now <= s1.time && now < s.time + ttl
    ensures var s2 := AsksFor(ttl, purging, s1, other, s.calls[id].scope, fingerprint, now);
            && other in s2.calls
            && s2.calls[other].pc
               == if fingerprint == s.calls[id].fingerprint then Replayed(s.calls[id].pc.cell, Ok(value)) else Refused
  {
    var call := s.calls[id];
    ReportedHolds(ttl, purging, time, before, s, id, value);
    HeldIsReplayed(ttl, purging, time, before + [Report(id, Ok(value))], after, call.pc.cell, id, call.scope,
                   call.fingerprint, value, s.time + ttl, other, fingerprint, now);
  }

  lemma RunningHolds<T>(ttl: int, s: System<T>, id: nat, now: int)
    requires Invariant(ttl, s) && id in s.calls && s.calls[id].pc.Leading?
    ensures var c := s.calls[id].pc.cell;
            Holds(s, c, s.calls[id].scope, now) && Print(s, c) == s.calls[id].fingerprint && c < |s.registry.cells|
  {
    assert CallInvariant(s, id);
    assert CellInvariant(ttl, s, s.calls[id].pc.cell);
  }

  /** What a waiting caller receives, and one that was refused. */
  lemma ReportReaches<T>(ttl: int, purging: bool, s: System<T>, id: nat, other: nat, c: nat, result: Result<T>)
    requires s.registry.WellFormed() && c < |s.registry.cells| && id != other
    requires id in s.calls && s.calls[id].pc == Leading(c) && other in s.calls
    requires s.calls[other].pc == Waiting(c) || s.calls[other].pc == Refused
    ensures var s' := Step(ttl, purging, Step(ttl, purging, s, Report(id, result)), Receive(other));
            && other in s'.calls
            && s'.calls[other].pc == if s.calls[other].pc.Waiting? then Replayed(c, result) else Refused
  {
    var s1 := Step(ttl, purging, s, Report(id, result));
    assert s1.registry.cells[c].outcome == Some(result) && s1.calls[other] == s.calls[other];
  }

  /** And a caller that finds the call still running gets what that call then reports, success or error,
      if its fingerprint is the same, and a conflict otherwise. */
  lemma RunningIsJoined<T>(ttl: int, purging: bool, time: int, acts: seq<Action<T>>, id: nat, other: nat,
                           fingerprint: string, now: int, result: Result<T>)
    requires ttl > 0
    requires var s := Run(ttl, purging, time, acts);
             id in s.calls && s.calls[id].pc.Leading? && other !in s.calls && now <= s.time
    ensures var s := Run(ttl, purging, time, acts);
            var s1 := Step(ttl, purging, s, Enter(other, s.calls[id].scope, fingerprint, now));
            var s2 := Step(ttl, purging, Step(ttl, purging, s1, Report(id, result)), Receive(other));
            && other in s1.calls && other in s2.calls
            && if fingerprint == s.calls[id].fingerprint
               then s1.calls[other].pc == Waiting(s.calls[id].pc.cell)
                    && s2.calls[other].pc == Replayed(s.calls[id].pc.cell, result)
               else s1.calls[other].pc == Refused && s2.calls[other].pc == Refused
  {
    var s := Run(ttl, purging, time, acts);
    var s1 := Step(ttl, purging, s, Enter(other, s.calls[id].scope, fingerprint, now));
    InvariantAlways(ttl, purging, time, acts);
    RunningHolds(ttl, s, id, now);
    EntersFrom(ttl, purging, s, other, s.calls[id].scope, fingerprint, now);
    StepKeepsInvariant(ttl, purging, s, Enter(other, s.calls[id].scope, fingerprint, now));
    RunningHolds(ttl, s1, id, now);
    ReportReaches(ttl, purging, s1, id, other, s.calls[id].pc.cell, result);
  }

  /* ---------- when expired results are removed ---------- */

  /** The reading at which the map was last purged: at the start, by a forced purge, or on the entry of a
      call that came the ttl, or a minute if that is less, after the purge before. */
  function LastPurge<T>(ttl: int, time: int, acts: seq<Action<T>>): int {
    if acts == [] then time
    else
      var before, last := acts[..|acts| - 1], LastPurge(ttl, time, acts[..|acts| - 1]);
      var s := Run(ttl, true, time, before);
      match acts[|acts| - 1]
      case Enter(id, _, _, now) =>
        if id !in s.calls && now <= s.time && now >= last + Min(ttl, 60_000_000_000) then now else last
      case ForcePurge(now) => if now <= s.time then now else last
      case _ => last
  }

  lemma StepPurges<T>(ttl: int, s: System<T>, a: Action<T>)
    requires ttl > 0 && Invariant(ttl, s)
    ensures Step(ttl, true, s, a).registry.nextPurge
            == match a
               case Enter(id, _, _, now) =>
                 if id !in s.calls && now <= s.time && now >= s.registry.nextPurge
                 then now + Min(ttl, 60_000_000_000) else s.registry.nextPurge
               case ForcePurge(now) =>
                 if now <= s.time then now + Min(ttl, 60_000_000_000) else s.registry.nextPurge
               case _ => s.registry.nextPurge
    ensures (a.Enter? && a.id !in s.calls && a.now <= s.time && a.now >= s.registry.nextPurge)
            || (a.ForcePurge? && a.now <= s.time) ==>
              var s' := Step(ttl, true, s, a);
              forall k | k in s'.registry.entries :: !s'.registry.Stale(k, a.now)
  {
    if a.Report? && a.id in s.calls && s.calls[a.id].pc.Leading? {
      assert CallInvariant(s, a.id);
    }
  }

  /** So memory is bounded: whenever a call enters with a reading that far after the last purge, no result
      expired at that reading is left in the map. */
  lemma {:induction false} PurgedInTime<T>(ttl: int, time: int, acts: seq<Action<T>>)
    requires ttl > 0
    ensures Run(ttl, true, time, acts).registry.nextPurge == LastPurge(ttl, time, acts) + Min(ttl, 60_000_000_000)
    ensures forall id, scope, fingerprint, now ::
              var s := Run(ttl, true, time, acts);
              id !in s.calls && now <= s.time && now >= LastPurge(ttl, time, acts) + Min(ttl, 60_000_000_000) ==>
                var s' := Step(ttl, true, s, Enter(id, scope, fingerprint, now));
                forall k | k in s'.registry.entries :: !s'.registry.Stale(k, now)
  {
    InvariantAlways(ttl, true, time, acts);
    if acts != [] {
      PurgedInTime(ttl, time, acts[..|acts| - 1]);
      InvariantAlways(ttl, true, time, acts[..|acts| - 1]);
      StepPurges(ttl, Run(ttl, true, time, acts[..|acts| - 1]), acts[|acts| - 1]);
    }
    forall id, scope, fingerprint, now {
      StepPurges(ttl, Run(ttl, true, time, acts), Enter(id, scope, fingerprint, now));
    }
  }
}
