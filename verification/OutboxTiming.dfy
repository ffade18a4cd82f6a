/**
 The delivery table by the clock: how long a lease keeps other workers away, and how long a failed
 delivery waits, in terms of the steps of a run and the times they carry.
 */
module OutboxTiming {
  import opened Common
  import opened Outbox

  function TimeOf(a: Action): int {
    match a
    case Enqueue(_, _, _, now) => now
    case Claim(_, _, now) => now
    case Report(_, now) => now
    case Replay(_, _, now) => now
    case Answer(_, _) => 0
  }

  /** The step makes or changes the row of this id. */
  predicate Changes(s: System, a: Action, id: string) {
    id in Step(s, a).rows && (id !in s.rows || Step(s, a).rows[id] != s.rows[id])
  }

  /** The last step of a run that changed the row. */
  function LastChange(acts: seq<Action>, id: string): Option<Action> {
    if acts == [] then None
    else if Changes(RunFrom(EMPTY, acts[..|acts| - 1]), acts[|acts| - 1], id) then Some(acts[|acts| - 1])
    else LastChange(acts[..|acts| - 1], id)
  }

  /** How often the run claimed the delivery from a worker that had not reported. */
  function Reclaims(acts: seq<Action>, id: string): nat {
    if acts == [] then 0
    else
      var before, a := acts[..|acts| - 1], acts[|acts| - 1];
      var s := RunFrom(EMPTY, before);
      Reclaims(before, id)
      + if a.Claim? && id in s.rows && s.rows[id].status == Processing && Changes(s, a, id) then 1 else 0
  }

  /** What last happened to a row, by its status. */
  predicate Leaves(a: Action, status: Status) {
    match status
    case Pending => a.Enqueue? || a.Report? || a.Replay?
    case Processing => a.Claim?
    case _ => a.Report?
  }

  lemma ChangeIsStamped(s: System, a: Action, id: string)
    requires s.rows.Keys == s.ledgers.Keys && Changes(s, a, id)
    ensures var row := Step(s, a).rows[id]; row.updatedAt == TimeOf(a) && Leaves(a, row.status)
  {
    if a.Report? {
      assert a.job < |s.jobs| && s.jobs[a.job].claim.id == id;
    }
  }

  lemma RowsStay(s: System, a: Action, id: string)
    requires id in s.rows
    ensures id in Step(s, a).rows
  {
  }

  lemma RowsAppear(s: System, a: Action, id: string)
    requires id !in s.rows && id in Step(s, a).rows
    ensures Changes(s, a, id)
  {
  }

  /** In every run a row carries the time of the last step that changed it, and its status says what kind
      of step that was: while it is in processing, the latest claim. */
  lemma {:induction false} RowIsStamped(acts: seq<Action>, id: string)
    requires id in RunFrom(EMPTY, acts).rows
    ensures var row := RunFrom(EMPTY, acts).rows[id];
            && LastChange(acts, id).Some?
            && row.updatedAt == TimeOf(LastChange(acts, id).value)
            && Leaves(LastChange(acts, id).value, row.status)
  {
    var before, a := acts[..|acts| - 1], acts[|acts| - 1];
    var s := RunFrom(EMPTY, before);
    InvariantAlways(before);
    if Changes(s, a, id) {
      ChangeIsStamped(s, a, id);
    } else {
      RowIsStamped(before, id);
    }
  }

  /** Two workers on one delivery: a claim of a row in processing changes it exactly if the latest claim of
      it lies the new one's lease back, in whole milliseconds. */
  lemma LeaseKeepsOthersAway(acts: seq<Action>, id: string, lease: nat, now: int)
    requires id in RunFrom(EMPTY, acts).rows && RunFrom(EMPTY, acts).rows[id].status == Processing
    ensures var last := LastChange(acts, id);
            && last.Some? && last.value.Claim?
            && (Changes(RunFrom(EMPTY, acts), Claim(id, lease, now), id)
                <==> last.value.now + lease / 1_000_000 * 1_000_000 <= now)
  {
    var s := RunFrom(EMPTY, acts);
    RowIsStamped(acts, id);
    InvariantAlways(acts);
    WholeMillisIsTruncated(lease, lease / 1_000_000);
  }

  /** A claim of a pending row changes it exactly if it is due. */
  lemma PendingIsClaimedWhenDue(acts: seq<Action>, id: string, lease: int, now: int)
    requires id in RunFrom(EMPTY, acts).rows && RunFrom(EMPTY, acts).rows[id].status == Pending
    ensures var s := RunFrom(EMPTY, acts);
            Changes(s, Claim(id, lease, now), id) <==> s.rows[id].nextAttemptAt <= now
  {
    InvariantAlways(acts);
  }

  /** So what the accounts of a delivery call expired leases are claims of that kind, one each. */
  lemma {:induction false} ReclaimsAreExpiredLeases(acts: seq<Action>, id: string)
    requires id in RunFrom(EMPTY, acts).rows
    ensures id in RunFrom(EMPTY, acts).ledgers && RunFrom(EMPTY, acts).ledgers[id].reclaims == Reclaims(acts, id)
  {
    var before, a := acts[..|acts| - 1], acts[|acts| - 1];
    var s := RunFrom(EMPTY, before);
    InvariantAlways(before);
    if id in s.rows {
      ReclaimsAreExpiredLeases(before, id);
      ReclaimIsCounted(s, a, id);
    } else {
      RowsAppear(s, a, id);
      NoReclaims(before, id);
    }
  }

  lemma ReclaimIsCounted(s: System, a: Action, id: string)
    requires s.rows.Keys == s.ledgers.Keys && id in s.rows
    ensures var s' := Step(s, a);
            && id in s'.ledgers
            && s'.ledgers[id].reclaims == s.ledgers[id].reclaims
               + if a.Claim? && s.rows[id].status == Processing && Changes(s, a, id) then 1 else 0
  {
  }

  lemma {:induction false} NoReclaims(acts: seq<Action>, id: string)
    requires id !in RunFrom(EMPTY, acts).rows
    ensures Reclaims(acts, id) == 0
  {
    if acts != [] {
      var before := acts[..|acts| - 1];
      if id in RunFrom(EMPTY, before).rows {
        RowsStay(RunFrom(EMPTY, before), acts[|acts| - 1], id);
      }
      NoReclaims(before, id);
    }
  }

  /* ---------- waiting after a failure ---------- */

  /** In every reachable state a failure report on a row in processing ends it or puts it off: short of
      max_attempts the k-th attempt's failure makes it due again min(2^(k-1), 60) seconds later. */
  lemma FailurePutsOff(acts: seq<Action>, job: nat, now: int)
    requires var s := RunFrom(EMPTY, acts); job < |s.jobs| && s.jobs[job].phase == Answered(false)
    ensures var s := RunFrom(EMPTY, acts);
            var claim := s.jobs[job].claim;
            && claim.id in s.rows && claim.attempts >= 1
            && (s.rows[claim.id].status == Processing ==>
                  var row := Step(s, Report(job, now)).rows[claim.id];
                  && row.attempts == s.rows[claim.id].attempts
                  && row.nextAttemptAt == now + Min(Power2(claim.attempts - 1) * 1_000_000_000, 60_000_000_000)
                  && row.status == if claim.attempts < claim.maxAttempts then Pending else DeadLetter)
  {
    var s := RunFrom(EMPTY, acts);
    InvariantAlways(acts);
    var claim := s.jobs[job].claim;
    assert JobInvariant(s, claim.id, job);
    if s.rows[claim.id].status == Processing {
      ReportPutsOff(s, job, now);
    }
  }

  lemma ReportPutsOff(s: System, job: nat, now: int)
    requires job < |s.jobs| && s.jobs[job].phase == Answered(false)
    requires var claim := s.jobs[job].claim;
             && claim.id in s.rows && claim.id in s.ledgers && claim.attempts >= 1
             && s.rows[claim.id].status == Processing
    ensures var claim := s.jobs[job].claim;
            var row := Step(s, Report(job, now)).rows[claim.id];
            && row.attempts == s.rows[claim.id].attempts
            && row.nextAttemptAt == now + Min(Power2(claim.attempts - 1) * 1_000_000_000, 60_000_000_000)
            && row.status == if claim.attempts < claim.maxAttempts then Pending else DeadLetter
  {
    var claim := s.jobs[job].claim;
    BackoffIsCappedDoubling(claim.attempts);
    WholeSeconds(Power2(claim.attempts - 1));
  }

  lemma WholeSeconds(n: nat)
    ensures WholeMillis(Min(SECOND * n, MINUTE)) == Min(n * 1_000_000_000, 60_000_000_000)
  {
    var d := Min(SECOND * n, MINUTE);
    WholeMillisIsTruncated(d, if n <= 60 then n * 1000 else 60_000);
  }

  /** Whatever follows, the first change of a pending row is a claim no earlier than it is due. */
  lemma {:induction false} PendingWaits(s: System, after: seq<Action>, id: string)
    requires s.rows.Keys == s.ledgers.Keys && id in s.rows && s.rows[id].status == Pending
    ensures var s' := RunFrom(s, after);
            && id in s'.rows
            && (s'.rows[id] == s.rows[id]
                || exists k :: 0 <= k < |after| && FirstClaim(s, after, id, k))
  {
    if after != [] {
      var before, a := after[..|after| - 1], after[|after| - 1];
      PendingWaits(s, before, id);
      var s1 := RunFrom(s, before);
      RowsStay(s1, a, id);
      if s1.rows[id] == s.rows[id] {
        if Changes(s1, a, id) {
          OnlyClaimsTouchPending(s1, a, id);
          assert FirstClaim(s, after, id, |after| - 1);
        }
      } else {
        var k :| 0 <= k < |before| && FirstClaim(s, before, id, k);
        assert after[..k] == before[..k] && after[k] == before[k];
        assert FirstClaim(s, after, id, k);
      }
    }
  }

  ghost predicate FirstClaim(s: System, after: seq<Action>, id: string, k: nat)
    requires id in s.rows
  {
    && k < |after| && after[k].Claim? && after[k].id == id && s.rows[id].nextAttemptAt <= after[k].now
    && id in RunFrom(s, after[..k]).rows && RunFrom(s, after[..k]).rows[id] == s.rows[id]
  }

  lemma OnlyClaimsTouchPending(s: System, a: Action, id: string)
    requires id in s.rows && s.rows[id].status == Pending && Changes(s, a, id)
    ensures a.Claim? && a.id == id && s.rows[id].nextAttemptAt <= a.now
    ensures Step(s, a).rows[id].status == Processing && Step(s, a).rows[id].attempts == s.rows[id].attempts + 1
  {
  }

  /** A replay starts a dead letter over: due at once, with no attempt counted. */
  lemma ReplayStartsOver(acts: seq<Action>, tenant: string, id: string, now: int)
    requires id in RunFrom(EMPTY, acts).rows
    ensures var row := RunFrom(EMPTY, acts).rows[id];
            var s' := Step(RunFrom(EMPTY, acts), Replay(tenant, id, now));
            && id in s'.rows
            && (if row.status == DeadLetter && row.tenant == tenant
                then s'.rows[id] == Row(tenant, Pending, 0, row.maxAttempts, now, now)
                else s'.rows[id] == row)
  {
    InvariantAlways(acts);
  }

  /** A new delivery is pending and due at once, with no attempt counted; an id is used only once. */
  lemma EnqueuedIsDue(acts: seq<Action>, id: string, tenant: string, maxAttempts: nat, now: int)
    requires maxAttempts > 0
    ensures var s := RunFrom(EMPTY, acts);
            Step(s, Enqueue(id, tenant, maxAttempts, now)).rows
            == if id in s.rows then s.rows else s.rows[id := Row(tenant, Pending, 0, maxAttempts, now, now)]
  {
    InvariantAlways(acts);
  }
}
