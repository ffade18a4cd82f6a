/**
 The delivery statements of internal/product/postgres.go and the worker of internal/product/webhook.go.

 Each SQL statement is one atomic step on a row. A worker keeps the row it claimed as a snapshot
 (`Job`), talks to the receiver outside the database, and reports with that snapshot.
 */
module Outbox {
  import opened Common
  import Text
  import opened FailureText

  datatype Status = Pending | Processing | Delivered | DeadLetter

  datatype Row = Row(tenant: string, status: Status, attempts: nat, maxAttempts: nat, nextAttemptAt: int,
                     updatedAt: int)

  type Table = map<string, Row>

  const MILLISECOND: int := 1_000_000

  /** A duration as whole milliseconds, truncated toward zero. */
  function WholeMillis(d: int): int {
    if d >= 0 then d / MILLISECOND * MILLISECOND else -((-d) / MILLISECOND * MILLISECOND)
  }

  predicate Due(row: Row, now: int, lease: int) {
    || (row.status == Pending && row.nextAttemptAt <= now)
    || (row.status == Processing && row.updatedAt <= now - WholeMillis(lease))
  }

  /** The rows a claim may take; `locked` are those other transactions hold. */
  function DueRows(rows: Table, lease: int, now: int, locked: set<string>): set<string> {
    set id | id in rows && id !in locked && Due(rows[id], now, lease)
  }

  function Claimed(row: Row, now: int): Row {
    row.(status := Processing, attempts := row.attempts + 1, updatedAt := now)
  }

  /** The verdict of MarkDeliveryFailed, taken from the snapshot and not from the row. */
  function Verdict(attempts: nat, maxAttempts: nat): Status {
    if attempts >= maxAttempts then DeadLetter else Pending
  }

  function Succeeded(row: Row, now: int): Row {
    row.(status := Delivered, updatedAt := now)
  }

  function Failed(row: Row, verdict: Status, delay: int, now: int): Row {
    row.(status := verdict, nextAttemptAt := now + WholeMillis(delay), updatedAt := now)
  }

  function Replayed(row: Row, now: int): Row {
    row.(status := Pending, attempts := 0, nextAttemptAt := now, updatedAt := now)
  }

  /** What a claim returns to the worker, as far as reporting needs it. */
  datatype Snapshot = Snapshot(id: string, attempts: nat, maxAttempts: nat)

  function SnapshotOf(id: string, row: Row): Snapshot {
    Snapshot(id, row.attempts, row.maxAttempts)
  }

  /** `millis` is d in whole milliseconds, truncated toward zero. */
  predicate Truncates(d: int, millis: int) {
    if d >= 0 then millis * 1_000_000 <= d < (millis + 1) * 1_000_000
    else (millis - 1) * 1_000_000 < d <= millis * 1_000_000
  }

  /** A due pending delivery, or one whose worker has been silent for the lease in whole milliseconds. */
  ghost predicate Claimable(row: Row, now: int, lease: int) {
    || (row.status == Pending && row.nextAttemptAt <= now)
    || (row.status == Processing
        && exists millis: int :: Truncates(lease, millis) && row.updatedAt <= now - millis * 1_000_000)
  }

  lemma WholeMillisIsTruncated(d: int, millis: int)
    requires Truncates(d, millis)
    ensures WholeMillis(d) == millis * 1_000_000
  {
  }

  lemma SomeMillis(d: int) returns (millis: int)
    ensures Truncates(d, millis) && WholeMillis(d) == millis * 1_000_000
  {
    millis := if d >= 0 then d / 1_000_000 else -((-d) / 1_000_000);
  }

  lemma DueIff(row: Row, now: int, lease: int)
    ensures Due(row, now, lease) <==> Claimable(row, now, lease)
  {
    var millis := SomeMillis(lease);
    if Claimable(row, now, lease) && row.status == Processing {
      var other :| Truncates(lease, other) && row.updatedAt <= now - other * 1_000_000;
      WholeMillisIsTruncated(lease, other);
    }
  }

  lemma DueIsClaimable(rows: Table, lease: int, now: int, locked: set<string>)
    ensures forall id :: id in DueRows(rows, lease, now, locked)
                         <==> id in rows && id !in locked && Claimable(rows[id], now, lease)
  {
    forall id | id in rows ensures Due(rows[id], now, lease) <==> Claimable(rows[id], now, lease) {
      DueIff(rows[id], now, lease);
    }
  }

  function Ids(claims: seq<Snapshot>): set<string> {
    set c | c in claims :: c.id
  }

  function ClaimAll(rows: Table, ids: set<string>, now: int): Table {
    map id | id in rows :: if id in ids then Claimed(rows[id], now) else rows[id]
  }

  class DeliveryTable {
    var rows: Table

    constructor ()
      ensures rows == map[]
    {
      rows := map[];
    }

    /** `locked` are the rows other transactions hold, which SKIP LOCKED passes over. Which of the
        due rows are taken when there are more than the limit is left open. */
    method ClaimDeliveries(limit: int, lease: int, now: int, locked: set<string>) returns (claims: seq<Snapshot>)
      modifies this
      ensures var due := DueRows(old(rows), lease, now, locked);
              var most := if limit < 1 || limit > 100 then 10 else limit;
              && Ids(claims) <= due
              && |Ids(claims)| == |claims| == Min(most, |due|)
      ensures rows == ClaimAll(old(rows), Ids(claims), now)
      ensures forall c | c in claims :: c.id in rows && c == SnapshotOf(c.id, rows[c.id])
      ensures forall c | c in claims :: c.id in old(rows) && c.id !in locked && Claimable(old(rows)[c.id], now, lease)
      ensures |claims| < (if limit < 1 || limit > 100 then 10 else limit) ==>
                forall id | id in old(rows) && id !in locked && id !in Ids(claims) ::
                    !Claimable(old(rows)[id], now, lease)
    {
      DueIsClaimable(rows, lease, now, locked);
      var due := DueRows(rows, lease, now, locked);
      claims, rows := ClaimSome(rows, due, if limit < 1 || limit > 100 then 10 else limit, now);
      if |claims| < (if limit < 1 || limit > 100 then 10 else limit) {
        AllOf(Ids(claims), due);
      }
    }

    method MarkDeliverySucceeded(id: string, now: int) returns (found: bool)
      modifies this
      ensures found == (id in old(rows) && old(rows)[id].status == Processing)
      ensures rows == if found then old(rows)[id := Succeeded(old(rows)[id], now)] else old(rows)
    {
      found := id in rows && rows[id].status == Processing;
      if found {
        rows := rows[id := Succeeded(rows[id], now)];
      }
    }

    /** `message` goes into last_error; a text that cannot be stored fails the statement. */
    method MarkDeliveryFailed(claim: Snapshot, message: seq<Text.Byte>, delay: int, now: int)
      returns (status: Option<Status>)
      modifies this
      ensures status.Some?
              == (Storable(message) && claim.id in old(rows) && old(rows)[claim.id].status == Processing)
      ensures status.Some? ==> status.value == Verdict(claim.attempts, claim.maxAttempts)
      ensures rows == if status.Some? then old(rows)[claim.id := Failed(old(rows)[claim.id], status.value, delay, now)]
                      else old(rows)
    {
      var verdict := Pending;
      if claim.attempts >= claim.maxAttempts {
        verdict := DeadLetter;
      }
      if !Storable(message) || claim.id !in rows || rows[claim.id].status != Processing {
        return None;
      }
      rows := rows[claim.id := Failed(rows[claim.id], verdict, delay, now)];
      status := Some(verdict);
    }

    method ReplayDelivery(tenant: string, id: string, now: int) returns (found: bool)
      modifies this
      ensures found == (id in old(rows) && old(rows)[id].tenant == tenant && old(rows)[id].status == DeadLetter)
      ensures rows == if found then old(rows)[id := Replayed(old(rows)[id], now)] else old(rows)
    {
      found := id in rows && rows[id].tenant == tenant && rows[id].status == DeadLetter;
      if found {
        rows := rows[id := Replayed(rows[id], now)];
      }
    }
  }

  lemma ClaimOneMore(rows: Table, claims: seq<Snapshot>, id: string, now: int)
    requires id in rows && id !in Ids(claims)
    ensures var row := Claimed(rows[id], now);
            && Ids(claims + [SnapshotOf(id, row)]) == Ids(claims) + {id}
            && ClaimAll(rows, Ids(claims) + {id}, now) == ClaimAll(rows, Ids(claims), now)[id := row]
            && (Taken(rows, claims, now) ==> Taken(rows, claims + [SnapshotOf(id, row)], now))
  {
    var more := claims + [SnapshotOf(id, Claimed(rows[id], now))];
    assert more[|claims|].id == id;
    forall x | x in Ids(claims) ensures x in Ids(more) {
      var c :| c in claims && c.id == x;
      assert c in more;
    }
  }

  lemma AllOf(part: set<string>, whole: set<string>)
    requires part <= whole && |part| == |whole|
    ensures part == whole
  {
    assert whole == part + (whole - part);
  }

  /** The one statement of ClaimDeliveries: pick rows, update them, return what they now hold. */
  method ClaimSome(rows: Table, due: set<string>, most: nat, now: int) returns (claims: seq<Snapshot>, rows': Table)
    requires due <= rows.Keys
    ensures Ids(claims) <= due
    ensures |Ids(claims)| == |claims| == Min(most, |due|)
    ensures rows' == ClaimAll(rows, Ids(claims), now)
    ensures forall c | c in claims :: c.id in rows' && c == SnapshotOf(c.id, rows'[c.id])
  {
    claims, rows' := [], rows;
    var left := due;
    ghost var taken := {};
    while left != {} && |claims| < most
      invariant taken <= due && left == due - taken
      invariant Ids(claims) == taken && |claims| == |taken| <= most
      invariant rows' == ClaimAll(rows, taken, now)
      invariant Taken(rows, claims, now)
      decreases left
    {
      var id :| id in left;
      ClaimOneMore(rows, claims, id, now);
      left := left - {id};
      taken := taken + {id};
      rows' := rows'[id := Claimed(rows[id], now)];
      claims := claims + [SnapshotOf(id, rows'[id])];
    }
    assert |due| == |taken| + |left| by {
      assert due == taken + left;
    }
  }

  ghost predicate Taken(rows: Table, claims: seq<Snapshot>, now: int) {
    forall c | c in claims :: c.id in rows && c == SnapshotOf(c.id, Claimed(rows[c.id], now))
  }

  /* ---------- workers and the table, interleaved ---------- */

  /** Sending: the request is out. Answered: the receiver replied 2xx or not. Closed: the worker has
      reported, and `effect` is the status its report gave the row, if it found it in processing. */
  datatype Phase = Sending | Answered(ok: bool) | Closed(ok: bool, effect: Option<Status>)

  /** `era` counts the replays of the delivery before the claim; no worker sees it. */
  datatype Job = Job(claim: Snapshot, phase: Phase, era: nat)

  /** How often a delivery was claimed while pending, re-claimed after a lease expired, replayed, and
      put back to pending by a failure report. */
  datatype Ledger = Ledger(fromPending: nat, reclaims: nat, replays: nat, rescheduled: nat) {
    function Claims(): nat {
      fromPending + reclaims
    }
  }

  datatype System = System(rows: Table, jobs: seq<Job>, ledgers: map<string, Ledger>)

  const EMPTY: System := System(map[], [], map[])

  datatype Action =
    | Enqueue(id: string, tenant: string, maxAttempts: nat, now: int)
    | Claim(id: string, lease: int, now: int)
    | Answer(job: nat, ok: bool)
    | Report(job: nat, now: int)
    | Replay(tenant: string, id: string, now: int)

  /** `process`: a 2xx answer is reported as success, anything else as a failure with backoff. */
  function ReportStep(s: System, job: nat, now: int): System
    requires job < |s.jobs| && s.jobs[job].phase.Answered?
  {
    var j := s.jobs[job];
    var id := j.claim.id;
    if id in s.rows && id in s.ledgers && s.rows[id].status == Processing then
      var verdict := if j.phase.ok then Delivered else Verdict(j.claim.attempts, j.claim.maxAttempts);
      System(s.rows[id := if j.phase.ok then Succeeded(s.rows[id], now)
                          else Failed(s.rows[id], verdict, Backoff(j.claim.attempts), now)],
             s.jobs[job := j.(phase := Closed(j.phase.ok, Some(verdict)))],
             if verdict == Pending then s.ledgers[id := s.ledgers[id].(rescheduled := s.ledgers[id].rescheduled + 1)]
             else s.ledgers)
    else s.(jobs := s.jobs[job := j.(phase := Closed(j.phase.ok, None))])
  }

  function Step(s: System, a: Action): System {
    match a
    case Enqueue(id, tenant, maxAttempts, now) =>
      if id in s.rows || id in s.ledgers || maxAttempts == 0 then s
      else s.(rows := s.rows[id := Row(tenant, Pending, 0, maxAttempts, now, now)],
              ledgers := s.ledgers[id := Ledger(0, 0, 0, 0)])
    case Claim(id, lease, now) =>
      if id !in s.rows || id !in s.ledgers || !Due(s.rows[id], now, lease) then s
      else
        var row, l := s.rows[id], s.ledgers[id];
        System(s.rows[id := Claimed(row, now)],
               s.jobs + [Job(Snapshot(id, row.attempts + 1, row.maxAttempts), Sending, l.replays)],
               s.ledgers[id := if row.status == Pending then l.(fromPending := l.fromPending + 1)
                               else l.(reclaims := l.reclaims + 1)])
    case Answer(job, ok) =>
      if job < |s.jobs| && s.jobs[job].phase.Sending?
      then s.(jobs := s.jobs[job := s.jobs[job].(phase := Answered(ok))]) else s
    case Report(job, now) =>
      if job < |s.jobs| && s.jobs[job].phase.Answered? then ReportStep(s, job, now) else s
    case Replay(tenant, id, now) =>
      if id in s.rows && id in s.ledgers && s.rows[id].tenant == tenant && s.rows[id].status == DeadLetter
      then s.(rows := s.rows[id := Replayed(s.rows[id], now)],
              ledgers := s.ledgers[id := s.ledgers[id].(replays := s.ledgers[id].replays + 1)])
      else s
  }

  function RunFrom(s: System, acts: seq<Action>): System {
    if acts == [] then s else Step(RunFrom(s, acts[..|acts| - 1]), acts[|acts| - 1])
  }

  /* ---------- backoff ---------- */

  /** webhookBackoff; the shift is by at most 6, so nothing is lost to its width. */
  function Backoff(attempt: int): int {
    var shift := Min((if attempt < 1 then 1 else attempt) - 1, 6);
    Min(SECOND * Power2(shift), MINUTE)
  }

  /** The n-th failure waits min(2^(n-1) seconds, one minute): cutting the shift at 6 loses nothing. */
  lemma {:induction false} BackoffIsCappedDoubling(attempt: nat)
    requires attempt >= 1
    ensures Backoff(attempt) == Min(SECOND * Power2(attempt - 1), MINUTE)
    ensures SECOND <= Backoff(attempt) <= Backoff(attempt + 1) <= MINUTE
    ensures Backoff(0) == Backoff(1) == SECOND
  {
    assert Power2(6) == 64;
    PowerGrows(attempt - 1, attempt);
    PowerGrows(Min(attempt - 1, 6), 6);
    PowerGrows(Min(attempt, 6), 6);
    PowerGrows(0, Min(attempt - 1, 6));
    if attempt > 7 {
      PowerGrows(6, attempt - 1);
    }
  }

  /* ---------- the invariant of one delivery ---------- */

  ghost predicate Rescheduled(s: System, id: string, job: nat) {
    job < |s.jobs| && s.jobs[job].claim.id == id && s.jobs[job].phase.Closed?
        && s.jobs[job].phase.effect == Some(Pending)
  }

  ghost function RescheduledJobs(s: System, id: string): set<nat> {
    set job | 0 <= job < |s.jobs| && Rescheduled(s, id, job)
  }

  ghost predicate JobInvariant(s: System, id: string, job: nat)
    requires id in s.rows && id in s.ledgers && job < |s.jobs|
  {
    var j := s.jobs[job];
    j.claim.id == id ==>
      && 1 <= j.claim.attempts
      && j.claim.maxAttempts == s.rows[id].maxAttempts
      && j.era <= s.ledgers[id].replays
      && (j.era == s.ledgers[id].replays ==> j.claim.attempts <= s.rows[id].attempts)
      && (j.phase.Closed? && j.phase.effect == Some(Pending) ==> j.claim.attempts < j.claim.maxAttempts)
  }

  ghost predicate DistinctClaims(s: System, i: nat, j: nat)
    requires i < j < |s.jobs|
  {
    s.jobs[i].claim.id == s.jobs[j].claim.id && s.jobs[i].era == s.jobs[j].era ==>
      s.jobs[i].claim.attempts != s.jobs[j].claim.attempts
  }

  ghost predicate Accounts(s: System, id: string)
    requires id in s.rows && id in s.ledgers
  {
    var row, l := s.rows[id], s.ledgers[id];
    && row.maxAttempts >= 1
    && row.attempts <= l.Claims()
    && (l.replays == 0 ==> row.attempts == l.Claims())
    && l.fromPending + (if row.status == Pending then 1 else 0) == 1 + l.rescheduled + l.replays
    && l.rescheduled == |RescheduledJobs(s, id)|
    && (row.status == DeadLetter && l.replays == 0 ==> row.attempts >= row.maxAttempts)
    && (row.status == Delivered ==>
          exists job :: 0 <= job < |s.jobs| && s.jobs[job].claim.id == id
              && s.jobs[job].phase == Closed(true, Some(Delivered)))
  }

  ghost predicate Invariant(s: System) {
    && s.rows.Keys == s.ledgers.Keys
    && (forall job: nat | job < |s.jobs| :: s.jobs[job].claim.id in s.rows)
    && (forall i: nat, j: nat | i < j < |s.jobs| :: DistinctClaims(s, i, j))
    && (forall id, job: nat | id in s.rows && job < |s.jobs| :: JobInvariant(s, id, job))
    && (forall id | id in s.rows :: Accounts(s, id))
  }

  lemma EnqueueKeepsInvariant(s: System, newId: string, tenant: string, maxAttempts: nat, now: int)
    requires Invariant(s)
    ensures Invariant(Step(s, Enqueue(newId, tenant, maxAttempts, now)))
  {
    var s' := Step(s, Enqueue(newId, tenant, maxAttempts, now));
    if s' != s {
      forall id, job: nat | id in s'.rows && job < |s'.jobs| ensures JobInvariant(s', id, job) {
        if id != newId {
          assert JobInvariant(s, id, job);
        }
      }
      forall i: nat, j: nat | i < j < |s'.jobs| ensures DistinctClaims(s', i, j) {
        assert DistinctClaims(s, i, j);
      }
      forall id | id in s'.rows ensures Accounts(s', id) {
        assert RescheduledJobs(s', id) == RescheduledJobs(s, id);
        if id != newId {
          assert Accounts(s, id);
        } else {
          assert RescheduledJobs(s', id) == {};
        }
      }
    }
  }

  lemma ClaimKeepsJobs(s: System, a: Action)
    requires Invariant(s) && a.Claim?
    ensures var s' := Step(s, a);
            && (forall i: nat, j: nat | i < j < |s'.jobs| :: DistinctClaims(s', i, j))
            && (forall id, job: nat | id in s'.rows && job < |s'.jobs| && id in s'.ledgers :: JobInvariant(s', id, job))
  {
    var s' := Step(s, a);
    var n := |s.jobs|;
    forall i: nat, j: nat | i < j < |s'.jobs| ensures DistinctClaims(s', i, j) {
      if j < n {
        assert DistinctClaims(s, i, j);
      } else {
        assert JobInvariant(s, a.id, i);
      }
    }
    forall id, job: nat | id in s'.rows && job < |s'.jobs| && id in s'.ledgers ensures JobInvariant(s', id, job) {
      if job < n {
        assert JobInvariant(s, id, job);
      }
    }
  }

  lemma ClaimKeepsAccounts(s: System, a: Action, id: string)
    requires a.Claim? && id in s.rows && id in s.ledgers && Accounts(s, id)
    ensures id in Step(s, a).rows && id in Step(s, a).ledgers && Accounts(Step(s, a), id)
  {
    var s' := Step(s, a);
    assert RescheduledJobs(s', id) == RescheduledJobs(s, id);
    if s.rows[id].status == Delivered {
      var job :| && 0 <= job < |s.jobs| && s.jobs[job].claim.id == id
                 && s.jobs[job].phase == Closed(true, Some(Delivered));
      assert s'.jobs[job] == s.jobs[job];
    }
  }

  lemma ClaimKeepsInvariant(s: System, a: Action)
    requires Invariant(s) && a.Claim?
    ensures Invariant(Step(s, a))
  {
    ClaimKeepsJobs(s, a);
    forall id | id in s.rows ensures id in Step(s, a).ledgers && id in Step(s, a).rows && Accounts(Step(s, a), id) {
      ClaimKeepsAccounts(s, a, id);
    }
  }

  /** Answering and reporting change one job's phase; claims, eras and attempts stay. */
  lemma ReportChangesOnePhase(s: System, a: Action)
    requires s.rows.Keys == s.ledgers.Keys && (a.Answer? || a.Report?)
    ensures var s' := Step(s, a);
            && |s'.jobs| == |s.jobs| && s'.rows.Keys == s.rows.Keys && s'.ledgers.Keys == s.ledgers.Keys
            && (forall job: nat | job < |s.jobs| ::
                  && s'.jobs[job].claim == s.jobs[job].claim && s'.jobs[job].era == s.jobs[job].era
                  && (job != a.job ==> s'.jobs[job] == s.jobs[job]))
            && (forall id | id in s.rows ::
                  && s'.rows[id].attempts == s.rows[id].attempts && s'.rows[id].maxAttempts == s.rows[id].maxAttempts
                  && s'.ledgers[id].replays == s.ledgers[id].replays
                  && s'.ledgers[id].Claims() == s.ledgers[id].Claims()
                  && s'.ledgers[id].fromPending == s.ledgers[id].fromPending)
            && (a.job < |s.jobs| && s'.jobs[a.job] != s.jobs[a.job] && s'.jobs[a.job].phase.Closed?
                && s'.jobs[a.job].phase.effect == Some(Pending) ==>
                  s.jobs[a.job].claim.attempts < s.jobs[a.job].claim.maxAttempts)
  {
  }

  lemma ReportKeepsJobs(s: System, a: Action)
    requires Invariant(s) && (a.Answer? || a.Report?)
    ensures var s' := Step(s, a);
            && s'.rows.Keys == s'.ledgers.Keys == s.rows.Keys && |s'.jobs| == |s.jobs|
            && (forall job: nat | job < |s'.jobs| :: s'.jobs[job].claim.id in s'.rows)
            && (forall i: nat, j: nat | i < j < |s'.jobs| :: DistinctClaims(s', i, j))
            && (forall id, job: nat | id in s'.rows && job < |s'.jobs| :: JobInvariant(s', id, job))
  {
    var s' := Step(s, a);
    ReportChangesOnePhase(s, a);
    forall i: nat, j: nat | i < j < |s'.jobs| ensures DistinctClaims(s', i, j) {
      assert DistinctClaims(s, i, j);
    }
    forall id, job: nat | id in s'.rows && job < |s'.jobs| ensures JobInvariant(s', id, job) {
      assert JobInvariant(s, id, job);
    }
  }

  lemma RescheduledAfterReport(s: System, a: Action, id: string)
    requires a.Answer? || a.Report?
    ensures var s' := Step(s, a);
            RescheduledJobs(s', id) == if s'.ledgers != s.ledgers && s.jobs[a.job].claim.id == id
                                       then RescheduledJobs(s, id) + {a.job} else RescheduledJobs(s, id)
    ensures a.Report? && a.job < |s.jobs| && s.jobs[a.job].phase.Answered? ==> a.job !in RescheduledJobs(s, id)
  {
    var s' := Step(s, a);
    forall job: nat | job < |s.jobs| && job != a.job ensures Rescheduled(s', id, job) == Rescheduled(s, id, job) {
    }
    if s'.ledgers != s.ledgers {
      assert s'.jobs[a.job].phase.effect == Some(Pending);
    }
  }

  lemma DeliveredKeepsWitness(s: System, a: Action, id: string)
    requires (a.Answer? || a.Report?) && id in s.rows && id in s.ledgers && s.rows[id].status == Delivered
             && Accounts(s, id)
    ensures var s' := Step(s, a);
            exists job :: 0 <= job < |s'.jobs| && s'.jobs[job].claim.id == id
                && s'.jobs[job].phase == Closed(true, Some(Delivered))
  {
    var job :| 0 <= job < |s.jobs| && s.jobs[job].claim.id == id && s.jobs[job].phase == Closed(true, Some(Delivered));
    assert Step(s, a).jobs[job] == s.jobs[job];
  }

  lemma ReportKeepsAccounts(s: System, job: nat, now: int, id: string)
    requires s.rows.Keys == s.ledgers.Keys && id in s.rows && job < |s.jobs| && s.jobs[job].phase.Answered?
    requires Accounts(s, id) && JobInvariant(s, id, job)
    ensures Accounts(ReportStep(s, job, now), id)
  {
    var a := Report(job, now);
    var s' := Step(s, a);
    RescheduledAfterReport(s, a, id);
    if s.rows[id].status == Delivered {
      DeliveredKeepsWitness(s, a, id);
    } else if s'.rows[id].status == Delivered {
      assert s'.jobs[job].claim.id == id && s'.jobs[job].phase == Closed(true, Some(Delivered));
    }
  }

  lemma ReportKeepsInvariant(s: System, a: Action)
    requires Invariant(s) && (a.Answer? || a.Report?)
    ensures Invariant(Step(s, a))
  {
    var s' := Step(s, a);
    ReportKeepsJobs(s, a);
    forall id | id in s'.rows ensures Accounts(s', id) {
      assert Accounts(s, id);
      if a.Report? && a.job < |s.jobs| && s.jobs[a.job].phase.Answered? {
        assert JobInvariant(s, id, a.job);
        ReportKeepsAccounts(s, a.job, a.now, id);
      } else {
        RescheduledAfterReport(s, a, id);
        if s.rows[id].status == Delivered {
          DeliveredKeepsWitness(s, a, id);
        }
      }
    }
  }

  lemma ReplayKeepsInvariant(s: System, a: Action)
    requires Invariant(s) && a.Replay?
    ensures Invariant(Step(s, a))
  {
    var s' := Step(s, a);
    forall i: nat, j: nat | i < j < |s'.jobs| ensures DistinctClaims(s', i, j) {
      assert DistinctClaims(s, i, j);
    }
    forall id, job: nat | id in s'.rows && job < |s'.jobs| ensures JobInvariant(s', id, job) {
      assert JobInvariant(s, id, job);
    }
    forall id | id in s'.rows ensures Accounts(s', id) {
      assert Accounts(s, id);
      assert RescheduledJobs(s', id) == RescheduledJobs(s, id);
    }
  }

  lemma StepKeepsInvariant(s: System, a: Action)
    requires Invariant(s)
    ensures Invariant(Step(s, a))
  {
    match a
    case Enqueue(id, tenant, maxAttempts, now) => EnqueueKeepsInvariant(s, id, tenant, maxAttempts, now);
    case Claim(_, _, _) => ClaimKeepsInvariant(s, a);
    case Answer(_, _) => ReportKeepsInvariant(s, a);
    case Report(_, _) => ReportKeepsInvariant(s, a);
    case Replay(_, _, _) => ReplayKeepsInvariant(s, a);
  }

  lemma {:induction false} InvariantAlways(acts: seq<Action>)
    ensures Invariant(RunFrom(EMPTY, acts))
  {
    if acts != [] {
      InvariantAlways(acts[..|acts| - 1]);
      StepKeepsInvariant(RunFrom(EMPTY, acts[..|acts| - 1]), acts[|acts| - 1]);
    }
  }

  /* ---------- main results ---------- */

  /** A set of pairs with first part at most `eras` and second part in 1..most has at most
      (eras + 1) * most elements. */
  lemma {:induction false} PairsAreBounded(pairs: set<(nat, nat)>, eras: nat, most: nat)
    requires forall p | p in pairs :: p.0 <= eras && 1 <= p.1 <= most
    ensures |pairs| <= (eras + 1) * most
  {
    var last := set p | p in pairs && p.0 == eras;
    var rest := pairs - last;
    assert pairs == rest + last;
    var seconds := set p | p in last :: p.1;
    ColumnIsBounded(last, eras, most);
    if eras == 0 {
      assert rest == {};
    } else {
      PairsAreBounded(rest, eras - 1, most);
    }
    assert (eras + 1) * most == eras * most + most;
  }

  lemma {:induction false} ColumnIsBounded(column: set<(nat, nat)>, era: nat, most: nat)
    requires forall p | p in column :: p.0 == era && 1 <= p.1 <= most
    ensures |column| <= most
  {
    if most == 0 {
      assert column == {};
    } else {
      var rest := column - {(era, most)};
      ColumnIsBounded(rest, era, most - 1);
      assert column <= rest + {(era, most)};
      if (era, most) in column {
        assert column == rest + {(era, most)};
      }
    }
  }

  /** Jobs of one delivery that rescheduled it have different (era, snapshot) pairs. */
  lemma PairsDiffer(s: System, id: string, i: nat, j: nat)
    requires Invariant(s) && i != j && i in RescheduledJobs(s, id) && j in RescheduledJobs(s, id)
    ensures (s.jobs[i].era, s.jobs[i].claim.attempts) != (s.jobs[j].era, s.jobs[j].claim.attempts)
  {
    if i < j {
      assert DistinctClaims(s, i, j);
    } else {
      assert DistinctClaims(s, j, i);
    }
  }

  lemma {:induction false} JobsAsPairs(s: System, id: string, jobs: set<nat>) returns (pairs: set<(nat, nat)>)
    requires Invariant(s) && id in s.rows && jobs <= RescheduledJobs(s, id)
    ensures |pairs| == |jobs|
    ensures forall p | p in pairs :: exists job :: job in jobs && p == (s.jobs[job].era, s.jobs[job].claim.attempts)
    decreases jobs
  {
    if jobs == {} {
      pairs := {};
    } else {
      var job :| job in jobs;
      var rest := JobsAsPairs(s, id, jobs - {job});
      forall other | other in jobs - {job}
        ensures (s.jobs[other].era, s.jobs[other].claim.attempts) != (s.jobs[job].era, s.jobs[job].claim.attempts)
      {
        PairsDiffer(s, id, other, job);
      }
      pairs := rest + {(s.jobs[job].era, s.jobs[job].claim.attempts)};
    }
  }

  lemma ReschedulesAreBounded(s: System, id: string)
    requires Invariant(s) && id in s.rows
    ensures s.ledgers[id].rescheduled <= (s.ledgers[id].replays + 1) * (s.rows[id].maxAttempts - 1)
  {
    var pairs := JobsAsPairs(s, id, RescheduledJobs(s, id));
    assert Accounts(s, id);
    forall p | p in pairs ensures p.0 <= s.ledgers[id].replays && 1 <= p.1 <= s.rows[id].maxAttempts - 1 {
      var job :| job in RescheduledJobs(s, id) && p == (s.jobs[job].era, s.jobs[job].claim.attempts);
      assert JobInvariant(s, id, job);
    }
    PairsAreBounded(pairs, s.ledgers[id].replays, s.rows[id].maxAttempts - 1);
  }

  /** Every run: a delivery is claimed at most max_attempts times per era (one era more than it has
      been replayed), plus once per lease expiry. */
  lemma ClaimsAreBounded(acts: seq<Action>, id: string)
    requires id in RunFrom(EMPTY, acts).rows
    ensures var s := RunFrom(EMPTY, acts);
            && id in s.ledgers
            && s.ledgers[id].Claims() <= s.rows[id].maxAttempts * (s.ledgers[id].replays + 1) + s.ledgers[id].reclaims
            && s.rows[id].attempts <= s.ledgers[id].Claims()
  {
    var s := RunFrom(EMPTY, acts);
    InvariantAlways(acts);
    ReschedulesAreBounded(s, id);
    assert Accounts(s, id);
    var max, eras := s.rows[id].maxAttempts, s.ledgers[id].replays + 1;
    assert eras * (max - 1) == max * eras - eras;
  }

  lemma AttemptsWithoutReplay(s: System, id: string)
    requires Invariant(s) && id in s.rows && s.ledgers[id].replays == 0
    ensures var row, l := s.rows[id], s.ledgers[id];
            && row.attempts == l.Claims() <= row.maxAttempts + l.reclaims
            && (row.status == DeadLetter ==> row.attempts >= row.maxAttempts)
            && (row.status == Pending ==> row.attempts < row.maxAttempts + l.reclaims)
  {
    ReschedulesAreBounded(s, id);
    assert Accounts(s, id);
    assert (s.ledgers[id].replays + 1) * (s.rows[id].maxAttempts - 1) == s.rows[id].maxAttempts - 1;
  }

  /** Without replays: attempts counts the claims and exceeds max_attempts by no more than the number
      of lease expiries; with no expiry either, dead letter means attempts = max_attempts. */
  lemma AttemptsBound(acts: seq<Action>, id: string)
    requires id in RunFrom(EMPTY, acts).rows
    ensures var s := RunFrom(EMPTY, acts);
            && id in s.ledgers
            && var row, l := s.rows[id], s.ledgers[id];
               (l.replays == 0 ==>
                  && row.attempts == l.Claims() <= row.maxAttempts + l.reclaims
                  && (row.status == DeadLetter ==> row.attempts >= row.maxAttempts)
                  && (l.reclaims == 0 ==> row.attempts <= row.maxAttempts)
                  && (l.reclaims == 0 && row.status == DeadLetter ==> row.attempts == row.maxAttempts))
  {
    var s := RunFrom(EMPTY, acts);
    InvariantAlways(acts);
    if s.ledgers[id].replays == 0 {
      AttemptsWithoutReplay(s, id);
    }
  }

  /** Delivered is final: no claim, stale report or replay touches the row again. */
  lemma {:induction false} DeliveredIsAbsorbing(s: System, acts: seq<Action>, id: string)
    requires id in s.rows && s.rows[id].status == Delivered
    ensures var s' := RunFrom(s, acts); id in s'.rows && s'.rows[id] == s.rows[id]
  {
    if acts != [] {
      DeliveredIsAbsorbing(s, acts[..|acts| - 1], id);
    }
  }

  /** A dead letter leaves that status only by a replay in its own tenant's name. */
  lemma DeadLetterLeavesOnlyByReplay(s: System, a: Action, id: string)
    requires id in s.rows && s.rows[id].status == DeadLetter
    ensures id in Step(s, a).rows
    ensures Step(s, a).rows[id] != s.rows[id] ==> a.Replay? && a.id == id && a.tenant == s.rows[id].tenant
    ensures Step(s, a).rows[id] == s.rows[id] || Step(s, a).rows[id].status == Pending
  {
  }

  /** Marked delivered only after some worker's request for it was answered 2xx. */
  lemma DeliveredWasAccepted(acts: seq<Action>, id: string)
    requires var s := RunFrom(EMPTY, acts); id in s.rows && s.rows[id].status == Delivered
    ensures var s := RunFrom(EMPTY, acts);
            exists job :: 0 <= job < |s.jobs| && s.jobs[job].claim.id == id
                && s.jobs[job].phase == Closed(true, Some(Delivered))
  {
    InvariantAlways(acts);
    assert Accounts(RunFrom(EMPTY, acts), id);
  }

  /** Without lease expiries and replays every step that touches the row lowers this number, so a
      delivery sees at most 2 * max_attempts of them. */
  function Remaining(row: Row): int {
    match row.status
    case Pending => 2 * (row.maxAttempts - row.attempts)
    case Processing => 2 * (row.maxAttempts - row.attempts) + 1
    case _ => 0
  }

  lemma StepDescends(s: System, a: Action, id: string)
    requires s.rows.Keys == s.ledgers.Keys && id in s.rows
    requires s.rows[id].attempts <= s.rows[id].maxAttempts
    requires s.rows[id].status == Pending ==> s.rows[id].attempts < s.rows[id].maxAttempts
    requires var s' := Step(s, a); id in s'.ledgers && s'.ledgers[id].reclaims == 0 && s'.ledgers[id].replays == 0
    ensures id in Step(s, a).rows
    ensures Step(s, a).rows[id] == s.rows[id] || Remaining(Step(s, a).rows[id]) < Remaining(s.rows[id])
  {
  }

  lemma LedgersOnlyGrow(s: System, a: Action, id: string)
    requires id in s.ledgers
    ensures var s' := Step(s, a);
            id in s'.ledgers && s.ledgers[id].reclaims <= s'.ledgers[id].reclaims
                && s.ledgers[id].replays <= s'.ledgers[id].replays
  {
  }

  lemma EveryStepDescends(acts: seq<Action>, a: Action, id: string)
    requires id in RunFrom(EMPTY, acts).rows
    requires var s' := Step(RunFrom(EMPTY, acts), a);
             id in s'.ledgers && s'.ledgers[id].reclaims == 0 && s'.ledgers[id].replays == 0
    ensures var s, s' := RunFrom(EMPTY, acts), Step(RunFrom(EMPTY, acts), a);
            && id in s'.rows
            && 0 <= Remaining(s.rows[id]) <= 2 * s.rows[id].maxAttempts
            && (s'.rows[id] == s.rows[id] || Remaining(s'.rows[id]) < Remaining(s.rows[id]))
  {
    InvariantAlways(acts);
    var s := RunFrom(EMPTY, acts);
    LedgersOnlyGrow(s, a, id);
    AttemptsWithoutReplay(s, id);
    assert s.rows[id].maxAttempts >= 1 by {
      assert Accounts(s, id);
    }
    StepDescends(s, a, id);
  }

  /* ---------- the bounds are reached, and what replay adds ---------- */

  lemma RunMore(s: System, acts: seq<Action>, a: Action)
    ensures RunFrom(s, acts + [a]) == Step(RunFrom(s, acts), a)
  {
    assert (acts + [a])[..|acts|] == acts;
  }

  /** One delivery of a single tenant; its k-th attempt is made at minute k and fails. */
  function FailingRounds(max: nat, k: nat): seq<Action> {
    if k == 0 then [Enqueue("d", "t", max, 0)]
    else FailingRounds(max, k - 1) + [Claim("d", MINUTE, k * MINUTE)] + [Answer(k - 1, false)]
         + [Report(k - 1, k * MINUTE)]
  }

  /** After max - 1 failures, the last attempt's worker never reports and neither do r successors. */
  function ExpiringLeases(max: nat, r: nat): seq<Action>
    requires max >= 1
  {
    if r == 0 then FailingRounds(max, max - 1) + [Claim("d", MINUTE, max * MINUTE)]
    else ExpiringLeases(max, r - 1) + [Claim("d", MINUTE, (max + r) * MINUTE)]
  }

  ghost predicate AfterFailures(s: System, max: nat, k: nat) {
    && |s.jobs| == k && s.rows.Keys == {"d"} == s.ledgers.Keys
    && s.rows["d"].tenant == "t"
    && s.rows["d"].status == Pending && s.rows["d"].attempts == k && s.rows["d"].maxAttempts == max
    && s.rows["d"].nextAttemptAt <= (k + 1) * MINUTE
    && s.ledgers["d"] == Ledger(k, 0, 0, k)
  }

  lemma OneFailure(s: System, max: nat, k: nat)
    requires AfterFailures(s, max, k) && k + 1 < max
    ensures var now := (k + 1) * MINUTE;
            AfterFailures(Step(Step(Step(s, Claim("d", MINUTE, now)), Answer(k, false)), Report(k, now)), max, k + 1)
  {
    var now := (k + 1) * MINUTE;
    var s1 := Step(s, Claim("d", MINUTE, now));
    assert s1.rows["d"].status == Processing && |s1.jobs| == k + 1;
    var s2 := Step(s1, Answer(k, false));
    assert s2.jobs[k] == Job(Snapshot("d", k + 1, max), Answered(false), 0);
    BackoffIsCappedDoubling(k + 1);
    assert Step(s2, Report(k, now)) == ReportStep(s2, k, now);
  }

  lemma {:induction false} FailingRoundsReach(max: nat, k: nat)
    requires k < max
    ensures AfterFailures(RunFrom(EMPTY, FailingRounds(max, k)), max, k)
  {
    if k == 0 {
      assert FailingRounds(max, 0)[..0] == [];
    } else {
      FailingRoundsReach(max, k - 1);
      var a0 := FailingRounds(max, k - 1);
      var a1 := a0 + [Claim("d", MINUTE, k * MINUTE)];
      RunMore(EMPTY, a0, Claim("d", MINUTE, k * MINUTE));
      RunMore(EMPTY, a1, Answer(k - 1, false));
      RunMore(EMPTY, a1 + [Answer(k - 1, false)], Report(k - 1, k * MINUTE));
      OneFailure(RunFrom(EMPTY, a0), max, k - 1);
    }
  }

  /** Nobody reports the last attempt, and its lease has expired r times. */
  ghost predicate AfterExpiries(s: System, max: nat, r: nat) {
    && s.rows.Keys == {"d"} == s.ledgers.Keys
    && s.rows["d"].status == Processing && s.rows["d"].maxAttempts == max
    && s.rows["d"].attempts == max + r && s.rows["d"].updatedAt == (max + r) * MINUTE
    && s.ledgers["d"].reclaims == r && s.ledgers["d"].replays == 0
  }

  lemma LastAttempt(s: System, max: nat)
    requires max >= 1 && AfterFailures(s, max, max - 1)
    ensures AfterExpiries(Step(s, Claim("d", MINUTE, max * MINUTE)), max, 0)
  {
  }

  lemma OneExpiry(s: System, max: nat, r: nat)
    requires max >= 1 && AfterExpiries(s, max, r)
    ensures AfterExpiries(Step(s, Claim("d", MINUTE, (max + r + 1) * MINUTE)), max, r + 1)
  {
    var now := (max + r + 1) * MINUTE;
    assert Due(s.rows["d"], now, MINUTE);
    assert Step(s, Claim("d", MINUTE, now)).rows["d"] == Claimed(s.rows["d"], now);
  }

  /** For every max_attempts and every number of lease expiries the bound of `AttemptsBound` is reached:
      attempts = max_attempts + expiries, without any replay. */
  lemma {:induction false} AttemptsBoundIsReached(max: nat, r: nat)
    requires max >= 1
    ensures AfterExpiries(RunFrom(EMPTY, ExpiringLeases(max, r)), max, r)
  {
    if r == 0 {
      FailingRoundsReach(max, max - 1);
      RunMore(EMPTY, FailingRounds(max, max - 1), Claim("d", MINUTE, max * MINUTE));
      LastAttempt(RunFrom(EMPTY, FailingRounds(max, max - 1)), max);
    } else {
      AttemptsBoundIsReached(max, r - 1);
      RunMore(EMPTY, ExpiringLeases(max, r - 1), Claim("d", MINUTE, (max + r) * MINUTE));
      OneExpiry(RunFrom(EMPTY, ExpiringLeases(max, r - 1)), max, r - 1);
    }
  }
}
