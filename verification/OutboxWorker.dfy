/**
 The control flow of WebhookWorker.ProcessBatch, process and fail of internal/product/webhook.go, as
 written, on the delivery table of `Outbox`. Between its statements other workers, writers and
 operators take any steps; the ghost model shows that what the code does is a run of the step system.
 */
module OutboxWorker {
  import opened Common
  import Text
  import opened FailureText
  import opened Outbox

  /** What the outside does: the steps of others before the n-th statement, how that statement fares,
      whether a receiver answers a delivery with 2xx, and the text its failure leaves if not. */
  datatype World = World(
    others: nat -> seq<Action>, fault: nat -> Fault, accepts: Snapshot -> bool, cause: Snapshot -> seq<Text.Byte>)
  {
    /** Whether the n-th statement, a report on this claim, takes effect. */
    predicate Effective(n: nat, claim: Snapshot) {
      fault(n) != Lost && (accepts(claim) || Storable(cause(claim)))
    }
  }

  /** Nobody else answers or reports a worker's own jobs. */
  predicate Spares(a: Action, mine: set<nat>) {
    match a
    case Answer(job, _) => job !in mine
    case Report(job, _) => job !in mine
    case _ => true
  }

  function Others(acts: seq<Action>, mine: set<nat>): seq<Action> {
    if acts == [] then []
    else Others(acts[..|acts| - 1], mine) + if Spares(acts[|acts| - 1], mine) then [acts[|acts| - 1]] else []
  }

  lemma {:induction false} RunAppend(s: System, a: seq<Action>, b: seq<Action>)
    ensures RunFrom(s, a + b) == RunFrom(RunFrom(s, a), b)
  {
    if b == [] {
      assert a + b == a;
    } else {
      RunAppend(s, a, b[..|b| - 1]);
      assert (a + b)[..|a + b| - 1] == a + b[..|b| - 1];
    }
  }

  lemma OneStepKeepsJob(s: System, a: Action, job: nat)
    requires job < |s.jobs| && Spares(a, {job})
    ensures job < |Step(s, a).jobs| && Step(s, a).jobs[job] == s.jobs[job]
  {
  }

  lemma {:induction false} OthersKeepJobs(s: System, acts: seq<Action>, mine: set<nat>)
    requires forall job | job in mine :: job < |s.jobs|
    ensures var s' := RunFrom(s, Others(acts, mine));
            forall job | job in mine :: job < |s'.jobs| && s'.jobs[job] == s.jobs[job]
  {
    if acts != [] {
      var before, a := acts[..|acts| - 1], acts[|acts| - 1];
      OthersKeepJobs(s, before, mine);
      if Spares(a, mine) {
        var s1 := RunFrom(s, Others(before, mine));
        RunMore(s, Others(before, mine), a);
        forall job | job in mine ensures job < |Step(s1, a).jobs| && Step(s1, a).jobs[job] == s.jobs[job] {
          OneStepKeepsJob(s1, a, job);
        }
      } else {
        assert Others(acts, mine) == Others(before, mine);
      }
    }
  }

  /* ---------- one claiming statement is a row of Claim steps ---------- */

  function ClaimSteps(claims: seq<Snapshot>, lease: int, now: int): seq<Action> {
    if claims == [] then []
    else ClaimSteps(claims[..|claims| - 1], lease, now) + [Claim(claims[|claims| - 1].id, lease, now)]
  }

  ghost predicate BatchOf(s: System, claims: seq<Snapshot>, lease: int, now: int) {
    && s.rows.Keys == s.ledgers.Keys
    && (forall i | 0 <= i < |claims| ::
          && claims[i].id in s.rows && Due(s.rows[claims[i].id], now, lease)
          && claims[i] == SnapshotOf(claims[i].id, Claimed(s.rows[claims[i].id], now)))
    && (forall i, j | 0 <= i < j < |claims| :: claims[i].id != claims[j].id)
  }

  /** What the claims have done to `s` so far. */
  ghost predicate ClaimedTo(s: System, s': System, claims: seq<Snapshot>, now: int) {
    && s'.rows == ClaimAll(s.rows, Ids(claims), now) && s'.ledgers.Keys == s.ledgers.Keys
    && |s'.jobs| == |s.jobs| + |claims| && s'.jobs[..|s.jobs|] == s.jobs
    && forall i | 0 <= i < |claims| :: IsNew(s', |s.jobs| + i, claims[i])
  }

  ghost predicate IsNew(s: System, job: nat, claim: Snapshot) {
    job < |s.jobs| && s.jobs[job].claim == claim && s.jobs[job].phase == Sending
  }

  lemma OneMoreClaim(s: System, s1: System, before: seq<Snapshot>, c: Snapshot, lease: int, now: int)
    requires s.rows.Keys == s.ledgers.Keys && ClaimedTo(s, s1, before, now)
    requires c.id in s.rows && Due(s.rows[c.id], now, lease) && c == SnapshotOf(c.id, Claimed(s.rows[c.id], now))
    requires forall i | 0 <= i < |before| :: before[i].id != c.id
    ensures ClaimedTo(s, Step(s1, Claim(c.id, lease, now)), before + [c], now)
  {
    LastClaim(s, before, c, now);
    var s2 := Step(s1, Claim(c.id, lease, now));
    assert s1.rows[c.id] == s.rows[c.id] && c.id in s1.ledgers;
    assert s2.jobs == s1.jobs + [Job(c, Sending, s1.ledgers[c.id].replays)];
    assert s2.rows == ClaimAll(s.rows, Ids(before + [c]), now);
    assert s2.ledgers.Keys == s.ledgers.Keys;
    assert s2.jobs[..|s.jobs|] == s1.jobs[..|s.jobs|];
    forall i | 0 <= i < |before + [c]| ensures IsNew(s2, |s.jobs| + i, (before + [c])[i]) {
      if i < |before| {
        assert IsNew(s1, |s.jobs| + i, before[i]);
      }
    }
  }

  lemma {:induction false} ClaimsAreSteps(s: System, claims: seq<Snapshot>, lease: int, now: int)
    requires BatchOf(s, claims, lease, now)
    ensures ClaimedTo(s, RunFrom(s, ClaimSteps(claims, lease, now)), claims, now)
  {
    if claims != [] {
      var before, c := claims[..|claims| - 1], claims[|claims| - 1];
      ClaimsAreSteps(s, before, lease, now);
      RunMore(s, ClaimSteps(before, lease, now), Claim(c.id, lease, now));
      OneMoreClaim(s, RunFrom(s, ClaimSteps(before, lease, now)), before, c, lease, now);
      assert claims == before + [c];
    }
  }

  lemma LastClaim(s: System, before: seq<Snapshot>, c: Snapshot, now: int)
    requires c.id in s.rows && c == SnapshotOf(c.id, Claimed(s.rows[c.id], now))
    requires forall i | 0 <= i < |before| :: before[i].id != c.id
    ensures c.id !in Ids(before)
    ensures ClaimAll(s.rows, Ids(before), now)[c.id] == s.rows[c.id]
    ensures ClaimAll(s.rows, Ids(before + [c]), now)
            == ClaimAll(s.rows, Ids(before), now)[c.id := Claimed(s.rows[c.id], now)]
  {
    ClaimOneMore(s.rows, before, c.id, now);
  }

  /** As many ids as snapshots: no delivery is claimed twice in one batch. */
  lemma {:induction false} ManyIdsDiffer(claims: seq<Snapshot>)
    ensures |Ids(claims)| <= |claims|
    ensures |Ids(claims)| == |claims| ==> forall i, j | 0 <= i < j < |claims| :: claims[i].id != claims[j].id
  {
    if claims != [] {
      var before, c := claims[..|claims| - 1], claims[|claims| - 1];
      ManyIdsDiffer(before);
      assert claims == before + [c];
      assert Ids(claims) == Ids(before) + {c.id};
      if c.id in Ids(before) {
        assert Ids(claims) == Ids(before);
      }
      forall i, j | 0 <= i < j < |claims| && |Ids(claims)| == |claims| ensures claims[i].id != claims[j].id {
        if j < |before| {
          assert before[i].id != before[j].id;
        } else {
          assert before[i] in before && before[i].id in Ids(before);
        }
      }
    }
  }

  /** A worker and the table it shares. `state` is what the step system knows of everybody. */
  class Worker {
    const table: DeliveryTable
    const world: World
    var statements: nat
    var state: System
    var mine: set<nat>
    ghost var trace: seq<Action>
    /** Which statement was the report of a job. */
    ghost var reports: map<nat, nat>

    ghost predicate Valid()
      reads this, table
    {
      && state == RunFrom(EMPTY, trace)
      && table.rows == state.rows
      && forall job | job in mine :: job < |state.jobs|
    }

    /** `job` is the worker's own, with this snapshot and in this phase. */
    predicate Has(job: nat, claim: Snapshot, phase: Phase)
      reads this
    {
      job in mine && job < |state.jobs| && state.jobs[job].claim == claim && state.jobs[job].phase == phase
    }

    constructor (world: World)
      ensures Valid() && fresh(table) && trace == [] && mine == {} && this.world == world
    {
      table := new DeliveryTable();
      this.world, statements, state, trace, mine, reports := world, 0, EMPTY, [], {}, map[];
    }

    /** Let the others run; this worker's jobs stay as they are. */
    method Interleave()
      requires Valid()
      modifies this`state, this`statements, this`trace, table
      ensures Valid() && statements == old(statements) + 1
      ensures trace == old(trace) + Others(world.others(old(statements)), mine)
      ensures state == RunFrom(old(state), Others(world.others(old(statements)), mine))
      ensures |state.jobs| >= |old(state).jobs|
      ensures forall job | job in mine :: state.jobs[job] == old(state).jobs[job]
    {
      var acts := Others(world.others(statements), mine);
      OthersKeepJobs(state, world.others(statements), mine);
      RunAppend(EMPTY, trace, acts);
      JobsGrow(state, acts);
      statements := statements + 1;
      state := RunFrom(state, acts);
      trace := trace + acts;
      table.rows := state.rows;
    }

    /** The step system takes the steps a statement on the table stands for. */
    method Record(acts: seq<Action>)
      requires state == RunFrom(EMPTY, trace) && table.rows == RunFrom(state, acts).rows
      requires forall job | job in mine :: job < |RunFrom(state, acts).jobs|
      modifies this`state, this`trace
      ensures Valid() && state == RunFrom(old(state), acts) && trace == old(trace) + acts
    {
      RunAppend(EMPTY, trace, acts);
      state := RunFrom(state, acts);
      trace := trace + acts;
    }

    /** The request is sent and its answer read: nobody but this worker learns of it. */
    method Send(job: nat, claim: Snapshot) returns (ok: bool)
      requires Valid() && Has(job, claim, Sending)
      modifies this, table
      ensures Valid() && old(trace) <= trace && mine == old(mine) && reports == old(reports)
      ensures statements == old(statements) + 1
      ensures ok == world.accepts(claim) && Has(job, claim, Answered(ok))
      ensures OthersStay(old(state), job)
    {
      Interleave();
      ok := world.accepts(claim);
      assert RunFrom(state, [Answer(job, ok)]) == Step(state, Answer(job, ok)) by {
        RunMore(state, [], Answer(job, ok));
      }
      Record([Answer(job, ok)]);
    }

    /** One goroutine of the batch: the request, then the report. */
    method Process(job: nat, claim: Snapshot, now: int) returns (failed: bool, recorded: Option<Status>)
      requires Valid() && Has(job, claim, Sending)
      modifies this, table
      ensures Valid() && old(trace) <= trace && mine == old(mine) && reports == old(reports)[job := statements]
      ensures statements == old(statements) + 2
      ensures Reported(job, claim, failed, recorded)
      ensures OthersStay(old(state), job)
    {
      var ok := Send(job, claim);
      failed, recorded := Finish(job, claim, ok, now);
    }

    /** What `process` does once the receiver has answered; `recorded` is what the metric counts. */
    method Finish(job: nat, claim: Snapshot, ok: bool, now: int) returns (failed: bool, recorded: Option<Status>)
      requires Valid() && ok == world.accepts(claim) && Has(job, claim, Answered(ok))
      modifies this, table
      ensures Valid() && old(trace) <= trace && mine == old(mine) && reports == old(reports)[job := statements]
      ensures statements == old(statements) + 1
      ensures Reported(job, claim, failed, recorded)
      ensures OthersStay(old(state), job)
    {
      if !ok {
        recorded := Fail(job, claim, now);
        return true, recorded;
      }
      Interleave();
      reports := reports[job := statements];
      if world.fault(statements) == Lost {
        return true, None;
      }
      KeysAgree(trace);
      OneReport(state, job, now);
      var found := table.MarkDeliverySucceeded(claim.id, now);
      Record([Report(job, now)]);
      assert Has(job, claim, Closed(true, if found then Some(Delivered) else None));
      if world.fault(statements) != Fine || !found {
        return true, None;
      }
      return false, Some(Delivered);
    }

    /** The failure report; the caller returns the cause as its error whatever comes of it. */
    method Fail(job: nat, claim: Snapshot, now: int) returns (recorded: Option<Status>)
      requires Valid() && !world.accepts(claim) && Has(job, claim, Answered(false))
      modifies this, table
      ensures Valid() && old(trace) <= trace && mine == old(mine) && reports == old(reports)[job := statements]
      ensures statements == old(statements) + 1
      ensures Reported(job, claim, true, recorded)
      ensures OthersStay(old(state), job)
    {
      var delay := WebhookBackoff(claim.attempts);
      Interleave();
      reports := reports[job := statements];
      if world.fault(statements) == Lost {
        return None;
      }
      KeysAgree(trace);
      OneReport(state, job, now);
      var status := table.MarkDeliveryFailed(claim, world.cause(claim), delay, now);
      if Storable(world.cause(claim)) {
        Record([Report(job, now)]);
        assert Has(job, claim, Closed(false, status));
      }
      recorded := if world.fault(statements) == Fine then status else None;
    }

    /** The claiming statement does to the table what a row of Claim steps does. */
    method ClaimRows(limit: int, lease: int, now: int, locked: set<string>) returns (claims: seq<Snapshot>)
      requires Valid()
      modifies table
      ensures TakenFrom(state.rows, claims, limit, lease, now, locked)
      ensures ClaimedTo(state, RunFrom(state, ClaimSteps(claims, lease, now)), claims, now)
      ensures table.rows == RunFrom(state, ClaimSteps(claims, lease, now)).rows
    {
      KeysAgree(trace);
      claims := table.ClaimDeliveries(limit, lease, now, locked);
      BatchIsSteps(state, claims, lease, now);
    }

    /** Each claim becomes a job of this worker. */
    method ClaimBatch(limit: int, lease: int, now: int, locked: set<string>) returns (claims: seq<Snapshot>, first: nat)
      requires Valid()
      modifies this`state, this`trace, this`mine, table
      ensures Valid() && trace == old(trace) + ClaimSteps(claims, lease, now)
      ensures TakenFrom(old(state).rows, claims, limit, lease, now, locked)
      ensures first == |old(state).jobs| && mine == old(mine) + Range(first, |claims|)
      ensures forall k | 0 <= k < |claims| :: Has(first + k, claims[k], Sending)
    {
      ghost var was := state;
      first := |state.jobs|;
      claims := ClaimRows(limit, lease, now, locked);
      Record(ClaimSteps(claims, lease, now));
      Adopt(was, first, claims, now);
    }

    method Adopt(ghost was: System, first: nat, claims: seq<Snapshot>, ghost now: int)
      requires Valid() && first == |was.jobs| && ClaimedTo(was, state, claims, now)
      modifies this`mine
      ensures Valid() && mine == old(mine) + Range(first, |claims|)
      ensures forall k | 0 <= k < |claims| :: Has(first + k, claims[k], Sending)
    {
      mine := mine + Range(first, |claims|);
    }

    /** Claim a batch and process every delivery of it, all at once: any of the deliveries may take its
        next step at any time. `seen` is the state the claiming statement found: the old one after the
        steps that others took first. */
    method ProcessBatch(limit: int, lease: int, now: int, locked: set<string>, later: nat -> int)
      returns (count: nat, failed: bool, ghost seen: System, ghost claims: seq<Snapshot>, ghost first: nat)
      requires Valid()
      modifies this, table
      ensures Valid() && seen == RunFrom(old(state), Others(world.others(old(statements)), old(mine)))
      ensures failed == (world.fault(old(statements) + 1) != Fine)
      ensures count == if failed then 0 else |claims|
      ensures if world.fault(old(statements) + 1) == Lost then claims == [] && state == seen
              else TakenFrom(seen.rows, claims, limit, lease, now, locked)
      ensures first == |seen.jobs| >= |old(state).jobs| && mine == old(mine) + Range(first, |claims|)
      ensures old(trace) + Others(world.others(old(statements)), old(mine)) + ClaimSteps(claims, lease, now) <= trace
      ensures failed ==> forall k | 0 <= k < |claims| :: Has(first + k, claims[k], Sending)
      ensures !failed ==> Processed(first, claims, old(statements) + 1)
    {
      var fault, taken, start;
      fault, taken, start, seen := StartBatch(limit, lease, now, locked);
      claims, first, failed, count := taken, start, fault != Fine, 0;
      if !failed {
        ProcessAll(start, taken, later);
        count := |taken|;
      }
    }

    /** ProcessBatch up to the claim and the error check after it. */
    method StartBatch(limit: int, lease: int, now: int, locked: set<string>)
      returns (fault: Fault, claims: seq<Snapshot>, first: nat, ghost seen: System)
      requires Valid()
      modifies this`state, this`statements, this`trace, this`mine, table
      ensures Valid() && seen == RunFrom(old(state), Others(world.others(old(statements)), old(mine)))
      ensures statements == old(statements) + 1 && fault == world.fault(statements)
      ensures if fault == Lost then claims == [] && state == seen
              else TakenFrom(seen.rows, claims, limit, lease, now, locked)
      ensures first == |seen.jobs| >= |old(state).jobs| && mine == old(mine) + Range(first, |claims|)
      ensures trace == old(trace) + Others(world.others(old(statements)), old(mine)) + ClaimSteps(claims, lease, now)
      ensures forall k | 0 <= k < |claims| :: Has(first + k, claims[k], Sending)
    {
      Interleave();
      seen, fault := state, world.fault(statements);
      claims, first := ClaimUnless(fault == Lost, limit, lease, now, locked);
    }

    method ClaimUnless(lost: bool, limit: int, lease: int, now: int, locked: set<string>)
      returns (claims: seq<Snapshot>, first: nat)
      requires Valid()
      modifies this`state, this`trace, this`mine, table
      ensures Valid() && trace == old(trace) + ClaimSteps(claims, lease, now)
      ensures if lost then claims == [] && state == old(state)
              else TakenFrom(old(state).rows, claims, limit, lease, now, locked)
      ensures first == |old(state).jobs| && mine == old(mine) + Range(first, |claims|)
      ensures forall k | 0 <= k < |claims| :: Has(first + k, claims[k], Sending)
    {
      if lost {
        claims, first := [], |state.jobs|;
        assert mine + Range(first, 0) == mine;
      } else {
        claims, first := ClaimBatch(limit, lease, now, locked);
      }
    }

    /** The goroutines of a batch, until all are done. */
    method ProcessAll(first: nat, claims: seq<Snapshot>, later: nat -> int)
      requires Valid() && InProgress(first, claims, Range(0, |claims|), {}, statements)
      modifies this, table
      ensures Valid() && old(trace) <= trace && mine == old(mine) && Processed(first, claims, old(statements))
    {
      var sending, answered := Range(0, |claims|), {};
      while sending != {} || answered != {}
        invariant Valid() && old(trace) <= trace && mine == old(mine)
        invariant InProgress(first, claims, sending, answered, old(statements))
        decreases |sending|, |answered|
      {
        var k :| k in sending || k in answered;
        if k in sending {
          SendNext(first, claims, sending, answered, k, old(statements));
          sending, answered := sending - {k}, answered + {k};
        } else {
          ReportNext(first, claims, sending, answered, k, later(k), old(statements));
          answered := answered - {k};
        }
      }
    }

    method SendNext(first: nat, claims: seq<Snapshot>, ghost sending: set<nat>, ghost answered: set<nat>, k: nat,
                    ghost since: nat)
      requires Valid() && k in sending && InProgress(first, claims, sending, answered, since)
      modifies this, table
      ensures Valid() && old(trace) <= trace && mine == old(mine)
      ensures InProgress(first, claims, sending - {k}, answered + {k}, since)
    {
      var _ := Send(first + k, claims[k]);
    }

    method ReportNext(first: nat, claims: seq<Snapshot>, ghost sending: set<nat>, ghost answered: set<nat>, k: nat,
                      now: int, ghost since: nat)
      requires Valid() && k in answered && InProgress(first, claims, sending, answered, since)
      modifies this, table
      ensures Valid() && old(trace) <= trace && mine == old(mine)
      ensures InProgress(first, claims, sending, answered - {k}, since)
    {
      var _, _ := Finish(first + k, claims[k], world.accepts(claims[k]), now);
    }

    /** The jobs from `first` on, by claim: about to send, answered but not reported, or done. */
    ghost predicate InProgress(first: nat, claims: seq<Snapshot>, sending: set<nat>, answered: set<nat>, since: nat)
      reads this
    {
      && since <= statements && sending !! answered
      && (forall k | k in sending :: k < |claims| && Has(first + k, claims[k], Sending))
      && (forall k | k in answered :: k < |claims| && Has(first + k, claims[k], Answered(world.accepts(claims[k]))))
      && (forall k | 0 <= k < |claims| && k !in sending && k !in answered :: Tried(first + k, claims[k], since))
    }

    /** The other jobs are as they were. */
    ghost predicate OthersStay(was: System, job: nat)
      reads this
    {
      forall other | other in mine && other != job ::
        other < |was.jobs| && other < |state.jobs| && state.jobs[other] == was.jobs[other]
    }

    /** The job was reported by one statement after `since`: closed with the receiver's answer if that
        statement could take effect, and still only answered if not. */
    ghost predicate Tried(job: nat, claim: Snapshot, since: nat)
      reads this
    {
      var ok := world.accepts(claim);
      && job in reports && since < reports[job] <= statements
      && if world.Effective(reports[job], claim) then exists effect :: Has(job, claim, Closed(ok, effect))
         else Has(job, claim, Answered(ok))
    }

    /** How a job stands after its report, by the fate of that last statement: no error exactly for a 2xx
        answer recorded and acknowledged. */
    ghost predicate Reported(job: nat, claim: Snapshot, failed: bool, recorded: Option<Status>)
      reads this
    {
      var ok, fault := world.accepts(claim), world.fault(statements);
      if !world.Effective(statements, claim) then Has(job, claim, Answered(ok)) && failed && recorded == None
      else if fault == Late then failed && recorded == None && exists effect :: Has(job, claim, Closed(ok, effect))
      else Has(job, claim, Closed(ok, recorded)) && failed == (!ok || recorded.None?)
    }

    ghost predicate Processed(first: nat, claims: seq<Snapshot>, since: nat)
      reads this
    {
      forall k | 0 <= k < |claims| :: Tried(first + k, claims[k], since)
    }
  }

  /** As many of the due rows as the limit allows, each once, as they are after the claim. */
  ghost predicate TakenFrom(rows: Table, claims: seq<Snapshot>, limit: int, lease: int, now: int, locked: set<string>) {
    var due := DueRows(rows, lease, now, locked);
    && Ids(claims) <= due
    && |Ids(claims)| == |claims| == Min(if limit < 1 || limit > 100 then 10 else limit, |due|)
    && forall c | c in claims :: c.id in rows && c == SnapshotOf(c.id, Claimed(rows[c.id], now))
  }

  lemma {:induction false} JobsGrow(s: System, acts: seq<Action>)
    ensures |s.jobs| <= |RunFrom(s, acts).jobs|
  {
    if acts != [] {
      JobsGrow(s, acts[..|acts| - 1]);
    }
  }

  /* ---------- failures that cannot be recorded ---------- */

  /** Every worker's request is refused, with a text that cannot be stored: nobody reports. */
  function Unrecorded(max: nat, n: nat): seq<Action> {
    if n == 0 then [Enqueue("d", "t", max, 0)]
    else Unrecorded(max, n - 1) + [Claim("d", MINUTE, n * MINUTE)] + [Answer(n - 1, false)]
  }

  ghost predicate Unreported(s: System, max: nat, n: nat) {
    && s.rows.Keys == {"d"} == s.ledgers.Keys && |s.jobs| == n
    && s.rows["d"].attempts == n && s.rows["d"].maxAttempts == max
    && s.rows["d"].status == (if n == 0 then Pending else Processing)
    && s.rows["d"].nextAttemptAt == 0 && s.rows["d"].updatedAt == n * MINUTE
    && forall job | 0 <= job < n :: s.jobs[job].phase == Answered(false)
  }

  lemma OneMoreUnreported(s: System, max: nat, n: nat)
    requires Unreported(s, max, n)
    ensures Unreported(Step(Step(s, Claim("d", MINUTE, (n + 1) * MINUTE)), Answer(n, false)), max, n + 1)
  {
    var now := (n + 1) * MINUTE;
    assert WholeMillis(MINUTE) == MINUTE && Due(s.rows["d"], now, MINUTE);
    var s1 := Step(s, Claim("d", MINUTE, now));
    assert s1.rows["d"] == Claimed(s.rows["d"], now) && s1.jobs[..n] == s.jobs && s1.jobs[n].phase == Sending;
  }

  /** Such a delivery is tried for ever: for every n it gets an n-th attempt, whatever max_attempts. */
  lemma {:induction false} UnrecordedFailuresNeverEnd(max: nat, n: nat)
    requires max >= 1
    ensures Unreported(RunFrom(EMPTY, Unrecorded(max, n)), max, n)
  {
    if n == 0 {
      assert Unrecorded(max, 0)[..0] == [];
    } else {
      var acts, claim := Unrecorded(max, n - 1), Claim("d", MINUTE, n * MINUTE);
      UnrecordedFailuresNeverEnd(max, n - 1);
      RunMore(EMPTY, acts, claim);
      RunMore(EMPTY, acts + [claim], Answer(n - 1, false));
      OneMoreUnreported(RunFrom(EMPTY, acts), max, n - 1);
    }
  }

  function Range(first: nat, n: nat): (r: set<nat>)
    ensures forall job :: job in r <==> first <= job < first + n
  {
    if n == 0 then {} else Range(first, n - 1) + {first + n - 1}
  }

  /** What ClaimDeliveries promises is what the Claim steps do. */
  lemma BatchIsSteps(s: System, claims: seq<Snapshot>, lease: int, now: int)
    requires s.rows.Keys == s.ledgers.Keys && |Ids(claims)| == |claims|
    requires forall id | id in Ids(claims) :: id in s.rows && Due(s.rows[id], now, lease)
    requires forall c | c in claims :: c.id in s.rows && c == SnapshotOf(c.id, ClaimAll(s.rows, Ids(claims), now)[c.id])
    ensures ClaimedTo(s, RunFrom(s, ClaimSteps(claims, lease, now)), claims, now)
  {
    ManyIdsDiffer(claims);
    forall i | 0 <= i < |claims|
      ensures claims[i].id in s.rows && Due(s.rows[claims[i].id], now, lease)
              && claims[i] == SnapshotOf(claims[i].id, Claimed(s.rows[claims[i].id], now))
    {
      assert claims[i] in claims && claims[i].id in Ids(claims);
    }
    ClaimsAreSteps(s, claims, lease, now);
  }

  lemma KeysAgree(acts: seq<Action>)
    ensures RunFrom(EMPTY, acts).rows.Keys == RunFrom(EMPTY, acts).ledgers.Keys
  {
    InvariantAlways(acts);
  }

  lemma OneReport(s: System, job: nat, now: int)
    requires job < |s.jobs| && s.jobs[job].phase.Answered? && s.rows.Keys == s.ledgers.Keys
    ensures RunFrom(s, [Report(job, now)]) == ReportStep(s, job, now)
  {
    RunMore(s, [], Report(job, now));
  }

  method WebhookBackoff(attempt: int) returns (delay: int)
    ensures delay == Backoff(attempt)
  {
    var clamped := attempt;
    if clamped < 1 {
      clamped := 1;
    }
    delay := SECOND * Power2(Min(clamped - 1, 6));
    delay := Min(delay, MINUTE);
  }
}
