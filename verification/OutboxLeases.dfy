/**
 What lease expiry does to the outbox. While no lease of a delivery has expired, one worker at a time
 holds it and the outcome is what the receiver answered, replays or not; afterwards a report from an
 old claim can decide for a newer one.
 */
module OutboxLeases {
  import opened Common
  import opened Outbox

  /* ---------- without expired leases ---------- */

  ghost predicate Held(s: System, id: string, job: nat)
    requires id in s.rows && id in s.ledgers && job < |s.jobs|
  {
    var j, row := s.jobs[job], s.rows[id];
    j.claim.id == id ==>
      match j.phase
      case Closed(ok, effect) => effect == Some(if ok then Delivered
           else Verdict(j.claim.attempts, j.claim.maxAttempts))
      case _ => row.status == Processing && j.claim == SnapshotOf(id, row) && j.era == s.ledgers[id].replays
  }

  /** A worker that has not reported holds the row as it is now; all reports counted. */
  ghost predicate Exclusive(s: System, id: string) {
    id in s.rows && id in s.ledgers ==>
      s.ledgers[id].reclaims == 0 ==>
        && 1 <= s.rows[id].maxAttempts
        && s.rows[id].attempts <= s.rows[id].maxAttempts
        && (s.rows[id].status == Pending ==> s.rows[id].attempts < s.rows[id].maxAttempts)
        && (s.rows[id].status == DeadLetter ==> s.rows[id].attempts == s.rows[id].maxAttempts)
        && forall job: nat | job < |s.jobs| :: Held(s, id, job)
  }

  lemma ClaimKeepsExclusive(s: System, a: Action, id: string)
    requires a.Claim? && s.rows.Keys == s.ledgers.Keys && Exclusive(s, id)
    ensures Exclusive(Step(s, a), id)
  {
    var s' := Step(s, a);
    if id in s'.rows && id in s'.ledgers && s'.ledgers[id].reclaims == 0 {
      forall job: nat | job < |s'.jobs| ensures Held(s', id, job) {
        if job < |s.jobs| {
          assert Held(s, id, job);
        }
      }
    }
  }

  lemma EnqueueKeepsExclusive(s: System, a: Action, id: string)
    requires a.Enqueue? && Exclusive(s, id)
    requires forall job: nat | job < |s.jobs| :: s.jobs[job].claim.id in s.rows
    ensures Exclusive(Step(s, a), id)
  {
    var s' := Step(s, a);
    if id in s'.rows && id in s'.ledgers && s'.ledgers[id].reclaims == 0 {
      forall job: nat | job < |s'.jobs| ensures Held(s', id, job) {
        if id in s.rows && id in s.ledgers {
          assert Held(s, id, job);
        }
      }
    }
  }

  lemma ReplayKeepsExclusive(s: System, a: Action, id: string)
    requires a.Replay? && Exclusive(s, id)
    ensures Exclusive(Step(s, a), id)
  {
    var s' := Step(s, a);
    if id in s'.rows && id in s'.ledgers && s'.ledgers[id].reclaims == 0 {
      forall job: nat | job < |s'.jobs| ensures Held(s', id, job) {
        assert Held(s, id, job);
      }
    }
  }

  lemma AnswerKeepsExclusive(s: System, a: Action, id: string)
    requires a.Answer? && Exclusive(s, id)
    ensures Exclusive(Step(s, a), id)
  {
    var s' := Step(s, a);
    if id in s'.rows && id in s'.ledgers && s'.ledgers[id].reclaims == 0 {
      forall job: nat | job < |s'.jobs| ensures Held(s', id, job) {
        assert Held(s, id, job);
      }
    }
  }

  /** The reporting worker is the only one that holds the row. */
  lemma OthersHaveReported(s: System, id: string, job: nat, other: nat)
    requires id in s.rows && id in s.ledgers && job < |s.jobs| && other < |s.jobs| && job != other
    requires Held(s, id, job) && Held(s, id, other)
    requires forall i: nat, j: nat | i < j < |s.jobs| :: DistinctClaims(s, i, j)
    requires s.jobs[job].claim.id == id == s.jobs[other].claim.id && !s.jobs[job].phase.Closed?
    ensures s.jobs[other].phase.Closed?
  {
    if job < other {
      assert DistinctClaims(s, job, other);
    } else {
      assert DistinctClaims(s, other, job);
    }
  }

  lemma ReportKeepsExclusive(s: System, job: nat, now: int, id: string)
    requires job < |s.jobs| && s.jobs[job].phase.Answered? && Exclusive(s, id)
    requires forall i: nat, j: nat | i < j < |s.jobs| :: DistinctClaims(s, i, j)
    ensures Exclusive(ReportStep(s, job, now), id)
  {
    var s' := ReportStep(s, job, now);
    if id in s.rows && id in s.ledgers && s.ledgers[id].reclaims == 0 {
      assert Held(s, id, job);
      forall other: nat | other < |s'.jobs| ensures Held(s', id, other) {
        assert Held(s, id, other);
        if other != job && s.jobs[job].claim.id == id == s.jobs[other].claim.id {
          OthersHaveReported(s, id, job, other);
        }
      }
    }
  }

  lemma StepKeepsExclusive(s: System, a: Action, id: string)
    requires Invariant(s) && Exclusive(s, id)
    ensures Exclusive(Step(s, a), id)
  {
    match a
    case Enqueue(_, _, _, _) => EnqueueKeepsExclusive(s, a, id);
    case Claim(_, _, _) => ClaimKeepsExclusive(s, a, id);
    case Answer(_, _) => AnswerKeepsExclusive(s, a, id);
    case Report(job, now) =>
      if job < |s.jobs| && s.jobs[job].phase.Answered? {
        ReportKeepsExclusive(s, job, now, id);
      }
    case Replay(_, _, _) => ReplayKeepsExclusive(s, a, id);
  }

  lemma {:induction false} ExclusiveAlways(acts: seq<Action>, id: string)
    ensures Exclusive(RunFrom(EMPTY, acts), id)
  {
    if acts != [] {
      ExclusiveAlways(acts[..|acts| - 1], id);
      InvariantAlways(acts[..|acts| - 1]);
      StepKeepsExclusive(RunFrom(EMPTY, acts[..|acts| - 1]), acts[|acts| - 1], id);
    }
  }

  /** While no lease of a delivery has expired, however often it was replayed: attempts <= max_attempts,
      a dead letter has exactly max_attempts, and a pending delivery fewer. */
  lemma AttemptsWithoutExpiry(acts: seq<Action>, id: string)
    requires var s := RunFrom(EMPTY, acts); id in s.rows && id in s.ledgers && s.ledgers[id].reclaims == 0
    ensures var row := RunFrom(EMPTY, acts).rows[id];
            && row.attempts <= row.maxAttempts
            && (row.status == DeadLetter ==> row.attempts == row.maxAttempts)
            && (row.status == Pending ==> row.attempts < row.maxAttempts)
  {
    ExclusiveAlways(acts, id);
  }

  /** And one worker at a time works on it: whoever has not reported holds the row as it is now. */
  lemma OneWorkerWithoutExpiry(acts: seq<Action>, id: string, i: nat, j: nat)
    requires var s := RunFrom(EMPTY, acts); id in s.rows && id in s.ledgers && s.ledgers[id].reclaims == 0
    requires var s := RunFrom(EMPTY, acts);
             && i < |s.jobs| && s.jobs[i].claim.id == id && !s.jobs[i].phase.Closed?
             && j < |s.jobs| && s.jobs[j].claim.id == id && !s.jobs[j].phase.Closed?
    ensures i == j
    ensures var s := RunFrom(EMPTY, acts);
            s.rows[id].status == Processing && s.jobs[i].claim == SnapshotOf(id, s.rows[id])
  {
    var s := RunFrom(EMPTY, acts);
    InvariantAlways(acts);
    ExclusiveAlways(acts, id);
    assert Held(s, id, i) && Held(s, id, j);
    if i != j {
      OthersHaveReported(s, id, i, j);
    }
  }

  /** And every report counts: a 2xx answer made the row delivered, any other gave it its verdict. */
  lemma EveryReportCounts(acts: seq<Action>, id: string, job: nat)
    requires var s := RunFrom(EMPTY, acts); id in s.rows && id in s.ledgers && s.ledgers[id].reclaims == 0
    requires var s := RunFrom(EMPTY, acts); job < |s.jobs| && s.jobs[job].claim.id == id && s.jobs[job].phase.Closed?
    ensures var j := RunFrom(EMPTY, acts).jobs[job];
            j.phase.effect == Some(if j.phase.ok then Delivered else Verdict(j.claim.attempts, j.claim.maxAttempts))
  {
    ExclusiveAlways(acts, id);
    assert Held(RunFrom(EMPTY, acts), id, job);
  }

  /* ---------- exactly when a report decides wrongly ---------- */

  /** In every reachable state a 2xx report is recorded, and the row delivered by it, exactly if it finds
      the row in processing; it can miss it only after a lease has expired. */
  lemma AcceptedIsRecordedIff(acts: seq<Action>, job: nat, now: int)
    requires var s := RunFrom(EMPTY, acts); job < |s.jobs| && s.jobs[job].phase == Answered(true)
    ensures var s := RunFrom(EMPTY, acts);
            var s' := Step(s, Report(job, now));
            var id := s.jobs[job].claim.id;
            && id in s.rows && id in s'.rows && id in s.ledgers && |s'.jobs| == |s.jobs|
            && (s'.jobs[job].phase == Closed(true, Some(Delivered)) <==> s.rows[id].status == Processing)
            && (s.rows[id].status == Processing ==> s'.rows[id].status == Delivered)
            && (s.rows[id].status != Processing ==> s'.rows == s.rows && s.ledgers[id].reclaims >= 1)
  {
    var s := RunFrom(EMPTY, acts);
    InvariantAlways(acts);
    var id := s.jobs[job].claim.id;
    ExclusiveAlways(acts, id);
    if s.ledgers[id].reclaims == 0 {
      assert Held(s, id, job);
    }
  }

  /** In every reachable state a report of failure makes a delivery a dead letter short of max_attempts
      exactly if its snapshot had reached max_attempts and the row, in processing again, has not. The
      snapshot is then from before a replay, and a lease has expired. */
  lemma EarlyDeadLetterIff(acts: seq<Action>, job: nat, now: int)
    requires var s := RunFrom(EMPTY, acts); job < |s.jobs| && s.jobs[job].phase == Answered(false)
    ensures var s := RunFrom(EMPTY, acts);
            var s' := Step(s, Report(job, now));
            var j := s.jobs[job];
            var id := j.claim.id;
            && id in s.rows && id in s'.rows && id in s.ledgers
            && var early := s.rows[id].status == Processing
               && s.rows[id].attempts < s.rows[id].maxAttempts <= j.claim.attempts;
               && (early <==> s.rows[id].status != DeadLetter && s'.rows[id].status == DeadLetter
                              && s'.rows[id].attempts < s'.rows[id].maxAttempts)
               && (early ==> j.era < s.ledgers[id].replays && s.ledgers[id].reclaims >= 1)
  {
    var s := RunFrom(EMPTY, acts);
    InvariantAlways(acts);
    var id := s.jobs[job].claim.id;
    assert JobInvariant(s, id, job);
    ExclusiveAlways(acts, id);
    if s.ledgers[id].reclaims == 0 {
      assert Held(s, id, job);
    }
  }

  /** So in every run a dead letter short of max_attempts has seen both an expired lease and a replay. */
  lemma EarlyDeadLetterNeedsBoth(acts: seq<Action>, id: string)
    requires var s := RunFrom(EMPTY, acts);
             id in s.rows && s.rows[id].status == DeadLetter && s.rows[id].attempts < s.rows[id].maxAttempts
    ensures var s := RunFrom(EMPTY, acts);
            id in s.ledgers && s.ledgers[id].reclaims >= 1 && s.ledgers[id].replays >= 1
  {
    InvariantAlways(acts);
    ExclusiveAlways(acts, id);
    AttemptsBound(acts, id);
  }

  /* ---------- both happen, for every max_attempts and with leases of a minute ---------- */

  lemma RunTwo(acts: seq<Action>, a: Action, b: Action)
    ensures RunFrom(EMPTY, acts + [a, b]) == Step(Step(RunFrom(EMPTY, acts), a), b)
  {
    var mid := acts + [a];
    assert acts + [a, b] == mid + [b];
    RunMore(EMPTY, mid, b);
    RunMore(EMPTY, acts, a);
  }

  /** The only delivery, as row and jobs show it. */
  ghost predicate Shows(s: System, max: nat, status: Status, attempts: nat, jobs: nat) {
    && s.rows.Keys == {"d"} == s.ledgers.Keys && |s.jobs| == jobs
    && s.rows["d"].tenant == "t" && s.rows["d"].status == status
    && s.rows["d"].attempts == attempts && s.rows["d"].maxAttempts == max
  }

  ghost predicate Sends(s: System, job: nat, attempts: nat, max: nat) {
    job < |s.jobs| && s.jobs[job].claim == Snapshot("d", attempts, max) && s.jobs[job].phase == Sending
  }

  /** A claim, and another one when its lease has expired. */
  lemma ClaimTwice(s: System, max: nat, k: nat)
    requires AfterFailures(s, max, k) && k < max
    ensures var s' := Step(Step(s, Claim("d", MINUTE, (k + 1) * MINUTE)), Claim("d", MINUTE, (k + 2) * MINUTE));
            && Shows(s', max, Processing, k + 2, k + 2) && Sends(s', k, k + 1, max) && Sends(s', k + 1, k + 2, max)
            && s'.ledgers["d"].reclaims == 1 && s'.ledgers["d"].replays == 0
  {
    var s1 := Step(s, Claim("d", MINUTE, (k + 1) * MINUTE));
    assert s1.rows["d"] == Claimed(s.rows["d"], (k + 1) * MINUTE);
    assert WholeMillis(MINUTE) == MINUTE;
    assert Due(s1.rows["d"], (k + 2) * MINUTE, MINUTE);
  }

  /** A failure report on a row in processing. */
  lemma FailureReport(s: System, max: nat, attempts: nat, jobs: nat, job: nat, claimed: nat, other: nat,
                      otherClaimed: nat, now: int)
    requires Shows(s, max, Processing, attempts, jobs) && Sends(s, job, claimed, max)
    requires other != job && Sends(s, other, otherClaimed, max)
    ensures var s' := Step(Step(s, Answer(job, false)), Report(job, now));
            && Shows(s', max, Verdict(claimed, max), attempts, jobs) && Sends(s', other, otherClaimed, max)
            && s'.ledgers["d"].replays == s.ledgers["d"].replays && s'.ledgers["d"].reclaims == s.ledgers["d"].reclaims
  {
    var s1 := Step(s, Answer(job, false));
    assert s1.rows == s.rows && s1.jobs[job].phase == Answered(false) && s1.jobs[other] == s.jobs[other];
  }

  /** A replay, and a claim at once. */
  lemma ReplayAndClaim(s: System, max: nat, attempts: nat, jobs: nat, other: nat, otherClaimed: nat, now: int)
    requires Shows(s, max, DeadLetter, attempts, jobs) && Sends(s, other, otherClaimed, max)
    ensures var s' := Step(Step(s, Replay("t", "d", now)), Claim("d", MINUTE, now));
            && Shows(s', max, Processing, 1, jobs + 1) && Sends(s', other, otherClaimed, max) && Sends(s', jobs, 1, max)
  {
    var s1 := Step(s, Replay("t", "d", now));
    assert s1.rows["d"] == Replayed(s.rows["d"], now);
    assert Due(s1.rows["d"], now, MINUTE);
  }

  /** A 2xx answer reported on a row that has left processing. */
  lemma AcceptedInVain(s: System, max: nat, status: Status, attempts: nat, jobs: nat, job: nat, claimed: nat, now: int)
    requires Shows(s, max, status, attempts, jobs) && status != Processing && Sends(s, job, claimed, max)
    ensures var s' := Step(Step(s, Answer(job, true)), Report(job, now));
            Shows(s', max, status, attempts, jobs) && s'.jobs[job].phase == Closed(true, None)
                && s'.ledgers == s.ledgers
  {
    var s1 := Step(s, Answer(job, true));
    assert s1.rows == s.rows && s1.jobs[job].phase == Answered(true);
  }

  /** The second worker's failure is reported first, the first worker's success not at all. */
  function LateAcceptance(max: nat): seq<Action> {
    FailingRounds(max, 0) + [Claim("d", MINUTE, MINUTE), Claim("d", MINUTE, 2 * MINUTE)]
    + [Answer(1, false), Report(1, 2 * MINUTE)] + [Answer(0, true), Report(0, 2 * MINUTE)]
  }

  /** An expired lease alone can lose a 2xx answer: no replay is needed. */
  lemma AcceptedIsLostAfterExpiry(max: nat)
    requires max >= 1
    ensures var s := RunFrom(EMPTY, LateAcceptance(max));
            && Shows(s, max, Verdict(2, max), 2, 2) && s.jobs[0].phase == Closed(true, None)
            && s.ledgers["d"].reclaims == 1 && s.ledgers["d"].replays == 0
  {
    var a0 := FailingRounds(max, 0);
    var a1 := a0 + [Claim("d", MINUTE, MINUTE), Claim("d", MINUTE, 2 * MINUTE)];
    var a2 := a1 + [Answer(1, false), Report(1, 2 * MINUTE)];
    FailingRoundsReach(max, 0);
    RunTwo(a0, Claim("d", MINUTE, MINUTE), Claim("d", MINUTE, 2 * MINUTE));
    ClaimTwice(RunFrom(EMPTY, a0), max, 0);
    RunTwo(a1, Answer(1, false), Report(1, 2 * MINUTE));
    FailureReport(RunFrom(EMPTY, a1), max, 2, 2, 1, 2, 0, 1, 2 * MINUTE);
    RunTwo(a2, Answer(0, true), Report(0, 2 * MINUTE));
    AcceptedInVain(RunFrom(EMPTY, a2), max, Verdict(2, max), 2, 2, 0, 1, 2 * MINUTE);
  }

  /** The worker of the last attempt loses its lease and its successor dead-letters the delivery. */
  function DeadLettered(max: nat): seq<Action>
    requires max >= 2
  {
    FailingRounds(max, max - 1) + [Claim("d", MINUTE, max * MINUTE), Claim("d", MINUTE, (max + 1) * MINUTE)]
    + [Answer(max, false), Report(max, (max + 1) * MINUTE)]
  }

  /** An operator replays it and a new worker claims it; then the old worker reports a failure, and the
      new one a success. */
  function StaleReport(max: nat, now: int): seq<Action>
    requires max >= 2
  {
    DeadLettered(max) + [Replay("t", "d", now), Claim("d", MINUTE, now)]
    + [Answer(max - 1, false), Report(max - 1, now)] + [Answer(max + 1, true), Report(max + 1, now)]
  }

  lemma DeadLetteredReach(max: nat)
    requires max >= 2
    ensures var s := RunFrom(EMPTY, DeadLettered(max));
            Shows(s, max, DeadLetter, max + 1, max + 1) && Sends(s, max - 1, max, max)
  {
    var last, now := max * MINUTE, (max + 1) * MINUTE;
    var a0 := FailingRounds(max, max - 1);
    var a1 := a0 + [Claim("d", MINUTE, last), Claim("d", MINUTE, now)];
    FailingRoundsReach(max, max - 1);
    RunTwo(a0, Claim("d", MINUTE, last), Claim("d", MINUTE, now));
    ClaimTwice(RunFrom(EMPTY, a0), max, max - 1);
    RunTwo(a1, Answer(max, false), Report(max, now));
    FailureReport(RunFrom(EMPTY, a1), max, max + 1, max + 1, max, max + 1, max - 1, max, now);
  }

  /** With a replay it can also dead-letter the delivery after one attempt, whose 2xx answer is lost. */
  lemma StaleReportAfterReplay(max: nat, now: int)
    requires max >= 2
    ensures var s := RunFrom(EMPTY, StaleReport(max, now));
            Shows(s, max, DeadLetter, 1, max + 2) && s.jobs[max + 1].phase == Closed(true, None)
  {
    var a2 := DeadLettered(max);
    var a3 := a2 + [Replay("t", "d", now), Claim("d", MINUTE, now)];
    var a4 := a3 + [Answer(max - 1, false), Report(max - 1, now)];
    DeadLetteredReach(max);
    RunTwo(a2, Replay("t", "d", now), Claim("d", MINUTE, now));
    ReplayAndClaim(RunFrom(EMPTY, a2), max, max + 1, max + 1, max - 1, max, now);
    RunTwo(a3, Answer(max - 1, false), Report(max - 1, now));
    FailureReport(RunFrom(EMPTY, a3), max, 1, max + 2, max - 1, max, max + 1, 1, now);
    RunTwo(a4, Answer(max + 1, true), Report(max + 1, now));
    AcceptedInVain(RunFrom(EMPTY, a4), max, DeadLetter, 1, max + 2, max + 1, 1, now);
  }
}
