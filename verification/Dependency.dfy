/**
 The synthetic dependency of internal/upstream/simulator.go and the guarded call of it in
 internal/app/service.go: circuit breaker around retry around a 250 ms attempt.
 Here orders do not overlap; each reads the clock when it starts and when it reports.
 */
module Dependency {
  import opened Common
  import B = Breaker
  import R = Retry

  datatype Mode = Healthy | Slow | Flaky | Unavailable

  const ATTEMPT_TIMEOUT: int := 250 * 1_000_000
  const ATTEMPTS: nat := 3
  const BREAKER: B.Config := B.Config(3, 4 * SECOND)

  function Delay(mode: Mode): int {
    match mode
    case Healthy => 35 * 1_000_000
    case Slow => 650 * 1_000_000
    case Flaky => 45 * 1_000_000
    case Unavailable => 15 * 1_000_000
  }

  /** How the call-th Reserve since the last reset ends for a caller that waits at most `patience`. */
  function Reserved(mode: Mode, call: nat, patience: int): bool {
    Delay(mode) < patience && mode != Unavailable && (mode == Flaky ==> call % 3 == 0)
  }

  /** How the calls after the first `calls` end, seen by attempts with their 250 ms timeout. */
  function Answers(mode: Mode, calls: nat): nat -> bool {
    (n: nat) => Reserved(mode, calls + n + 1, ATTEMPT_TIMEOUT)
  }

  lemma AnswersAt(mode: Mode, calls: nat, n: nat)
    ensures Answers(mode, calls)(n) == Reserved(mode, calls + n + 1, ATTEMPT_TIMEOUT)
  {
  }

  class Simulator {
    var mode: Mode
    var calls: nat

    constructor ()
      ensures mode == Healthy && calls == 0
    {
      mode, calls := Healthy, 0;
    }

    method SetMode(mode: Mode)
      modifies this
      ensures this.mode == mode && calls == old(calls)
    {
      this.mode := mode;
    }

    method Reserve(patience: int) returns (ok: bool)
      modifies this
      ensures calls == old(calls) + 1 && mode == old(mode) && ok == Reserved(mode, calls, patience)
      ensures ok <==> match mode
                      case Healthy => patience > 35_000_000
                      case Slow => patience > 650_000_000
                      case Flaky => patience > 45_000_000 && calls % 3 == 0
                      case Unavailable => false
    {
      calls := calls + 1;
      var call := calls;
      var delay := 35 * 1_000_000;
      match mode {
        case Slow => delay := 650 * 1_000_000;
        case Unavailable => delay := 15 * 1_000_000;
        case Flaky => delay := 45 * 1_000_000;
        case Healthy =>
      }
      if patience <= delay {
        return false;
      }
      if mode == Unavailable || (mode == Flaky && call % 3 != 0) {
        return false;
      }
      ok := true;
    }

    method Reset()
      modifies this
      ensures mode == Healthy && calls == 0
    {
      mode, calls := Healthy, 0;
    }
  }

  /* ---------- one order ---------- */

  datatype State = State(core: B.Core, calls: nat, mode: Mode)

  /** Start and end of one order by the clock. */
  datatype Span = Span(start: int, end: int)

  datatype Result = Rejected | Ran(ok: bool, used: nat) {
    predicate Succeeded() {
      Ran? && ok
    }
  }

  /** breaker.Execute around retry.Retry around dependency.Reserve. */
  function Order(s: State, span: Span): (State, Result) {
    match B.Before(BREAKER, s.core, span.start)
    case (core, None) => (s.(core := core), Rejected)
    case (core, Some(ticket)) =>
      var (used, ok) := R.Tries(Answers(s.mode, s.calls), ATTEMPTS);
      (State(B.After(BREAKER, core, ticket, ok, span.end), s.calls + used, s.mode), Ran(ok, used))
  }

  /** The same, by calling the parts: RetryValue's loop with Reserve as its operation. */
  method Execute(breaker: B.CircuitBreaker, simulator: Simulator, span: Span) returns (result: Result)
    requires breaker.Cfg() == BREAKER
    modifies breaker, simulator
    ensures (State(breaker.Value(), simulator.calls, simulator.mode), result)
            == Order(old(State(breaker.Value(), simulator.calls, simulator.mode)), span)
  {
    var ticket := breaker.BeforeRequest(span.start);
    if ticket.None? {
      return Rejected;
    }
    ghost var answers := Answers(simulator.mode, simulator.calls);
    var used, ok := 0, false;
    while used < ATTEMPTS && !ok
      invariant used <= ATTEMPTS && simulator.calls == old(simulator.calls) + used
                && simulator.mode == old(simulator.mode)
      invariant R.Tries(answers, ATTEMPTS) == if ok then (used, true) else R.TriesFrom(answers, used, ATTEMPTS)
      invariant breaker.Value() == B.Before(BREAKER, old(breaker.Value()), span.start).0
      decreases ATTEMPTS - used
    {
      AnswersAt(simulator.mode, old(simulator.calls), used);
      ok := simulator.Reserve(ATTEMPT_TIMEOUT);
      used := used + 1;
    }
    breaker.AfterRequest(ticket.value, ok, span.end);
    result := Ran(ok, used);
  }

  /* ---------- sequences of orders ---------- */

  function Orders(s: State, spans: seq<Span>): State {
    if spans == [] then s else Order(Orders(s, spans[..|spans| - 1]), spans[|spans| - 1]).0
  }

  function Results(s: State, spans: seq<Span>): seq<Result> {
    if spans == [] then []
    else Results(s, spans[..|spans| - 1]) + [Order(Orders(s, spans[..|spans| - 1]), spans[|spans| - 1]).1]
  }

  /** A healthy dependency, from a Closed circuit: every order succeeds with its first call. */
  lemma {:induction false} HealthyAlwaysSucceeds(s: State, spans: seq<Span>)
    requires s.mode == Healthy && s.core.state == B.Closed
    ensures var e := Orders(s, spans);
            && e.mode == Healthy && e.core.state == B.Closed && e.calls == s.calls + |spans|
    ensures |Results(s, spans)| == |spans| && forall r | r in Results(s, spans) :: r == Ran(true, 1)
  {
    if spans != [] {
      HealthyAlwaysSucceeds(s, spans[..|spans| - 1]);
      var f := Answers(Healthy, Orders(s, spans[..|spans| - 1]).calls);
      AnswersAt(Healthy, Orders(s, spans[..|spans| - 1]).calls, 0);
      assert R.TriesFrom(f, 0, 3) == (1, true);
    }
  }

  /** Of three consecutive calls one has a number divisible by 3. */
  lemma FlakyTries(calls: nat)
    ensures var (used, ok) := R.Tries(Answers(Flaky, calls), ATTEMPTS);
            ok && 1 <= used <= 3 && (calls + used) % 3 == 0
  {
    var f := Answers(Flaky, calls);
    assert R.TriesFrom(f, 3, 3) == (3, false);
    assert R.TriesFrom(f, 2, 3) == if f(2) then (3, true) else R.TriesFrom(f, 3, 3);
    assert R.TriesFrom(f, 1, 3) == if f(1) then (2, true) else R.TriesFrom(f, 2, 3);
    assert R.TriesFrom(f, 0, 3) == if f(0) then (1, true) else R.TriesFrom(f, 1, 3);
    AnswersAt(Flaky, calls, 0);
    AnswersAt(Flaky, calls, 1);
    AnswersAt(Flaky, calls, 2);
    assert f(0) == ((calls + 1) % 3 == 0) && f(1) == ((calls + 2) % 3 == 0) && f(2) == ((calls + 3) % 3 == 0);
  }

  /** In flaky mode, from a Closed circuit and any call count, every order succeeds within three calls
      and the circuit stays Closed, however many orders there are. */
  lemma {:induction false} FlakyAlwaysSucceeds(s: State, spans: seq<Span>)
    requires s.mode == Flaky && s.core.state == B.Closed
    ensures var e := Orders(s, spans);
            && e.mode == Flaky && e.core.state == B.Closed
            && (spans != [] ==> e.core.consecutiveFailures == 0 && e.calls % 3 == 0)
            && e.core.generation == s.core.generation
            && |spans| <= e.calls - s.calls <= 3 * |spans|
    ensures forall r | r in Results(s, spans) :: r.Ran? && r.ok && 1 <= r.used <= 3
  {
    if spans != [] {
      FlakyAlwaysSucceeds(s, spans[..|spans| - 1]);
      FlakyTries(Orders(s, spans[..|spans| - 1]).calls);
    }
  }

  /** A dependency that never answers in time uses all three attempts of every order that runs. */
  lemma FailingTries(mode: Mode, calls: nat)
    requires mode == Slow || mode == Unavailable
    ensures R.Tries(Answers(mode, calls), ATTEMPTS) == (3, false)
  {
    var f := Answers(mode, calls);
    AnswersAt(mode, calls, 0);
    AnswersAt(mode, calls, 1);
    AnswersAt(mode, calls, 2);
    assert !f(0) && !f(1) && !f(2);
    assert R.TriesFrom(f, 3, 3) == (3, false);
    assert R.TriesFrom(f, 2, 3) == R.TriesFrom(f, 3, 3);
    assert R.TriesFrom(f, 1, 3) == R.TriesFrom(f, 2, 3);
  }

  ghost predicate InOrder(t0: int, spans: seq<Span>) {
    && (forall i | 0 <= i < |spans| :: t0 <= spans[i].start <= spans[i].end)
    && (forall i, j | 0 <= i < j < |spans| :: spans[i].end <= spans[j].start)
  }

  /** The first three failures open the circuit; after that every order that runs has waited out a cool-down. */
  ghost predicate Spent(s: State, runs: nat, calls0: nat, t0: int, now: int) {
    && s.calls == calls0 + 3 * runs
    && match s.core.state
       case Closed => runs == s.core.consecutiveFailures < 3
       case Open => runs >= 3 && (runs - 3) * BREAKER.openTimeout <= s.core.openedAt - t0
            && t0 <= s.core.openedAt <= now
       case HalfOpen => false
  }

  lemma OneFailingOrder(s: State, span: Span, runs: nat, calls0: nat, t0: int, now: int)
    requires s.mode == Slow || s.mode == Unavailable
    requires Spent(s, runs, calls0, t0, now) && t0 <= now <= span.start <= span.end
    ensures var (s', r) := Order(s, span);
            && s'.mode == s.mode && (r.Ran? ==> !r.ok)
            && Spent(s', if r.Ran? then runs + 1 else runs, calls0, t0, span.end)
  {
    FailingTries(s.mode, s.calls);
  }

  function EndOf(t0: int, spans: seq<Span>): int {
    if spans == [] then t0 else spans[|spans| - 1].end
  }

  lemma {:induction false} FailingOrders(s: State, spans: seq<Span>, t0: int) returns (runs: nat)
    requires s.mode == Slow || s.mode == Unavailable
    requires s.core.state == B.Closed && s.core.consecutiveFailures == 0 && InOrder(t0, spans)
    ensures Orders(s, spans).mode == s.mode
    ensures Spent(Orders(s, spans), runs, s.calls, t0, EndOf(t0, spans)) && t0 <= EndOf(t0, spans)
  {
    if spans == [] {
      runs := 0;
    } else {
      var before, span := spans[..|spans| - 1], spans[|spans| - 1];
      runs := FailingOrders(s, before, t0);
      assert EndOf(t0, before) <= span.start <= span.end;
      OneFailingOrder(Orders(s, before), span, runs, s.calls, t0, EndOf(t0, before));
      runs := if Order(Orders(s, before), span).1.Ran? then runs + 1 else runs;
    }
  }

  /** A dependency that is down causes bounded work: with the circuit Closed at first, any number of
      orders over a period make at most 9 calls plus 3 per full cool-down of 4 seconds. */
  lemma FailingDependencyBoundsWork(s: State, spans: seq<Span>, t0: int)
    requires s.mode == Slow || s.mode == Unavailable
    requires s.core.state == B.Closed && s.core.consecutiveFailures == 0 && InOrder(t0, spans)
    ensures Orders(s, spans).calls - s.calls <= 9 + 3 * ((EndOf(t0, spans) - t0) / BREAKER.openTimeout)
  {
    var runs := FailingOrders(s, spans, t0);
    SpentBound(Orders(s, spans), runs, s.calls, t0, EndOf(t0, spans));
  }

  /** And it is cut off: the third order that fails in a row opens the circuit, and until 4 seconds after
      its end every order is rejected without a call. */
  lemma ThirdFailureCutsOff(s: State, a: Span, b: Span, c: Span, later: Span)
    requires s.mode == Slow || s.mode == Unavailable
    requires s.core.state == B.Closed && s.core.consecutiveFailures == 0
    ensures var s3 := Orders(s, [a, b, c]);
            && Results(s, [a, b, c]) == [Ran(false, 3), Ran(false, 3), Ran(false, 3)]
            && s3.calls == s.calls + 9 && s3.core.state == B.Open
            && (later.start < c.end + 4_000_000_000 ==> Order(s3, later) == (s3, Rejected))
            && (later.start >= c.end + 4_000_000_000 ==>
                  Order(s3, later).1 == Ran(false, 3) && Order(s3, later).0.core.state == B.Open)
  {
    FailsOnce(s, a);
    FailsOnce(Order(s, a).0, b);
    FailsOnce(Order(Order(s, a).0, b).0, c);
    ThreeOrders(s, a, b, c);
    WaitsForCoolDown(Orders(s, [a, b, c]), later);
  }

  lemma FailsOnce(s: State, span: Span)
    requires (s.mode == Slow || s.mode == Unavailable) && s.core.state == B.Closed && s.core.consecutiveFailures <= 2
    ensures var (s', r) := Order(s, span);
            && r == Ran(false, 3) && s'.calls == s.calls + 3 && s'.mode == s.mode
            && (s.core.consecutiveFailures < 2 ==>
                  s'.core.state == B.Closed && s'.core.consecutiveFailures == s.core.consecutiveFailures + 1)
            && (s.core.consecutiveFailures == 2 ==> s'.core.state == B.Open && s'.core.openedAt == span.end)
  {
    FailingTries(s.mode, s.calls);
  }

  lemma WaitsForCoolDown(s: State, span: Span)
    requires (s.mode == Slow || s.mode == Unavailable) && s.core.state == B.Open
    ensures if span.start < s.core.openedAt + 4_000_000_000 then Order(s, span) == (s, Rejected)
            else Order(s, span).1 == Ran(false, 3) && Order(s, span).0.core.state == B.Open
  {
    FailingTries(s.mode, s.calls);
  }

  lemma ThreeOrders(s: State, a: Span, b: Span, c: Span)
    ensures var s1 := Order(s, a).0;
            var s2 := Order(s1, b).0;
            && Orders(s, [a, b, c]) == Order(s2, c).0
            && Results(s, [a, b, c]) == [Order(s, a).1, Order(s1, b).1, Order(s2, c).1]
  {
    assert [a, b, c][..2] == [a, b] && [a, b][..1] == [a] && [a][..0] == [];
    assert Orders(s, [a]) == Order(s, a).0 && Results(s, [a]) == [Order(s, a).1];
  }

  lemma SpentBound(s: State, runs: nat, calls0: nat, t0: int, now: int)
    requires Spent(s, runs, calls0, t0, now) && t0 <= now
    ensures s.calls - calls0 <= 9 + 3 * ((now - t0) / BREAKER.openTimeout)
  {
    var periods: nat := if runs >= 3 then runs - 3 else 0;
    assert periods * BREAKER.openTimeout <= now - t0;
    PeriodsFit(periods, BREAKER.openTimeout, now - t0);
  }
}
