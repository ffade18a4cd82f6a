/**
 The circuit breaker of internal/reliability/breaker.go.

 `Core` is what the mutex protects. The two locked halves of Execute (`Before`, `After`) are the
 specification; `CircuitBreaker` is the mutable object proved against it; `Step`/`Run` interleave
 any number of callers whose operations run outside the lock. The breaker reads its clock while it
 holds the lock, so every step carries the reading it made.
 */
module Breaker {
  import opened Common

  datatype CircuitState = Closed | Open | HalfOpen

  datatype Ticket = Ticket(state: CircuitState, generation: nat)

  datatype Config = Config(failureThreshold: int, openTimeout: int) {
    predicate Valid() {
      failureThreshold > 0 && openTimeout > 0
    }
  }

  datatype Core = Core(
    state: CircuitState,
    consecutiveFailures: nat,
    openedAt: int,
    generation: nat,
    halfOpenProbe: bool)

  const INITIAL: Core := Core(Closed, 0, 0, 0, false)

  /* ---------- the locked sections, as functions ---------- */

  function Advance(cfg: Config, c: Core, now: int): Core {
    if c.state == Open && now - c.openedAt >= cfg.openTimeout
    then c.(state := HalfOpen, halfOpenProbe := false, generation := c.generation + 1)
    else c
  }

  function OpenAt(c: Core, now: int): Core {
    Core(Open, 0, now, c.generation + 1, false)
  }

  function Before(cfg: Config, c: Core, now: int): (Core, Option<Ticket>) {
    var a := Advance(cfg, c, now);
    if a.state == Open || (a.state == HalfOpen && a.halfOpenProbe) then (a, None)
    else (if a.state == HalfOpen then a.(halfOpenProbe := true) else a,
          Some(Ticket(a.state, a.generation)))
  }

  function After(cfg: Config, c: Core, ticket: Ticket, success: bool, now: int): Core {
    if ticket.generation != c.generation || ticket.state != c.state then c
    else if success then
      if c.state == HalfOpen
      then c.(consecutiveFailures := 0, state := Closed, halfOpenProbe := false, generation := c.generation + 1)
      else c.(consecutiveFailures := 0)
    else if c.state == HalfOpen then OpenAt(c, now)
    else if c.consecutiveFailures + 1 >= cfg.failureThreshold then OpenAt(c, now)
    else c.(consecutiveFailures := c.consecutiveFailures + 1)
  }

  function Restart(c: Core): Core {
    Core(Closed, 0, 0, c.generation + 1, false)
  }

  /* ---------- the mutable breaker ---------- */

  class CircuitBreaker {
    const failureThreshold: int
    const openTimeout: int
    var state: CircuitState
    var consecutiveFailures: nat
    var openedAt: int
    var generation: nat
    var halfOpenProbe: bool

    ghost function Cfg(): Config {
      Config(failureThreshold, openTimeout)
    }

    ghost function Value(): Core
      reads this
    {
      Core(state, consecutiveFailures, openedAt, generation, halfOpenProbe)
    }

    constructor (failureThreshold: int, openTimeout: int)
      requires failureThreshold > 0 && openTimeout > 0
      ensures Cfg() == Config(failureThreshold, openTimeout) && Value() == INITIAL
    {
      this.failureThreshold := failureThreshold;
      this.openTimeout := openTimeout;
      state, consecutiveFailures, openedAt, generation, halfOpenProbe := Closed, 0, 0, 0, false;
    }

    method BeforeRequest(now: int) returns (ticket: Option<Ticket>)
      modifies this
      ensures (Value(), ticket) == Before(Cfg(), old(Value()), now)
      ensures old(state) == Closed ==> ticket == Some(Ticket(Closed, generation)) && Value() == old(Value())
      ensures old(state) == Open ==>
                if now >= old(openedAt) + openTimeout
                then ticket == Some(Ticket(HalfOpen, generation)) && state == HalfOpen && halfOpenProbe
                     && generation == old(generation) + 1
                else ticket == None && Value() == old(Value())
      ensures old(state) == HalfOpen ==>
                && state == HalfOpen && halfOpenProbe && generation == old(generation)
                && ticket == if old(halfOpenProbe) then None else Some(Ticket(HalfOpen, generation))
    {
      AdvanceState(now);
      if state == Open || (state == HalfOpen && halfOpenProbe) {
        return None;
      }
      ticket := Some(Ticket(state, generation));
      if state == HalfOpen {
        halfOpenProbe := true;
      }
    }

    method AfterRequest(ticket: Ticket, success: bool, now: int)
      modifies this
      ensures Value() == After(Cfg(), old(Value()), ticket, success, now)
    {
      if ticket.generation != generation || ticket.state != state {
        return;
      }
      if success {
        consecutiveFailures := 0;
        if state == HalfOpen {
          state := Closed;
          halfOpenProbe := false;
          generation := generation + 1;
        }
        return;
      }
      if state == HalfOpen {
        OpenCircuit(now);
        return;
      }
      consecutiveFailures := consecutiveFailures + 1;
      if consecutiveFailures >= failureThreshold {
        OpenCircuit(now);
      }
    }

    method CurrentState(now: int) returns (s: CircuitState)
      modifies this
      ensures Value() == Advance(Cfg(), old(Value()), now) && s == state
      ensures if old(state) == Open && now >= old(openedAt) + openTimeout
              then state == HalfOpen && !halfOpenProbe && generation == old(generation) + 1
              else Value() == old(Value())
    {
      AdvanceState(now);
      s := state;
    }

    method Reset()
      modifies this
      ensures Value() == Restart(old(Value()))
    {
      state := Closed;
      consecutiveFailures := 0;
      openedAt := 0;
      halfOpenProbe := false;
      generation := generation + 1;
    }

    method AdvanceState(now: int)
      modifies this
      ensures Value() == Advance(Cfg(), old(Value()), now)
    {
      if state == Open && now - openedAt >= openTimeout {
        state := HalfOpen;
        halfOpenProbe := false;
        generation := generation + 1;
      }
    }

    method OpenCircuit(now: int)
      modifies this
      ensures Value() == OpenAt(old(Value()), now)
    {
      state := Open;
      openedAt := now;
      consecutiveFailures := 0;
      halfOpenProbe := false;
      generation := generation + 1;
    }
  }

  /* ---------- any interleaving of callers ---------- */

  /** `Begin` and `Finish` are the two locked halves of one Execute call; the operation runs in between. */
  datatype Action =
    | Begin(now: int)
    | Finish(id: nat, success: bool, now: int)
    | Poll(now: int)
    | ResetCircuit

  /** `outstanding` holds the ticket of every admitted caller whose operation has not reported yet. */
  datatype System = System(core: Core, outstanding: map<nat, Ticket>, nextId: nat)

  const START: System := System(INITIAL, map[], 0)

  function Step(cfg: Config, s: System, a: Action): System {
    match a
    case Begin(now) =>
      (match Before(cfg, s.core, now)
       case (c, None) => s.(core := c)
       case (c, Some(t)) => System(c, s.outstanding[s.nextId := t], s.nextId + 1))
    case Finish(id, success, now) =>
      if id in s.outstanding
      then s.(core := After(cfg, s.core, s.outstanding[id], success, now), outstanding := s.outstanding - {id})
      else s
    case Poll(now) => s.(core := Advance(cfg, s.core, now))
    case ResetCircuit => s.(core := Restart(s.core))
  }

  function Run(cfg: Config, s: System, acts: seq<Action>): System {
    if acts == [] then s else Step(cfg, Run(cfg, s, acts[..|acts| - 1]), acts[|acts| - 1])
  }

  /* ---------- tickets and the probe flag ---------- */

  ghost function CurrentTickets(s: System): set<nat> {
    set id | id in s.outstanding && s.outstanding[id].generation == s.core.generation
  }

  ghost predicate TicketInvariant(cfg: Config, s: System) {
    && (forall id | id in s.outstanding ::
          id < s.nextId
          && s.outstanding[id].generation <= s.core.generation
          && s.outstanding[id].state != Open
          && (s.outstanding[id].generation == s.core.generation ==> s.outstanding[id].state == s.core.state))
    && (s.core.halfOpenProbe ==> s.core.state == HalfOpen)
    && (s.core.state == HalfOpen ==> |CurrentTickets(s)| == if s.core.halfOpenProbe then 1 else 0)
    && (s.core.state == Open ==> CurrentTickets(s) == {})
    && s.core.consecutiveFailures < cfg.failureThreshold
    && (s.core.state != Closed ==> s.core.consecutiveFailures == 0)
  }

  lemma TicketsAfterAdvance(cfg: Config, s: System, now: int)
    requires cfg.Valid() && TicketInvariant(cfg, s)
    ensures TicketInvariant(cfg, s.(core := Advance(cfg, s.core, now)))
  {
    var s' := s.(core := Advance(cfg, s.core, now));
    assert CurrentTickets(s') == if s'.core.generation == s.core.generation then CurrentTickets(s) else {};
  }

  lemma TicketsAfterAdmission(cfg: Config, s: System)
    requires TicketInvariant(cfg, s) && (s.core.state == Closed || (s.core.state == HalfOpen && !s.core.halfOpenProbe))
    ensures TicketInvariant(cfg, System(if s.core.state == HalfOpen then s.core.(halfOpenProbe := true) else s.core,
                                        s.outstanding[s.nextId := Ticket(s.core.state, s.core.generation)],
                                        s.nextId + 1))
  {
    var s' := System(if s.core.state == HalfOpen then s.core.(halfOpenProbe := true) else s.core,
                     s.outstanding[s.nextId := Ticket(s.core.state, s.core.generation)], s.nextId + 1);
    assert CurrentTickets(s') == CurrentTickets(s) + {s.nextId};
  }

  lemma TicketsAfterBegin(cfg: Config, s: System, now: int)
    requires cfg.Valid() && TicketInvariant(cfg, s)
    ensures TicketInvariant(cfg, Step(cfg, s, Begin(now)))
  {
    TicketsAfterAdvance(cfg, s, now);
    if Before(cfg, s.core, now).1.Some? {
      TicketsAfterAdmission(cfg, s.(core := Advance(cfg, s.core, now)));
    }
  }

  lemma TicketsAfterFinish(cfg: Config, s: System, id: nat, success: bool, now: int)
    requires cfg.Valid() && TicketInvariant(cfg, s)
    ensures TicketInvariant(cfg, Step(cfg, s, Finish(id, success, now)))
  {
    if id in s.outstanding {
      var s' := Step(cfg, s, Finish(id, success, now));
      if s'.core.generation == s.core.generation {
        assert CurrentTickets(s') == CurrentTickets(s) - {id};
      } else {
        assert CurrentTickets(s') == {};
      }
      if s.core.state == HalfOpen && id in CurrentTickets(s) {
        assert s'.core.state != HalfOpen;
      }
    }
  }

  lemma TicketsAfterStep(cfg: Config, s: System, a: Action)
    requires cfg.Valid() && TicketInvariant(cfg, s)
    ensures TicketInvariant(cfg, Step(cfg, s, a))
  {
    match a
    case Begin(now) => TicketsAfterBegin(cfg, s, now);
    case Finish(id, success, now) => TicketsAfterFinish(cfg, s, id, success, now);
    case Poll(now) => TicketsAfterAdvance(cfg, s, now);
    case ResetCircuit =>
      assert CurrentTickets(Step(cfg, s, a)) == {};
  }

  /** Every reachable state: a current ticket carries the current state, and outside Closed the number
      of outstanding current tickets is 1 when the probe flag is set in HalfOpen and 0 otherwise. */
  lemma {:induction false} TicketsAlways(cfg: Config, acts: seq<Action>)
    requires cfg.Valid()
    ensures TicketInvariant(cfg, Run(cfg, START, acts))
  {
    if acts == [] {
      assert CurrentTickets(START) == {};
    } else {
      TicketsAlways(cfg, acts[..|acts| - 1]);
      TicketsAfterStep(cfg, Run(cfg, START, acts[..|acts| - 1]), acts[|acts| - 1]);
    }
  }

  /** A completion is ignored exactly when its generation is stale: in no reachable state does the
      second comparison (ticket.state against the circuit's state) decide anything. */
  lemma CompletionCountsIffCurrent(cfg: Config, acts: seq<Action>, id: nat, success: bool, now: int)
    requires cfg.Valid()
    requires id in Run(cfg, START, acts).outstanding
    ensures var s := Run(cfg, START, acts);
            var t := s.outstanding[id];
            var c' := Step(cfg, s, Finish(id, success, now)).core;
            && (t.generation < s.core.generation ==> c' == s.core)
            && (t.generation == s.core.generation ==>
                  && s.core.state != Open
                  && (c' == s.core <==> success && s.core.state == Closed && s.core.consecutiveFailures == 0))
  {
    TicketsAlways(cfg, acts);
  }

  /** With the circuit Closed any number of current tickets may be outstanding, so "probe set iff
      exactly one current ticket" is a statement about HalfOpen only. */
  lemma ClosedAdmitsOneWithoutProbe(cfg: Config, now: int)
    requires cfg.Valid()
    ensures var s := Run(cfg, START, [Begin(now)]);
            s.core.state == Closed && !s.core.halfOpenProbe && CurrentTickets(s) == {0}
  {
    var acts := [Begin(now)];
    assert acts[..0] == [];
    assert Run(cfg, START, acts) == Step(cfg, START, Begin(now));
  }

  /* ---------- refinement of a history automaton ---------- */

  /** What an outside observer records: outcomes the breaker accepted, cool-downs that ended, resets. */
  datatype Observation = Failure | Success | CooledDown | Restarted

  datatype Automaton = Counting(failures: nat) | Tripped | Probing

  function Delta(threshold: int, q: Automaton, o: Observation): Automaton {
    match (q, o)
    case (_, Restarted) => Counting(0)
    case (Counting(n), Failure) => if n + 1 == threshold then Tripped else Counting(n + 1)
    case (Counting(_), Success) => Counting(0)
    case (Tripped, CooledDown) => Probing
    case (Probing, Success) => Counting(0)
    case (Probing, Failure) => Tripped
    case (_, _) => q
  }

  function Replay(threshold: int, history: seq<Observation>): Automaton {
    if history == [] then Counting(0)
    else Delta(threshold, Replay(threshold, history[..|history| - 1]), history[|history| - 1])
  }

  function Observed(cfg: Config, s: System, a: Action): seq<Observation> {
    match a
    case Finish(id, success, _) =>
      if id in s.outstanding && s.outstanding[id].generation == s.core.generation
      then [if success then Success else Failure] else []
    case ResetCircuit => [Restarted]
    case Begin(now) => if s.core.state == Open && now >= s.core.openedAt + cfg.openTimeout then [CooledDown] else []
    case Poll(now) => if s.core.state == Open && now >= s.core.openedAt + cfg.openTimeout then [CooledDown] else []
  }

  function History(cfg: Config, acts: seq<Action>): seq<Observation> {
    if acts == [] then []
    else
      var before := acts[..|acts| - 1];
      History(cfg, before) + Observed(cfg, Run(cfg, START, before), acts[|acts| - 1])
  }

  function Shape(c: Core): Automaton {
    match c.state
    case Closed => Counting(c.consecutiveFailures)
    case Open => Tripped
    case HalfOpen => Probing
  }

  lemma StepRefines(cfg: Config, s: System, a: Action)
    requires cfg.Valid() && TicketInvariant(cfg, s)
    ensures var o := Observed(cfg, s, a);
            Shape(Step(cfg, s, a).core)
            == if o == [] then Shape(s.core) else Delta(cfg.failureThreshold, Shape(s.core), o[0])
    ensures |Observed(cfg, s, a)| <= 1
  {
  }

  lemma ReplayMore(threshold: int, history: seq<Observation>, more: seq<Observation>)
    requires |more| <= 1
    ensures Replay(threshold, history + more)
            == if more == [] then Replay(threshold, history) else Delta(threshold, Replay(threshold, history), more[0])
  {
    if more == [] {
      assert history + more == history;
    } else {
      assert (history + more)[..|history|] == history;
    }
  }

  lemma {:induction false} RefinesAutomaton(cfg: Config, acts: seq<Action>)
    requires cfg.Valid()
    ensures Shape(Run(cfg, START, acts).core) == Replay(cfg.failureThreshold, History(cfg, acts))
  {
    if acts != [] {
      var before, a := acts[..|acts| - 1], acts[|acts| - 1];
      RefinesAutomaton(cfg, before);
      TicketsAlways(cfg, before);
      StepRefines(cfg, Run(cfg, START, before), a);
      ReplayMore(cfg.failureThreshold, History(cfg, before), Observed(cfg, Run(cfg, START, before), a));
    }
  }

  /** The accepted failures since the last accepted success or reset; cool-downs are not outcomes. */
  function TrailingFailures(history: seq<Observation>): nat {
    if history == [] then 0
    else
      match history[|history| - 1]
      case Failure => 1 + TrailingFailures(history[..|history| - 1])
      case CooledDown => TrailingFailures(history[..|history| - 1])
      case _ => 0
  }

  lemma {:induction false} CountingIsTrailing(threshold: int, history: seq<Observation>)
    requires threshold > 0
    ensures var q := Replay(threshold, history);
            q.Counting? ==> q.failures == TrailingFailures(history) < threshold
  {
    if history != [] {
      CountingIsTrailing(threshold, history[..|history| - 1]);
    }
  }

  /** The counter is the length of the trailing run of accepted failures, stays below the threshold,
      and is 0 whenever the circuit is not Closed. */
  lemma CounterIsTrailingFailures(cfg: Config, acts: seq<Action>)
    requires cfg.Valid()
    ensures var c := Run(cfg, START, acts).core;
            if c.state == Closed
            then c.consecutiveFailures == TrailingFailures(History(cfg, acts)) < cfg.failureThreshold
            else c.consecutiveFailures == 0
  {
    RefinesAutomaton(cfg, acts);
    CountingIsTrailing(cfg.failureThreshold, History(cfg, acts));
    TicketsAlways(cfg, acts);
  }

  /** A Closed circuit opens in a step exactly when that step reports the threshold-th consecutive
      accepted failure. */
  lemma OpensExactlyAtThreshold(cfg: Config, acts: seq<Action>, a: Action)
    requires cfg.Valid()
    requires Run(cfg, START, acts).core.state == Closed
    ensures var s := Run(cfg, START, acts);
            Step(cfg, s, a).core.state != Closed
            <==> Observed(cfg, s, a) == [Failure]
                 && TrailingFailures(History(cfg, acts)) == cfg.failureThreshold - 1
    ensures Step(cfg, Run(cfg, START, acts), a).core.state != HalfOpen
  {
    CounterIsTrailingFailures(cfg, acts);
    TicketsAlways(cfg, acts);
  }

  /* ---------- how many operations a circuit that is not Closed lets through ---------- */

  function TimeOf(a: Action, default: int): int {
    if a.ResetCircuit? then default else a.now
  }

  /** The last clock reading of a run that began at t0. */
  function LastTime(t0: int, acts: seq<Action>): int {
    if acts == [] then t0 else TimeOf(acts[|acts| - 1], LastTime(t0, acts[..|acts| - 1]))
  }

  ghost predicate Nondecreasing(t0: int, acts: seq<Action>) {
    acts != [] ==>
      && Nondecreasing(t0, acts[..|acts| - 1])
      && LastTime(t0, acts[..|acts| - 1]) <= LastTime(t0, acts)
  }

  ghost predicate NeverClosed(cfg: Config, s: System, acts: seq<Action>) {
    && Run(cfg, s, acts).core.state != Closed
    && (acts != [] ==> NeverClosed(cfg, s, acts[..|acts| - 1]))
  }

  function Admitted(cfg: Config, s: System, acts: seq<Action>): nat {
    if acts == [] then 0
    else
      var before := acts[..|acts| - 1];
      var last := acts[|acts| - 1];
      Admitted(cfg, s, before)
      + if last.Begin? && Before(cfg, Run(cfg, s, before).core, last.now).1.Some? then 1 else 0
  }

  /** The time n cool-downs take. */
  function CoolDowns(cfg: Config, n: nat): int {
    if n == 0 then 0 else CoolDowns(cfg, n - 1) + cfg.openTimeout
  }

  lemma CoolDownsFit(cfg: Config, n: nat, span: int)
    requires cfg.Valid() && CoolDowns(cfg, n) <= span
    ensures span >= 0 && n <= span / cfg.openTimeout
  {
    CoolDownsAre(cfg, n);
    PeriodsFit(n, cfg.openTimeout, span);
  }

  lemma {:induction false} CoolDownsAre(cfg: Config, n: nat)
    requires cfg.Valid()
    ensures 0 <= CoolDowns(cfg, n) == n * cfg.openTimeout
  {
    if n > 0 {
      CoolDownsAre(cfg, n - 1);
    }
  }

  /** Time already paid for: every admission costs one cool-down, and a HalfOpen circuit whose probe
      has not started has paid for that probe in advance. */
  ghost predicate Paid(cfg: Config, c: Core, admitted: nat, t0: int, now: int) {
    match c.state
    case Closed => false
    case Open => CoolDowns(cfg, admitted) <= c.openedAt - t0 && c.openedAt <= now
    case HalfOpen => CoolDowns(cfg, admitted + if c.halfOpenProbe then 0 else 1) <= now - t0
  }

  lemma PaidAfterAdvance(cfg: Config, c: Core, admitted: nat, t0: int, t: int, now: int)
    requires cfg.Valid() && Paid(cfg, c, admitted, t0, t) && t <= now
    ensures Paid(cfg, Advance(cfg, c, now), admitted, t0, now)
  {
    assert CoolDowns(cfg, admitted + 1) == CoolDowns(cfg, admitted) + cfg.openTimeout;
  }

  lemma {:induction false} AdmissionsArePaid(cfg: Config, s: System, acts: seq<Action>, t0: int)
    requires cfg.Valid()
    requires s.core.state == Open && s.core.openedAt == t0
    requires Nondecreasing(t0, acts) && NeverClosed(cfg, s, acts)
    ensures Paid(cfg, Run(cfg, s, acts).core, Admitted(cfg, s, acts), t0, LastTime(t0, acts))
  {
    if acts != [] {
      var before, last := acts[..|acts| - 1], acts[|acts| - 1];
      AdmissionsArePaid(cfg, s, before, t0);
      var c, n, t := Run(cfg, s, before).core, Admitted(cfg, s, before), LastTime(t0, before);
      if last.Begin? || last.Poll? {
        PaidAfterAdvance(cfg, c, n, t0, t, last.now);
      }
      assert CoolDowns(cfg, n + 1) == CoolDowns(cfg, n) + cfg.openTimeout;
    }
  }

  /** From an opening at t0, while the circuit is never Closed (so in particular never Reset) and the
      clock does not go back, at most floor((t - t0) / openTimeout) operations are admitted by t. */
  lemma AdmissionBound(cfg: Config, s: System, acts: seq<Action>, t0: int)
    requires cfg.Valid()
    requires s.core.state == Open && s.core.openedAt == t0
    requires Nondecreasing(t0, acts) && NeverClosed(cfg, s, acts)
    ensures LastTime(t0, acts) >= t0
    ensures Admitted(cfg, s, acts) <= (LastTime(t0, acts) - t0) / cfg.openTimeout
  {
    AdmissionsArePaid(cfg, s, acts, t0);
    PaidBoundsAdmitted(cfg, Run(cfg, s, acts).core, Admitted(cfg, s, acts), t0, LastTime(t0, acts));
  }

  lemma PaidBoundsAdmitted(cfg: Config, c: Core, admitted: nat, t0: int, now: int)
    requires cfg.Valid() && Paid(cfg, c, admitted, t0, now)
    ensures now >= t0 && admitted <= (now - t0) / cfg.openTimeout
  {
    assert CoolDowns(cfg, admitted + 1) == CoolDowns(cfg, admitted) + cfg.openTimeout;
    CoolDownsFit(cfg, admitted, now - t0);
  }

  /** When the k-th of a row of cool-downs ends. */
  function CooledAt(cfg: Config, t0: int, k: nat): int {
    if k == 0 then t0 else CooledAt(cfg, t0, k - 1) + cfg.openTimeout
  }

  lemma {:induction false} CooledAtIs(cfg: Config, t0: int, k: nat)
    ensures CooledAt(cfg, t0, k) == t0 + k * cfg.openTimeout
  {
    if k > 0 {
      CooledAtIs(cfg, t0, k - 1);
      assert k * cfg.openTimeout == (k - 1) * cfg.openTimeout + cfg.openTimeout;
    }
  }

  /** k probes, each started the moment its cool-down ends and each failing at once. */
  function FailingProbes(cfg: Config, s: System, t0: int, k: nat): seq<Action> {
    if k == 0 then []
    else FailingProbes(cfg, s, t0, k - 1)
         + [Begin(CooledAt(cfg, t0, k)), Finish(s.nextId + k - 1, false, CooledAt(cfg, t0, k))]
  }

  /** The circuit opened last at t, has admitted n operations since t0 and was never Closed in between. */
  ghost predicate ReopenedAt(cfg: Config, s: System, acts: seq<Action>, t0: int, t: int, n: nat) {
    var r := Run(cfg, s, acts);
    && r.core.state == Open && r.core.openedAt == t && r.nextId == s.nextId + n
    && NeverClosed(cfg, s, acts) && Nondecreasing(t0, acts) && LastTime(t0, acts) == t
    && Admitted(cfg, s, acts) == n
  }

  lemma OneFailingProbe(cfg: Config, s: System, acts: seq<Action>, t0: int, t: int, n: nat)
    requires cfg.Valid() && ReopenedAt(cfg, s, acts, t0, t, n)
    ensures var t' := t + cfg.openTimeout;
            ReopenedAt(cfg, s, acts + [Begin(t'), Finish(s.nextId + n, false, t')], t0, t', n + 1)
  {
    var t' := t + cfg.openTimeout;
    var a, b := Begin(t'), Finish(s.nextId + n, false, t');
    assert (acts + [a])[..|acts|] == acts;
    assert (acts + [a, b])[..|acts| + 1] == acts + [a];
    assert Run(cfg, s, acts + [a]) == Step(cfg, Run(cfg, s, acts), a);
    assert NeverClosed(cfg, s, acts + [a]);
    assert Nondecreasing(t0, acts + [a]);
    assert Admitted(cfg, s, acts + [a]) == n + 1;
  }

  lemma {:induction false} FailingProbesRun(cfg: Config, s: System, t0: int, k: nat)
    requires cfg.Valid()
    requires s.core.state == Open && s.core.openedAt == t0
    ensures ReopenedAt(cfg, s, FailingProbes(cfg, s, t0, k), t0, CooledAt(cfg, t0, k), k)
  {
    if k > 0 {
      FailingProbesRun(cfg, s, t0, k - 1);
      OneFailingProbe(cfg, s, FailingProbes(cfg, s, t0, k - 1), t0, CooledAt(cfg, t0, k - 1), k - 1);
    }
  }

  /** The bound is reached for every k: the circuit stays away from Closed and admits k operations in
      exactly k cool-downs. */
  lemma AdmissionBoundIsTight(cfg: Config, s: System, t0: int, k: nat)
    requires cfg.Valid()
    requires s.core.state == Open && s.core.openedAt == t0
    ensures var acts := FailingProbes(cfg, s, t0, k);
            && NeverClosed(cfg, s, acts) && Nondecreasing(t0, acts)
            && LastTime(t0, acts) == t0 + k * cfg.openTimeout
            && Admitted(cfg, s, acts) == k
  {
    FailingProbesRun(cfg, s, t0, k);
    CooledAtIs(cfg, t0, k);
  }
}
