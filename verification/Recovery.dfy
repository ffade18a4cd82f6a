/**
 What the circuit breaker lets through, and when: by the clock and by the calls of a run, without
 mention of its transition functions. Module Breaker bounds admissions from above; here is what a
 caller can count on.
 */
module Recovery {
  import opened Common
  import opened Breaker

  /** When the run last opened the circuit: the reading of the step after which it was Open and before
      which it was not. */
  function OpeningTime(cfg: Config, acts: seq<Action>): int {
    if acts == [] then 0
    else
      var before, a := acts[..|acts| - 1], acts[|acts| - 1];
      if Run(cfg, START, acts).core.state == Open && Opens(cfg, Run(cfg, START, before), a)
      then TimeOf(a, 0) else OpeningTime(cfg, before)
  }

  /** A report of failure for a current ticket that is the threshold-th in a row, or the probe's. */
  predicate Opens(cfg: Config, s: System, a: Action) {
    && a.Finish? && !a.success && a.id in s.outstanding
    && s.outstanding[a.id].generation == s.core.generation
    && (s.core.state == HalfOpen || s.core.consecutiveFailures == cfg.failureThreshold - 1)
  }

  /** A circuit turns Open by such a report only, and by every such report. */
  lemma OpensIff(cfg: Config, acts: seq<Action>, a: Action)
    requires cfg.Valid() && Run(cfg, START, acts).core.state != Open
    ensures var s := Run(cfg, START, acts);
            Step(cfg, s, a).core.state == Open <==> Opens(cfg, s, a)
  {
    TicketsAlways(cfg, acts);
  }

  /** While Open the circuit remembers when it opened. */
  lemma {:induction false} OpenedAtIsOpeningTime(cfg: Config, acts: seq<Action>)
    requires cfg.Valid() && Run(cfg, START, acts).core.state == Open
    ensures Run(cfg, START, acts).core.openedAt == OpeningTime(cfg, acts)
  {
    var before, a := acts[..|acts| - 1], acts[|acts| - 1];
    TicketsAlways(cfg, before);
    if Run(cfg, START, before).core.state == Open {
      OpenedAtIsOpeningTime(cfg, before);
    } else {
      OpensIff(cfg, before, a);
    }
  }

  /** Whether the run lets a caller through that reads the clock at `now`. */
  predicate Admits(cfg: Config, acts: seq<Action>, now: int) {
    var s := Run(cfg, START, acts);
    s.nextId in Step(cfg, s, Begin(now)).outstanding
  }

  /** In every run a caller is admitted exactly if the circuit is Closed; or Open, and the cool-down since
      it opened is over; or HalfOpen, and no probe is out. */
  lemma AdmitsIff(cfg: Config, acts: seq<Action>, now: int)
    requires cfg.Valid()
    ensures var s := Run(cfg, START, acts);
            Admits(cfg, acts, now)
            <==> match s.core.state
                 case Closed => true
                 case Open => now >= OpeningTime(cfg, acts) + cfg.openTimeout
                 case HalfOpen => forall id | id in s.outstanding :: s.outstanding[id].generation != s.core.generation
  {
    var s := Run(cfg, START, acts);
    TicketsAlways(cfg, acts);
    if s.core.state == Open {
      OpenedAtIsOpeningTime(cfg, acts);
    }
    if s.core.state == HalfOpen && !s.core.halfOpenProbe {
      NobodyCurrent(s);
    }
    if s.core.state == HalfOpen && s.core.halfOpenProbe {
      SomebodyCurrent(s);
    }
  }

  lemma NobodyCurrent(s: System)
    requires |CurrentTickets(s)| == 0
    ensures forall id | id in s.outstanding :: s.outstanding[id].generation != s.core.generation
  {
    assert forall id | id in s.outstanding && s.outstanding[id].generation == s.core.generation ::
           id in CurrentTickets(s);
  }

  lemma SomebodyCurrent(s: System)
    requires |CurrentTickets(s)| > 0
    ensures exists id :: id in s.outstanding && s.outstanding[id].generation == s.core.generation
  {
    var id :| id in CurrentTickets(s);
  }

  /** The probe decides: a success closes the circuit with a clean count, a failure opens it again at the
      reading of its report. */
  lemma ProbeDecides(cfg: Config, acts: seq<Action>, id: nat, success: bool, now: int)
    requires cfg.Valid() && Run(cfg, START, acts).core.state == HalfOpen
    requires var s := Run(cfg, START, acts);
             id in s.outstanding && s.outstanding[id].generation == s.core.generation
    ensures var c := Step(cfg, Run(cfg, START, acts), Finish(id, success, now)).core;
            if success then c.state == Closed && c.consecutiveFailures == 0
            else c.state == Open && c.openedAt == now
  {
    TicketsAlways(cfg, acts);
  }
}
