/**
 The in-memory order service of internal/app/service.go: the registry, the guarded dependency call,
 the store and the counters put together. `Service` is one call with nobody else running;
 module LabRuns interleaves calls.
 */
module Lab {
  import opened Common
  import opened Domain
  import opened EventLog
  import I = Idempotency
  import B = Breaker
  import D = Dependency
  import Fingerprint

  const TTL: int := 30 * MINUTE
  const SAMPLES: nat := 40

  datatype Input = Input(tenant: string, key: string, eventID: string, quantity: int) {
    predicate Valid() {
      tenant != "" && key != "" && eventID != "" && 1 <= quantity <= 12
    }

    function Scope(): I.Scope {
      I.Scope(tenant, key)
    }

    function Print(): string {
      Fingerprint.Lab(eventID, quantity)
    }
  }

  datatype Counters = Counters(total: nat, succeeded: nat, failed: nat, suppressed: nat)

  datatype Response = Created(order: Order) | Replayed(order: Order) | Error

  function Bump(c: Counters, r: Response): Counters {
    match r
    case Created(_) => c.(succeeded := c.succeeded + 1)
    case Replayed(_) => c.(suppressed := c.suppressed + 1)
    case Error => c.(failed := c.failed + 1)
  }

  function LastSamples(s: seq<bool>): seq<bool> {
    if |s| > SAMPLES then s[|s| - SAMPLES..] else s
  }

  /** Recording one outcome after another keeps the latest 40 of all of them, in order. */
  lemma WindowSlides(outcomes: seq<bool>, failed: bool)
    ensures LastSamples(LastSamples(outcomes) + [failed]) == LastSamples(outcomes + [failed])
    ensures |LastSamples(outcomes)| == Min(|outcomes|, 40)
    ensures LastSamples(outcomes) == outcomes[|outcomes| - |LastSamples(outcomes)|..]
  {
  }

  /** The clock readings one call makes, in program order. */
  datatype Clock = Clock(enter: int, span: D.Span, finish: int)

  /** Everything a call can change except the counters. */
  datatype World = World(store: Store, registry: I.Registry<Order>, dependency: D.State)

  /** DoWithFingerprint around the guarded dependency call and the save, with nobody else running.
      The dependency and the store are touched only by a leader: if `input` leads, the guarded call
      leaves the dependency as `dependency` and succeeds if `ok`. */
  ghost function Serve(w: World, input: Input, clock: Clock, freshID: string, dependency: D.State, ok: bool)
    : (World, Response)
    requires w.store.Valid() && w.registry.WellFormed()
  {
    DecidedInRange(w.registry, clock.enter, input);
    var (r, decision) := I.Decide(I.MaybePurge(TTL, w.registry, clock.enter), input.Scope(), input.Print(),
        clock.enter);
    Act(w.(registry := r), decision, input, dependency, ok, clock.finish, freshID)
  }

  predicate InRange(r: I.Registry<Order>, decision: I.Decision) {
    match decision
    case Conflict => true
    case Follow(cell) => cell < |r.cells|
    case Lead(cell) => cell < |r.cells|
  }

  /** What a caller does once the registry has decided. */
  ghost function Act(w: World, decision: I.Decision, input: Input, dependency: D.State, ok: bool, finish: int,
                     freshID: string): (World, Response)
    requires w.store.Valid() && InRange(w.registry, decision)
  {
    match decision
    case Conflict => (w, Error)
    case Follow(cell) => (w, Followed(w.registry.cells[cell].outcome))
    case Lead(cell) =>
      var (store, result, response) := Lead(w.store, input, ok, freshID);
      (World(store, I.Complete(TTL, w.registry, input.Scope(), cell, result, finish), dependency), response)
  }

  ghost function Lead(store: Store, input: Input, ok: bool, freshID: string): (Store, I.Result<Order>, Response)
    requires store.Valid()
  {
    if ok then
      var order := NewOrder(input, freshID);
      var saved := Append(store, order, "order.confirmed").1;
      (Save(store, order, "order.confirmed"), I.Ok(saved), Created(saved))
    else (store, I.Err("inventory dependency failed"), Error)
  }

  function NewOrder(input: Input, freshID: string): Order {
    Order(freshID, input.tenant, input.eventID, input.quantity, 0)
  }

  function Followed(outcome: Option<I.Result<Order>>): Response {
    match outcome
    case Some(Ok(order)) => Replayed(order)
    case _ => Error
  }

  class Service {
    var store: Memory
    var simulator: D.Simulator
    var breaker: B.CircuitBreaker
    var registry: I.IdempotencyRegistry<Order>
    var counters: Counters
    var samples: seq<bool>

    ghost predicate Valid()
      reads this, store, simulator, breaker, registry
    {
      && store.Value().Valid() && registry.Value().WellFormed()
      && breaker.Cfg() == D.BREAKER && registry.ttl == TTL
      && |samples| <= SAMPLES
    }

    ghost function State(): World
      reads this, store, simulator, breaker, registry
    {
      World(store.Value(), registry.Value(), D.State(breaker.Value(), simulator.calls, simulator.mode))
    }

    constructor (retention: int, now: int)
      ensures Valid() && counters == Counters(0, 0, 0, 0) && store.Value() == New(retention)
      ensures fresh(store) && fresh(simulator) && fresh(breaker) && fresh(registry)
    {
      store := new Memory(retention);
      simulator := new D.Simulator();
      breaker := new B.CircuitBreaker(3, 4 * SECOND);
      registry := new I.IdempotencyRegistry<Order>(TTL, now);
      counters := Counters(0, 0, 0, 0);
      samples := [];
    }

    /** One uninterrupted call. */
    method CreateOrder(input: Input, clock: Clock, freshID: string) returns (response: Response)
      requires Valid()
      modifies this`counters, this`samples, store, simulator, breaker, registry
      ensures Valid()
      ensures var call := D.Order(old(State()).dependency, clock.span);
              (State(), response)
              == if input.Valid() then Serve(old(State()), input, clock, freshID, call.0, call.1.Succeeded())
                 else (old(State()), Error)
      ensures input.tenant == "" || input.key == "" || input.eventID == "" || input.quantity < 1 || input.quantity > 12
              ==> response == Error && State() == old(State())
      ensures counters == Bump(old(counters).(total := old(counters).total + 1), response)
      ensures samples == LastSamples(old(samples) + [response.Error?])
    {
      counters := counters.(total := counters.total + 1);
      response := Error;
      if input.Valid() {
        response := Submit(input, clock, freshID);
      }
      counters := Bump(counters, response);
      samples := samples + [response.Error?];
      if |samples| > SAMPLES {
        samples := samples[|samples| - SAMPLES..];
      }
    }

    method Submit(input: Input, clock: Clock, freshID: string) returns (response: Response)
      requires Valid()
      modifies store, simulator, breaker, registry
      ensures Valid()
      ensures var call := D.Order(old(State()).dependency, clock.span);
              (State(), response) == Serve(old(State()), input, clock, freshID, call.0, call.1.Succeeded())
    {
      response := Error;
      DecidedInRange(registry.Value(), clock.enter, input);
      var decision := registry.Begin(input.Scope(), input.Print(), clock.enter);
      match decision {
        case Conflict =>
        case Follow(cell) =>
          if registry.cells[cell].outcome.Some? && registry.cells[cell].outcome.value.Ok? {
            response := Replayed(registry.cells[cell].outcome.value.value);
          }
        case Lead(cell) =>
          var ran := D.Execute(breaker, simulator, clock.span);
          if ran.Succeeded() {
            var order := store.SaveOrder(NewOrder(input, freshID), "order.confirmed");
            registry.Finish(input.Scope(), cell, I.Ok(order), clock.finish);
            response := Created(order);
          } else {
            registry.Finish(input.Scope(), cell, I.Err("inventory dependency failed"), clock.finish);
          }
      }
    }

    method Reset(now: int)
      requires Valid()
      modifies this, store, simulator, breaker
      ensures Valid() && counters == Counters(0, 0, 0, 0) && samples == []
      ensures store.Value() == EventLog.Reset(old(store.Value()))
      ensures simulator.mode == D.Healthy && simulator.calls == 0
      ensures breaker.Value() == B.Restart(old(breaker.Value()))
      ensures registry.Value() == I.Registry([], map[], now + Min(TTL, MINUTE))
      ensures store == old(store) && simulator == old(simulator) && breaker == old(breaker) && fresh(registry)
    {
      store.ResetStore();
      simulator.Reset();
      breaker.Reset();
      registry := new I.IdempotencyRegistry<Order>(TTL, now);
      counters := Counters(0, 0, 0, 0);
      samples := [];
    }
  }

  lemma DecidedInRange(r: I.Registry<Order>, now: int, input: Input)
    requires r.WellFormed()
    ensures var (r', decision) := I.Decide(I.MaybePurge(TTL, r, now), input.Scope(), input.Print(), now);
            InRange(r', decision)
  {
  }
}
