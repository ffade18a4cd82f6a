/**
 The token-bucket limiter of internal/reliability/limiter.go and the three-layer admission of
 internal/httpapi/server.go. Tokens are real numbers, times are integers of nanoseconds. A caller
 reads the clock before it takes the lock, so readings may arrive in any order.
 */
module Limiter {
  import opened Common

  datatype Config = Config(rate: real, burst: int) {
    predicate Valid() {
      rate > 0.0 && burst > 0
    }

    function Cap(): real {
      burst as real
    }

    /** Tokens that flow in over a period of d nanoseconds. */
    function Flow(d: int): real {
      d as real / SECOND as real * rate
    }
  }

  datatype Bucket = Bucket(tokens: real, last: int)

  type Buckets = map<string, Bucket>

  function MinReal(a: real, b: real): real {
    if a <= b then a else b
  }

  function Refill(cfg: Config, b: Bucket, now: int): Bucket {
    if now > b.last then Bucket(MinReal(cfg.Cap(), b.tokens + cfg.Flow(now - b.last)), now) else b
  }

  function Take(cfg: Config, b: Bucket, now: int): (Bucket, bool) {
    var r := Refill(cfg, b, now);
    if r.tokens < 1.0 then (r, false) else (r.(tokens := r.tokens - 1.0), true)
  }

  function GiveBack(cfg: Config, b: Bucket): Bucket {
    b.(tokens := MinReal(cfg.Cap(), b.tokens + 1.0))
  }

  function AllowIn(cfg: Config, m: Buckets, key: string, now: int): (Buckets, bool) {
    if key !in m then (m[key := Bucket(cfg.Cap() - 1.0, now)], true)
    else
      var (b, ok) := Take(cfg, m[key], now);
      (m[key := b], ok)
  }

  function RefundIn(cfg: Config, m: Buckets, key: string): Buckets {
    if key in m then m[key := GiveBack(cfg, m[key])] else m
  }

  /** What refill alone leaves in a slot; a slot never used counts as a full bucket. */
  function RefillOnly(cfg: Config, m: Buckets, key: string, now: int): Buckets {
    m[key := if key in m then Refill(cfg, m[key], now) else Bucket(cfg.Cap(), now)]
  }

  ghost predicate WithinBurst(cfg: Config, m: Buckets) {
    forall k | k in m :: 0.0 <= m[k].tokens <= cfg.Cap()
  }

  class TokenBucketLimiter {
    const rate: real
    const burst: int
    var buckets: Buckets

    ghost function Cfg(): Config {
      Config(rate, burst)
    }

    ghost predicate Valid()
      reads this
    {
      Cfg().Valid() && WithinBurst(Cfg(), buckets)
    }

    constructor (rate: real, burst: int)
      requires rate > 0.0 && burst > 0
      ensures Cfg() == Config(rate, burst) && buckets == map[] && Valid()
    {
      this.rate, this.burst, buckets := rate, burst, map[];
    }

    method Allow(key: string, now: int) returns (ok: bool)
      requires Valid()
      modifies this
      ensures Valid() && (buckets, ok) == AllowIn(Cfg(), old(buckets), key, now)
    {
      if key !in buckets {
        buckets := buckets[key := Bucket(burst as real - 1.0, now)];
        return true;
      }
      var bucket := buckets[key];
      var elapsed := (now - bucket.last) as real / SECOND as real;
      assert elapsed > 0.0 <==> now > bucket.last;
      FlowSign(Cfg(), now - bucket.last);
      if elapsed > 0.0 {
        bucket := Bucket(MinReal(burst as real, bucket.tokens + elapsed * rate), now);
      }
      assert bucket == Refill(Cfg(), buckets[key], now);
      if bucket.tokens < 1.0 {
        buckets := buckets[key := bucket];
        return false;
      }
      buckets := buckets[key := bucket.(tokens := bucket.tokens - 1.0)];
      ok := true;
    }

    method Refund(key: string)
      requires Valid()
      modifies this
      ensures Valid() && buckets == RefundIn(Cfg(), old(buckets), key)
    {
      if key in buckets {
        var bucket := buckets[key];
        buckets := buckets[key := bucket.(tokens := MinReal(burst as real, bucket.tokens + 1.0))];
      }
    }

    method Forget(key: string)
      requires Valid()
      modifies this
      ensures Valid() && buckets == old(buckets) - {key}
    {
      buckets := buckets - {key};
    }

    method Reset()
      requires Valid()
      modifies this
      ensures Valid() && buckets == map[]
    {
      buckets := map[];
    }
  }

  /* ---------- one bucket: conservation over any stretch of its life ---------- */

  datatype Op = Allow(now: int) | Refund

  function Apply(cfg: Config, b: Bucket, op: Op): Bucket {
    if op.Allow? then Take(cfg, b, op.now).0 else GiveBack(cfg, b)
  }

  function Life(cfg: Config, b: Bucket, ops: seq<Op>): Bucket {
    if ops == [] then b else Apply(cfg, Life(cfg, b, ops[..|ops| - 1]), ops[|ops| - 1])
  }

  function Granted(cfg: Config, b: Bucket, ops: seq<Op>): nat {
    if ops == [] then 0
    else
      var before, op := ops[..|ops| - 1], ops[|ops| - 1];
      Granted(cfg, b, before) + if op.Allow? && Take(cfg, Life(cfg, b, before), op.now).1 then 1 else 0
  }

  function Refunded(ops: seq<Op>): nat {
    if ops == [] then 0 else Refunded(ops[..|ops| - 1]) + if ops[|ops| - 1].Refund? then 1 else 0
  }

  /** What one operation loses to the cap. */
  function Overflow(cfg: Config, b: Bucket, op: Op): real {
    var uncapped := if op.Refund? then b.tokens + 1.0
                    else if op.now > b.last then b.tokens + cfg.Flow(op.now - b.last)
                    else b.tokens;
    if uncapped > cfg.Cap() then uncapped - cfg.Cap() else 0.0
  }

  function Spilled(cfg: Config, b: Bucket, ops: seq<Op>): real {
    if ops == [] then 0.0
    else
      var before := ops[..|ops| - 1];
      Spilled(cfg, b, before) + Overflow(cfg, Life(cfg, b, before), ops[|ops| - 1])
  }

  /** The latest clock reading used so far, however out of order the readings came. */
  function Latest(start: int, ops: seq<Op>): int {
    if ops == [] then start
    else
      var before, op := Latest(start, ops[..|ops| - 1]), ops[|ops| - 1];
      if op.Allow? && op.now > before then op.now else before
  }

  lemma FlowAdds(cfg: Config, a: int, b: int, c: int)
    ensures cfg.Flow(b - a) + cfg.Flow(c - b) == cfg.Flow(c - a)
    ensures cfg.Flow(0) == 0.0
  {
    var s := SECOND as real;
    assert (c - a) as real == (b - a) as real + (c - b) as real;
    assert (c - a) as real / s == (b - a) as real / s + (c - b) as real / s;
  }

  /** Inflow is `rate` tokens a second, in proportion. */
  lemma FlowIsRate(cfg: Config, d: int)
    ensures cfg.Flow(1_000_000_000) == cfg.rate
    ensures cfg.Flow(d) * 1_000_000_000.0 == d as real * cfg.rate
    ensures cfg.Flow(d) == d as real * cfg.rate / 1_000_000_000.0
  {
    var s := SECOND as real;
    assert d as real / s * cfg.rate * s == d as real / s * s * cfg.rate;
  }

  lemma FlowSign(cfg: Config, d: int)
    requires cfg.Valid()
    ensures d > 0 ==> cfg.Flow(d) > 0.0
  {
    if d > 0 {
      var seconds := d as real / SECOND as real;
      assert seconds > 0.0;
      assert seconds * cfg.rate > 0.0;
    }
  }

  /** Exact bookkeeping: tokens now = tokens then + inflow + refunds - grants - what the cap discarded. */
  lemma {:induction false} TokensConserved(cfg: Config, b: Bucket, ops: seq<Op>)
    requires cfg.Valid() && 0.0 <= b.tokens <= cfg.Cap()
    ensures var e := Life(cfg, b, ops);
            && 0.0 <= e.tokens <= cfg.Cap()
            && e.last == Latest(b.last, ops)
            && Spilled(cfg, b, ops) >= 0.0
            && e.tokens == b.tokens + cfg.Flow(e.last - b.last) + Refunded(ops) as real
                           - Granted(cfg, b, ops) as real - Spilled(cfg, b, ops)
  {
    if ops == [] {
      FlowAdds(cfg, b.last, b.last, b.last);
    } else {
      var before, op := ops[..|ops| - 1], ops[|ops| - 1];
      TokensConserved(cfg, b, before);
      var m, e := Life(cfg, b, before), Life(cfg, b, ops);
      FlowAdds(cfg, b.last, m.last, e.last);
      OneOpConserves(cfg, m, op);
    }
  }

  lemma OneOpConserves(cfg: Config, b: Bucket, op: Op)
    requires cfg.Valid() && 0.0 <= b.tokens <= cfg.Cap()
    ensures var e := Apply(cfg, b, op);
            && 0.0 <= e.tokens <= cfg.Cap()
            && e.last == (if op.Allow? && op.now > b.last then op.now else b.last)
            && Overflow(cfg, b, op) >= 0.0
            && e.tokens == b.tokens + cfg.Flow(e.last - b.last) - Overflow(cfg, b, op)
                           + if op.Refund? then 1.0 else if Take(cfg, b, op.now).1 then -1.0 else 0.0
  {
    FlowAdds(cfg, b.last, b.last, b.last);
    FlowSign(cfg, Apply(cfg, b, op).last - b.last);
  }

  /** Any window of a bucket's life, out-of-order readings included: net grants stay within the tokens
      present at its start plus the inflow. */
  lemma WindowBound(cfg: Config, b: Bucket, ops: seq<Op>)
    requires cfg.Valid() && 0.0 <= b.tokens <= cfg.Cap()
    ensures (Granted(cfg, b, ops) - Refunded(ops)) as real <= b.tokens + cfg.Flow(Latest(b.last, ops) - b.last)
  {
    TokensConserved(cfg, b, ops);
  }

  /** From the request that creates the bucket (and takes its first token) onwards. */
  lemma LifetimeBound(cfg: Config, m: Buckets, key: string, created: int, ops: seq<Op>)
    requires cfg.Valid() && key !in m
    ensures var b := AllowIn(cfg, m, key, created).0[key];
            && AllowIn(cfg, m, key, created).1
            && 0.0 <= Life(cfg, b, ops).tokens <= cfg.Cap()
            && (1 + Granted(cfg, b, ops) - Refunded(ops)) as real
               <= cfg.Cap() + cfg.Flow(Latest(created, ops) - created)
  {
    WindowBound(cfg, Bucket(cfg.Cap() - 1.0, created), ops);
    TokensConserved(cfg, Bucket(cfg.Cap() - 1.0, created), ops);
  }

  /** Exactly when a request passes and what it leaves: a new key starts from a full burst; an old one has
      gained `rate` tokens a second, up to the burst, and needs one; an older reading gains nothing. */
  lemma AllowIff(cfg: Config, m: Buckets, key: string, now: int)
    requires cfg.Valid() && WithinBurst(cfg, m)
    ensures var (m', ok) := AllowIn(cfg, m, key, now);
            && m'.Keys == m.Keys + {key} && (forall k | k in m && k != key :: m'[k] == m[k])
            && (key !in m ==> ok && m'[key] == Bucket(cfg.burst as real - 1.0, now))
            && (key in m ==>
                  var gained := if now <= m[key].last then 0.0
                                else (now - m[key].last) as real * cfg.rate / 1_000_000_000.0;
                  var there := MinReal(cfg.burst as real, m[key].tokens + gained);
                  && (ok <==> there >= 1.0)
                  && m'[key].tokens == (if ok then there - 1.0 else there)
                  && m'[key].last == if now <= m[key].last then m[key].last else now)
  {
    if key in m && now > m[key].last {
      FlowIsRate(cfg, now - m[key].last);
      FlowSign(cfg, now - m[key].last);
      assert Refill(cfg, m[key], now).tokens
             == MinReal(cfg.Cap(), m[key].tokens + (now - m[key].last) as real * cfg.rate / 1_000_000_000.0);
    } else if key in m {
      assert Refill(cfg, m[key], now).tokens == MinReal(cfg.Cap(), m[key].tokens + 0.0);
    }
  }

  lemma OneMoreOp(cfg: Config, b: Bucket, ops: seq<Op>, now: int)
    ensures var more := ops + [Allow(now)];
            var (after, ok) := Take(cfg, Life(cfg, b, ops), now);
            && Life(cfg, b, more) == after && (!ok ==> after.tokens < 1.0)
            && Granted(cfg, b, more) == Granted(cfg, b, ops) + (if ok then 1 else 0)
            && Refunded(more) == Refunded(ops)
  {
    assert (ops + [Allow(now)])[..|ops|] == ops;
  }

  /** After any operations a request passes exactly if what has come in and has neither been granted nor
      lost to the cap is at least one token. */
  lemma AllowedIff(cfg: Config, b: Bucket, ops: seq<Op>, now: int)
    requires cfg.Valid() && 0.0 <= b.tokens <= cfg.Cap()
    ensures var more := ops + [Allow(now)];
            Granted(cfg, b, more) > Granted(cfg, b, ops)
            <==> b.tokens + cfg.Flow(Latest(b.last, more) - b.last) + Refunded(ops) as real
                 - Granted(cfg, b, ops) as real - Spilled(cfg, b, more) >= 1.0
  {
    TokensConserved(cfg, b, ops + [Allow(now)]);
    OneMoreOp(cfg, b, ops, now);
  }

  function AtOnce(now: int, n: nat): seq<Op> {
    if n == 0 then [] else AtOnce(now, n - 1) + [Allow(now)]
  }

  lemma TakeAtOnce(cfg: Config, left: nat, now: int)
    ensures Take(cfg, Bucket(left as real, now), now)
            == if left >= 1 then (Bucket((left - 1) as real, now), true) else (Bucket(left as real, now), false)
  {
  }

  /** Of n further requests made at the moment a key is first seen, the burst less the first passes. */
  lemma {:induction false} BurstPasses(cfg: Config, now: int, n: nat)
    requires cfg.Valid()
    ensures var b := Bucket(cfg.Cap() - 1.0, now);
            var passed := if n < cfg.burst then n else cfg.burst - 1;
            && Granted(cfg, b, AtOnce(now, n)) == passed
            && Life(cfg, b, AtOnce(now, n)) == Bucket((cfg.burst - 1 - passed) as real, now)
  {
    if n > 0 {
      BurstPasses(cfg, now, n - 1);
      assert AtOnce(now, n)[..|AtOnce(now, n)| - 1] == AtOnce(now, n - 1);
      TakeAtOnce(cfg, if n - 1 < cfg.burst then cfg.burst - n else 0, now);
    }
  }

  /** Whoever waits for as long as one token takes to flow in, is let through. */
  lemma WaitingPasses(cfg: Config, m: Buckets, key: string, now: int)
    requires cfg.Valid() && WithinBurst(cfg, m) && key in m
    requires now > m[key].last && (now - m[key].last) as real * cfg.rate >= 1_000_000_000.0
    ensures AllowIn(cfg, m, key, now).1
  {
    FlowIsRate(cfg, now - m[key].last);
    assert cfg.Flow(now - m[key].last) >= 1.0;
  }

  /** With nothing in between, a refund takes an allowed request back completely. */
  lemma RefundUndoesAllow(cfg: Config, m: Buckets, key: string, now: int)
    requires cfg.Valid() && WithinBurst(cfg, m)
    requires AllowIn(cfg, m, key, now).1
    ensures RefundIn(cfg, AllowIn(cfg, m, key, now).0, key) == RefillOnly(cfg, m, key, now)
  {
    if key in m {
      assert Refill(cfg, m[key], now).tokens <= cfg.Cap();
    }
  }
}

/** rateLimit of internal/httpapi/server.go: API key, then tenant, then client IP, with refunds. */
module Admission {
  import opened Common
  import opened Limiter

  datatype Layer = KeyLayer | TenantLayer | IpLayer

  /* ---------- one request with nobody else in between ---------- */

  method RateLimit(keyLimiter: TokenBucketLimiter, tenantLimiter: TokenBucketLimiter, ipLimiter: TokenBucketLimiter,
                   keyScope: string, tenant: string, ip: string, keyNow: int, tenantNow: int, ipNow: int)
    returns (rejectedBy: Option<Layer>)
    requires keyLimiter != tenantLimiter && keyLimiter != ipLimiter && tenantLimiter != ipLimiter
    requires keyLimiter.Valid() && tenantLimiter.Valid() && ipLimiter.Valid()
    modifies keyLimiter, tenantLimiter, ipLimiter
    ensures keyLimiter.Valid() && tenantLimiter.Valid() && ipLimiter.Valid()
    ensures match rejectedBy
            case None =>
              && (keyLimiter.buckets, true) == AllowIn(keyLimiter.Cfg(), old(keyLimiter.buckets), keyScope, keyNow)
              && (tenantLimiter.buckets, true)
                  == AllowIn(tenantLimiter.Cfg(), old(tenantLimiter.buckets), tenant, tenantNow)
              && (ipLimiter.buckets, true) == AllowIn(ipLimiter.Cfg(), old(ipLimiter.buckets), ip, ipNow)
            case Some(KeyLayer) =>
              && !AllowIn(keyLimiter.Cfg(), old(keyLimiter.buckets), keyScope, keyNow).1
              && keyLimiter.buckets == RefillOnly(keyLimiter.Cfg(), old(keyLimiter.buckets), keyScope, keyNow)
              && unchanged(tenantLimiter) && unchanged(ipLimiter)
            case Some(TenantLayer) =>
              && !AllowIn(tenantLimiter.Cfg(), old(tenantLimiter.buckets), tenant, tenantNow).1
              && keyLimiter.buckets == RefillOnly(keyLimiter.Cfg(), old(keyLimiter.buckets), keyScope, keyNow)
              && tenantLimiter.buckets == RefillOnly(tenantLimiter.Cfg(), old(tenantLimiter.buckets), tenant, tenantNow)
              && unchanged(ipLimiter)
            case Some(IpLayer) =>
              && !AllowIn(ipLimiter.Cfg(), old(ipLimiter.buckets), ip, ipNow).1
              && keyLimiter.buckets == RefillOnly(keyLimiter.Cfg(), old(keyLimiter.buckets), keyScope, keyNow)
              && tenantLimiter.buckets == RefillOnly(tenantLimiter.Cfg(), old(tenantLimiter.buckets), tenant, tenantNow)
              && ipLimiter.buckets == RefillOnly(ipLimiter.Cfg(), old(ipLimiter.buckets), ip, ipNow)
  {
    var ok := keyLimiter.Allow(keyScope, keyNow);
    if !ok {
      return Some(KeyLayer);
    }
    ok := tenantLimiter.Allow(tenant, tenantNow);
    if !ok {
      keyLimiter.Refund(keyScope);
      return Some(TenantLayer);
    }
    ok := ipLimiter.Allow(ip, ipNow);
    if !ok {
      tenantLimiter.Refund(tenant);
      keyLimiter.Refund(keyScope);
      return Some(IpLayer);
    }
    rejectedBy := None;
  }

  /* ---------- requests interleaved at every limiter call ---------- */

  /** The limiter call a request makes next, or how it ended. */
  datatype Pc = AtKey | AtTenant | AtIp | ReturnTenant | ReturnKey | Passed | Rejected

  datatype Request = Request(keyScope: string, tenant: string, ip: string, pc: Pc) {
    function Scope(layer: Layer): string {
      match layer
      case KeyLayer => keyScope
      case TenantLayer => tenant
      case IpLayer => ip
    }

    /** Has been granted a token of this layer and not returned it. */
    predicate Holds(layer: Layer) {
      match layer
      case KeyLayer => pc in {AtTenant, AtIp, ReturnTenant, ReturnKey, Passed}
      case TenantLayer => pc in {AtIp, ReturnTenant, Passed}
      case IpLayer => pc == Passed
    }
  }

  datatype Slot = Slot(layer: Layer, key: string)

  /** `created` remembers when each bucket came into being. */
  datatype State = State(buckets: map<Slot, Bucket>, created: map<Slot, int>, requests: map<nat, Request>)

  const EMPTY: State := State(map[], map[], map[])

  datatype Action = Arrive(id: nat, keyScope: string, tenant: string, ip: string) | Proceed(id: nat, now: int)

  datatype Limits = Limits(key: Config, tenant: Config, ip: Config) {
    function Of(layer: Layer): Config {
      match layer
      case KeyLayer => key
      case TenantLayer => tenant
      case IpLayer => ip
    }

    predicate Valid() {
      key.Valid() && tenant.Valid() && ip.Valid()
    }
  }

  /** The buckets of one layer, as that layer's limiter sees them. */
  function LayerBuckets(s: State, layer: Layer): Buckets {
    map k: string | k in (set slot | slot in s.buckets && slot.layer == layer :: slot.key) :: s.buckets[Slot(layer, k)]
  }

  function TryAllow(l: Limits, s: State, id: nat, layer: Layer, now: int, granted: Pc, refused: Pc): State
    requires id in s.requests
  {
    var r := s.requests[id];
    var slot := Slot(layer, r.Scope(layer));
    var (m, ok) := AllowIn(l.Of(layer), LayerBuckets(s, layer), slot.key, now);
    State(s.buckets[slot := m[slot.key]],
          if slot in s.buckets then s.created else s.created[slot := now],
          s.requests[id := r.(pc := if ok then granted else refused)])
  }

  function Return(l: Limits, s: State, id: nat, layer: Layer, next: Pc): State
    requires id in s.requests
  {
    var r := s.requests[id];
    var slot := Slot(layer, r.Scope(layer));
    var m := RefundIn(l.Of(layer), LayerBuckets(s, layer), slot.key);
    s.(buckets := if slot in s.buckets then s.buckets[slot := m[slot.key]] else s.buckets,
       requests := s.requests[id := r.(pc := next)])
  }

  function Step(l: Limits, s: State, a: Action): State {
    match a
    case Arrive(id, keyScope, tenant, ip) =>
      if id in s.requests then s
      else s.(requests := s.requests[id := Request(keyScope, tenant, ip, AtKey)])
    case Proceed(id, now) =>
      if id !in s.requests then s
      else
        match s.requests[id].pc
        case AtKey => TryAllow(l, s, id, KeyLayer, now, AtTenant, Rejected)
        case AtTenant => TryAllow(l, s, id, TenantLayer, now, AtIp, ReturnKey)
        case AtIp => TryAllow(l, s, id, IpLayer, now, Passed, ReturnTenant)
        case ReturnTenant => Return(l, s, id, TenantLayer, ReturnKey)
        case ReturnKey => Return(l, s, id, KeyLayer, Rejected)
        case _ => s
  }

  function Run(l: Limits, acts: seq<Action>): State {
    if acts == [] then EMPTY else Step(l, Run(l, acts[..|acts| - 1]), acts[|acts| - 1])
  }

  ghost function Holders(s: State, slot: Slot): set<nat> {
    set id | id in s.requests && s.requests[id].Scope(slot.layer) == slot.key && s.requests[id].Holds(slot.layer)
  }

  ghost predicate Balanced(cfg: Config, b: Bucket, created: int, held: nat) {
    && 0.0 <= b.tokens <= cfg.Cap() && created <= b.last
    && held as real + b.tokens <= cfg.Cap() + cfg.Flow(b.last - created)
  }

  ghost predicate SlotBound(l: Limits, s: State, slot: Slot) {
    var cfg := l.Of(slot.layer);
    && (slot in s.buckets <==> slot in s.created)
    && (slot !in s.buckets ==> Holders(s, slot) == {})
    && (slot in s.buckets ==> Balanced(cfg, s.buckets[slot], s.created[slot], |Holders(s, slot)|))
  }

  lemma LookUp(s: State, layer: Layer, k: string)
    ensures k in LayerBuckets(s, layer) <==> Slot(layer, k) in s.buckets
    ensures k in LayerBuckets(s, layer) ==> LayerBuckets(s, layer)[k] == s.buckets[Slot(layer, k)]
  {
    if Slot(layer, k) in s.buckets {
      assert Slot(layer, k).key in (set slot | slot in s.buckets && slot.layer == layer :: slot.key);
    }
  }

  lemma TakeKeepsBalance(cfg: Config, b: Bucket, now: int, created: int, held: nat)
    requires cfg.Valid() && Balanced(cfg, b, created, held)
    ensures var (b', ok) := Take(cfg, b, now);
            Balanced(cfg, b', created, held + if ok then 1 else 0)
  {
    FlowAdds(cfg, created, b.last, Refill(cfg, b, now).last);
    FlowAdds(cfg, b.last, b.last, b.last);
  }

  lemma HoldersAfterAllow(l: Limits, s: State, id: nat, layer: Layer, now: int, granted: Pc, refused: Pc, slot: Slot)
    requires id in s.requests && !s.requests[id].Holds(layer)
    requires var r := s.requests[id];
             forall y: Layer :: r.(pc := granted).Holds(y) == (r.Holds(y) || y == layer)
                                && r.(pc := refused).Holds(y) == r.Holds(y)
    ensures var r := s.requests[id];
            var ok := AllowIn(l.Of(layer), LayerBuckets(s, layer), r.Scope(layer), now).1;
            var s' := TryAllow(l, s, id, layer, now, granted, refused);
            Holders(s', slot) == if slot == Slot(layer, r.Scope(layer)) && ok
                                 then Holders(s, slot) + {id} else Holders(s, slot)
    ensures id !in Holders(s, Slot(layer, s.requests[id].Scope(layer)))
  {
  }

  /** One allow in a layer's map, whose key had `held` grants out, if it existed. */
  lemma AllowKeepsBalance(cfg: Config, m: Buckets, key: string, now: int, created: int, held: nat)
    requires cfg.Valid() && if key in m then Balanced(cfg, m[key], created, held) else held == 0 && created == now
    ensures var (m', ok) := AllowIn(cfg, m, key, now);
            key in m' && Balanced(cfg, m'[key], created, held + if ok then 1 else 0)
  {
    if key in m {
      TakeKeepsBalance(cfg, m[key], now, created, held);
    } else {
      FlowAdds(cfg, now, now, now);
    }
  }

  lemma AllowKeepsOwnSlot(l: Limits, s: State, id: nat, layer: Layer, now: int, granted: Pc, refused: Pc)
    requires l.Valid() && id in s.requests && !s.requests[id].Holds(layer)
    requires SlotBound(l, s, Slot(layer, s.requests[id].Scope(layer)))
    requires var slot := Slot(layer, s.requests[id].Scope(layer));
             Holders(TryAllow(l, s, id, layer, now, granted, refused), slot)
             == Holders(s, slot) + if AllowIn(l.Of(layer), LayerBuckets(s, layer), slot.key, now).1 then {id} else {}
    ensures SlotBound(l, TryAllow(l, s, id, layer, now, granted, refused), Slot(layer, s.requests[id].Scope(layer)))
  {
    var slot := Slot(layer, s.requests[id].Scope(layer));
    var m, held := LayerBuckets(s, layer), Holders(s, slot);
    var created := if slot in s.created then s.created[slot] else now;
    LookUp(s, layer, slot.key);
    assert id !in held;
    AllowKeepsBalance(l.Of(layer), m, slot.key, now, created, |held|);
    var (m', ok) := AllowIn(l.Of(layer), m, slot.key, now);
    assert |held + if ok then {id} else {}| == |held| + if ok then 1 else 0;
  }

  lemma AllowKeepsBound(l: Limits, s: State, id: nat, layer: Layer, now: int, granted: Pc, refused: Pc, slot: Slot)
    requires l.Valid() && id in s.requests && SlotBound(l, s, slot)
    requires !s.requests[id].Holds(layer)
    requires var r := s.requests[id];
             forall y: Layer :: r.(pc := granted).Holds(y) == (r.Holds(y) || y == layer)
                                && r.(pc := refused).Holds(y) == r.Holds(y)
    ensures SlotBound(l, TryAllow(l, s, id, layer, now, granted, refused), slot)
  {
    HoldersAfterAllow(l, s, id, layer, now, granted, refused, slot);
    if slot == Slot(layer, s.requests[id].Scope(layer)) {
      AllowKeepsOwnSlot(l, s, id, layer, now, granted, refused);
    } else {
      assert slot in s.buckets ==> TryAllow(l, s, id, layer, now, granted, refused).buckets[slot] == s.buckets[slot];
    }
  }

  lemma ReturnKeepsBound(l: Limits, s: State, id: nat, layer: Layer, next: Pc, slot: Slot)
    requires l.Valid() && id in s.requests && SlotBound(l, s, slot)
    requires var r := s.requests[id];
             forall y: Layer :: r.(pc := next).Holds(y) == (r.Holds(y) && y != layer)
    requires s.requests[id].Holds(layer)
    ensures SlotBound(l, Return(l, s, id, layer, next), slot)
  {
    var r := s.requests[id];
    var s' := Return(l, s, id, layer, next);
    LookUp(s, layer, r.Scope(layer));
    if slot == Slot(layer, r.Scope(layer)) {
      assert id in Holders(s, slot);
      assert Holders(s', slot) == Holders(s, slot) - {id};
    } else {
      assert Holders(s', slot) == Holders(s, slot);
    }
  }

  lemma StepKeepsBound(l: Limits, s: State, a: Action, slot: Slot)
    requires l.Valid() && SlotBound(l, s, slot)
    ensures SlotBound(l, Step(l, s, a), slot)
  {
    match a
    case Arrive(id, _, _, _) =>
      assert Holders(Step(l, s, a), slot) == Holders(s, slot);
    case Proceed(id, now) =>
      if id in s.requests {
        match s.requests[id].pc
        case AtKey => AllowKeepsBound(l, s, id, KeyLayer, now, AtTenant, Rejected, slot);
        case AtTenant => AllowKeepsBound(l, s, id, TenantLayer, now, AtIp, ReturnKey, slot);
        case AtIp => AllowKeepsBound(l, s, id, IpLayer, now, Passed, ReturnTenant, slot);
        case ReturnTenant => ReturnKeepsBound(l, s, id, TenantLayer, ReturnKey, slot);
        case ReturnKey => ReturnKeepsBound(l, s, id, KeyLayer, Rejected, slot);
        case _ =>
      }
  }

  lemma {:induction false} BoundAlways(l: Limits, acts: seq<Action>, slot: Slot)
    requires l.Valid()
    ensures SlotBound(l, Run(l, acts), slot)
  {
    if acts == [] {
      assert Holders(EMPTY, slot) == {};
    } else {
      BoundAlways(l, acts[..|acts| - 1], slot);
      StepKeepsBound(l, Run(l, acts[..|acts| - 1]), acts[|acts| - 1], slot);
    }
  }

  ghost function PassedThrough(s: State, slot: Slot): set<nat> {
    set id | id in s.requests && s.requests[id].Scope(slot.layer) == slot.key && s.requests[id].pc == Passed
  }

  /** Under any interleaving, the requests that passed all three layers obey every layer's own bound. */
  lemma PassedObeyEveryLayer(l: Limits, acts: seq<Action>, slot: Slot)
    requires l.Valid()
    ensures Run(l, acts).buckets.Keys == Run(l, acts).created.Keys
    ensures var s := Run(l, acts);
            if slot in s.buckets
            then |PassedThrough(s, slot)| as real
                 <= l.Of(slot.layer).Cap() + l.Of(slot.layer).Flow(s.buckets[slot].last - s.created[slot])
            else PassedThrough(s, slot) == {}
  {
    var s := Run(l, acts);
    forall any: Slot ensures any in s.buckets <==> any in s.created {
      BoundAlways(l, acts, any);
    }
    BoundAlways(l, acts, slot);
    assert PassedThrough(s, slot) <= Holders(s, slot);
    SubsetIsSmaller(PassedThrough(s, slot), Holders(s, slot));
  }

  lemma SubsetIsSmaller<T>(a: set<T>, b: set<T>)
    requires a <= b
    ensures |a| <= |b|
  {
    assert b == a + (b - a);
  }
}
