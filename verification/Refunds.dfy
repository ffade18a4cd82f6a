/**
 A refund that comes late, after other operations on the bucket: what it leaves, against what the same
 operations would have left had the refunded request never asked.
 */
module Refunds {
  import opened Common
  import opened Limiter

  /** No Allow of these operations is refused. */
  predicate Served(cfg: Config, b: Bucket, ops: seq<Op>) {
    ops != [] ==>
      var before, op := ops[..|ops| - 1], ops[|ops| - 1];
      && Served(cfg, b, before)
      && (op.Allow? ==> Take(cfg, Life(cfg, b, before), op.now).1)
  }

  /** `low` lacks at most one token of `high`. */
  predicate Near(cfg: Config, low: Bucket, high: Bucket) {
    low.last == high.last && 0.0 <= low.tokens <= high.tokens <= cfg.Cap() && high.tokens - low.tokens <= 1.0
  }

  lemma OneOpStaysNear(cfg: Config, low: Bucket, high: Bucket, op: Op)
    requires cfg.Valid() && Near(cfg, low, high) && (op.Allow? ==> Take(cfg, low, op.now).1)
    ensures Near(cfg, Apply(cfg, low, op), Apply(cfg, high, op))
    ensures op.Allow? ==> Take(cfg, high, op.now).1
    ensures low.tokens == high.tokens ==> Apply(cfg, low, op) == Apply(cfg, high, op)
    ensures Overflow(cfg, low, op) > 0.0 ==> Apply(cfg, low, op) == Apply(cfg, high, op)
  {
    if op.Allow? {
      FlowSign(cfg, op.now - low.last);
    }
  }

  /** Once the poorer bucket loses something to the cap, both are the same from then on. */
  lemma {:induction false} StaysNear(cfg: Config, low: Bucket, high: Bucket, ops: seq<Op>)
    requires cfg.Valid() && Near(cfg, low, high) && Served(cfg, low, ops)
    ensures Near(cfg, Life(cfg, low, ops), Life(cfg, high, ops))
    ensures Granted(cfg, low, ops) == Granted(cfg, high, ops)
    ensures Spilled(cfg, low, ops) > 0.0 ==> Life(cfg, low, ops) == Life(cfg, high, ops)
  {
    if ops != [] {
      var before, op := ops[..|ops| - 1], ops[|ops| - 1];
      StaysNear(cfg, low, high, before);
      OneOpStaysNear(cfg, Life(cfg, low, before), Life(cfg, high, before), op);
    }
  }

  predicate Within(cfg: Config, b: Bucket) {
    0.0 <= b.tokens <= cfg.Cap()
  }

  lemma OneOpCompare(cfg: Config, low: Bucket, high: Bucket, op: Op)
    requires cfg.Valid() && low.last == high.last && Within(cfg, low) && Within(cfg, high)
    ensures var e0, e1 := Apply(cfg, high, op), Apply(cfg, low, op);
            && e0.last == e1.last && Within(cfg, e0) && Within(cfg, e1)
            && Overflow(cfg, high, op) >= 0.0 && Overflow(cfg, low, op) >= 0.0
            && e0.tokens - high.tokens + Overflow(cfg, high, op)
               + (if op.Allow? && Take(cfg, high, op.now).1 then 1.0 else 0.0)
               == e1.tokens - low.tokens + Overflow(cfg, low, op)
                   + (if op.Allow? && Take(cfg, low, op.now).1 then 1.0 else 0.0)
  {
    if op.Allow? {
      FlowSign(cfg, op.now - low.last);
    }
  }

  /** What tokens, losses to the cap and grants add up to moves alike for any two buckets. */
  lemma {:induction false} LivesCompare(cfg: Config, low: Bucket, high: Bucket, ops: seq<Op>)
    requires cfg.Valid() && low.last == high.last && Within(cfg, low) && Within(cfg, high)
    ensures var e0, e1 := Life(cfg, high, ops), Life(cfg, low, ops);
            && e0.last == e1.last && Within(cfg, e0) && Within(cfg, e1)
            && Spilled(cfg, high, ops) >= 0.0 && Spilled(cfg, low, ops) >= 0.0
            && e0.tokens - high.tokens + Spilled(cfg, high, ops) + Granted(cfg, high, ops) as real
               == e1.tokens - low.tokens + Spilled(cfg, low, ops) + Granted(cfg, low, ops) as real
  {
    if ops != [] {
      var before, op := ops[..|ops| - 1], ops[|ops| - 1];
      LivesCompare(cfg, low, high, before);
      OneOpCompare(cfg, Life(cfg, low, before), Life(cfg, high, before), op);
    }
  }

  lemma GrantedTakes(cfg: Config, b: Bucket, now: int)
    requires cfg.Valid() && 0.0 <= b.tokens <= cfg.Cap() && Take(cfg, b, now).1
    ensures Near(cfg, Take(cfg, b, now).0, Refill(cfg, b, now))
    ensures Refill(cfg, b, now).tokens == Take(cfg, b, now).0.tokens + 1.0
  {
  }

  /** After any operations a refund leaves what they would have left without the refunded request exactly
      if grants and losses to the cap add up to the same, or the bucket is full either way. */
  lemma LateRefundBalance(cfg: Config, b: Bucket, now: int, ops: seq<Op>)
    requires cfg.Valid() && 0.0 <= b.tokens <= cfg.Cap() && Take(cfg, b, now).1
    ensures var refilled, taken := Refill(cfg, b, now), Take(cfg, b, now).0;
            var e0, e1 := Life(cfg, refilled, ops), Life(cfg, taken, ops);
            GiveBack(cfg, e1) == e0
            <==> || Spilled(cfg, refilled, ops) + Granted(cfg, refilled, ops) as real
                    == Spilled(cfg, taken, ops) + Granted(cfg, taken, ops) as real
                 || (e0.tokens == cfg.Cap() && e1.tokens + 1.0 >= cfg.Cap())
  {
    GrantedTakes(cfg, b, now);
    LivesCompare(cfg, Take(cfg, b, now).0, Refill(cfg, b, now), ops);
  }

  /** When nobody was refused in between: exactly if without the request nothing would have been lost to
      the cap, or the bucket would have ended full. Otherwise the refund leaves more, never less. */
  lemma LateRefundIff(cfg: Config, b: Bucket, now: int, ops: seq<Op>)
    requires cfg.Valid() && 0.0 <= b.tokens <= cfg.Cap() && Take(cfg, b, now).1
    requires Served(cfg, Take(cfg, b, now).0, ops)
    ensures var refilled, taken := Refill(cfg, b, now), Take(cfg, b, now).0;
            var without, back := Life(cfg, refilled, ops), GiveBack(cfg, Life(cfg, taken, ops));
            && (back == without <==> Spilled(cfg, refilled, ops) == 0.0 || without.tokens == cfg.Cap())
            && back.last == without.last && back.tokens >= without.tokens
  {
    GrantedTakes(cfg, b, now);
    LivesCompare(cfg, Take(cfg, b, now).0, Refill(cfg, b, now), ops);
    StaysNear(cfg, Take(cfg, b, now).0, Refill(cfg, b, now), ops);
  }

  /** A refill alone in between is harmless. */
  lemma RefillBetweenIsHarmless(cfg: Config, b: Bucket, now: int, later: int)
    requires cfg.Valid() && 0.0 <= b.tokens <= cfg.Cap() && Take(cfg, b, now).1
    ensures GiveBack(cfg, Refill(cfg, Take(cfg, b, now).0, later)) == Refill(cfg, Refill(cfg, b, now), later)
  {
    FlowSign(cfg, later - Refill(cfg, b, now).last);
  }

  /** With one more grant in between: exactly if the tokens present before the first, and what flowed in
      until the second, fit into the bucket. */
  lemma RefundAfterOneMore(cfg: Config, b: Bucket, now: int, later: int)
    requires cfg.Valid() && 0.0 <= b.tokens <= cfg.Cap() && now <= later
    requires Take(cfg, b, now).1 && Take(cfg, Take(cfg, b, now).0, later).1
    ensures var refilled := Refill(cfg, b, now);
            GiveBack(cfg, Take(cfg, Take(cfg, b, now).0, later).0) == Take(cfg, refilled, later).0
            <==> refilled.tokens + cfg.Flow(later - refilled.last) <= cfg.Cap()
  {
    var refilled := Refill(cfg, b, now);
    FlowSign(cfg, now - b.last);
    FlowSign(cfg, later - refilled.last);
    FlowSign(cfg, refilled.last - later);
    FlowAdds(cfg, refilled.last, later, refilled.last);
  }

  /** It does happen: here the bucket ends one token above, because the second caller's refill topped up
      what the first had borrowed. */
  lemma LateRefundKeepsRefill()
    ensures var cfg := Config(1.0, 1);
            var full := Bucket(1.0, 0);
            && Life(cfg, full, [Allow(0), Allow(SECOND), Refund]).tokens == 1.0
            && Life(cfg, full, [Allow(SECOND)]).tokens == 0.0
  {
    var cfg, full := Config(1.0, 1), Bucket(1.0, 0);
    var ops := [Allow(0), Allow(SECOND), Refund];
    assert ops[..2] == [Allow(0), Allow(SECOND)] && ops[..2][..1] == [Allow(0)] && [Allow(0)][..0] == [];
    assert Life(cfg, full, [Allow(0)]) == Bucket(0.0, 0);
    assert Life(cfg, full, [Allow(0), Allow(SECOND)]) == Bucket(0.0, SECOND) by {
      assert cfg.Flow(SECOND) == 1.0;
    }
    assert [Allow(SECOND)][..0] == [];
  }
}
