/** Small value types shared by the models. */
module Common {

  datatype Option<+T> = None | Some(value: T)

  /** A call works, fails without effect, or takes effect and then fails. */
  datatype Fault = Fine | Lost | Late

  function Min(a: int, b: int): int {
    if a <= b then a else b
  }

  /** One minute and one second, in nanoseconds: all times and durations are integers of nanoseconds. */
  const SECOND: int := 1_000_000_000
  const MINUTE: int := 60 * SECOND

  function Power2(n: nat): nat {
    if n == 0 then 1 else 2 * Power2(n - 1)
  }

  lemma {:induction false} PowerGrows(m: nat, n: nat)
    requires m <= n
    ensures 1 <= Power2(m) <= Power2(n)
  {
    if m < n {
      PowerGrows(m, n - 1);
    } else if m > 0 {
      PowerGrows(m - 1, m - 1);
    }
  }

  /** n whole periods of length d fit into x. */
  lemma PeriodsFit(n: nat, d: int, x: int)
    requires d > 0 && n * d <= x
    ensures n <= x / d
  {
    assert 0 <= n * d;
    var quotient := x / d;
    assert x < (quotient + 1) * d;
    CancelFactor(n, quotient + 1, d);
  }

  lemma CancelFactor(a: int, b: int, d: int)
    requires d > 0 && a * d < b * d
    ensures a < b
  {
  }
}
