/** How long the transport waits before it connects again, and how often it tries. */
module Reconnect {
  import opened Words

  const ALWAYS_RETRY := -1

  /** The reconnection part of pc_client_config_t. */
  datatype Config = Config(enabled: bool, maxRetry: int, delay: nat, delayMax: nat, expBackoff: bool)

  /** What tcp__reconn ends with: a timer of so many seconds, or CONNECT_FAILED. */
  datatype Outcome = Wait(seconds: nat) | GiveUp

  function Factor(c: Config): (f: nat)
    ensures f >= 1
  {
    if c.delay == 0 || c.delayMax / c.delay == 0 then 1 else c.delayMax / c.delay
  }

  /** The number of bits of `f`, at least one. */
  function Bits(f: nat): (i: nat)
    ensures i >= 1
  {
    if f < 2 then 1 else 1 + Bits(f / 2)
  }

  /** The attempt from which on the delay is `delayMax`. */
  function MaxIncr(c: Config): (n: nat)
    ensures n >= 2
  {
    if c.expBackoff then Bits(Factor(c)) + 1 else Factor(c) + 1
  }

  /** The delay of the n-th attempt before the random part. */
  function Base(c: Config, n: nat): nat
    requires n >= 1
  {
    if n >= MaxIncr(c) then c.delayMax
    else if c.expBackoff then c.delay * Pow2(n - 1)
    else c.delay * n
  }

  // ---- Properties of the delay

  lemma {:induction false} BitsBound(f: nat)
    requires f >= 1
    ensures Pow2(Bits(f) - 1) <= f < Pow2(Bits(f))
  {
    if f >= 2 {
      BitsBound(f / 2);
      assert Pow2(Bits(f / 2)) == 2 * Pow2(Bits(f / 2) - 1);
    }
  }

  lemma {:induction false} Pow2Monotone(a: nat, b: nat)
    requires a <= b
    ensures Pow2(a) <= Pow2(b)
    decreases b
  {
    if a < b {
      Pow2Monotone(a, b - 1);
    }
  }

  lemma Scaled(d: nat, x: nat, y: nat)
    requires x <= y
    ensures d * x <= d * y
  {
  }

  /** While it grows, the delay stays within the maximum. */
  lemma GrowingBelowMax(c: Config, n: nat)
    requires 1 <= c.delay <= c.delayMax && 1 <= n < MaxIncr(c)
    ensures Base(c, n) <= c.delayMax
  {
    var f := Factor(c);
    assert c.delay * f <= c.delayMax;
    if c.expBackoff {
      BitsBound(f);
      Pow2Monotone(n - 1, Bits(f) - 1);
      Scaled(c.delay, Pow2(n - 1), f);
    } else {
      Scaled(c.delay, n, f);
    }
  }

  /** The base delay never exceeds the maximum, on any attempt, exactly when it does not
      exceed it on the first. */
  lemma BelowMaxIff(c: Config)
    ensures (forall n: nat :: n >= 1 ==> Base(c, n) <= c.delayMax) <==> c.delay <= c.delayMax
  {
    assert Base(c, 1) == c.delay;
    if c.delay <= c.delayMax {
      forall n: nat | n >= 1
        ensures Base(c, n) <= c.delayMax
      {
        if n < MaxIncr(c) && c.delay >= 1 {
          GrowingBelowMax(c, n);
        }
      }
    }
  }

  /** It never goes down from one attempt to a later one, and it reaches the maximum. */
  lemma NeverShrinks(c: Config, m: nat, n: nat)
    requires c.delay <= c.delayMax && 1 <= m <= n
    ensures Base(c, m) <= Base(c, n)
    ensures n >= MaxIncr(c) ==> Base(c, n) == c.delayMax
  {
    BelowMaxIff(c);
    if n < MaxIncr(c) {
      if c.expBackoff {
        Pow2Monotone(m - 1, n - 1);
        Scaled(c.delay, Pow2(m - 1), Pow2(n - 1));
      } else {
        Scaled(c.delay, m, n);
      }
    }
  }

  /** The divisor of the random part is never zero exactly when both delays are set. */
  lemma NeverZeroIff(c: Config)
    ensures (forall n: nat :: n >= 1 ==> Base(c, n) > 0) <==> c.delay > 0 && c.delayMax > 0
  {
    assert Base(c, 1) == c.delay && Base(c, MaxIncr(c)) == c.delayMax;
    if c.delay > 0 && c.delayMax > 0 {
      forall n: nat | n >= 1
        ensures Base(c, n) > 0
      {
        if n < MaxIncr(c) {
          Scaled(c.delay, 1, if c.expBackoff then Pow2(n - 1) else n);
        }
      }
    }
  }

  /** The configured delay, and then as much again or twice as much on every attempt. */
  function Grown(c: Config, n: nat): nat
    requires n >= 1
  {
    if n == 1 then c.delay
    else if c.expBackoff then 2 * Grown(c, n - 1)
    else Grown(c, n - 1) + c.delay
  }

  lemma {:induction false} GrownForm(c: Config, n: nat)
    requires n >= 1
    ensures Grown(c, n) == if c.expBackoff then c.delay * Pow2(n - 1) else c.delay * n
  {
    if n > 1 {
      GrownForm(c, n - 1);
    }
  }

  /** The factor is the last multiple of the delay within the maximum. */
  lemma PastFactor(c: Config, k: nat)
    requires 1 <= c.delay <= c.delayMax && k > Factor(c)
    ensures c.delay * k > c.delayMax
  {
    Scaled(c.delay, Factor(c) + 1, k);
    assert c.delay * (Factor(c) + 1) > c.delayMax;
  }

  /** Which delay every attempt has: the grown one until the maximum cuts it off.  A delay of
      0 or beyond the maximum is used once, and then the maximum. */
  lemma BaseIsCapped(c: Config, n: nat)
    requires n >= 1
    ensures 1 <= c.delay <= c.delayMax ==>
            Base(c, n) == if Grown(c, n) <= c.delayMax then Grown(c, n) else c.delayMax
    ensures !(1 <= c.delay <= c.delayMax) ==> Base(c, n) == if n == 1 then c.delay else c.delayMax
  {
    GrownForm(c, n);
    if 1 <= c.delay <= c.delayMax {
      if n < MaxIncr(c) {
        GrowingBelowMax(c, n);
      } else if c.expBackoff {
        BitsBound(Factor(c));
        Pow2Monotone(Bits(Factor(c)), n - 1);
        PastFactor(c, Pow2(n - 1));
      } else {
        PastFactor(c, n);
      }
    }
  }

  // ---- The code

  /** The fields of the transport that tcp__reconn works on. */
  class Reconnecter {
    const config: Config
    var reconnTimes: nat
    var maxReconnIncr: nat

    ghost predicate Valid()
      reads this
    {
      maxReconnIncr == 0 || maxReconnIncr == MaxIncr(config)
    }

    constructor (c: Config)
      ensures Valid() && config == c && reconnTimes == 0
    {
      config := c;
      reconnTimes, maxReconnIncr := 0, 0;
    }

    /** The part of tcp__reconn after the reset; `random` is what rand() gives. */
    method Reconn(random: nat) returns (r: Outcome)
      requires Valid() && config.delay > 0 && config.delayMax > 0
      modifies this
      ensures Valid()
      ensures var n := old(reconnTimes) + 1;
              if !config.enabled || (config.maxRetry != ALWAYS_RETRY && config.maxRetry < n) then
                r == GiveUp && reconnTimes == 0
              else
                && reconnTimes == n && r.Wait?
                && Base(config, n) / 2 <= r.seconds <= Base(config, n) / 2 + Base(config, n) - 1
                && r.seconds == random % Base(config, n) + Base(config, n) / 2
    {
      if !config.enabled {
        reconnTimes := 0;
        return GiveUp;
      }
      reconnTimes := reconnTimes + 1;
      if config.maxRetry != ALWAYS_RETRY && config.maxRetry < reconnTimes {
        reconnTimes := 0;
        return GiveUp;
      }
      if maxReconnIncr == 0 {
        var factor := 1;
        if config.delay != 0 {
          factor := config.delayMax / config.delay;
          if factor <= 0 {
            factor := 1;
          }
        }
        if !config.expBackoff {
          maxReconnIncr := factor + 1;
        } else {
          var i := CountBits(factor);
          maxReconnIncr := i + 1;
        }
      }
      var timeout: nat;
      if reconnTimes >= maxReconnIncr {
        timeout := config.delayMax;
      } else if !config.expBackoff {
        timeout := config.delay * reconnTimes;
      } else {
        timeout := config.delay * Pow2(reconnTimes - 1);
      }
      NeverZeroIff(config);
      r := Wait(random % timeout + timeout / 2);
    }
  }

  /** `for (i = 1; ; ++i) if (!(factor >> i)) break;` */
  method CountBits(factor: nat) returns (i: nat)
    requires factor >= 1
    ensures i == Bits(factor)
  {
    i := 1;
    var shifted: nat := factor / 2;
    while shifted != 0
      invariant i + (if shifted == 0 then 0 else Bits(shifted)) == Bits(factor)
      decreases shifted
    {
      i, shifted := i + 1, shifted / 2;
    }
  }

  // ---- Attempts in a row

  /** `reconnTimes` after one call, and whether a wait was scheduled: the contract of
      Reconn. */
  function Next(c: Config, times: nat): (nat, bool) {
    if !c.enabled || (c.maxRetry != ALWAYS_RETRY && c.maxRetry < times + 1) then (0, false) else (times + 1, true)
  }

  /** The waits scheduled by calls in a row, before the first that gives up. */
  function Waits(c: Config, times: nat, calls: nat): nat
    decreases calls
  {
    if calls == 0 || !Next(c, times).1 then 0 else 1 + Waits(c, Next(c, times).0, calls - 1)
  }

  /** None when reconnecting is off, one for every call when the limit is "always", and
      with a limit N at most N of them in a row. */
  lemma {:induction false} WaitsAreLimited(c: Config, times: nat, calls: nat)
    requires c.maxRetry >= -1 && (c.maxRetry == -1 || times <= c.maxRetry)
    ensures Waits(c, times, calls) ==
            if !c.enabled then 0
            else if c.maxRetry == -1 || calls <= c.maxRetry - times then calls
            else c.maxRetry - times
    decreases calls
  {
    if calls > 0 && Next(c, times).1 {
      WaitsAreLimited(c, times + 1, calls - 1);
    }
  }
}
