/**
  The token bucket of the rate limiter: one bucket, and every run of requests on it.
  `float64` is modelled as `real`, times are seconds.
 */
module TokenBucket {
  import opened Options

  /** `rate` tokens a second, at most `burst` of them; `burst` is at least 1 by `BurstOf`. */
  datatype Limits = Limits(rate: real, burst: real)

  datatype Bucket = Bucket(tokens: real, lastRefill: real, lastAccess: real)

  /** The capacity of a new bucket: a configured burst that is not positive counts as 1. */
  function BurstOf(configured: int): (burst: real)
    ensures burst >= 1.0
    ensures burst == configured as real <==> configured >= 1
  {
    if configured <= 0 then 1.0 else configured as real
  }

  function Fresh(l: Limits, now: real): Bucket {
    Bucket(l.burst, now, now)
  }

  /** The tokens that flow in between two instants. */
  function Inflow(l: Limits, from: real, to: real): real {
    (to - from) * l.rate
  }

  /** The tokens available to a request at `now`. */
  function Refill(l: Limits, b: Bucket, now: real): real {
    var tokens := b.tokens + Inflow(l, b.lastRefill, now);
    if tokens > l.burst then l.burst else tokens
  }

  /** The bucket after a request at `now`. */
  function Serve(l: Limits, b: Bucket, now: real): Bucket {
    var tokens := Refill(l, b, now);
    Bucket(if tokens >= 1.0 then tokens - 1.0 else tokens, now, now)
  }

  /** The wait reported for a denial with `tokens` left; with a zero rate the division yields no number. */
  function WaitFor(l: Limits, tokens: real): Option<real> {
    if l.rate == 0.0 then None else Some((1.0 - tokens) / l.rate)
  }

  class BucketCell {
    var tokens: real
    var lastRefill: real
    var lastAccess: real
    const limits: Limits

    constructor (limits: Limits, now: real)
      ensures this.limits == limits && Value() == Fresh(limits, now)
    {
      this.limits := limits;
      tokens, lastRefill, lastAccess := limits.burst, now, now;
    }

    function Value(): Bucket
      reads this
    {
      Bucket(tokens, lastRefill, lastAccess)
    }

    method Allow(now: real) returns (allowed: bool, wait: Option<real>)
      modifies this
      ensures Value() == Serve(limits, old(Value()), now)
      ensures allowed <==> Refill(limits, old(Value()), now) >= 1.0
      ensures wait == if allowed then Some(0.0) else WaitFor(limits, tokens)
    {
      tokens := tokens + Inflow(limits, lastRefill, now);
      if tokens > limits.burst {
        tokens := limits.burst;
      }
      lastRefill := now;
      lastAccess := now;
      if tokens >= 1.0 {
        tokens := tokens - 1.0;
        return true, Some(0.0);
      }
      return false, WaitFor(limits, tokens);
    }
  }

  // ----- Runs of requests on one key -----

  /** The bucket that the last of the requests at `times` finds: new for the first one. */
  function Found(l: Limits, times: seq<real>): Bucket
    requires times != []
    decreases |times|, 0
  {
    if |times| == 1 then Fresh(l, times[0]) else After(l, times[..|times| - 1])
  }

  /** The bucket after requests at `times`. */
  function After(l: Limits, times: seq<real>): Bucket
    requires times != []
    decreases |times|, 1
  {
    Serve(l, Found(l, times), times[|times| - 1])
  }

  /** The tokens before the last request is decided. */
  function Level(l: Limits, times: seq<real>): real
    requires times != []
  {
    Refill(l, Found(l, times), times[|times| - 1])
  }

  /** Whether the last of the requests is admitted. */
  predicate Admitted(l: Limits, times: seq<real>)
    requires times != []
  {
    Level(l, times) >= 1.0
  }

  /** How many of the requests from number `j` on are admitted. */
  function AdmittedFrom(l: Limits, times: seq<real>, j: nat): nat {
    if |times| <= j then 0
    else AdmittedFrom(l, times[..|times| - 1], j) + if Admitted(l, times) then 1 else 0
  }

  predicate Ordered(times: seq<real>) {
    forall i, j :: 0 <= i < j < |times| ==> times[i] <= times[j]
  }

  /** What a window that opens full at request `j` would still leave for the last request. */
  function WindowAllowance(l: Limits, times: seq<real>, j: nat): real
    requires j < |times|
  {
    l.burst + Inflow(l, times[j], times[|times| - 1]) - AdmittedFrom(l, times[..|times| - 1], j) as real
  }

  lemma InflowAdds(l: Limits, a: real, b: real, c: real)
    ensures Inflow(l, a, c) == Inflow(l, a, b) + Inflow(l, b, c)
    ensures Inflow(l, a, a) == 0.0
  {
  }

  lemma InflowGrows(l: Limits, a: real, b: real, c: real)
    requires l.rate >= 0.0 && a <= b <= c
    ensures 0.0 <= Inflow(l, a, b) <= Inflow(l, a, c)
  {
    InflowAdds(l, a, b, c);
    assert (b - a) * l.rate >= 0.0 && (c - b) * l.rate >= 0.0;
  }

  /** The token that the last request takes. */
  function Taken(l: Limits, times: seq<real>): real
    requires times != []
  {
    if Admitted(l, times) then 1.0 else 0.0
  }

  /** One more request shifts the allowance of every window that was open before it. */
  lemma AllowanceStep(l: Limits, times: seq<real>, prefix: seq<real>, j: nat)
    requires j < |times| - 1 && prefix == times[..|times| - 1]
    ensures WindowAllowance(l, times, j)
         == WindowAllowance(l, prefix, j) - Taken(l, prefix) + Inflow(l, times[|times| - 2], times[|times| - 1])
  {
    InflowAdds(l, times[j], times[|times| - 2], times[|times| - 1]);
    assert AdmittedFrom(l, prefix, j) as real == AdmittedFrom(l, prefix[..|prefix| - 1], j) as real + Taken(l, prefix);
  }

  lemma LevelStep(l: Limits, times: seq<real>, prefix: seq<real>)
    requires |times| > 1 && prefix == times[..|times| - 1]
    ensures var tokens := Level(l, prefix) - Taken(l, prefix) + Inflow(l, times[|times| - 2], times[|times| - 1]);
            Level(l, times) == if tokens > l.burst then l.burst else tokens
  {
    assert Found(l, times) == After(l, prefix);
    assert After(l, prefix).tokens == Level(l, prefix) - Taken(l, prefix);
  }

  /** The tokens before a decision are the least allowance of all windows that end there. */
  lemma {:induction false} LevelIsLeastAllowance(l: Limits, times: seq<real>) returns (j: nat)
    requires times != []
    ensures j < |times| && Level(l, times) == WindowAllowance(l, times, j)
    ensures forall i :: 0 <= i < |times| ==> Level(l, times) <= WindowAllowance(l, times, i)
  {
    var n := |times|;
    InflowAdds(l, times[n - 1], times[n - 1], times[n - 1]);
    assert WindowAllowance(l, times, n - 1) == l.burst;
    if n == 1 {
      return 0;
    }
    j := LevelIsLeastAllowance(l, times[..n - 1]);
    LevelStep(l, times, times[..n - 1]);
    forall i | 0 <= i < n - 1
      ensures Level(l, times) <= WindowAllowance(l, times, i)
    {
      AllowanceStep(l, times, times[..n - 1], i);
    }
    AllowanceStep(l, times, times[..n - 1], j);
    if Level(l, times) == l.burst {
      j := n - 1;
    }
  }

  /** The request fits a window: the burst and the inflow since request `j` cover it and all admitted since. */
  predicate FitsWindow(l: Limits, times: seq<real>, j: nat)
    requires j < |times|
  {
    AdmittedFrom(l, times[..|times| - 1], j) as real + 1.0 <= l.burst + Inflow(l, times[j], times[|times| - 1])
  }

  /** A request is admitted exactly when it fits every window that ends with it. */
  lemma AdmittedIffFitsEveryWindow(l: Limits, times: seq<real>)
    requires times != []
    ensures Admitted(l, times) <==> forall j :: 0 <= j < |times| ==> FitsWindow(l, times, j)
  {
    var j := LevelIsLeastAllowance(l, times);
    assert FitsWindow(l, times, j) <==> WindowAllowance(l, times, j) >= 1.0;
    assert forall i :: 0 <= i < |times| ==> (FitsWindow(l, times, i) <==> WindowAllowance(l, times, i) >= 1.0);
  }

  /** No window admits more than the burst plus the rate over its length. */
  lemma {:induction false} WindowBound(l: Limits, times: seq<real>, j: nat)
    requires j < |times| && Ordered(times) && l.rate >= 0.0 && l.burst >= 0.0
    ensures AdmittedFrom(l, times, j) as real <= l.burst + Inflow(l, times[j], times[|times| - 1])
  {
    var n := |times|;
    if Admitted(l, times) {
      AdmittedIffFitsEveryWindow(l, times);
      assert FitsWindow(l, times, j);
    } else if j < n - 1 {
      WindowBound(l, times[..n - 1], j);
      InflowGrows(l, times[j], times[n - 2], times[n - 1]);
    } else {
      InflowAdds(l, times[j], times[j], times[j]);
    }
  }

  /** The bucket is never overdrawn and never overfull. */
  lemma {:induction false} TokensInRange(l: Limits, times: seq<real>)
    requires times != [] && Ordered(times) && l.rate >= 0.0 && l.burst >= 1.0
    ensures 0.0 <= After(l, times).tokens <= l.burst
    ensures After(l, times).lastRefill == After(l, times).lastAccess == times[|times| - 1]
  {
    var n := |times|;
    if n == 1 {
      InflowAdds(l, times[0], times[0], times[0]);
    } else {
      TokensInRange(l, times[..n - 1]);
      InflowGrows(l, times[n - 2], times[n - 1], times[n - 1]);
    }
  }

  // ----- Retry-After -----

  /** The header value for a wait: the conversion to `int` truncates, and 1 is added. */
  function RetryAfter(wait: real): int {
    wait.Floor + 1
  }

  /** A bucket that goes on denying only fills up, at the full rate. */
  lemma {:induction false} DenialsOnlyRefill(l: Limits, times: seq<real>, more: seq<real>)
    requires times != [] && l.burst >= 1.0
    requires !Admitted(l, times)
    requires forall i :: 0 < i <= |more| ==> !Admitted(l, times + more[..i])
    ensures var all := times + more;
            After(l, all).tokens == Level(l, times) + Inflow(l, times[|times| - 1], all[|all| - 1])
    ensures After(l, times + more).lastRefill == (times + more)[|times + more| - 1]
  {
    var start := times[|times| - 1];
    if more == [] {
      assert times + more == times;
      InflowAdds(l, start, start, start);
    } else {
      var m := |more|;
      var fewer, all := more[..m - 1], times + more;
      forall i | 0 < i <= |fewer|
        ensures !Admitted(l, times + fewer[..i])
      {
        assert fewer[..i] == more[..i];
      }
      DenialsOnlyRefill(l, times, fewer);
      assert all[..|all| - 1] == times + fewer;
      assert more[..m] == more;
      InflowAdds(l, start, (times + fewer)[|times + fewer| - 1], all[|all| - 1]);
    }
  }

  /**
    The computed wait is exact: after a denial, and whatever further denials there are,
    a request is admitted if and only if it comes at least that much later.
   */
  lemma WaitIsExact(l: Limits, times: seq<real>, more: seq<real>, t: real)
    requires times != [] && l.burst >= 1.0 && l.rate > 0.0
    requires !Admitted(l, times)
    requires forall i :: 0 < i <= |more| ==> !Admitted(l, times + more[..i])
    ensures WaitFor(l, Level(l, times)).Some? && WaitFor(l, Level(l, times)).value > 0.0
    ensures Admitted(l, times + more + [t]) <==> t >= times[|times| - 1] + WaitFor(l, Level(l, times)).value
  {
    DenialsOnlyRefill(l, times, more);
    var start, tokens := times[|times| - 1], Level(l, times);
    var all := times + more + [t];
    assert all[..|all| - 1] == times + more;
    InflowAdds(l, start, Found(l, all).lastRefill, t);
    WaitThreshold(l.rate, tokens, t - start);
  }

  lemma WaitThreshold(rate: real, tokens: real, elapsed: real)
    requires rate > 0.0 && tokens < 1.0
    ensures (1.0 - tokens) / rate > 0.0
    ensures tokens + elapsed * rate >= 1.0 <==> elapsed >= (1.0 - tokens) / rate
  {
    var wait := (1.0 - tokens) / rate;
    assert rate * wait == 1.0 - tokens;
    if elapsed >= wait {
      assert rate * elapsed >= rate * wait;
    } else {
      assert rate * elapsed < rate * wait;
    }
  }

  /** The header is the wait in whole seconds, rounded up, and one more for a whole number of seconds. */
  lemma RetryAfterExact(wait: real, header: int)
    ensures header == RetryAfter(wait) <==> header as real - 1.0 <= wait < header as real
  {
    assert wait.Floor as real <= wait < wait.Floor as real + 1.0;
  }

  /** A client that honours Retry-After is admitted, unless somebody else was admitted in between. */
  lemma RetryAfterSuffices(l: Limits, times: seq<real>, more: seq<real>, t: real)
    requires times != [] && l.burst >= 1.0 && l.rate > 0.0
    requires !Admitted(l, times)
    requires forall i :: 0 < i <= |more| ==> !Admitted(l, times + more[..i])
    requires t >= times[|times| - 1] + RetryAfter(WaitFor(l, Level(l, times)).value) as real
    ensures Admitted(l, times + more + [t])
  {
    WaitIsExact(l, times, more, t);
    RetryAfterExact(WaitFor(l, Level(l, times)).value, RetryAfter(WaitFor(l, Level(l, times)).value));
  }
}
