/** The sliding-window rate limiter of app/core/rate_limit.py: per client
    key, the timestamps of the calls it let through, pruned to the last
    `period` seconds on every request. The clock is a parameter. */
module RateLimit {
  import opened Lists

  /** `RateLimiter.cache`: per key, the accepted timestamps in arrival order. */
  type Cache = map<string, seq<real>>

  datatype Decision = Decision(allowed: bool, cache: Cache)

  function After(bound: real): real -> bool {
    (t: real) => t > bound
  }

  function History(cache: Cache, key: string): seq<real> {
    if key in cache then cache[key] else []
  }

  /** `current_time - self.period`: timestamps at or before it have left the window. */
  function Cutoff(now: real, period: int): real {
    now - period as real
  }

  /** The timestamps of `key` still inside the window ending at `now`. */
  function Recent(cache: Cache, key: string, now: real, period: int): seq<real> {
    Filter(History(cache, key), After(Cutoff(now, period)))
  }

  /** `is_allowed(key)` at time `now`: drop the key's timestamps at or before
      `now - period`; let the call through, and record it, when fewer than
      `calls` remain. */
  function IsAllowed(cache: Cache, key: string, now: real, calls: int, period: int): (d: Decision)
    ensures d.allowed <==> |Recent(cache, key, now, period)| < calls
    ensures key in d.cache
    ensures d.allowed ==> d.cache[key] == Recent(cache, key, now, period) + [now]
    ensures !d.allowed ==> d.cache[key] == Recent(cache, key, now, period)
    ensures forall k :: k in cache && k != key ==> k in d.cache && d.cache[k] == cache[k]
    ensures forall k :: k in d.cache ==> k in cache || k == key
  {
    var kept := Recent(cache, key, now, period);
    if |kept| < calls then Decision(true, cache[key := kept + [now]])
    else Decision(false, cache[key := kept])
  }

  /** At most `calls` timestamps per key (none when `calls` is not positive). */
  predicate WithinLimit(cache: Cache, calls: int) {
    forall k :: k in cache ==> |cache[k]| <= (if calls > 0 then calls else 0)
  }

  /** No key ever holds more than `calls` timestamps. */
  lemma IsAllowedKeepsLimit(cache: Cache, key: string, now: real, calls: int, period: int)
    requires WithinLimit(cache, calls)
    ensures WithinLimit(IsAllowed(cache, key, now, calls, period).cache, calls)
  {
  }

  /** A key never seen before is let through whenever `calls` is positive. */
  lemma FirstCallAllowed(cache: Cache, key: string, now: real, calls: int, period: int)
    requires key !in cache
    ensures IsAllowed(cache, key, now, calls, period).allowed <==> calls > 0
  {
  }

  // ---------------------------------------------------------------------
  // A run of requests from one key

  datatype Run = Run(cache: Cache, accepted: seq<real>)

  /** The limiter after the requests at `times`, all from `key`, and the
      times of the requests it let through. */
  function RunKey(cache: Cache, key: string, times: seq<real>, calls: int, period: int): Run {
    if |times| == 0 then Run(cache, [])
    else
      var before := RunKey(cache, key, times[..|times| - 1], calls, period);
      var now := times[|times| - 1];
      var d := IsAllowed(before.cache, key, now, calls, period);
      Run(d.cache, before.accepted + if d.allowed then [now] else [])
  }

  predicate NonDecreasing(times: seq<real>) {
    forall i, j :: 0 <= i < j < |times| ==> times[i] <= times[j]
  }

  /** Pruning at a later bound subsumes pruning at an earlier one. */
  lemma PruneAgain(ts: seq<real>, a: real, b: real)
    requires a <= b
    ensures Filter(Filter(ts, After(a)), After(b)) == Filter(ts, After(b))
  {
    FilterFilter(ts, After(a), After(b), After(b));
  }

  /** A timestamp inside the window survives the pruning after it is appended. */
  lemma PruneAppended(ts: seq<real>, now: real, bound: real)
    requires now > bound
    ensures Filter(ts + [now], After(bound)) == Filter(ts, After(bound)) + [now]
  {
    FilterSnoc(ts + [now], After(bound));
    assert (ts + [now])[..|ts|] == ts;
  }

  /** One request keeps the stored timestamps equal to the accepted ones
      inside the current window. */
  lemma IsAllowedStep(cache: Cache, key: string, accepted: seq<real>, previous: real, now: real, calls: int, period: int)
    requires period > 0
    requires History(cache, key) == Filter(accepted, After(previous))
    requires previous <= Cutoff(now, period)
    ensures var d := IsAllowed(cache, key, now, calls, period);
      d.cache[key] == Filter(accepted + (if d.allowed then [now] else []), After(Cutoff(now, period)))
  {
    var bound := Cutoff(now, period);
    var d := IsAllowed(cache, key, now, calls, period);
    var kept := Recent(cache, key, now, period);
    assert kept == Filter(accepted, After(bound)) by {
      PruneAgain(accepted, previous, bound);
    }
    if d.allowed {
      assert d.cache[key] == kept + [now];
      PruneAppended(accepted, now, bound);
    } else {
      assert d.cache[key] == kept;
      assert accepted + [] == accepted;
    }
  }

  /** With a clock that does not go back, the stored timestamps of the key
      are exactly the accepted ones inside the window of the latest request. */
  lemma {:induction false} RunKeyCache(key: string, times: seq<real>, calls: int, period: int)
    requires period > 0 && NonDecreasing(times) && |times| > 0
    ensures var r := RunKey(map[], key, times, calls, period);
      && key in r.cache
      && r.cache[key] == Filter(r.accepted, After(Cutoff(times[|times| - 1], period)))
  {
    var n := |times|;
    var init, now := times[..n - 1], times[n - 1];
    var before := RunKey(map[], key, init, calls, period);
    if n == 1 {
      assert before == Run(map[], []);
      IsAllowedStep(before.cache, key, [], Cutoff(now, period), now, calls, period);
    } else {
      assert NonDecreasing(init) by {
        assert forall i :: 0 <= i < n - 1 ==> init[i] == times[i];
      }
      RunKeyCache(key, init, calls, period);
      assert init[n - 2] <= now;
      IsAllowedStep(before.cache, key, before.accepted, Cutoff(init[n - 2], period), now, calls, period);
    }
  }

  /** The limit holds over every window: at each request, the requests let
      through in the `period` seconds up to it number at most `calls`. */
  lemma RateLimitHolds(key: string, times: seq<real>, calls: int, period: int)
    requires period > 0 && NonDecreasing(times) && |times| > 0
    ensures var r := RunKey(map[], key, times, calls, period);
      |Filter(r.accepted, After(Cutoff(times[|times| - 1], period)))| <= (if calls > 0 then calls else 0)
  {
    RunKeyCache(key, times, calls, period);
    RunKeyLimit(key, times, calls, period);
  }

  lemma {:induction false} RunKeyLimit(key: string, times: seq<real>, calls: int, period: int)
    ensures WithinLimit(RunKey(map[], key, times, calls, period).cache, calls)
  {
    if |times| > 0 {
      var init := times[..|times| - 1];
      RunKeyLimit(key, init, calls, period);
      IsAllowedKeepsLimit(RunKey(map[], key, init, calls, period).cache, key, times[|times| - 1], calls, period);
    }
  }
}
