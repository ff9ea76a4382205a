/** The rolling-window limiter that paces requests to NVD
    (`_RateLimiter` in backend/app/scanner/nvd_client.py). */
module RateLimiter {

  type Time = real

  const SHORTEST_SLEEP: Time := 0.05

  /** The times still inside the window at `now`. */
  function Recent(times: seq<Time>, now: Time, window: Time): seq<Time> {
    if times == [] then []
    else
      var n := |times| - 1;
      Recent(times[..n], now, window) + if now - times[n] < window then [times[n]] else []
  }

  function SleepFor(oldest: Time, now: Time, window: Time): Time {
    var remaining := window - (now - oldest);
    if remaining < SHORTEST_SLEEP then SHORTEST_SLEEP else remaining
  }

  function LongestSleep(window: Time): Time {
    if window < 0.05 then 0.05 else window
  }

  predicate Ascending(times: seq<Time>) {
    forall i, j :: 0 <= i < j < |times| ==> times[i] <= times[j]
  }

  /** Any more requests than the limit allows span at least the window. */
  predicate Paced(granted: seq<Time>, limit: nat, window: Time) {
    forall i :: 0 <= i && i + limit < |granted| ==> Span(granted, i, limit) >= window
  }

  /** How long `limit` requests after the i-th one took. */
  function Span(granted: seq<Time>, i: nat, limit: nat): Time
    requires i + limit < |granted|
  {
    granted[i + limit] - granted[i]
  }

  /** Whether nothing granted lies after `now`: what a monotonic clock guarantees. */
  predicate NotBefore(granted: seq<Time>, now: Time) {
    forall i :: 0 <= i < |granted| ==> granted[i] <= now
  }

  class Limiter {
    const limit: nat
    const window: Time
    var timestamps: seq<Time>
    /** Every request ever let through, and when the list was last pruned. */
    ghost var granted: seq<Time>
    ghost var pruned: Time

    ghost predicate Valid()
      reads this
    {
      && limit > 0 && window > 0.0
      && Ascending(granted) && Paced(granted, limit, window)
      && NotBefore(granted, pruned)
      && timestamps == Recent(granted, pruned, window) && |timestamps| <= limit
    }

    constructor (limit: nat, window: Time, start: Time)
      requires limit > 0 && window > 0.0
      ensures Valid() && this.limit == limit && this.window == window
      ensures granted == [] && timestamps == [] && pruned == start
    {
      this.limit, this.window := limit, window;
      timestamps, granted, pruned := [], [], start;
    }

    /** One turn of the loop under the lock: granted now, or how long to sleep. */
    method TryAcquire(now: Time) returns (ok: bool, sleep: Time)
      requires Valid() && pruned <= now
      modifies this
      ensures Valid() && pruned == now
      ensures ok <==> |Recent(old(granted), now, window)| < limit
      ensures granted == if ok then old(granted) + [now] else old(granted)
      ensures !ok ==> timestamps != [] && sleep == SleepFor(timestamps[0], now, window)
      ensures !ok ==> sleep <= LongestSleep(window)
    {
      ghost var k := RecentIsSuffix(granted, now, window);
      RecentAgain(granted, pruned, now, window);
      RecentShorter(timestamps, now, window);
      timestamps := Recent(timestamps, now, window);
      pruned := now;
      if |timestamps| < limit {
        GrantPaced(granted, now, limit, window);
        timestamps := timestamps + [now];
        granted := granted + [now];
        return true, 0.0;
      }
      return false, SleepFor(timestamps[0], now, window);
    }

    /** A caller with no one beside it, whose sleeps last `late` longer than asked: it
        sleeps at most once. */
    method Acquire(start: Time, late: Time) returns (sleeps: nat, at: Time)
      requires Valid() && pruned <= start && late >= 0.0
      modifies this
      ensures Valid() && granted == old(granted) + [at] && at >= start
      ensures sleeps == if |Recent(old(granted), start, window)| < limit then 0 else 1
      ensures sleeps == 0 ==> at == start
      ensures at <= start + late + LongestSleep(window)
    {
      sleeps, at := 0, start;
      ghost var room := |Recent(granted, start, window)| < limit;
      var ok, sleep := TryAcquire(at);
      while !ok
        invariant Valid() && pruned == at && at >= start
        invariant granted == if ok then old(granted) + [at] else old(granted)
        invariant !ok ==> timestamps != [] && sleep == SleepFor(timestamps[0], at, window)
        invariant !ok ==> sleeps == 0 && !room && |timestamps| == limit
        invariant sleeps == 0 ==> at == start
        invariant at <= start + late + LongestSleep(window) && (!ok ==> sleep <= LongestSleep(window))
        invariant ok ==> sleeps == if room then 0 else 1
        decreases !ok
      {
        ghost var before := at;
        at := at + sleep + late;
        SleepFrees(granted, before, at, limit, window);
        sleeps := sleeps + 1;
        ok, sleep := TryAcquire(at);
      }
    }
  }

  // Pruning.

  lemma {:induction false} RecentNone(times: seq<Time>, now: Time, window: Time)
    requires forall i :: 0 <= i < |times| ==> now - times[i] >= window
    ensures Recent(times, now, window) == []
  {
    if times != [] {
      RecentNone(times[..|times| - 1], now, window);
    }
  }

  /** `k` splits the times into those out of the window and those in it. */
  predicate Splits(times: seq<Time>, now: Time, window: Time, k: nat) {
    && k <= |times|
    && (forall i :: 0 <= i < k ==> now - times[i] >= window)
    && (forall i :: k <= i < |times| ==> now - times[i] < window)
  }

  lemma SplitsKept(times: seq<Time>, now: Time, window: Time, k: nat)
    requires times != [] && now - times[|times| - 1] < window && Splits(times[..|times| - 1], now, window, k)
    ensures Splits(times, now, window, k) && times[..|times| - 1][k..] + [times[|times| - 1]] == times[k..]
  {
    var n := |times| - 1;
    assert forall i :: 0 <= i < n ==> times[..n][i] == times[i];
  }

  lemma LastOld(times: seq<Time>, now: Time, window: Time)
    requires Ascending(times) && times != [] && now - times[|times| - 1] >= window
    ensures Splits(times, now, window, |times|)
  {
    assert forall i :: 0 <= i < |times| - 1 ==> times[i] <= times[|times| - 1];
  }

  lemma AscendingInit(times: seq<Time>)
    requires Ascending(times) && times != []
    ensures Ascending(times[..|times| - 1])
  {
  }

  /** Pruning an ascending list cuts off a front of it. */
  lemma {:induction false} RecentIsSuffix(times: seq<Time>, now: Time, window: Time) returns (k: nat)
    requires Ascending(times)
    ensures Splits(times, now, window, k) && Recent(times, now, window) == times[k..]
  {
    if times == [] {
      k := 0;
    } else if now - times[|times| - 1] < window {
      AscendingInit(times);
      k := RecentIsSuffix(times[..|times| - 1], now, window);
      SplitsKept(times, now, window, k);
    } else {
      k := |times|;
      LastOld(times, now, window);
      RecentNone(times, now, window);
    }
  }

  /** Pruning what was pruned before gives what pruning the whole history gives. */
  lemma {:induction false} RecentAgain(times: seq<Time>, earlier: Time, now: Time, window: Time)
    requires earlier <= now
    ensures Recent(Recent(times, earlier, window), now, window) == Recent(times, now, window)
  {
    if times != [] {
      var n := |times| - 1;
      RecentAgain(times[..n], earlier, now, window);
      if now - times[n] < window {
        var r := Recent(times[..n], earlier, window) + [times[n]];
        assert r[..|r| - 1] == Recent(times[..n], earlier, window);
      } else if earlier - times[n] < window {
        var r := Recent(times[..n], earlier, window) + [times[n]];
        assert r[..|r| - 1] == Recent(times[..n], earlier, window);
        assert Recent(r, now, window) == Recent(r[..|r| - 1], now, window);
      } else {
        assert Recent(times, earlier, window) == Recent(times[..n], earlier, window);
        assert Recent(times, now, window) == Recent(times[..n], now, window);
      }
    }
  }

  lemma {:induction false} RecentShorter(times: seq<Time>, now: Time, window: Time)
    ensures |Recent(times, now, window)| <= |times|
  {
    if times != [] {
      RecentShorter(times[..|times| - 1], now, window);
    }
  }

  /** With room in the window, one more grant keeps every stretch paced. */
  lemma GrantPaced(granted: seq<Time>, now: Time, limit: nat, window: Time)
    requires Ascending(granted) && NotBefore(granted, now) && Paced(granted, limit, window) && window > 0.0
    requires |Recent(granted, now, window)| < limit
    ensures Ascending(granted + [now]) && NotBefore(granted + [now], now) && Paced(granted + [now], limit, window)
    ensures Recent(granted + [now], now, window) == Recent(granted, now, window) + [now]
  {
    var k := RecentIsSuffix(granted, now, window);
    var more := granted + [now];
    assert more[..|granted|] == granted;
    forall i | 0 <= i && i + limit < |more| ensures Span(more, i, limit) >= window {
      if i + limit < |granted| {
        assert Span(more, i, limit) == Span(granted, i, limit);
      } else {
        assert i < k;
      }
    }
  }

  /** Sleeping as told leaves the window short of one. */
  lemma SleepFrees(granted: seq<Time>, now: Time, later: Time, limit: nat, window: Time)
    requires Ascending(granted) && |Recent(granted, now, window)| == limit > 0
    requires later >= now + SleepFor(Recent(granted, now, window)[0], now, window)
    ensures |Recent(granted, later, window)| < limit
  {
    var recent := Recent(granted, now, window);
    RecentAgain(granted, now, later, window);
    var front := RecentIsSuffix(granted, now, window);
    var k := RecentIsSuffix(recent, later, window);
    assert later - recent[0] >= window;
  }
}
