/** Backing off failed sign-ins (backend/app/auth/throttle.py): failures counted per
    account and per client address, each with a doubling wait once it has used up its
    free attempts. */
module Throttle {
  import opened Text

  type Time = real

  datatype Key = Account(client: string, username: string) | Client(client: string)

  datatype Entry = Entry(failures: nat, lockedUntil: Time, lastFailure: Time)

  type Entries = map<Key, Entry>

  const FREE_ATTEMPTS: nat := 5
  const FREE_ATTEMPTS_PER_CLIENT: nat := 20
  const BASE_DELAY: Time := 30.0
  const MAX_DELAY: Time := 900.0
  const FORGET_AFTER: Time := 3600.0

  /** Rounding is up to the next second but for the last thousandth. */
  const ROUNDING: Time := 0.001

  function AccountKey(client: string, username: string): Key {
    Account(client, Lower(Strip(username)))
  }

  function Free(key: Key): nat {
    if key.Account? then FREE_ATTEMPTS else FREE_ATTEMPTS_PER_CLIENT
  }

  function PowerOf2(n: nat): nat {
    if n == 0 then 1 else 2 * PowerOf2(n - 1)
  }

  /** The wait after a failure that is `over` past the last free one. */
  function Delay(over: nat): Time {
    var d := BASE_DELAY * PowerOf2(over) as real;
    if d < MAX_DELAY then d else MAX_DELAY
  }

  function Max(a: Time, b: Time): Time {
    if a < b then b else a
  }

  /** `int(x)`, which truncates toward zero. */
  function Truncated(x: real): int {
    if x >= 0.0 then x.Floor else -((-x).Floor)
  }

  /** How long the two keys of an attempt are locked for; 0 without an entry for either. */
  function Wait(entries: Entries, now: Time, client: string, username: string): Time {
    var account, address := AccountKey(client, username), Client(client);
    if account in entries && address in entries then
      Max(entries[account].lockedUntil - now, entries[address].lockedUntil - now)
    else if account in entries then entries[account].lockedUntil - now
    else if address in entries then entries[address].lockedUntil - now
    else 0.0
  }

  function SecondsLeft(wait: Time): nat {
    var seconds := Truncated(wait + 0.999);
    if seconds < 0 then 0 else seconds
  }

  predicate IsStale(entry: Entry, now: Time) {
    now - entry.lastFailure > FORGET_AFTER && now >= entry.lockedUntil
  }

  function Remembered(entries: Entries, now: Time): Entries {
    map key | key in entries && !IsStale(entries[key], now) :: entries[key]
  }

  /** One more failure on a key. */
  function Counted(entries: Entries, key: Key, now: Time): Entries {
    var before := if key in entries then entries[key] else Entry(0, 0.0, 0.0);
    var failures := before.failures + 1;
    entries[key := Entry(failures,
                         if failures >= Free(key) then now + Delay(failures - Free(key)) else before.lockedUntil,
                         now)]
  }

  function AfterFailure(entries: Entries, client: string, username: string, now: Time): Entries {
    Counted(Counted(Remembered(entries, now), AccountKey(client, username), now), Client(client), now)
  }

  function AfterSuccess(entries: Entries, client: string, username: string): Entries {
    entries - {AccountKey(client, username), Client(client)}
  }

  class LoginThrottle {
    var entries: Entries

    constructor ()
      ensures entries == map[]
    {
      entries := map[];
    }

    method RetryAfter(client: string, username: string, now: Time) returns (seconds: nat)
      ensures seconds == SecondsLeft(Wait(entries, now, client, username))
    {
      var wait: Time := 0.0;
      var account, address := AccountKey(client, username), Client(client);
      if account in entries {
        wait := entries[account].lockedUntil - now;
      }
      if address in entries {
        var w := entries[address].lockedUntil - now;
        wait := if account in entries then Max(wait, w) else w;
      }
      var s := Truncated(wait + 0.999);
      seconds := if s < 0 then 0 else s;
    }

    method RecordFailure(client: string, username: string, now: Time)
      modifies this
      ensures entries == AfterFailure(old(entries), client, username, now)
    {
      ForgetStale(now);
      Fail(AccountKey(client, username), now);
      Fail(Client(client), now);
    }

    method Fail(key: Key, now: Time)
      modifies this
      ensures entries == Counted(old(entries), key, now)
    {
      if key !in entries {
        entries := entries[key := Entry(0, 0.0, 0.0)];
      }
      var e := entries[key];
      e := e.(failures := e.failures + 1, lastFailure := now);
      if e.failures >= Free(key) {
        e := e.(lockedUntil := now + Delay(e.failures - Free(key)));
      }
      entries := entries[key := e];
    }

    method RecordSuccess(client: string, username: string)
      modifies this
      ensures entries == AfterSuccess(old(entries), client, username)
    {
      entries := entries - {AccountKey(client, username)};
      entries := entries - {Client(client)};
    }

    method Reset()
      modifies this
      ensures entries == map[]
    {
      entries := map[];
    }

    method ForgetStale(now: Time)
      modifies this
      ensures entries == Remembered(old(entries), now)
    {
      var stale := set key | key in entries && IsStale(entries[key], now);
      while stale != {}
        invariant stale <= entries.Keys
        invariant forall key :: key in stale <==> key in entries && IsStale(entries[key], now)
        invariant Remembered(entries, now) == Remembered(old(entries), now)
        decreases stale
      {
        var key :| key in stale;
        entries := entries - {key};
        stale := stale - {key};
      }
      assert Remembered(entries, now) == entries;
    }
  }

  // Waiting.

  /** An attempt is let through exactly when neither key has a thousandth of a second
      or more to wait: a lock opens that much early, and no earlier. */
  lemma AdmittedExactly(entries: Entries, now: Time, client: string, username: string)
    ensures SecondsLeft(Wait(entries, now, client, username)) == 0 <==>
              forall key :: key in {AccountKey(client, username), Client(client)} && key in entries ==>
                entries[key].lockedUntil - now < ROUNDING
  {
    var account, address := AccountKey(client, username), Client(client);
    var wait := Wait(entries, now, client, username);
    assert SecondsLeft(wait) == 0 <==> wait < ROUNDING;
    assert account in {account, address} && address in {account, address};
  }

  /** Time passing takes exactly itself off the answer, down to zero. */
  lemma WaitingCountsDown(entries: Entries, now: Time, client: string, username: string, s: nat)
    ensures var left := SecondsLeft(Wait(entries, now, client, username));
            SecondsLeft(Wait(entries, now + s as real, client, username)) == if left <= s then 0 else left - s
  {
    var wait := Wait(entries, now, client, username);
    var account, address := AccountKey(client, username), Client(client);
    if account in entries || address in entries {
      assert Wait(entries, now + s as real, client, username) == wait - s as real;
    }
    FloorShift(wait + 0.999, s);
  }

  lemma FloorShift(x: real, s: nat)
    ensures (x - s as real).Floor == x.Floor - s
  {
  }

  /** Waiting the seconds told always suffices. */
  lemma WaitingSuffices(entries: Entries, now: Time, client: string, username: string)
    ensures var left := SecondsLeft(Wait(entries, now, client, username));
            SecondsLeft(Wait(entries, now + left as real, client, username)) == 0
  {
    WaitingCountsDown(entries, now, client, username, SecondsLeft(Wait(entries, now, client, username)));
  }

  // Runs of attempts, one at a time. An attempt is checked, let through, and then
  // succeeds or fails a little later; refused attempts change nothing.

  datatype Attempt = Attempt(client: string, username: string, checked: Time, done: Time, succeeded: bool)

  function After(entries: Entries, attempts: seq<Attempt>): Entries {
    if attempts == [] then entries
    else
      var n := |attempts| - 1;
      AfterAttempt(After(entries, attempts[..n]), attempts[n])
  }

  predicate Admitted(entries: Entries, a: Attempt) {
    SecondsLeft(Wait(entries, a.checked, a.client, a.username)) == 0
  }

  predicate AdmittedAt(entries: Entries, attempts: seq<Attempt>, i: nat)
    requires i < |attempts|
  {
    Admitted(After(entries, attempts[..i]), attempts[i])
  }

  /** Every attempt is let through, and the next is not checked before it is done. */
  predicate IsRun(entries: Entries, attempts: seq<Attempt>) {
    && (forall i :: 0 <= i < |attempts| ==> attempts[i].checked <= attempts[i].done)
    && (forall i, j :: 0 <= i < j < |attempts| ==> attempts[i].done <= attempts[j].checked)
    && (forall i :: 0 <= i < |attempts| ==> AdmittedAt(entries, attempts, i))
  }

  predicate Touches(key: Key, a: Attempt) {
    key == AccountKey(a.client, a.username) || key == Client(a.client)
  }

  predicate Fails(key: Key, a: Attempt) {
    Touches(key, a) && !a.succeeded
  }

  predicate NoSuccess(key: Key, attempts: seq<Attempt>) {
    forall i :: 0 <= i < |attempts| && attempts[i].succeeded ==> !Touches(key, attempts[i])
  }

  /** When a key's failures happened. */
  function FailureTimes(key: Key, attempts: seq<Attempt>): seq<Time> {
    if attempts == [] then []
    else
      var n := |attempts| - 1;
      MoreTimes(key, FailureTimes(key, attempts[..n]), attempts[n])
  }

  function Last(times: seq<Time>): Time
    requires times != []
  {
    times[|times| - 1]
  }

  /** A key's failures since it was last left alone for more than an hour, after which
      it may have been forgotten. */
  function Streak(times: seq<Time>): (streak: seq<Time>)
    ensures |streak| <= |times| && (times != [] ==> streak != [] && Last(streak) == Last(times))
  {
    if |times| <= 1 then times
    else
      var n := |times| - 1;
      if Gap(times, n) > FORGET_AFTER then [times[n]] else Streak(times[..n]) + [times[n]]
  }

  /** What the stored entry guarantees about the next failure of the key. */
  ghost predicate Locks(entries: Entries, key: Key, times: seq<Time>) {
    times != [] ==>
      && key in entries && entries[key].failures >= |times| && entries[key].lastFailure == Last(times)
      && (|times| >= Free(key) ==> entries[key].lockedUntil >= Last(times) + Delay(|times| - Free(key)))
  }

  /** Past the free ones, each failure waits out the delay before it, but for the
      thousandth of a second the rounding gives back. */
  ghost predicate Spaced(key: Key, times: seq<Time>) {
    forall i :: Free(key) <= i < |times| ==> Gap(times, i) > Delay(i - Free(key)) - ROUNDING
  }

  function Gap(times: seq<Time>, i: nat): Time
    requires 0 < i < |times|
  {
    times[i] - times[i - 1]
  }

  lemma {:induction false} PowerMonotone(m: nat, n: nat)
    requires m <= n
    ensures 1 <= PowerOf2(m) <= PowerOf2(n)
    decreases n
  {
    if m < n {
      PowerMonotone(m, n - 1);
    } else if n > 0 {
      PowerMonotone(m - 1, n - 1);
    }
  }

  lemma DelayMonotone(m: nat, n: nat)
    requires m <= n
    ensures 0.0 < Delay(m) <= Delay(n)
  {
    PowerMonotone(m, n);
  }

  lemma RememberedKeeps(entries: Entries, key: Key, now: Time)
    requires key in entries && now - entries[key].lastFailure <= FORGET_AFTER
    ensures key in Remembered(entries, now) && Remembered(entries, now)[key] == entries[key]
  {
  }

  /** A failure of the key counts once more and locks for the next, longer delay. */
  lemma FailureLocks(entries: Entries, key: Key, times: seq<Time>, a: Attempt)
    requires Locks(entries, key, times) && Fails(key, a)
    requires times != [] ==> a.done - Last(times) <= FORGET_AFTER
    ensures Locks(AfterFailure(entries, a.client, a.username, a.done), key, times + [a.done])
  {
    if times != [] {
      RememberedKeeps(entries, key, a.done);
    }
    var failures := AfterFailure(entries, a.client, a.username, a.done)[key].failures;
    if |times| + 1 >= Free(key) {
      DelayMonotone(|times| + 1 - Free(key), failures - Free(key));
    }
  }

  /** An attempt that does not touch the key leaves its entry as it was. */
  lemma OthersKeepLock(entries: Entries, key: Key, times: seq<Time>, a: Attempt)
    requires Locks(entries, key, times) && !Touches(key, a)
    requires times != [] ==> a.done - Last(times) <= FORGET_AFTER
    ensures Locks(AfterFailure(entries, a.client, a.username, a.done), key, times)
    ensures Locks(AfterSuccess(entries, a.client, a.username), key, times)
  {
    if times != [] {
      RememberedKeeps(entries, key, a.done);
    }
  }

  lemma AdmittedAfterLock(entries: Entries, key: Key, times: seq<Time>, a: Attempt)
    requires Locks(entries, key, times) && Touches(key, a) && Admitted(entries, a) && a.checked <= a.done
    requires |times| >= Free(key)
    ensures a.done - Last(times) > Delay(|times| - Free(key)) - ROUNDING
  {
    AdmittedExactly(entries, a.checked, a.client, a.username);
    assert key in {AccountKey(a.client, a.username), Client(a.client)};
  }

  function AfterAttempt(entries: Entries, a: Attempt): Entries {
    if a.succeeded then AfterSuccess(entries, a.client, a.username)
    else AfterFailure(entries, a.client, a.username, a.done)
  }

  function MoreTimes(key: Key, times: seq<Time>, a: Attempt): seq<Time> {
    if Fails(key, a) then times + [a.done] else times
  }

  /** What the stored entry guarantees at a moment: its lock, unless more than an hour
      has passed since the key's latest failure. */
  ghost predicate Guarded(entries: Entries, key: Key, streak: seq<Time>, at: Time) {
    streak != [] && at - Last(streak) <= FORGET_AFTER ==> Locks(entries, key, streak)
  }

  lemma StreakMore(times: seq<Time>, t: Time)
    ensures Streak(times + [t]) ==
            if times == [] || t - Last(times) > FORGET_AFTER then [t] else Streak(times) + [t]
  {
    if times == [] {
      assert times + [t] == [t];
    } else {
      var more, n := times + [t], |times|;
      assert more[..n] == times && more[n] == t;
      StreakStep(more, n);
    }
  }

  lemma StreakStep(times: seq<Time>, n: nat)
    requires 0 < n == |times| - 1
    ensures Streak(times) ==
            if times[n] - Last(times[..n]) > FORGET_AFTER then [times[n]] else Streak(times[..n]) + [times[n]]
  {
    assert Last(times[..n]) == times[n - 1];
  }

  /** One admitted attempt more keeps the guarantee ... */
  lemma AttemptGuarded(entries: Entries, key: Key, times: seq<Time>, a: Attempt, at: Time)
    requires Guarded(entries, key, Streak(times), at) && (a.succeeded ==> !Touches(key, a)) && at <= a.done
    ensures Guarded(AfterAttempt(entries, a), key, Streak(MoreTimes(key, times, a)), a.done)
  {
    StreakMore(times, a.done);
    if Fails(key, a) {
      if times == [] || a.done - Last(times) > FORGET_AFTER {
        FailureLocks(entries, key, [], a);
        assert [] + [a.done] == [a.done];
      } else {
        FailureLocks(entries, key, Streak(times), a);
      }
    } else if times != [] && a.done - Last(times) <= FORGET_AFTER {
      OthersKeepLock(entries, key, Streak(times), a);
    }
  }

  /** ... and the spacing. */
  lemma AttemptSpaced(entries: Entries, key: Key, times: seq<Time>, a: Attempt, at: Time)
    requires Guarded(entries, key, Streak(times), at) && Spaced(key, Streak(times))
    requires Admitted(entries, a) && at <= a.checked <= a.done
    ensures Spaced(key, Streak(MoreTimes(key, times, a)))
  {
    StreakMore(times, a.done);
    if Fails(key, a) && times != [] && a.done - Last(times) <= FORGET_AFTER {
      if |Streak(times)| >= Free(key) {
        AdmittedAfterLock(entries, key, Streak(times), a);
      }
      SpacedMore(key, Streak(times), a.done);
    }
  }

  lemma SpacedMore(key: Key, times: seq<Time>, t: Time)
    requires Spaced(key, times)
    requires |times| >= Free(key) ==> t - Last(times) > Delay(|times| - Free(key)) - ROUNDING
    ensures Spaced(key, times + [t])
  {
    var more := times + [t];
    forall i | Free(key) <= i < |more| ensures Gap(more, i) > Delay(i - Free(key)) - ROUNDING {
      assert i < |times| ==> Gap(more, i) == Gap(times, i);
    }
  }

  lemma RunPrefix(entries: Entries, key: Key, attempts: seq<Attempt>)
    requires attempts != [] && IsRun(entries, attempts) && NoSuccess(key, attempts)
    ensures var init := attempts[..|attempts| - 1];
            IsRun(entries, init) && NoSuccess(key, init)
  {
    var n := |attempts| - 1;
    var init := attempts[..n];
    forall i | 0 <= i < n ensures AdmittedAt(entries, init, i) {
      assert init[..i] == attempts[..i];
      assert AdmittedAt(entries, attempts, i);
    }
  }

  lemma RunLast(entries: Entries, key: Key, attempts: seq<Attempt>)
    requires attempts != [] && IsRun(entries, attempts) && NoSuccess(key, attempts)
    ensures var n := |attempts| - 1;
            && Admitted(After(entries, attempts[..n]), attempts[n]) && attempts[n].checked <= attempts[n].done
            && (attempts[n].succeeded ==> !Touches(key, attempts[n]))
            && (n > 0 ==> attempts[n - 1].done <= attempts[n].checked)
  {
    assert AdmittedAt(entries, attempts, |attempts| - 1);
  }

  /** The moment up to which a run has been followed; before any attempt, the next one. */
  function Followed(attempts: seq<Attempt>, next: Time): Time {
    if attempts == [] then next else attempts[|attempts| - 1].done
  }

  /** Whatever was stored before, in any run without a success of its own a key's
      failures past the free ones are spaced by the doubling delays, counting from when
      it was last left alone for more than an hour. */
  lemma {:induction false} FailuresSpaced(entries: Entries, key: Key, attempts: seq<Attempt>)
    requires IsRun(entries, attempts) && NoSuccess(key, attempts)
    ensures attempts != [] ==>
              Guarded(After(entries, attempts), key, Streak(FailureTimes(key, attempts)), attempts[|attempts| - 1].done)
    ensures Spaced(key, Streak(FailureTimes(key, attempts)))
  {
    if attempts != [] {
      var n := |attempts| - 1;
      var init, a := attempts[..n], attempts[n];
      RunPrefix(entries, key, attempts);
      RunLast(entries, key, attempts);
      FailuresSpaced(entries, key, init);
      var at := Followed(init, a.checked);
      AttemptGuarded(After(entries, init), key, FailureTimes(key, init), a, at);
      AttemptSpaced(After(entries, init), key, FailureTimes(key, init), a, at);
    }
  }

  /** The least time k further failures take after the free ones are used up. */
  function Backoff(k: nat): Time {
    if k == 0 then 0.0 else Backoff(k - 1) + Delay(k - 1) - ROUNDING
  }

  lemma {:induction false} SpacedSum(key: Key, times: seq<Time>, k: nat)
    requires Spaced(key, times) && 0 < k && Free(key) + k <= |times|
    ensures times[Free(key) + k - 1] - times[Free(key) - 1] > Backoff(k)
  {
    var f := Free(key);
    assert Gap(times, f + k - 1) > Delay(k - 1) - ROUNDING;
    if k > 1 {
      SpacedSum(key, times, k - 1);
    }
  }

  /** From the last free failure of a streak to the k-th after it takes longer than the
      sum of the doubling delays, each short of its last thousandth of a second. */
  lemma BackoffBound(entries: Entries, key: Key, attempts: seq<Attempt>, k: nat)
    requires IsRun(entries, attempts) && NoSuccess(key, attempts)
    requires 0 < k && Free(key) + k <= |Streak(FailureTimes(key, attempts))|
    ensures var streak := Streak(FailureTimes(key, attempts));
            streak[Free(key) + k - 1] - streak[Free(key) - 1] > Backoff(k)
  {
    FailuresSpaced(entries, key, attempts);
    SpacedSum(key, Streak(FailureTimes(key, attempts)), k);
  }

  /** The last gap of more than an hour comes right before `start`. */
  predicate BrokenAt(times: seq<Time>, start: nat) {
    && start <= |times| && (start == |times| ==> times == [])
    && (forall i :: start < i < |times| ==> Gap(times, i) <= FORGET_AFTER)
    && (0 < start < |times| ==> Gap(times, start) > FORGET_AFTER)
  }

  lemma BrokenBefore(times: seq<Time>, start: nat)
    requires |times| > 1 && Gap(times, |times| - 1) <= FORGET_AFTER && BrokenAt(times[..|times| - 1], start)
    ensures BrokenAt(times, start) && times[..|times| - 1][start..] + [Last(times)] == times[start..]
  {
    var n := |times| - 1;
    var init := times[..n];
    assert forall i :: 0 < i < n ==> Gap(init, i) == Gap(times, i);
  }

  /** A streak is the end of the failures, from the last gap of more than an hour on. */
  lemma {:induction false} StreakIsSuffix(times: seq<Time>) returns (start: nat)
    ensures BrokenAt(times, start) && Streak(times) == times[start..]
  {
    if |times| <= 1 {
      start := 0;
    } else {
      var n := |times| - 1;
      if Gap(times, n) > FORGET_AFTER {
        start := n;
      } else {
        start := StreakIsSuffix(times[..n]);
        BrokenBefore(times, start);
      }
    }
  }

  // The bound on guessing.

  predicate Within(attempts: seq<Attempt>, window: Time) {
    forall i, j :: 0 <= i < |attempts| && 0 <= j < |attempts| ==> attempts[i].done - attempts[j].done <= window
  }

  lemma {:induction false} FailureTimesDone(key: Key, attempts: seq<Attempt>)
    ensures forall t :: t in FailureTimes(key, attempts) ==> exists a :: a in attempts && a.done == t
  {
    if attempts != [] {
      var n := |attempts| - 1;
      FailureTimesDone(key, attempts[..n]);
      assert attempts == attempts[..n] + [attempts[n]];
      assert attempts[n] in attempts;
    }
  }

  lemma WindowTimes(key: Key, attempts: seq<Attempt>, i: nat, j: nat)
    requires Within(attempts, FORGET_AFTER)
    requires i < |FailureTimes(key, attempts)| && j < |FailureTimes(key, attempts)|
    ensures FailureTimes(key, attempts)[i] - FailureTimes(key, attempts)[j] <= FORGET_AFTER
  {
    var times := FailureTimes(key, attempts);
    FailureTimesDone(key, attempts);
    assert times[i] in times && times[j] in times;
    var a :| a in attempts && a.done == times[i];
    var b :| b in attempts && b.done == times[j];
  }

  /** Within an hour no failure starts a new streak. */
  lemma WindowStreak(key: Key, attempts: seq<Attempt>)
    requires Within(attempts, FORGET_AFTER)
    ensures Streak(FailureTimes(key, attempts)) == FailureTimes(key, attempts)
  {
    var times := FailureTimes(key, attempts);
    var start := StreakIsSuffix(times);
    if 0 < start < |times| {
      WindowTimes(key, attempts, start, start - 1);
    }
  }

  /** Eight delays in a row outlast the hour; seven do not. */
  lemma DelaysInAnHour() returns (k: nat)
    ensures k == 8 && Backoff(k - 1) < FORGET_AFTER < Backoff(k)
  {
    assert PowerOf2(2) == 4;
    assert PowerOf2(3) == 8;
    assert PowerOf2(4) == 16;
    assert PowerOf2(5) == 32;
    assert PowerOf2(6) == 64;
    assert PowerOf2(7) == 128;
    assert Backoff(2) == 90.0 - 0.002;
    assert Backoff(4) == 450.0 - 0.004;
    assert Backoff(6) == 1830.0 - 0.006;
    k := 8;
  }

  /** More failures than fit in the hour contradict the spacing. */
  lemma FewerThan(entries: Entries, key: Key, attempts: seq<Attempt>, k: nat)
    requires IsRun(entries, attempts) && NoSuccess(key, attempts) && Within(attempts, FORGET_AFTER)
    requires 0 < k && Backoff(k) > FORGET_AFTER
    ensures |FailureTimes(key, attempts)| < Free(key) + k
  {
    WindowStreak(key, attempts);
    if |FailureTimes(key, attempts)| >= Free(key) + k {
      BackoffBound(entries, key, attempts, k);
      WindowTimes(key, attempts, Free(key) + k - 1, Free(key) - 1);
    }
  }

  /** In any hour without a success of its own, a key is let through at most its free
      failures and seven more: 12 for an account, 27 for an address. */
  lemma FailuresPerHour(entries: Entries, key: Key, attempts: seq<Attempt>)
    requires IsRun(entries, attempts) && NoSuccess(key, attempts) && Within(attempts, FORGET_AFTER)
    ensures |FailureTimes(key, attempts)| <= if key.Account? then 12 else 27
  {
    var k := DelaysInAnHour();
    FewerThan(entries, key, attempts, k);
  }

  // What is stored, exactly.

  /** The entry of a key whose latest streak of failures is given. */
  function EntryFor(key: Key, streak: seq<Time>): Entry
    requires streak != []
  {
    Entry(|streak|, if |streak| < Free(key) then 0.0 else Last(streak) + Delay(|streak| - Free(key)), Last(streak))
  }

  /** The key has that entry; without one it has not failed, or not for over an hour. */
  predicate Recorded(entries: Entries, key: Key, times: seq<Time>, at: Time) {
    if key in entries then times != [] && entries[key] == EntryFor(key, Streak(times))
    else times == [] || at - Last(times) > FORGET_AFTER
  }

  lemma DelayBounds(n: nat)
    ensures 0.0 < Delay(n) <= 900.0
  {
    DelayMonotone(n, n);
  }

  /** Delays double from half a minute to a quarter of an hour. */
  lemma DelayDoubles(n: nat)
    ensures Delay(0) == 30.0
    ensures Delay(n + 1) == if 2.0 * Delay(n) < 900.0 then 2.0 * Delay(n) else 900.0
  {
    PowerMonotone(n, n);
  }

  /** A key left alone for more than an hour is not locked any more, and is forgotten
      before its next failure counts. */
  lemma IdleIsStale(key: Key, streak: seq<Time>, now: Time)
    requires streak != [] && 0.0 <= Last(streak)
    ensures IsStale(EntryFor(key, streak), now) <==> now - Last(streak) > FORGET_AFTER
  {
    if |streak| >= Free(key) {
      DelayBounds(|streak| - Free(key));
    }
  }

  /** One failure of the key. */
  lemma FailureRecorded(entries: Entries, key: Key, times: seq<Time>, a: Attempt, at: Time)
    requires Recorded(entries, key, times, at) && Fails(key, a) && at <= a.done
    requires times != [] ==> 0.0 <= Last(times)
    ensures Recorded(AfterFailure(entries, a.client, a.username, a.done), key, times + [a.done], a.done)
  {
    var streak, after := Streak(times), Streak(times + [a.done]);
    StreakMore(times, a.done);
    if key in entries {
      IdleIsStale(key, streak, a.done);
    }
    CountedOnce(entries, key, a);
  }

  /** The key an attempt touches counts its failure once: the two are never the same. */
  lemma CountedOnce(entries: Entries, key: Key, a: Attempt)
    requires Touches(key, a)
    ensures key in AfterFailure(entries, a.client, a.username, a.done)
    ensures var kept, after := Remembered(entries, a.done), AfterFailure(entries, a.client, a.username, a.done);
            after[key] == Counted(kept, key, a.done)[key]
  {
  }

  /** An attempt that does not touch the key, or succeeds elsewhere. */
  lemma OthersRecorded(entries: Entries, key: Key, times: seq<Time>, a: Attempt, at: Time)
    requires Recorded(entries, key, times, at) && !Touches(key, a) && at <= a.done
    requires times != [] ==> 0.0 <= Last(times)
    ensures Recorded(AfterAttempt(entries, a), key, times, a.done)
  {
    if key in entries {
      IdleIsStale(key, Streak(times), a.done);
    }
  }

  predicate NotBeforeStart(attempts: seq<Attempt>) {
    forall i :: 0 <= i < |attempts| ==> 0.0 <= attempts[i].done
  }

  lemma {:induction false} TimesFromStart(key: Key, attempts: seq<Attempt>)
    requires NotBeforeStart(attempts)
    ensures var times := FailureTimes(key, attempts); times != [] ==> 0.0 <= Last(times)
  {
    if attempts != [] {
      TimesFromStart(key, attempts[..|attempts| - 1]);
    }
  }

  /** In any run without a success of its own, from when it had no entry, a key's entry is
      told exactly by its failures: how many in a row, none of them locking it up to the
      free ones, and the delay due past them; an hour alone and they count no more. */
  lemma {:induction false} EntryExactly(entries: Entries, key: Key, attempts: seq<Attempt>)
    requires key !in entries && IsRun(entries, attempts) && NoSuccess(key, attempts) && NotBeforeStart(attempts)
    ensures attempts != [] ==>
              Recorded(After(entries, attempts), key, FailureTimes(key, attempts), attempts[|attempts| - 1].done)
  {
    if attempts != [] {
      var n := |attempts| - 1;
      var init, a := attempts[..n], attempts[n];
      RunPrefix(entries, key, attempts);
      RunLast(entries, key, attempts);
      EntryExactly(entries, key, init);
      TimesFromStart(key, init);
      var at := Followed(init, a.checked);
      if Fails(key, a) {
        FailureRecorded(After(entries, init), key, FailureTimes(key, init), a, at);
      } else {
        OthersRecorded(After(entries, init), key, FailureTimes(key, init), a, at);
      }
    }
  }

  /** So the free failures lock nobody out. */
  lemma FreeFailuresDoNotLock(entries: Entries, key: Key, attempts: seq<Attempt>, now: Time)
    requires key !in entries && IsRun(entries, attempts) && NoSuccess(key, attempts) && NotBeforeStart(attempts)
    requires |FailureTimes(key, attempts)| < (if key.Account? then 5 else 20) && 0.0 <= now
    ensures key in After(entries, attempts) ==> After(entries, attempts)[key].lockedUntil <= now
  {
    EntryExactly(entries, key, attempts);
  }

  /** A success clears both keys of the attempt, and no other: nothing is left to wait. */
  lemma SuccessClears(entries: Entries, client: string, username: string, now: Time, key: Key)
    ensures SecondsLeft(Wait(AfterSuccess(entries, client, username), now, client, username)) == 0
    ensures var after := AfterSuccess(entries, client, username);
            if key == Account(client, Lower(Strip(username))) || key == Client(client) then key !in after
            else (key in after <==> key in entries) && (key in after ==> after[key] == entries[key])
  {
  }
}
