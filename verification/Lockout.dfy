/** Failed logins per key: a sliding window of failures and lockouts that grow. Times are milliseconds. */
module Lockout {
  import opened Numbering

  const MAX_FAILED_ATTEMPTS: nat := 5
  const FAILURE_WINDOW_MS: nat := 15 * 60_000
  const BASE_LOCKOUT_MS: nat := 15 * 60_000
  const MAX_LOCKOUT_MS: nat := 60 * 60_000
  const MAX_TRACKED_KEYS: nat := 10_000

  datatype Record = Record(failures: seq<nat>, lockedUntil: nat, lockouts: nat, lastActivity: nat)

  function Doubled(base: nat, times: nat): nat {
    if times == 0 then base else 2 * Doubled(base, times - 1)
  }

  function LockoutDurationMs(previous: nat): nat {
    if Doubled(BASE_LOCKOUT_MS, previous) < MAX_LOCKOUT_MS then Doubled(BASE_LOCKOUT_MS, previous) else MAX_LOCKOUT_MS
  }

  lemma {:induction false} DoubledGrows(base: nat, times: nat)
    ensures Doubled(base, times) >= base
  {
    if times > 0 {
      DoubledGrows(base, times - 1);
    }
  }

  // Every lockout lasts at least as long as the one before it: 15, 30, then 60 minutes.
  lemma LockoutsGrow(previous: nat)
    ensures FAILURE_WINDOW_MS <= LockoutDurationMs(previous) <= LockoutDurationMs(previous + 1) <= MAX_LOCKOUT_MS
    ensures LockoutDurationMs(0) == 15 * 60_000 && LockoutDurationMs(1) == 30 * 60_000
    ensures previous >= 2 ==> LockoutDurationMs(previous) == 60 * 60_000
  {
    DoubledGrows(BASE_LOCKOUT_MS, previous);
    assert Doubled(BASE_LOCKOUT_MS, 1) == 2 * Doubled(BASE_LOCKOUT_MS, 0);
    if previous >= 2 {
      DoubledGrows(BASE_LOCKOUT_MS, previous - 2);
    }
  }

  // ---------- one key ----------

  predicate Stale(r: Record, now: nat) {
    var quietSince := if r.lockedUntil > r.lastActivity then r.lockedUntil else r.lastActivity;
    now - quietSince >= MAX_LOCKOUT_MS
  }

  // The failures still inside the window.
  function Recent(failures: seq<nat>, now: nat): seq<nat> {
    if failures == [] then []
    else (if now - failures[0] < FAILURE_WINDOW_MS then [failures[0]] else []) + Recent(failures[1..], now)
  }

  function Known(r: Option<Record>, now: nat): Record {
    if r.Some? && !Stale(r.value, now) then r.value else Record([], 0, 0, now)
  }

  function Failed(r: Option<Record>, now: nat): Record {
    var known := Known(r, now);
    var failures := Recent(known.failures, now) + [now];
    if |failures| >= MAX_FAILED_ATTEMPTS
    then Record([], now + LockoutDurationMs(known.lockouts), known.lockouts + 1, now)
    else Record(failures, known.lockedUntil, known.lockouts, now)
  }

  predicate Locked(r: Option<Record>, now: nat) {
    (if r.Some? then r.value.lockedUntil else 0) > now
  }

  // ---------- at most five failures in a window, unless the key is locked already ----------

  // A key's record after failures at these times, none forgotten by a success.
  function RecordAfter(times: seq<nat>): Option<Record> {
    if times == [] then None else Some(Failed(RecordAfter(times[..|times| - 1]), times[|times| - 1]))
  }

  predicate Ascending(times: seq<nat>) {
    forall i, k :: 0 <= i < k < |times| ==> times[i] <= times[k]
  }

  // The n-th failure found the key locked: it was registered all the same.
  predicate FoundLocked(times: seq<nat>, n: nat)
    requires n < |times|
  {
    Locked(RecordAfter(times[..n]), times[n])
  }

  // Five failures before it inside a window, so the sixth finds the key locked.
  predicate SixthFindsItLocked(times: seq<nat>) {
    forall n :: 5 <= n < |times| && times[n] - times[n - 5] < FAILURE_WINDOW_MS ==> FoundLocked(times, n)
  }

  // Since the `from`-th failure the window was never full. The failure before it locked the key for at
  // least a window, or came a window earlier.
  predicate Since(times: seq<nat>, from: nat, r: Record) {
    && from <= |times| && times != []
    && r.lastActivity == times[|times| - 1]
    && r.failures == Recent(times[from..], times[|times| - 1])
    && (from == 0 || r.lockedUntil >= times[from - 1] + FAILURE_WINDOW_MS
        || (from < |times| && times[from] - times[from - 1] >= FAILURE_WINDOW_MS))
    && (forall i :: from <= i < |times| - 4 ==> times[i + 4] - times[i] >= FAILURE_WINDOW_MS)
  }

  lemma {:induction false} RecentOfTwo(a: seq<nat>, b: seq<nat>, now: nat)
    ensures Recent(a + b, now) == Recent(a, now) + Recent(b, now)
  {
    if a == [] {
      assert a + b == b;
    } else {
      assert (a + b)[1..] == a[1..] + b;
      RecentOfTwo(a[1..], b, now);
    }
  }

  // Forgetting at an earlier instant first changes nothing.
  lemma {:induction false} RecentAgain(failures: seq<nat>, earlier: nat, now: nat)
    requires earlier <= now
    ensures Recent(Recent(failures, earlier), now) == Recent(failures, now)
  {
    if failures != [] {
      RecentAgain(failures[1..], earlier, now);
      RecentOfTwo(if earlier - failures[0] < FAILURE_WINDOW_MS then [failures[0]] else [], Recent(failures[1..], earlier), now);
    }
  }

  lemma {:induction false} AllRecent(failures: seq<nat>, now: nat)
    requires forall i :: 0 <= i < |failures| ==> now - failures[i] < FAILURE_WINDOW_MS
    ensures Recent(failures, now) == failures
  {
    if failures != [] {
      AllRecent(failures[1..], now);
    }
  }

  // A window that is not full leaves no five failures inside it.
  lemma NotFull(times: seq<nat>, from: nat, i: nat)
    requires from <= i && i + 5 == |times| && Ascending(times)
    requires |Recent(times[from..], times[|times| - 1])| < MAX_FAILED_ATTEMPTS
    ensures times[i + 4] - times[i] >= FAILURE_WINDOW_MS
  {
    var now := times[|times| - 1];
    if now - times[i] < FAILURE_WINDOW_MS {
      assert times[from..] == times[from..i] + times[i..];
      RecentOfTwo(times[from..i], times[i..], now);
      AllRecent(times[i..], now);
      assert false;
    }
  }

  // One more failure on a key that has not started over.
  lemma OneMoreFailure(times: seq<nat>, from: nat, r: Record, now: nat) returns (next: nat)
    requires Since(times, from, r) && !Stale(r, now) && Ascending(times + [now])
    ensures Since(times + [now], next, Failed(Some(r), now))
  {
    hide Recent, LockoutDurationMs;
    var all := times + [now];
    assert all[|times| - 1] <= all[|times|];
    WindowGrows(times, from, r, now);
    LockoutsGrow(r.lockouts);
    var failures := Recent(r.failures, now) + [now];
    if |failures| >= MAX_FAILED_ATTEMPTS {
      next := |all|;
      assert all[next..] == [];
      NothingRecent(now);
    } else {
      next := from;
      if from <= |times| - 4 {
        NotFull(all, from, |times| - 4);
      }
      StillSince(times, from, r, now);
    }
  }

  lemma WindowGrows(times: seq<nat>, from: nat, r: Record, now: nat)
    requires Since(times, from, r) && times[|times| - 1] <= now
    ensures Recent(r.failures, now) + [now] == Recent((times + [now])[from..], now)
  {
    RecentAgain(times[from..], times[|times| - 1], now);
    RecentOfTwo(times[from..], [now], now);
    AllRecent([now], now);
    assert (times + [now])[from..] == times[from..] + [now];
  }

  lemma StillSince(times: seq<nat>, from: nat, r: Record, now: nat)
    requires Since(times, from, r) && !Stale(r, now)
    requires Recent(r.failures, now) + [now] == Recent((times + [now])[from..], now)
    requires |Recent(r.failures, now)| + 1 < MAX_FAILED_ATTEMPTS
    requires from <= |times| - 4 ==> now - times[|times| - 4] >= FAILURE_WINDOW_MS
    ensures Since(times + [now], from, Failed(Some(r), now))
  {
    hide Recent, LockoutDurationMs;
    var all := times + [now];
    forall i | from <= i < |all| - 4
      ensures all[i + 4] - all[i] >= FAILURE_WINDOW_MS
    {
      if i + 4 < |times| {
        assert times[i + 4] - times[i] >= FAILURE_WINDOW_MS;
      }
    }
  }

  lemma NothingRecent(now: nat)
    ensures Recent([], now) == []
  {
  }

  lemma FirstFailure(times: seq<nat>, now: nat, r: Option<Record>)
    requires r.None? || Stale(r.value, now)
    requires times != [] ==> now - times[|times| - 1] >= FAILURE_WINDOW_MS
    ensures Since(times + [now], |times|, Failed(r, now))
  {
    var all := times + [now];
    assert all[|times|..] == [now];
    AllRecent([now], now);
    NothingRecent(now);
  }

  lemma RecordNext(times: seq<nat>, now: nat)
    ensures RecordAfter(times + [now]) == Some(Failed(RecordAfter(times), now))
    ensures RecordAfter(times).None? <==> times == []
  {
    assert (times + [now])[..|times|] == times;
  }

  lemma QuietForLong(times: seq<nat>, from: nat, r: Record, now: nat)
    requires Since(times, from, r) && Stale(r, now)
    ensures now - times[|times| - 1] >= FAILURE_WINDOW_MS
  {
  }

  lemma AscendingFront(times: seq<nat>)
    requires Ascending(times) && times != []
    ensures Ascending(times[..|times| - 1])
  {
  }

  lemma {:induction false} RecordSince(times: seq<nat>) returns (from: nat)
    requires Ascending(times) && times != []
    ensures RecordAfter(times).Some? && Since(times, from, RecordAfter(times).value)
  {
    hide RecordAfter, Failed, Stale, Since, Recent, Ascending;
    var n := |times| - 1;
    var front, now := times[..n], times[n];
    assert times == front + [now];
    RecordNext(front, now);
    AscendingFront(times);
    if front == [] {
      FirstFailure(front, now, RecordAfter(front));
      from := 0;
    } else {
      var before := RecordSince(front);
      var r := RecordAfter(front).value;
      if Stale(r, now) {
        QuietForLong(front, before, r, now);
        FirstFailure(front, now, Some(r));
        from := n;
      } else {
        from := OneMoreFailure(front, before, r, now);
      }
    }
  }

  lemma FiveLock(times: seq<nat>, from: nat, r: Record, now: nat)
    requires Since(times, from, r) && Ascending(times + [now])
    requires |times| >= 5 && now - times[|times| - 5] < FAILURE_WINDOW_MS
    ensures Locked(Some(r), now)
  {
    var all := times + [now];
    var n := |times|;
    assert all[n - 1] <= all[n];
    assert from - 1 == n - 5 || all[n - 5] <= all[from - 1];
    if from < n {
      assert all[from] <= all[n];
    }
  }

  // Whatever the history: of six failures inside a window, the sixth finds the key locked.
  lemma AnySixthFindsItLocked(times: seq<nat>)
    requires Ascending(times)
    ensures SixthFindsItLocked(times)
  {
    hide RecordAfter, Since, Locked;
    forall n | 5 <= n < |times| && times[n] - times[n - 5] < FAILURE_WINDOW_MS
      ensures FoundLocked(times, n)
    {
      var front := times[..n];
      assert Ascending(front) && front + [times[n]] == times[..n + 1];
      var from := RecordSince(front);
      FiveLock(front, from, RecordAfter(front).value, times[n]);
    }
  }

  // In any span shorter than the window all failures but the first five find the key locked.
  lemma AllButFiveFindItLocked(times: seq<nat>, first: nat, last: nat)
    requires Ascending(times) && first <= last < |times|
    requires times[last] - times[first] < FAILURE_WINDOW_MS
    ensures forall n :: first + MAX_FAILED_ATTEMPTS <= n <= last ==> FoundLocked(times, n)
  {
    hide FoundLocked;
    AnySixthFindsItLocked(times);
    forall n | first + MAX_FAILED_ATTEMPTS <= n <= last
      ensures FoundLocked(times, n)
    {
      assert times[n] <= times[last] && times[first] <= times[n - 5];
    }
  }

  // No span shorter than the window holds more than five.
  predicate AtMostFive(times: seq<nat>) {
    forall first, last :: 0 <= first <= last < |times| && times[last] - times[first] < FAILURE_WINDOW_MS
      ==> last - first + 1 <= MAX_FAILED_ATTEMPTS
  }

  // No span shorter than the window holds more than five failures if and only if no failure that finds
  // the key locked comes less than a window after the fifth before it.
  lemma AtMostFiveIff(times: seq<nat>)
    requires Ascending(times)
    ensures AtMostFive(times)
       <==> forall n :: 5 <= n < |times| && FoundLocked(times, n) ==> times[n] - times[n - 5] >= FAILURE_WINDOW_MS
  {
    hide FoundLocked;
    AnySixthFindsItLocked(times);
    if forall n :: 5 <= n < |times| && FoundLocked(times, n) ==> times[n] - times[n - 5] >= FAILURE_WINDOW_MS {
      forall first, last | 0 <= first < |times| && first + 5 <= last < |times|
        ensures times[last] - times[first] >= FAILURE_WINDOW_MS
      {
        assert times[first] <= times[last - 5];
      }
    }
  }

  // When every failure is counted while the key is not locked, no span shorter than the window holds
  // more than five.
  lemma AtMostFiveInAWindow(times: seq<nat>)
    requires Ascending(times) && forall n :: 0 <= n < |times| ==> !FoundLocked(times, n)
    ensures AtMostFive(times)
  {
    hide FoundLocked;
    AtMostFiveIff(times);
  }

  // Fewer than five failures never lock.
  lemma {:induction false} FewFailuresDoNotLock(times: seq<nat>, now: nat)
    requires |times| < MAX_FAILED_ATTEMPTS
    ensures !Locked(RecordAfter(times), now)
    ensures times != [] ==> RecordAfter(times).value.lockedUntil == 0 && RecordAfter(times).value.lockouts == 0
                            && |RecordAfter(times).value.failures| <= |times|
  {
    if times != [] {
      var n := |times| - 1;
      FewFailuresDoNotLock(times[..n], now);
      if n > 0 {
        RecentIsFewer(RecordAfter(times[..n]).value.failures, times[n]);
      }
    }
  }

  lemma {:induction false} RecentIsFewer(failures: seq<nat>, now: nat)
    ensures |Recent(failures, now)| <= |failures|
  {
    if failures != [] {
      RecentIsFewer(failures[1..], now);
    }
  }

  lemma WindowTakesOneMore(failures: seq<nat>, last: nat, now: nat)
    requires |failures| < MAX_FAILED_ATTEMPTS - 1 && last <= now < last + FAILURE_WINDOW_MS
    requires forall i :: 0 <= i < |failures| ==> now - failures[i] < FAILURE_WINDOW_MS
    ensures Failed(Some(Record(failures, 0, 0, last)), now) == Record(failures + [now], 0, 0, now)
  {
    AllRecent(failures, now);
  }

  lemma {:induction false} WindowFills(times: seq<nat>)
    requires 0 < |times| < MAX_FAILED_ATTEMPTS && Ascending(times)
    requires times[|times| - 1] - times[0] < FAILURE_WINDOW_MS
    ensures RecordAfter(times) == Some(Record(times, 0, 0, times[|times| - 1]))
  {
    hide Failed;
    var n := |times| - 1;
    var front := times[..n];
    assert times == front + [times[n]];
    if n > 0 {
      WindowFills(front);
      WindowTakesOneMore(front, times[n - 1], times[n]);
    } else {
      OneFailure(times[0]);
      assert RecordAfter(front) == None;
    }
  }

  lemma OneFailure(now: nat)
    ensures Failed(None, now) == Record([now], 0, 0, now)
  {
    NothingRecent(now);
  }

  // The fifth failure inside the window locks the key for exactly fifteen minutes.
  lemma FifthFailureLocks(times: seq<nat>, now: nat)
    requires |times| == MAX_FAILED_ATTEMPTS && Ascending(times)
    requires times[4] - times[0] < FAILURE_WINDOW_MS && times[4] <= now
    ensures Locked(RecordAfter(times), now) <==> now < times[4] + FAILURE_WINDOW_MS
  {
    hide Doubled;
    WindowFills(times[..4]);
    AllRecent(times[..4], times[4]);
    LockoutsGrow(0);
  }

  lemma {:induction false} RecentIsSuffix(failures: seq<nat>, now: nat) returns (k: nat)
    requires Ascending(failures) && forall i :: 0 <= i < |failures| ==> failures[i] <= now
    ensures k <= |failures| && Recent(failures, now) == failures[k..]
    ensures forall i :: k <= i < |failures| ==> now - failures[i] < 15 * 60_000
  {
    if failures == [] {
      k := 0;
    } else if now - failures[0] < 15 * 60_000 {
      AllRecent(failures, now);
      k := 0;
    } else {
      var rest := RecentIsSuffix(failures[1..], now);
      k := rest + 1;
      assert failures[k..] == failures[1..][rest..];
    }
  }

  // Failures of which no five fall within a quarter of an hour never lock the key, however many there are.
  lemma {:induction false} SpreadFailuresDoNotLock(times: seq<nat>, now: nat) returns (from: nat)
    requires times != [] && Ascending(times) && forall i :: 0 <= i < |times| - 4 ==> times[i + 4] - times[i] >= 15 * 60_000
    ensures |times| - 4 <= from < |times| && RecordAfter(times) == Some(Record(times[from..], 0, 0, times[|times| - 1]))
    ensures !Locked(RecordAfter(times), now)
  {
    hide Recent, RecordAfter, Failed;
    var n := |times| - 1;
    assert times == times[..n] + [times[n]];
    RecordNext(times[..n], times[n]);
    if n == 0 {
      OneFailure(times[0]);
      from := 0;
    } else {
      var before := SpreadFailuresDoNotLock(times[..n], now);
      assert times[..n][before..] == times[before..n];
      assert n >= 4 ==> times[n - 4 + 4] - times[n - 4] >= 15 * 60_000;
      from := OneMoreSpread(times[before..n], times[n], times[n - 1]);
      from := before + from;
      assert (times[before..n] + [times[n]])[from - before..] == times[from..];
    }
  }

  // One more failure, after at most four of which the first is out of the window if they are four.
  lemma OneMoreSpread(failures: seq<nat>, now: nat, last: nat) returns (from: nat)
    requires 0 < |failures| <= 4 && Ascending(failures + [now])
    requires |failures| == 4 ==> now - failures[0] >= 15 * 60_000
    ensures |failures| - 3 <= from <= |failures|
    ensures Failed(Some(Record(failures, 0, 0, last)), now) == Record((failures + [now])[from..], 0, 0, now)
  {
    hide Recent, LockoutDurationMs, Stale;
    var r, all := Record(failures, 0, 0, last), failures + [now];
    forall i | 0 <= i < |failures|
      ensures failures[i] <= now
    {
      assert all[i] <= all[|failures|];
    }
    assert Ascending(failures) by {
      AscendingFront(all);
      assert all[..|failures|] == failures;
    }
    if Stale(r, now) {
      OneFailure(now);
      from := |failures|;
      StaleStartsOver(r, now);
    } else {
      from := RecentIsSuffix(failures, now);
      assert failures[from..] + [now] == all[from..];
    }
  }

  lemma StaleStartsOver(r: Record, now: nat)
    requires Stale(r, now)
    ensures Failed(Some(r), now) == Failed(None, now)
  {
  }

  // ---------- lockouts in a row ----------

  // How long each lockout in a row lasts.
  function LockoutMinutes(previous: nat): nat {
    if previous == 0 then 15 else if previous == 1 then 30 else 60
  }

  // Rounds of five failures, each within a quarter of an hour, and each begun less than an hour after the
  // lockout of the round before it was over.
  predicate RoundsInARow(times: seq<nat>, rounds: nat) {
    && |times| == 5 * rounds && Ascending(times)
    && (forall i :: 0 <= i < rounds ==> times[5 * i + 4] - times[5 * i] < 15 * 60_000)
    && (forall i :: 1 <= i < rounds ==> times[5 * i] < times[5 * i - 1] + LockoutMinutes(i - 1) * 60_000 + 60 * 60_000)
  }

  lemma LockoutLasts(previous: nat)
    ensures LockoutDurationMs(previous) == LockoutMinutes(previous) * 60_000
  {
    hide Doubled;
    LockoutsGrow(previous);
  }

  lemma NotStaleInRound(r: Record, now: nat)
    requires now - r.lastActivity < 15 * 60_000
    ensures !Stale(r, now)
  {
  }

  lemma RoundTakesOneMore(r: Record, now: nat)
    requires !Stale(r, now) && forall i :: 0 <= i < |r.failures| ==> now - r.failures[i] < FAILURE_WINDOW_MS
    ensures Failed(Some(r), now)
         == if |r.failures| >= 4 then Record([], now + LockoutMinutes(r.lockouts) * 60_000, r.lockouts + 1, now)
            else Record(r.failures + [now], r.lockedUntil, r.lockouts, now)
  {
    hide Stale, LockoutDurationMs;
    AllRecent(r.failures, now);
    LockoutLasts(r.lockouts);
  }

  lemma {:induction false} RoundFills(before: seq<nat>, r: Record, round: seq<nat>)
    requires RecordAfter(before) == Some(r) && r.failures == [] && 0 < |round| < 5 && Ascending(round)
    requires round[|round| - 1] - round[0] < 15 * 60_000 && !Stale(r, round[0])
    ensures RecordAfter(before + round) == Some(Record(round, r.lockedUntil, r.lockouts, round[|round| - 1]))
  {
    hide Failed, Stale, LockoutMinutes;
    var n := |round| - 1;
    assert before + round == (before + round[..n]) + [round[n]];
    RecordNext(before + round[..n], round[n]);
    if n == 0 {
      assert before + round[..0] == before;
      RoundTakesOneMore(r, round[0]);
      assert r.failures + [round[0]] == round;
    } else {
      RoundFills(before, r, round[..n]);
      var filled := Record(round[..n], r.lockedUntil, r.lockouts, round[n - 1]);
      NotStaleInRound(filled, round[n]);
      RoundTakesOneMore(filled, round[n]);
      assert round == round[..n] + [round[n]];
    }
  }

  lemma RoundLocks(before: seq<nat>, r: Record, round: seq<nat>)
    requires RecordAfter(before) == Some(r) && r.failures == [] && |round| == 5 && Ascending(round)
    requires round[4] - round[0] < 15 * 60_000 && !Stale(r, round[0])
    ensures RecordAfter(before + round)
         == Some(Record([], round[4] + LockoutMinutes(r.lockouts) * 60_000, r.lockouts + 1, round[4]))
  {
    hide Failed, Stale, LockoutMinutes, RecordAfter;
    RoundFills(before, r, round[..4]);
    var filled := Record(round[..4], r.lockedUntil, r.lockouts, round[3]);
    NotStaleInRound(filled, round[4]);
    RoundTakesOneMore(filled, round[4]);
    assert before + round == (before + round[..4]) + [round[4]];
    RecordNext(before + round[..4], round[4]);
  }

  // A first round, on a key that has no record.
  lemma FirstRoundLocks(round: seq<nat>)
    requires |round| == 5 && Ascending(round) && round[4] - round[0] < 15 * 60_000
    ensures RecordAfter(round) == Some(Record([], round[4] + 15 * 60_000, 1, round[4]))
  {
    hide Failed, Stale, RecordAfter;
    WindowFills(round[..4]);
    var filled := Record(round[..4], 0, 0, round[3]);
    NotStaleInRound(filled, round[4]);
    RoundTakesOneMore(filled, round[4]);
    assert round == round[..4] + [round[4]];
    RecordNext(round[..4], round[4]);
  }

  lemma {:induction false} RoundsRecord(times: seq<nat>, rounds: nat)
    requires rounds > 0 && RoundsInARow(times, rounds)
    ensures RecordAfter(times)
         == Some(Record([], times[5 * rounds - 1] + LockoutMinutes(rounds - 1) * 60_000, rounds, times[5 * rounds - 1]))
  {
    hide RecordAfter, LockoutMinutes;
    if rounds == 1 {
      FirstRoundLocks(times);
      assert LockoutMinutes(0) == 15 by { LockoutLasts(0); LockoutsGrow(0); }
    } else {
      var n := 5 * (rounds - 1);
      var before, round := times[..n], times[n..];
      assert times == before + round;
      assert RoundsInARow(before, rounds - 1);
      RoundsRecord(before, rounds - 1);
      var r := Record([], times[n - 1] + LockoutMinutes(rounds - 2) * 60_000, rounds - 1, times[n - 1]);
      assert times[5 * (rounds - 1)] == round[0] && times[5 * (rounds - 1) + 4] == round[4];
      RoundLocks(before, r, round);
    }
  }

  // However many rounds there are in a row, the last one locks the key for exactly 15 minutes if it is the
  // first, 30 if it is the second and 60 from the third on.
  lemma RoundsLock(times: seq<nat>, rounds: nat, now: nat)
    requires rounds > 0 && RoundsInARow(times, rounds) && times[5 * rounds - 1] <= now
    ensures Locked(RecordAfter(times), now)
       <==> now < times[5 * rounds - 1] + (if rounds == 1 then 15 else if rounds == 2 then 30 else 60) * 60_000
  {
    hide RecordAfter;
    RoundsRecord(times, rounds);
  }

  // After an hour unlocked and quiet the key starts over: what follows counts as if nothing had come before.
  lemma {:induction false} QuietHourStartsOver(times: seq<nat>, later: seq<nat>)
    requires times != [] && later != [] && RecordAfter(times).Some?
    requires RecordAfter(times).value.lastActivity + 60 * 60_000 <= later[0]
    requires RecordAfter(times).value.lockedUntil + 60 * 60_000 <= later[0]
    ensures RecordAfter(times + later) == RecordAfter(later)
  {
    hide Recent, LockoutDurationMs, RecordAfter;
    var n := |later| - 1;
    assert later == later[..n] + [later[n]];
    assert times + later == (times + later[..n]) + [later[n]];
    RecordNext(times + later[..n], later[n]);
    RecordNext(later[..n], later[n]);
    if n == 0 {
      assert times + later[..0] == times && later[..0] == [];
      RecordNext([], later[0]);
      StartsOver(RecordAfter(times), later[0]);
    } else {
      QuietHourStartsOver(times, later[..n]);
    }
  }

  lemma StartsOver(r: Option<Record>, now: nat)
    requires r.Some? && r.value.lastActivity + 60 * 60_000 <= now && r.value.lockedUntil + 60 * 60_000 <= now
    ensures Failed(r, now) == Failed(None, now)
  {
  }
}
