/** The tracker of failed logins: a map of keys that is pruned, and the one that is never pruned it
    answers like. */
module LoginAttempts {
  import opened Numbering
  import opened Lockout

  function RecordOf(records: map<string, Record>, key: string): Option<Record> {
    if key in records then Some(records[key]) else None
  }

  predicate IsLocked(records: map<string, Record>, keys: seq<string>, now: nat) {
    exists i :: 0 <= i < |keys| && Locked(RecordOf(records, keys[i]), now)
  }

  function Failures(records: map<string, Record>, keys: seq<string>, now: nat): map<string, Record> {
    if keys == [] then records
    else
      var before := Failures(records, keys[..|keys| - 1], now);
      before[keys[|keys| - 1] := Failed(RecordOf(before, keys[|keys| - 1]), now)]
  }

  function Forgotten(records: map<string, Record>, keys: seq<string>): map<string, Record> {
    map key | key in records && key !in keys :: records[key]
  }

  function Pruned(records: map<string, Record>, now: nat): map<string, Record> {
    if |records| < MAX_TRACKED_KEYS then records
    else map key | key in records && !Stale(records[key], now) :: records[key]
  }

  datatype Event = Failure(keys: seq<string>, now: nat) | Success(keys: seq<string>, now: nat)

  function Exec(records: map<string, Record>, e: Event, prune: bool): map<string, Record> {
    match e
    case Failure(keys, now) => Failures(if prune then Pruned(records, now) else records, keys, now)
    case Success(keys, now) => Forgotten(records, keys)
  }

  function Run(events: seq<Event>, prune: bool): map<string, Record> {
    if events == [] then map[] else Exec(Run(events[..|events| - 1], prune), events[|events| - 1], prune)
  }

  predicate ClockRuns(events: seq<Event>) {
    forall i, k :: 0 <= i < k < |events| ==> events[i].now <= events[k].now
  }

  // ---------- pruning changes no answer ----------

  // The pruned tracker has what the other has, except for keys that start over anyway.
  ghost predicate Agree(pruned: map<string, Record>, whole: map<string, Record>, now: nat) {
    forall key ::
      && (key in pruned ==> key in whole && pruned[key] == whole[key])
      && (key in whole && key !in pruned ==> Stale(whole[key], now))
  }

  lemma AgreeOnFailure(pruned: map<string, Record>, whole: map<string, Record>, key: string, now: nat)
    requires Agree(pruned, whole, now)
    ensures Failed(RecordOf(pruned, key), now) == Failed(RecordOf(whole, key), now)
  {
    assert Known(RecordOf(pruned, key), now) == Known(RecordOf(whole, key), now);
  }

  lemma {:induction false} AgreeAfterFailures(pruned: map<string, Record>, whole: map<string, Record>, keys: seq<string>, now: nat)
    requires Agree(pruned, whole, now)
    ensures Agree(Failures(pruned, keys, now), Failures(whole, keys, now), now)
  {
    hide Stale, Failed;
    if keys != [] {
      AgreeAfterFailures(pruned, whole, keys[..|keys| - 1], now);
      AgreeOnFailure(Failures(pruned, keys[..|keys| - 1], now), Failures(whole, keys[..|keys| - 1], now), keys[|keys| - 1], now);
    }
  }

  lemma AgreeLater(pruned: map<string, Record>, whole: map<string, Record>, earlier: nat, now: nat)
    requires Agree(pruned, whole, earlier) && earlier <= now
    ensures Agree(pruned, whole, now) && Agree(Pruned(pruned, now), whole, now)
  {
  }

  lemma {:induction false} RunsAgree(events: seq<Event>, now: nat)
    requires ClockRuns(events) && forall i :: 0 <= i < |events| ==> events[i].now <= now
    ensures Agree(Run(events, true), Run(events, false), now)
  {
    hide Agree, Pruned;
    if events == [] {
      NothingToPrune(now);
    } else {
      var n := |events| - 1;
      var e := events[n];
      var pruned, whole := Run(events[..n], true), Run(events[..n], false);
      RunsAgree(events[..n], e.now);
      if e.Failure? {
        AgreeLater(pruned, whole, e.now, e.now);
        AgreeAfterFailures(Pruned(pruned, e.now), whole, e.keys, e.now);
      } else {
        AgreeAfterSuccess(pruned, whole, e.keys, e.now);
      }
      AgreeLater(Run(events, true), Run(events, false), e.now, now);
    }
  }

  lemma NothingToPrune(now: nat)
    ensures Agree(map[], map[], now)
  {
  }

  lemma AgreeAfterSuccess(pruned: map<string, Record>, whole: map<string, Record>, keys: seq<string>, now: nat)
    requires Agree(pruned, whole, now)
    ensures Agree(Forgotten(pruned, keys), Forgotten(whole, keys), now)
  {
  }

  // After any history, a tracker that prunes answers every isLocked as one that never does.
  lemma PruningChangesNoAnswer(events: seq<Event>, keys: seq<string>, now: nat)
    requires ClockRuns(events) && forall i :: 0 <= i < |events| ==> events[i].now <= now
    ensures IsLocked(Run(events, true), keys, now) <==> IsLocked(Run(events, false), keys, now)
  {
    hide Run;
    RunsAgree(events, now);
    var pruned, whole := Run(events, true), Run(events, false);
    forall i | 0 <= i < |keys|
      ensures Locked(RecordOf(pruned, keys[i]), now) <==> Locked(RecordOf(whole, keys[i]), now)
    {
    }
  }

  // ---------- one key's record ----------

  // When a key's failures were counted since its last success.
  function TimesOf(events: seq<Event>, key: string): seq<nat> {
    if events == [] then []
    else
      var before := TimesOf(events[..|events| - 1], key);
      match events[|events| - 1]
      case Failure(keys, now) => if key in keys then before + [now] else before
      case Success(keys, now) => if key in keys then [] else before
  }

  predicate Distinct(keys: seq<string>) {
    forall i, k :: 0 <= i < k < |keys| ==> keys[i] != keys[k]
  }

  // No failure counts a key twice.
  predicate KeysDiffer(events: seq<Event>) {
    forall e :: e in events && e.Failure? ==> Distinct(e.keys)
  }

  lemma {:induction false} FailuresOfKey(records: map<string, Record>, keys: seq<string>, now: nat, key: string)
    requires Distinct(keys)
    ensures RecordOf(Failures(records, keys, now), key) == if key in keys then Some(Failed(RecordOf(records, key), now)) else RecordOf(records, key)
  {
    hide Failed;
    if keys != [] {
      var n := |keys| - 1;
      FailuresOfKey(records, keys[..n], now, key);
      assert keys == keys[..n] + [keys[n]];
      if key == keys[n] {
        assert key !in keys[..n];
      }
    }
  }

  // A tracker that never prunes keeps for each key the record of its own failures.
  lemma {:induction false} RecordIsOfItsTimes(events: seq<Event>, key: string)
    requires KeysDiffer(events)
    ensures RecordOf(Run(events, false), key) == RecordAfter(TimesOf(events, key))
  {
    hide Failed, IsLocked;
    if events != [] {
      var n := |events| - 1;
      RecordIsOfItsTimes(events[..n], key);
      if events[n].Failure? {
        var times := TimesOf(events[..n], key);
        assert events[n] in events;
        FailuresOfKey(Run(events[..n], false), events[n].keys, events[n].now, key);
        assert (times + [events[n].now])[..|times|] == times;
      }
    }
  }

  lemma {:induction false} TimesAscend(events: seq<Event>, key: string)
    requires ClockRuns(events)
    ensures Ascending(TimesOf(events, key))
    ensures forall i :: 0 <= i < |TimesOf(events, key)| ==> events != [] && TimesOf(events, key)[i] <= events[|events| - 1].now
  {
    if events != [] {
      var n := |events| - 1;
      TimesAscend(events[..n], key);
      assert n > 0 ==> events[n - 1].now <= events[n].now;
    }
  }

  // ---------- attempts ----------

  function LoginKeys(email: string, ip: string): (keys: seq<string>)
    ensures Distinct(keys)
  {
    LoginKeysDiffer(email, ip);
    ["email:" + email, "ip:" + ip]
  }

  // The keys of a login are never the same key.
  lemma LoginKeysDiffer(email: string, ip: string)
    ensures Distinct(["email:" + email, "ip:" + ip])
  {
    assert ("email:" + email)[0] == 'e' && ("ip:" + ip)[0] == 'i';
  }

  // What an attempt under way has seen: the lock is read once, before the password is compared.
  datatype Attempt = Attempt(keys: seq<string>, passed: bool)

  datatype Logins = Logins(records: map<string, Record>, attempts: map<nat, Attempt>)

  // An attempt's two halves. Between them the password is compared, and other attempts take steps.
  datatype Step =
    | Check(attempt: nat, email: string, ip: string, now: nat)
    | Finish(attempt: nat, matches: bool, now: nat)

  // What an attempt that finishes has the tracker do: nothing if it saw a lock.
  function CallOf(s: Logins, step: Step): Option<Event> {
    if step.Finish? && step.attempt in s.attempts && s.attempts[step.attempt].passed then
      Some(if step.matches then Success(s.attempts[step.attempt].keys, step.now)
           else Failure(s.attempts[step.attempt].keys, step.now))
    else None
  }

  function Take(s: Logins, step: Step): Logins {
    match step
    case Check(attempt, email, ip, now) =>
      var keys := LoginKeys(email, ip);
      s.(attempts := s.attempts[attempt := Attempt(keys, !IsLocked(s.records, keys, now))])
    case Finish(attempt, matches, now) =>
      var call := CallOf(s, step);
      Logins(if call.Some? then Exec(s.records, call.value, true) else s.records, s.attempts - {attempt})
  }

  function Play(steps: seq<Step>): Logins {
    if steps == [] then Logins(map[], map[]) else Take(Play(steps[..|steps| - 1]), steps[|steps| - 1])
  }

  function Calls(steps: seq<Step>): seq<Event> {
    if steps == [] then []
    else
      var call := CallOf(Play(steps[..|steps| - 1]), steps[|steps| - 1]);
      Calls(steps[..|steps| - 1]) + if call.Some? then [call.value] else []
  }

  predicate StepsInTime(steps: seq<Step>) {
    forall i, k :: 0 <= i < k < |steps| ==> steps[i].now <= steps[k].now
  }

  lemma {:induction false} AttemptKeysDiffer(steps: seq<Step>)
    ensures forall a :: a in Play(steps).attempts ==> Distinct(Play(steps).attempts[a].keys)
  {
    hide IsLocked, Exec;
    if steps != [] {
      AttemptKeysDiffer(steps[..|steps| - 1]);
    }
  }

  lemma {:induction false} CallsAreRun(steps: seq<Step>)
    ensures Play(steps).records == Run(Calls(steps), true)
  {
    hide IsLocked, Exec, LoginKeys;
    if steps != [] {
      var front, last := steps[..|steps| - 1], steps[|steps| - 1];
      CallsAreRun(front);
      var call := CallOf(Play(front), last);
      assert Calls(steps) == if call.Some? then Calls(front) + [call.value] else Calls(front);
      if call.Some? {
        RunOfCall(Calls(front), call.value);
      }
    }
  }

  lemma RunOfCall(calls: seq<Event>, call: Event)
    ensures Run(calls + [call], true) == Exec(Run(calls, true), call, true)
  {
    assert (calls + [call])[..|calls|] == calls;
  }

  lemma {:induction false} CallsInTime(steps: seq<Step>)
    requires StepsInTime(steps)
    ensures ClockRuns(Calls(steps)) && KeysDiffer(Calls(steps))
    ensures forall i :: 0 <= i < |Calls(steps)| ==> steps != [] && Calls(steps)[i].now <= steps[|steps| - 1].now
  {
    hide Play, Distinct;
    if steps != [] {
      var front, last := steps[..|steps| - 1], steps[|steps| - 1];
      CallsInTime(front);
      AttemptKeysDiffer(front);
      assert front != [] ==> front[|front| - 1].now <= last.now;
    }
  }

  // ---------- at most five, unless an attempt is overtaken by the lock ----------

  // A counted failure: when, and whether its key had been locked since the attempt looked.
  datatype Counted = Counted(at: nat, overtaken: bool)

  // A key's counted failures since its last success.
  function CountedOf(steps: seq<Step>, key: string): seq<Counted> {
    if steps == [] then []
    else
      var before, s := CountedOf(steps[..|steps| - 1], key), Play(steps[..|steps| - 1]);
      match CallOf(s, steps[|steps| - 1])
      case None => before
      case Some(Failure(keys, now)) =>
        if key in keys then before + [Counted(now, Locked(RecordOf(s.records, key), now))] else before
      case Some(Success(keys, now)) => if key in keys then [] else before
  }

  predicate Same(counted: seq<Counted>, times: seq<nat>) {
    |counted| == |times| && forall n :: 0 <= n < |times| ==> counted[n] == Counted(times[n], FoundLocked(times, n))
  }

  lemma SameGrows(counted: seq<Counted>, times: seq<nat>, now: nat)
    requires Same(counted, times)
    ensures Same(counted + [Counted(now, Locked(RecordAfter(times), now))], times + [now])
  {
    hide RecordAfter, Locked;
    var all := times + [now];
    assert all[..|times|] == times;
    forall n | 0 <= n < |times|
      ensures FoundLocked(all, n) == FoundLocked(times, n)
    {
      assert all[..n] == times[..n];
    }
  }

  lemma TimesOfCall(calls: seq<Event>, call: Event, key: string)
    ensures TimesOf(calls + [call], key)
         == if key !in call.keys then TimesOf(calls, key) else if call.Failure? then TimesOf(calls, key) + [call.now] else []
  {
    assert (calls + [call])[..|calls|] == calls;
  }

  lemma {:induction false} CountedAreTimes(steps: seq<Step>, key: string)
    requires StepsInTime(steps)
    ensures Same(CountedOf(steps, key), TimesOf(Calls(steps), key)) && Ascending(TimesOf(Calls(steps), key))
  {
    hide Play, RecordAfter, Locked, Same, TimesOf, Ascending;
    CallsInTime(steps);
    TimesAscend(Calls(steps), key);
    if steps == [] {
      NothingCounted(key);
    } else {
      var front, last := steps[..|steps| - 1], steps[|steps| - 1];
      CountedAreTimes(front, key);
      var call := CallOf(Play(front), last);
      assert Calls(steps) == if call.Some? then Calls(front) + [call.value] else Calls(front);
      if call.Some? {
        TimesOfCall(Calls(front), call.value, key);
        RecordHere(front, key, last.now);
        SameGrows(CountedOf(front, key), TimesOf(Calls(front), key), last.now);
        NothingCounted(key);
      }
    }
  }

  lemma NothingCounted(key: string)
    ensures TimesOf([], key) == [] && Same([], [])
  {
  }

  // The tracker's answer for one key is that of the key's own failures.
  lemma RecordHere(steps: seq<Step>, key: string, now: nat)
    requires StepsInTime(steps) && forall i :: 0 <= i < |steps| ==> steps[i].now <= now
    ensures Locked(RecordOf(Play(steps).records, key), now) <==> Locked(RecordAfter(TimesOf(Calls(steps), key)), now)
  {
    hide Run, Play, Calls, RecordAfter;
    CallsAreRun(steps);
    CallsInTime(steps);
    var calls := Calls(steps);
    PruningChangesNoAnswer(calls, [key], now);
    OneKey(Run(calls, true), key, now);
    OneKey(Run(calls, false), key, now);
    RecordIsOfItsTimes(calls, key);
  }

  lemma OneKey(records: map<string, Record>, key: string, now: nat)
    ensures IsLocked(records, [key], now) <==> Locked(RecordOf(records, key), now)
  {
    assert [key][0] == key;
  }

  // In any span shorter than the window, all of a key's counted failures but the first five come from
  // attempts overtaken by the lock: five, and those that looked before the key was locked.
  lemma AllButFiveAreOvertaken(steps: seq<Step>, key: string, first: nat, last: nat)
    requires StepsInTime(steps) && first <= last < |CountedOf(steps, key)|
    requires CountedOf(steps, key)[last].at - CountedOf(steps, key)[first].at < FAILURE_WINDOW_MS
    ensures forall n :: first + MAX_FAILED_ATTEMPTS <= n <= last ==> CountedOf(steps, key)[n].overtaken
  {
    hide CountedOf, TimesOf, FoundLocked;
    CountedAreTimes(steps, key);
    AllButFiveFindItLocked(TimesOf(Calls(steps), key), first, last);
  }

  predicate AtMostFiveCounted(counted: seq<Counted>) {
    forall first, last :: 0 <= first <= last < |counted| && counted[last].at - counted[first].at < FAILURE_WINDOW_MS
      ==> last - first + 1 <= MAX_FAILED_ATTEMPTS
  }

  // The bound of five holds for a key if and only if no attempt overtaken by its lock is counted less
  // than a window after the fifth failure before it.
  lemma AtMostFiveIffNoneOvertaken(steps: seq<Step>, key: string)
    requires StepsInTime(steps)
    ensures AtMostFiveCounted(CountedOf(steps, key))
       <==> forall n :: 5 <= n < |CountedOf(steps, key)| && CountedOf(steps, key)[n].overtaken
                        ==> CountedOf(steps, key)[n].at - CountedOf(steps, key)[n - 5].at >= FAILURE_WINDOW_MS
  {
    hide CountedOf, TimesOf, FoundLocked;
    CountedAreTimes(steps, key);
    AtMostFiveIff(TimesOf(Calls(steps), key));
  }

  // ---------- who is overtaken ----------

  // Where an attempt under way looked, and what it saw.
  predicate LookedAt(steps: seq<Step>, c: nat, attempt: nat, seen: Attempt) {
    && c < |steps| && steps[c].Check? && steps[c].attempt == attempt
    && seen.keys == LoginKeys(steps[c].email, steps[c].ip)
    && seen.passed == !IsLocked(Play(steps[..c]).records, seen.keys, steps[c].now)
    && forall i :: c < i < |steps| ==> steps[i].attempt != attempt
  }

  lemma {:induction false} AttemptsLooked(steps: seq<Step>, attempt: nat) returns (c: nat)
    requires attempt in Play(steps).attempts
    ensures LookedAt(steps, c, attempt, Play(steps).attempts[attempt])
  {
    hide IsLocked, Exec, CallOf, LoginKeys;
    var n := |steps| - 1;
    var front := steps[..n];
    if steps[n].attempt == attempt {
      c := n;
    } else {
      c := AttemptsLooked(front, attempt);
      assert front[..c] == steps[..c];
    }
  }

  // Every failure is counted by an attempt that found none of its keys locked when it looked: one that
  // finds a key locked was overtaken, because the key was locked between its two halves.
  lemma OvertakenPassedItsCheck(steps: seq<Step>, j: nat) returns (c: nat)
    requires j < |steps| && CallOf(Play(steps[..j]), steps[j]).Some? && CallOf(Play(steps[..j]), steps[j]).value.Failure?
    ensures c < j && steps[c].Check? && steps[c].attempt == steps[j].attempt
    ensures CallOf(Play(steps[..j]), steps[j]).value.keys == LoginKeys(steps[c].email, steps[c].ip)
    ensures !IsLocked(Play(steps[..c]).records, LoginKeys(steps[c].email, steps[c].ip), steps[c].now)
    ensures forall i :: c < i < j ==> steps[i].attempt != steps[j].attempt
  {
    hide Play, IsLocked, LoginKeys;
    var front := steps[..j];
    c := AttemptsLooked(front, steps[j].attempt);
    assert front[..c] == steps[..c];
    assert forall i :: c < i < j ==> front[i] == steps[i];
  }

  // Attempts one after the other: each finishes right after it looked.
  predicate OneAtATime(steps: seq<Step>) {
    forall j :: 0 <= j < |steps| && steps[j].Finish? ==>
      j > 0 && steps[j - 1].Check? && steps[j - 1].attempt == steps[j].attempt
  }

  lemma {:induction false} NoneOvertaken(steps: seq<Step>, key: string)
    requires StepsInTime(steps) && OneAtATime(steps)
    ensures forall n :: 0 <= n < |CountedOf(steps, key)| ==> !CountedOf(steps, key)[n].overtaken
  {
    hide Exec, LoginKeys;
    if steps != [] {
      var n := |steps| - 1;
      NoneOvertaken(steps[..n], key);
      if steps[n].Finish? {
        assert steps[..n][..n - 1] == steps[..n - 1];
        assert Play(steps[..n]) == Take(Play(steps[..n - 1]), steps[n - 1]);
      }
    }
  }

  // Then no key collects more than five counted failures in any span shorter than the window without a
  // success in between.
  lemma OneAtATimeCountsAtMostFive(steps: seq<Step>, key: string)
    requires StepsInTime(steps) && OneAtATime(steps)
    ensures AtMostFiveCounted(CountedOf(steps, key))
  {
    hide CountedOf, AtMostFiveCounted;
    NoneOvertaken(steps, key);
    AtMostFiveIffNoneOvertaken(steps, key);
  }

  // ---------- all at once ----------

  // n wrong logins with the same email from one address that all look before any of them is counted.
  function Looks(n: nat, email: string, ip: string, now: nat): seq<Step> {
    seq(n, i requires 0 <= i < n => Check(i, email, ip, now))
  }

  function Burst(n: nat, k: nat, email: string, ip: string, now: nat): seq<Step> {
    Looks(n, email, ip, now) + seq(k, i requires 0 <= i < k => Finish(i, false, now))
  }

  lemma {:induction false} AllLooked(n: nat, email: string, ip: string, now: nat)
    ensures Play(Looks(n, email, ip, now)).records == map[]
    ensures forall i: nat :: i < n ==> i in Play(Looks(n, email, ip, now)).attempts
                                       && Play(Looks(n, email, ip, now)).attempts[i] == Attempt(LoginKeys(email, ip), true)
    ensures forall key :: CountedOf(Looks(n, email, ip, now), key) == []
  {
    hide LoginKeys;
    if n > 0 {
      AllLooked(n - 1, email, ip, now);
      assert Looks(n, email, ip, now)[..n - 1] == Looks(n - 1, email, ip, now);
    }
  }

  lemma {:induction false} BurstSoFar(n: nat, k: nat, email: string, ip: string, now: nat, key: string)
    requires k <= n && key in LoginKeys(email, ip)
    ensures forall i: nat :: k <= i < n ==> i in Play(Burst(n, k, email, ip, now)).attempts
                                            && Play(Burst(n, k, email, ip, now)).attempts[i] == Attempt(LoginKeys(email, ip), true)
    ensures var counted := CountedOf(Burst(n, k, email, ip, now), key);
            |counted| == k && forall i :: 0 <= i < k ==> counted[i].at == now
  {
    hide LoginKeys, Exec, Locked;
    var steps := Burst(n, k, email, ip, now);
    if k == 0 {
      AllLooked(n, email, ip, now);
      assert steps == Looks(n, email, ip, now);
    } else {
      BurstSoFar(n, k - 1, email, ip, now, key);
      assert steps[..|steps| - 1] == Burst(n, k - 1, email, ip, now);
    }
  }

  // All n of them are counted, in one instant, for every n: only the first five find the key unlocked,
  // and from six on the bound is broken.
  lemma BurstIsCountedWhole(n: nat, email: string, ip: string, now: nat, key: string)
    requires key in LoginKeys(email, ip)
    ensures var counted := CountedOf(Burst(n, n, email, ip, now), key);
            && |counted| == n
            && (forall i :: 0 <= i < n ==> counted[i] == Counted(now, i >= MAX_FAILED_ATTEMPTS))
            && (AtMostFiveCounted(counted) <==> n <= MAX_FAILED_ATTEMPTS)
  {
    hide Play, CountedOf, TimesOf, LoginKeys;
    var steps := Burst(n, n, email, ip, now);
    BurstSoFar(n, n, email, ip, now, key);
    CountedAreTimes(steps, key);
    var counted, times := CountedOf(steps, key), TimesOf(Calls(steps), key);
    forall i | 0 <= i < n
      ensures counted[i].overtaken == (i >= MAX_FAILED_ATTEMPTS)
    {
      if i < MAX_FAILED_ATTEMPTS {
        FewFailuresDoNotLock(times[..i], now);
      } else {
        AllButFiveAreOvertaken(steps, key, 0, i);
      }
    }
    if n > MAX_FAILED_ATTEMPTS {
      assert counted[n - 1].at - counted[0].at < FAILURE_WINDOW_MS;
    }
  }

  // ---------- what each half does, key by key ----------

  predicate Free(records: map<string, Record>, key: string, now: nat) {
    key in records ==> records[key].lockedUntil <= now
  }

  // The first half passes if and only if neither the email nor the address is locked, and counts nothing.
  predicate Looked(before: Logins, attempt: nat, email: string, ip: string, now: nat, after: Logins) {
    && after.records == before.records
    && after.attempts.Keys == before.attempts.Keys + {attempt}
    && (forall a :: a in before.attempts && a != attempt ==> after.attempts[a] == before.attempts[a])
    && after.attempts[attempt].keys == ["email:" + email, "ip:" + ip]
    && (after.attempts[attempt].passed <==> Free(before.records, "email:" + email, now) && Free(before.records, "ip:" + ip, now))
  }

  lemma CheckLooks(s: Logins, attempt: nat, email: string, ip: string, now: nat)
    ensures Looked(s, attempt, email, ip, now, Take(s, Check(attempt, email, ip, now)))
  {
    var keys := LoginKeys(email, ip);
    assert keys[0] == "email:" + email && keys[1] == "ip:" + ip;
  }

  // An hour unlocked and without failures.
  predicate QuietForAnHour(r: Record, now: nat) {
    r.lockedUntil + 60 * 60_000 <= now && r.lastActivity + 60 * 60_000 <= now
  }

  // The second half of an attempt that passed counts one failure for each of its keys, or forgets both; one
  // that saw a lock does neither. Other keys keep their records, but for the quiet ones of a full tracker.
  ghost predicate Ended(before: Logins, attempt: nat, matches: bool, now: nat, after: Logins) {
    && after.attempts == before.attempts - {attempt}
    && if attempt !in before.attempts || !before.attempts[attempt].passed then after.records == before.records
       else
         var keys := before.attempts[attempt].keys;
         forall key ::
           if matches then RecordOf(after.records, key) == if key in keys then None else RecordOf(before.records, key)
           else if key in keys then RecordOf(after.records, key) == Some(Failed(RecordOf(before.records, key), now))
           else RecordOf(after.records, key) == RecordOf(before.records, key)
                || (key in before.records && |before.records| >= 10_000 && QuietForAnHour(before.records[key], now) && key !in after.records)
  }

  lemma FinishEnds(s: Logins, attempt: nat, matches: bool, now: nat)
    requires attempt in s.attempts ==> Distinct(s.attempts[attempt].keys)
    ensures Ended(s, attempt, matches, now, Take(s, Finish(attempt, matches, now)))
  {
    hide Failed, Distinct;
    if attempt in s.attempts && s.attempts[attempt].passed && !matches {
      var keys := s.attempts[attempt].keys;
      forall key
        ensures RecordOf(Failures(Pruned(s.records, now), keys, now), key)
             == if key in keys then Some(Failed(RecordOf(s.records, key), now)) else RecordOf(Pruned(s.records, now), key)
      {
        FailuresOfKey(Pruned(s.records, now), keys, now, key);
        NothingStale(s.records, now);
        AgreeOnFailure(Pruned(s.records, now), s.records, key, now);
      }
    }
  }

  lemma NothingStale(records: map<string, Record>, now: nat)
    ensures Agree(Pruned(records, now), records, now)
  {
  }

  // ---------- the tracker ----------

  class LoginAttemptTracker {
    var records: map<string, Record>

    constructor ()
      ensures records == map[]
    {
      records := map[];
    }

    method AnyLocked(keys: seq<string>, now: nat) returns (locked: bool)
      ensures locked == IsLocked(records, keys, now)
    {
      for i := 0 to |keys|
        invariant forall k :: 0 <= k < i ==> !Locked(RecordOf(records, keys[k]), now)
      {
        if Locked(RecordOf(records, keys[i]), now) {
          return true;
        }
      }
      locked := false;
    }

    method RegisterFailure(keys: seq<string>, now: nat)
      modifies this
      ensures records == Exec(old(records), Failure(keys, now), true)
    {
      hide Recent, LockoutDurationMs, Stale;
      Prune(now);
      ghost var start := records;
      for i := 0 to |keys|
        invariant records == Failures(start, keys[..i], now)
      {
        assert keys[..i + 1][..i] == keys[..i];
        var key := keys[i];
        var record := if key in records && !Stale(records[key], now) then records[key] else Record([], 0, 0, now);
        var failures := Recent(record.failures, now) + [now];
        if |failures| >= MAX_FAILED_ATTEMPTS {
          record := Record([], now + LockoutDurationMs(record.lockouts), record.lockouts + 1, now);
        } else {
          record := record.(failures := failures, lastActivity := now);
        }
        records := records[key := record];
      }
      assert keys[..|keys|] == keys;
    }

    method RegisterSuccess(keys: seq<string>)
      modifies this
      ensures records == Forgotten(old(records), keys)
    {
      for i := 0 to |keys|
        invariant records == Forgotten(old(records), keys[..i])
      {
        assert keys[..i + 1] == keys[..i] + [keys[i]];
        records := records - {keys[i]};
      }
      assert keys[..|keys|] == keys;
    }

    method Prune(now: nat)
      modifies this
      ensures records == Pruned(old(records), now)
    {
      if |records| < MAX_TRACKED_KEYS {
        return;
      }
      var left := records.Keys;
      while left != {}
        invariant left <= old(records).Keys
        invariant forall key :: key in records <==> key in old(records) && (key in left || !Stale(old(records)[key], now))
        invariant forall key :: key in records ==> records[key] == old(records)[key]
        decreases left
      {
        var key :| key in left;
        left := left - {key};
        if Stale(records[key], now) {
          records := records - {key};
        }
      }
    }
  }
  // ---------- the two halves of a login ----------

  class AuthService {
    const loginAttempts: LoginAttemptTracker
    var attempts: map<nat, Attempt>

    constructor (tracker: LoginAttemptTracker)
      ensures loginAttempts == tracker && attempts == map[]
    {
      loginAttempts := tracker;
      attempts := map[];
    }

    ghost function State(): Logins
      reads this, loginAttempts
    {
      Logins(loginAttempts.records, attempts)
    }

    // Before the password is compared: the lock is read, once.
    method Begin(attempt: nat, email: string, ip: string, now: nat)
      modifies this
      ensures State() == Take(old(State()), Check(attempt, email, ip, now))
      ensures Looked(old(State()), attempt, email, ip, now, State())
    {
      hide Looked;
      CheckLooks(State(), attempt, email, ip, now);
      var keys := LoginKeys(email, ip);
      var locked := loginAttempts.AnyLocked(keys, now);
      attempts := attempts[attempt := Attempt(keys, !locked)];
    }

    // After it: an attempt that saw a lock counts nothing, whatever its password.
    method End(attempt: nat, matches: bool, now: nat) returns (accepted: bool)
      modifies this, loginAttempts
      ensures State() == Take(old(State()), Finish(attempt, matches, now))
      ensures (attempt in old(attempts) ==> Distinct(old(attempts)[attempt].keys)) ==> Ended(old(State()), attempt, matches, now, State())
      ensures accepted == (matches && attempt in old(attempts) && old(attempts)[attempt].passed)
    {
      hide Ended, Distinct;
      if attempt in attempts ==> Distinct(attempts[attempt].keys) {
        FinishEnds(State(), attempt, matches, now);
      }
      accepted := false;
      if attempt in attempts {
        var seen := attempts[attempt];
        if !seen.passed || !matches {
          if seen.passed {
            loginAttempts.RegisterFailure(seen.keys, now);
          }
        } else {
          loginAttempts.RegisterSuccess(seen.keys);
          accepted := true;
        }
        attempts := attempts - {attempt};
      }
    }
  }
}
