/** Refresh-token families with rotation and reuse detection (section 4.14 of RFC 9700). A rotation reads
    the token first and claims it later, so several can be under way at once. Tokens, families and
    rotations are fresh numbers. */
module Sessions {
  import opened Numbering

  datatype Policy = Policy(accessTokenTtlMs: nat, idleTimeoutMs: nat, maxSessionMs: nat)

  datatype Token = Token(
    family: nat,
    administrator: nat,
    createdAt: int,
    expiresAt: int,
    sessionExpiresAt: int,
    revokedAt: Option<int>)

  // A rotation that has read its token, and the instant it started.
  datatype Rotation = Rotation(token: nat, seen: Token, now: int)

  datatype Store = Store(
    tokens: map<nat, Token>,
    nextToken: nat,
    nextFamily: nat,
    rotations: map<nat, Rotation>,
    nextRotation: nat)

  const EMPTY := Store(map[], 0, 0, map[], 0)

  function Min(a: int, b: int): int {
    if a < b then a else b
  }

  function RefreshTokenExpiry(policy: Policy, now: int, sessionExpiresAt: int): int {
    Min(now + policy.idleTimeoutMs, sessionExpiresAt)
  }

  function AccessTokenExpiry(policy: Policy, now: int, sessionExpiresAt: int): int {
    Min(now + policy.accessTokenTtlMs, sessionExpiresAt)
  }

  // Seconds until the access token expires, never less than one.
  function ExpiresIn(policy: Policy, now: int, sessionExpiresAt: int): int {
    var seconds := (AccessTokenExpiry(policy, now, sessionExpiresAt) - now) / 1000;
    if seconds < 1 then 1 else seconds
  }

  // The access token ends with its session or before, except in the session's last second.
  lemma AccessTokenWithinSessionIff(policy: Policy, now: int, sessionExpiresAt: int)
    ensures now + ExpiresIn(policy, now, sessionExpiresAt) * 1000 <= sessionExpiresAt <==> 1000 <= sessionExpiresAt - now
  {
  }

  // ---------- the operations ----------

  // `at` is when the row is written, `now` when the operation started.
  function Issue(s: Store, policy: Policy, administrator: nat, family: nat, now: int, at: int, sessionExpiresAt: int): Store {
    s.(tokens := s.tokens[s.nextToken := Token(family, administrator, at, RefreshTokenExpiry(policy, now, sessionExpiresAt), sessionExpiresAt, None)],
       nextToken := s.nextToken + 1)
  }

  function RevokeFamily(tokens: map<nat, Token>, family: nat, now: int): map<nat, Token> {
    map t | t in tokens :: if tokens[t].family == family && tokens[t].revokedAt.None? then tokens[t].(revokedAt := Some(now)) else tokens[t]
  }

  // A new family; the administrator's expired rows go.
  function Start(s: Store, policy: Policy, administrator: nat, now: int): Store {
    var kept := map t | t in s.tokens && !(s.tokens[t].administrator == administrator && s.tokens[t].expiresAt < now) :: s.tokens[t];
    Issue(s.(tokens := kept, nextFamily := s.nextFamily + 1), policy, administrator, s.nextFamily, now, now, now + policy.maxSessionMs)
  }

  // The first half of a rotation: an unknown token ends it.
  function Lookup(s: Store, token: nat, now: int): Store {
    if token in s.tokens
    then s.(rotations := s.rotations[s.nextRotation := Rotation(token, s.tokens[token], now)], nextRotation := s.nextRotation + 1)
    else s
  }

  predicate Claims(s: Store, r: Rotation) {
    && r.seen.revokedAt.None? && r.seen.expiresAt > r.now
    && r.token in s.tokens && s.tokens[r.token].revokedAt.None?
  }

  // The second half: a revoked or already claimed token closes the family, an expired one does nothing,
  // a live one is replaced.
  function Finish(s: Store, policy: Policy, rotation: nat, at: int): Store {
    if rotation !in s.rotations then s
    else
      var r := s.rotations[rotation];
      var rest := s.(rotations := map k | k in s.rotations && k != rotation :: s.rotations[k]);
      if r.seen.revokedAt.Some? then rest.(tokens := RevokeFamily(s.tokens, r.seen.family, r.now))
      else if r.seen.expiresAt <= r.now then rest
      else if !Claims(s, r) then rest.(tokens := RevokeFamily(s.tokens, r.seen.family, r.now))
      else
        var claimed := s.tokens[r.token := s.tokens[r.token].(revokedAt := Some(r.now))];
        Issue(rest.(tokens := claimed), policy, r.seen.administrator, r.seen.family, r.now, at, r.seen.sessionExpiresAt)
  }

  function Revoke(s: Store, token: nat, now: int): Store {
    if token in s.tokens then s.(tokens := RevokeFamily(s.tokens, s.tokens[token].family, now)) else s
  }

  // A changed password closes every other session of the account.
  function RevokeOthers(s: Store, administrator: nat, family: nat, now: int): Store {
    s.(tokens := map t | t in s.tokens ::
         if s.tokens[t].administrator == administrator && s.tokens[t].revokedAt.None? && s.tokens[t].family != family
         then s.tokens[t].(revokedAt := Some(now)) else s.tokens[t])
  }

  function RemoveAdministrator(s: Store, administrator: nat): Store {
    s.(tokens := map t | t in s.tokens && s.tokens[t].administrator != administrator :: s.tokens[t])
  }

  // Whether the session of an access token is still accepted.
  predicate Live(t: Token, family: nat, administrator: nat, now: int) {
    t.family == family && t.administrator == administrator && t.revokedAt.None? && t.expiresAt > now
  }

  predicate Active(s: Store, administrator: nat, family: nat, now: int) {
    exists t :: t in s.tokens && Live(s.tokens[t], family, administrator, now)
  }

  // ---------- runs ----------

  datatype Event =
    | Login(administrator: nat, now: int)
    | BeginRotate(token: nat, now: int)
    | FinishRotate(rotation: nat, now: int)
    | Logout(token: nat, now: int)
    | ChangePassword(administrator: nat, family: nat, now: int)
    | Deleted(administrator: nat, now: int)

  function Exec(s: Store, policy: Policy, e: Event): Store {
    match e
    case Login(administrator, now) => Start(s, policy, administrator, now)
    case BeginRotate(token, now) => Lookup(s, token, now)
    case FinishRotate(rotation, now) => Finish(s, policy, rotation, now)
    case Logout(token, now) => Revoke(s, token, now)
    case ChangePassword(administrator, family, now) => RevokeOthers(s, administrator, family, now)
    case Deleted(administrator, _) => RemoveAdministrator(s, administrator)
  }

  function Run(s: Store, policy: Policy, events: seq<Event>): Store {
    if events == [] then s else Exec(Run(s, policy, events[..|events| - 1]), policy, events[|events| - 1])
  }

  predicate ClockFrom(events: seq<Event>, start: int) {
    && (forall i :: 0 <= i < |events| ==> start <= events[i].now)
    && (forall i, k :: 0 <= i < k < |events| ==> events[i].now <= events[k].now)
  }

  // ---------- the invariant ----------

  // In every family only the newest token can be live.
  ghost predicate OnlyNewest(tokens: map<nat, Token>) {
    forall a, b :: (a in tokens && b in tokens && a < b && tokens[a].family == tokens[b].family) ==> tokens[a].revokedAt.Some?
  }

  ghost predicate Numbered(s: Store) {
    && (forall t :: t in s.tokens ==> t < s.nextToken && s.tokens[t].family < s.nextFamily)
    && (forall k :: k in s.rotations ==> k < s.nextRotation && s.rotations[k].token < s.nextToken && s.rotations[k].seen.family < s.nextFamily)
  }

  // A token in the table is what a rotation saw, except that it may have been revoked since.
  ghost predicate SeenIsThere(s: Store) {
    forall k :: k in s.rotations && s.rotations[k].token in s.tokens ==>
      var seen, there := s.rotations[k].seen, s.tokens[s.rotations[k].token];
      there == seen.(revokedAt := there.revokedAt) && (seen.revokedAt.Some? ==> there.revokedAt == seen.revokedAt)
  }

  predicate Bounded(t: Token, policy: Policy) {
    t.expiresAt <= t.createdAt + policy.idleTimeoutMs && t.expiresAt <= t.sessionExpiresAt
  }

  ghost predicate AllBounded(s: Store, policy: Policy, now: int) {
    && (forall t :: t in s.tokens ==> Bounded(s.tokens[t], policy) && s.tokens[t].createdAt <= now)
    && (forall k :: k in s.rotations ==> s.rotations[k].now <= now)
  }

  ghost predicate Inv(s: Store) {
    OnlyNewest(s.tokens) && Numbered(s) && SeenIsThere(s)
  }

  lemma FinishKeepsInv(s: Store, policy: Policy, rotation: nat, at: int)
    requires Inv(s)
    ensures Inv(Finish(s, policy, rotation, at))
  {
    hide RefreshTokenExpiry;
    if rotation in s.rotations && Claims(s, s.rotations[rotation]) {
      var r := s.rotations[rotation];
      var after := Finish(s, policy, rotation, at);
      assert s.tokens[r.token].family == r.seen.family;
      forall t | t in after.tokens && after.tokens[t].family == r.seen.family && after.tokens[t].revokedAt.None?
        ensures t == s.nextToken
      {
        assert t != r.token;
      }
    }
  }

  lemma ExecKeepsInv(s: Store, policy: Policy, e: Event)
    requires Inv(s)
    ensures Inv(Exec(s, policy, e))
  {
    hide RefreshTokenExpiry;
    match e
    case FinishRotate(rotation, now) => FinishKeepsInv(s, policy, rotation, now);
    case _ =>
  }

  lemma {:induction false} RunKeepsInv(s: Store, policy: Policy, events: seq<Event>)
    requires Inv(s)
    ensures Inv(Run(s, policy, events))
  {
    hide Inv, Exec;
    if events != [] {
      RunKeepsInv(s, policy, events[..|events| - 1]);
      ExecKeepsInv(Run(s, policy, events[..|events| - 1]), policy, events[|events| - 1]);
    }
  }

  // ---------- a closed family stays closed ----------

  ghost predicate Closed(s: Store, family: nat) {
    family < s.nextFamily && forall t :: t in s.tokens && s.tokens[t].family == family ==> s.tokens[t].revokedAt.Some?
  }

  lemma ClosedStaysClosed(s: Store, policy: Policy, e: Event, family: nat)
    requires Inv(s) && Closed(s, family)
    ensures Closed(Exec(s, policy, e), family)
  {
    hide RefreshTokenExpiry, OnlyNewest;
  }

  lemma {:induction false} ClosedForever(s: Store, policy: Policy, events: seq<Event>, family: nat)
    requires Inv(s) && Closed(s, family)
    ensures Closed(Run(s, policy, events), family)
  {
    hide Inv, Exec, Closed;
    if events != [] {
      var n := |events| - 1;
      ClosedForever(s, policy, events[..n], family);
      RunKeepsInv(s, policy, events[..n]);
      ClosedStaysClosed(Run(s, policy, events[..n]), policy, events[n], family);
    }
  }

  lemma {:induction false} RunConcat(s: Store, policy: Policy, first: seq<Event>, second: seq<Event>)
    ensures Run(s, policy, first + second) == Run(Run(s, policy, first), policy, second)
  {
    hide Exec;
    if second == [] {
      assert first + second == first;
    } else {
      var n := |second| - 1;
      assert (first + second)[..|first| + n] == first + second[..n];
      RunConcat(s, policy, first, second[..n]);
    }
  }

  // A rotation under way is left alone until it finishes.
  lemma {:induction false} RotationWaits(s: Store, policy: Policy, events: seq<Event>, rotation: nat)
    requires Inv(s) && rotation in s.rotations
    requires forall i :: 0 <= i < |events| ==> events[i] != FinishRotate(rotation, events[i].now)
    ensures rotation in Run(s, policy, events).rotations && Run(s, policy, events).rotations[rotation] == s.rotations[rotation]
  {
    hide RefreshTokenExpiry, OnlyNewest, SeenIsThere, RevokeFamily;
    if events != [] {
      var n := |events| - 1;
      RotationWaits(s, policy, events[..n], rotation);
      RunKeepsInv(s, policy, events[..n]);
      assert events[n] != FinishRotate(rotation, events[n].now);
    }
  }

  // No closed session is accepted, whoever asks and whenever.
  lemma ClosedIsNotActive(s: Store, family: nat)
    requires Closed(s, family)
    ensures forall administrator, now :: !Active(s, administrator, family, now)
  {
  }

  // Reuse detection: once a rotation has read a revoked token, then however long it takes and whatever
  // else happens, when it finishes no token of that family is live, and none ever is again: the session is
  // not accepted any more.
  lemma ReuseClosesTheFamily(s: Store, policy: Policy, token: nat, begun: int, between: seq<Event>, finished: int, later: seq<Event>)
    requires Inv(s) && token in s.tokens && s.tokens[token].revokedAt.Some?
    requires forall i :: 0 <= i < |between| ==> between[i] != FinishRotate(s.nextRotation, between[i].now)
    ensures var after := Run(s, policy, [BeginRotate(token, begun)] + between + [FinishRotate(s.nextRotation, finished)] + later);
            && Closed(after, s.tokens[token].family)
            && forall administrator, now :: !Active(after, administrator, s.tokens[token].family, now)
  {
    hide Inv, Run, Closed, Active;
    var family := s.tokens[token].family;
    var s1 := Exec(s, policy, BeginRotate(token, begun));
    OneEvent(s, policy, BeginRotate(token, begun));
    ExecKeepsInv(s, policy, BeginRotate(token, begun));
    RotationWaits(s1, policy, between, s.nextRotation);
    RunKeepsInv(s1, policy, between);
    var s2 := Run(s1, policy, between);
    var s3 := Exec(s2, policy, FinishRotate(s.nextRotation, finished));
    ExecKeepsInv(s2, policy, FinishRotate(s.nextRotation, finished));
    RevokedIsClosed(s2, policy, s.nextRotation, finished);
    ClosedForever(s3, policy, later, family);
    RunConcat(s, policy, [BeginRotate(token, begun)], between);
    OneEvent(s2, policy, FinishRotate(s.nextRotation, finished));
    RunConcat(s, policy, [BeginRotate(token, begun)] + between, [FinishRotate(s.nextRotation, finished)]);
    RunConcat(s, policy, [BeginRotate(token, begun)] + between + [FinishRotate(s.nextRotation, finished)], later);
    ClosedIsNotActive(Run(s3, policy, later), family);
  }

  lemma OneEvent(s: Store, policy: Policy, e: Event)
    ensures Run(s, policy, [e]) == Exec(s, policy, e)
  {
    assert [e][..0] == [];
  }

  // Finishing a rotation closes the family exactly when it does not hand out a new token or find the
  // token expired.
  lemma RevokedIsClosed(s: Store, policy: Policy, rotation: nat, at: int)
    requires Inv(s) && rotation in s.rotations
    requires var r := s.rotations[rotation]; r.seen.revokedAt.Some? || (r.seen.expiresAt > r.now && !Claims(s, r))
    ensures Closed(Finish(s, policy, rotation, at), s.rotations[rotation].seen.family)
  {
    hide OnlyNewest, SeenIsThere;
  }

  // Two refreshes with the same live token: the second to finish gets nothing and closes the session,
  // the new token of the first included.
  lemma SecondRefreshClosesTheFamily(s: Store, policy: Policy, a: nat, b: nat, first: int, between: seq<Event>, second: int)
    requires Inv(s) && a in s.rotations && b in s.rotations && a != b
    requires s.rotations[a].token == s.rotations[b].token && Claims(s, s.rotations[a])
    requires s.rotations[b].seen.expiresAt > s.rotations[b].now
    requires forall i :: 0 <= i < |between| ==> between[i] != FinishRotate(b, between[i].now)
    ensures Closed(Run(s, policy, [FinishRotate(a, first)] + between + [FinishRotate(b, second)]), s.rotations[a].seen.family)
  {
    hide Inv, Run, Closed, RevokeFamily, Issue;
    var r := s.rotations[b];
    var s1 := Exec(s, policy, FinishRotate(a, first));
    OneEvent(s, policy, FinishRotate(a, first));
    ExecKeepsInv(s, policy, FinishRotate(a, first));
    ClaimedIsRevoked(s, policy, a, first);
    RevokedStaysRevoked(s1, policy, between, s.rotations[a].token);
    RotationWaits(s1, policy, between, b);
    RunKeepsInv(s1, policy, between);
    var s2 := Run(s1, policy, between);
    SameFamily(s, a, b);
    RevokedIsClosed(s2, policy, b, second);
    RunConcat(s, policy, [FinishRotate(a, first)], between);
    OneEvent(s2, policy, FinishRotate(b, second));
    RunConcat(s, policy, [FinishRotate(a, first)] + between, [FinishRotate(b, second)]);
  }

  lemma SameFamily(s: Store, a: nat, b: nat)
    requires Inv(s) && a in s.rotations && b in s.rotations && s.rotations[a].token == s.rotations[b].token && s.rotations[a].token in s.tokens
    ensures s.rotations[a].seen.family == s.rotations[b].seen.family
  {
  }

  ghost predicate Spent(s: Store, token: nat) {
    token < s.nextToken && (token in s.tokens ==> s.tokens[token].revokedAt.Some?)
  }

  lemma ClaimedIsRevoked(s: Store, policy: Policy, a: nat, at: int)
    requires Inv(s) && a in s.rotations && Claims(s, s.rotations[a])
    ensures Spent(Finish(s, policy, a, at), s.rotations[a].token)
    ensures forall k :: k in s.rotations && k != a ==> k in Finish(s, policy, a, at).rotations && Finish(s, policy, a, at).rotations[k] == s.rotations[k]
  {
    hide OnlyNewest;
  }

  lemma {:induction false} RevokedStaysRevoked(s: Store, policy: Policy, events: seq<Event>, token: nat)
    requires Spent(s, token)
    ensures Spent(Run(s, policy, events), token)
  {
    if events != [] {
      RevokedStaysRevoked(s, policy, events[..|events| - 1], token);
    }
  }

  // At most one token of a family is live, in every reachable state.
  lemma AtMostOneLive(policy: Policy, events: seq<Event>, a: nat, b: nat)
    requires var tokens := Run(EMPTY, policy, events).tokens;
             a in tokens && b in tokens && tokens[a].family == tokens[b].family && tokens[a].revokedAt.None? && tokens[b].revokedAt.None?
    ensures a == b
  {
    hide Run;
    RunKeepsInv(EMPTY, policy, events);
  }

  // ---------- how long a session lasts ----------

  lemma {:induction false} RunKeepsBounds(policy: Policy, events: seq<Event>, start: int, now: int)
    requires ClockFrom(events, start) && start <= now && forall i :: 0 <= i < |events| ==> events[i].now <= now
    ensures AllBounded(Run(EMPTY, policy, events), policy, now)
  {
    hide Exec;
    if events != [] {
      var n := |events| - 1;
      RunKeepsBounds(policy, events[..n], start, events[n].now);
      ExecKeepsBounds(Run(EMPTY, policy, events[..n]), policy, events[n]);
    }
  }

  lemma ExecKeepsBounds(s: Store, policy: Policy, e: Event)
    requires AllBounded(s, policy, e.now)
    ensures AllBounded(Exec(s, policy, e), policy, e.now)
  {
  }

  // The login that opened a family.
  ghost predicate OpenedBy(policy: Policy, events: seq<Event>, i: nat, t: Token) {
    && i < |events| && events[i] == Login(t.administrator, events[i].now)
    && Run(EMPTY, policy, events[..i]).nextFamily == t.family
    && t.sessionExpiresAt == events[i].now + policy.maxSessionMs
  }

  ghost predicate Opened(policy: Policy, events: seq<Event>, t: Token) {
    exists i: nat :: OpenedBy(policy, events, i, t)
  }

  lemma OpenedEarlier(policy: Policy, events: seq<Event>, n: nat, t: Token)
    requires n <= |events| && Opened(policy, events[..n], t)
    ensures Opened(policy, events, t)
  {
    var i: nat :| OpenedBy(policy, events[..n], i, t);
    assert events[..n][..i] == events[..i];
    assert OpenedBy(policy, events, i, t);
  }

  ghost predicate AllOpened(policy: Policy, events: seq<Event>, s: Store) {
    && (forall t :: t in s.tokens ==> Opened(policy, events, s.tokens[t]))
    && (forall k :: k in s.rotations ==> Opened(policy, events, s.rotations[k].seen))
  }

  lemma SameOpening(policy: Policy, events: seq<Event>, a: Token, b: Token)
    requires Opened(policy, events, a)
    requires a.family == b.family && a.administrator == b.administrator && a.sessionExpiresAt == b.sessionExpiresAt
    ensures Opened(policy, events, b)
  {
    var i: nat :| OpenedBy(policy, events, i, a);
    assert OpenedBy(policy, events, i, b);
  }

  predicate SameSession(a: Token, b: Token) {
    a.family == b.family && a.administrator == b.administrator && a.sessionExpiresAt == b.sessionExpiresAt
  }

  // Every token after an event continues a session that was there, or opens the login's.
  lemma WhereTokensComeFrom(s: Store, policy: Policy, e: Event, t: nat)
    requires Numbered(s) && t in Exec(s, policy, e).tokens
    ensures var after := Exec(s, policy, e).tokens[t];
            || (exists b :: b in s.tokens && SameSession(s.tokens[b], after))
            || (exists k :: k in s.rotations && SameSession(s.rotations[k].seen, after))
            || (e == Login(after.administrator, e.now) && after.family == s.nextFamily && after.sessionExpiresAt == e.now + policy.maxSessionMs)
  {
    hide RefreshTokenExpiry;
    var after := Exec(s, policy, e).tokens[t];
    if t in s.tokens {
      assert SameSession(s.tokens[t], after);
    } else if e.FinishRotate? {
      assert SameSession(s.rotations[e.rotation].seen, after);
    }
  }

  lemma {:induction false} EverySessionWasOpened(policy: Policy, events: seq<Event>)
    ensures AllOpened(policy, events, Run(EMPTY, policy, events))
  {
    hide Exec, Opened;
    if events != [] {
      var n := |events| - 1;
      var mid := Run(EMPTY, policy, events[..n]);
      var after := Exec(mid, policy, events[n]);
      EverySessionWasOpened(policy, events[..n]);
      RunKeepsInv(EMPTY, policy, events[..n]);
      EarlierOpenings(policy, events, n, mid);
      forall t | t in after.tokens
        ensures Opened(policy, events, after.tokens[t])
      {
        TokenWasOpened(policy, events, n, mid, t);
      }
      forall k | k in after.rotations
        ensures Opened(policy, events, after.rotations[k].seen)
      {
        WhereRotationsComeFrom(mid, policy, events[n], k);
      }
    }
  }

  lemma EarlierOpenings(policy: Policy, events: seq<Event>, n: nat, s: Store)
    requires n <= |events| && AllOpened(policy, events[..n], s)
    ensures AllOpened(policy, events, s)
  {
    hide Opened;
    forall t | t in s.tokens
      ensures Opened(policy, events, s.tokens[t])
    {
      OpenedEarlier(policy, events, n, s.tokens[t]);
    }
    forall k | k in s.rotations
      ensures Opened(policy, events, s.rotations[k].seen)
    {
      OpenedEarlier(policy, events, n, s.rotations[k].seen);
    }
  }

  lemma TokenWasOpened(policy: Policy, events: seq<Event>, n: nat, s: Store, t: nat)
    requires n < |events| && s == Run(EMPTY, policy, events[..n]) && AllOpened(policy, events, s)
    requires Numbered(s) && t in Exec(s, policy, events[n]).tokens
    ensures Opened(policy, events, Exec(s, policy, events[n]).tokens[t])
  {
    hide Exec, Run;
    WhereTokensComeFrom(s, policy, events[n], t);
    var after := Exec(s, policy, events[n]).tokens[t];
    if b :| b in s.tokens && SameSession(s.tokens[b], after) {
      SameOpening(policy, events, s.tokens[b], after);
    } else if k :| k in s.rotations && SameSession(s.rotations[k].seen, after) {
      SameOpening(policy, events, s.rotations[k].seen, after);
    } else {
      assert OpenedBy(policy, events, n, after);
    }
  }

  lemma WhereRotationsComeFrom(s: Store, policy: Policy, e: Event, k: nat)
    requires k in Exec(s, policy, e).rotations
    ensures (k in s.rotations && Exec(s, policy, e).rotations[k] == s.rotations[k])
         || (exists t :: t in s.tokens && Exec(s, policy, e).rotations[k].seen == s.tokens[t])
  {
    hide RevokeFamily, RefreshTokenExpiry;
  }

  // An accepted session is within the maximum counted from its own login, and within the idle limit
  // counted from the last token it was given.
  lemma ActiveIsWithinLimits(policy: Policy, events: seq<Event>, start: int, administrator: nat, family: nat, now: int)
    requires ClockFrom(events, start) && start <= now && forall i :: 0 <= i < |events| ==> events[i].now <= now
    requires Active(Run(EMPTY, policy, events), administrator, family, now)
    ensures exists i :: && 0 <= i < |events| && events[i] == Login(administrator, events[i].now)
                        && Run(EMPTY, policy, events[..i]).nextFamily == family && now < events[i].now + policy.maxSessionMs
    ensures exists last :: && last in Run(EMPTY, policy, events).tokens
                           && Run(EMPTY, policy, events).tokens[last].family == family
                           && now < Run(EMPTY, policy, events).tokens[last].createdAt + policy.idleTimeoutMs
                           && forall t :: (t in Run(EMPTY, policy, events).tokens && Run(EMPTY, policy, events).tokens[t].family == family) ==> t <= last
  {
    hide Run;
    var s := Run(EMPTY, policy, events);
    RunKeepsInv(EMPTY, policy, events);
    RunKeepsBounds(policy, events, start, now);
    EverySessionWasOpened(policy, events);
    var t :| t in s.tokens && Live(s.tokens[t], family, administrator, now);
    assert Opened(policy, events, s.tokens[t]);
    var i: nat :| OpenedBy(policy, events, i, s.tokens[t]);
  }

  // ---------- a session that is used properly stays open ----------

  // A claimed rotation leaves the session open until the idle limit or its absolute end.
  lemma ClaimedRotationStaysActive(s: Store, policy: Policy, rotation: nat, at: int, now: int)
    requires rotation in s.rotations && Claims(s, s.rotations[rotation])
    requires now < RefreshTokenExpiry(policy, s.rotations[rotation].now, s.rotations[rotation].seen.sessionExpiresAt)
    ensures Active(Finish(s, policy, rotation, at), s.rotations[rotation].seen.administrator, s.rotations[rotation].seen.family, now)
  {
    var r := s.rotations[rotation];
    var after := Finish(s, policy, rotation, at);
    assert s.nextToken in after.tokens;
    assert Live(after.tokens[s.nextToken], r.seen.family, r.seen.administrator, now)
      <==> now < RefreshTokenExpiry(policy, r.now, r.seen.sessionExpiresAt);
  }

  lemma LoginOpensASession(s: Store, policy: Policy, administrator: nat, at: int, now: int)
    requires Inv(s)
    ensures Active(Start(s, policy, administrator, at), administrator, s.nextFamily, now)
       <==> now < RefreshTokenExpiry(policy, at, at + policy.maxSessionMs)
  {
    var after := Start(s, policy, administrator, at);
    assert s.nextToken in after.tokens;
    assert Live(after.tokens[s.nextToken], s.nextFamily, administrator, now)
      <==> now < RefreshTokenExpiry(policy, at, at + policy.maxSessionMs);
  }

  // A changed password leaves the account exactly the session it was changed in, and others theirs.
  lemma PasswordChangeKeepsOneSession(s: Store, administrator: nat, family: nat, changed: int, anyone: nat, session: nat, now: int)
    ensures Active(RevokeOthers(s, administrator, family, changed), anyone, session, now)
       <==> Active(s, anyone, session, now) && (anyone != administrator || session == family)
  {
    var after := RevokeOthers(s, administrator, family, changed);
    if t :| t in after.tokens && Live(after.tokens[t], session, anyone, now) {
      assert Live(s.tokens[t], session, anyone, now);
    }
    if t :| t in s.tokens && Live(s.tokens[t], session, anyone, now) {
      assert anyone != administrator || session == family ==> Live(after.tokens[t], session, anyone, now);
    }
  }
}
