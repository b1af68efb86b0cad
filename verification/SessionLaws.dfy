/** What each session operation does to the table of refresh tokens, row by row and to the millisecond. */
module SessionLaws {
  import opened Numbering
  import opened Sessions

  // A row issued at an instant: it ends after the idle time, or with its session if that comes first.
  predicate IssuedAt(t: Token, policy: Policy, administrator: nat, family: nat, now: int, sessionExpiresAt: int) {
    && t.administrator == administrator && t.family == family && t.revokedAt.None? && t.sessionExpiresAt == sessionExpiresAt
    && t.expiresAt <= now + policy.idleTimeoutMs && t.expiresAt <= sessionExpiresAt
    && (t.expiresAt == now + policy.idleTimeoutMs || t.expiresAt == sessionExpiresAt)
  }

  // Every row is kept, with its family's live ones revoked at this instant.
  ghost predicate FamilyRevoked(before: map<nat, Token>, after: map<nat, Token>, family: nat, now: int) {
    && after.Keys == before.Keys
    && forall t :: t in before ==>
         after[t] == if before[t].family == family && before[t].revokedAt == None then before[t].(revokedAt := Some(now)) else before[t]
  }

  // ---------- the access token ----------

  // The seconds an access token lasts: the most that fit both in its own time and in what is left of the
  // session, or one when not even one fits.
  lemma AccessTokenLasts(policy: Policy, now: int, sessionExpiresAt: int)
    ensures var left, n := sessionExpiresAt - now, ExpiresIn(policy, now, sessionExpiresAt);
            if policy.accessTokenTtlMs < 1000 || left < 1000 then n == 1
            else n * 1000 <= policy.accessTokenTtlMs && n * 1000 <= left
                 && ((n + 1) * 1000 > policy.accessTokenTtlMs || (n + 1) * 1000 > left)
  {
  }

  // ---------- login ----------

  // A login opens a new family with one row, which ends with the maximum or the idle time, and drops the
  // administrator's rows that had ended; every other row stays.
  ghost predicate LoggedIn(before: Store, policy: Policy, administrator: nat, now: int, after: Store) {
    && after.nextToken == before.nextToken + 1 && after.nextFamily == before.nextFamily + 1
    && after.rotations == before.rotations && after.nextRotation == before.nextRotation
    && before.nextToken in after.tokens
    && IssuedAt(after.tokens[before.nextToken], policy, administrator, before.nextFamily, now, now + policy.maxSessionMs)
    && (forall t :: t != before.nextToken ==>
          (t in after.tokens <==> t in before.tokens && (before.tokens[t].administrator != administrator || before.tokens[t].expiresAt >= now)))
    && (forall t :: t != before.nextToken && t in after.tokens ==> after.tokens[t] == before.tokens[t])
  }

  lemma StartLogsIn(s: Store, policy: Policy, administrator: nat, now: int)
    ensures LoggedIn(s, policy, administrator, now, Start(s, policy, administrator, now))
  {
  }

  // ---------- rotation ----------

  // The token a rotation read had not been revoked or expired, and still is not revoked.
  predicate TokenIsFree(s: Store, r: Rotation) {
    r.seen.revokedAt == None && r.now < r.seen.expiresAt && r.token in s.tokens && s.tokens[r.token].revokedAt == None
  }

  // A rotation replaces a free token by a new one of the same session, does nothing for one it read as
  // expired and not revoked, and otherwise revokes the whole family.
  ghost predicate Rotated(before: Store, policy: Policy, rotation: nat, after: Store)
    requires rotation in before.rotations
  {
    var r := before.rotations[rotation];
    && after.rotations == before.rotations - {rotation}
    && after.nextFamily == before.nextFamily && after.nextRotation == before.nextRotation
    && if TokenIsFree(before, r) then
         && after.nextToken == before.nextToken + 1
         && after.tokens.Keys == before.tokens.Keys + {before.nextToken}
         && IssuedAt(after.tokens[before.nextToken], policy, r.seen.administrator, r.seen.family, r.now, r.seen.sessionExpiresAt)
         && forall t :: t in before.tokens && t != before.nextToken ==>
              after.tokens[t] == if t == r.token then before.tokens[t].(revokedAt := Some(r.now)) else before.tokens[t]
       else
         && after.nextToken == before.nextToken
         && if r.seen.revokedAt == None && r.seen.expiresAt <= r.now then after.tokens == before.tokens
            else FamilyRevoked(before.tokens, after.tokens, r.seen.family, r.now)
  }

  lemma FinishRotates(s: Store, policy: Policy, rotation: nat, at: int)
    requires rotation in s.rotations
    ensures Rotated(s, policy, rotation, Finish(s, policy, rotation, at))
  {
    var rest := map k | k in s.rotations && k != rotation :: s.rotations[k];
    assert rest == s.rotations - {rotation};
  }

  // ---------- logout, password change, removal ----------

  // A logout revokes the family of the token it brings, and an unknown token changes nothing.
  lemma RevokeIs(s: Store, token: nat, now: int)
    ensures var after := Revoke(s, token, now);
            && after == s.(tokens := after.tokens)
            && (token !in s.tokens ==> after == s)
            && (token in s.tokens ==> FamilyRevoked(s.tokens, after.tokens, s.tokens[token].family, now))
  {
  }

  // A password change revokes the live rows of the administrator's other families, and no other row.
  lemma RevokeOthersIs(s: Store, administrator: nat, family: nat, now: int)
    ensures var after := RevokeOthers(s, administrator, family, now);
            && after == s.(tokens := after.tokens) && after.tokens.Keys == s.tokens.Keys
            && forall t :: t in s.tokens ==>
                 after.tokens[t]
                 == if s.tokens[t].administrator == administrator && s.tokens[t].family != family && s.tokens[t].revokedAt == None
                    then s.tokens[t].(revokedAt := Some(now)) else s.tokens[t]
  {
  }

  // ---------- who is let in ----------

  // A session is accepted while it has a row of that administrator that is neither revoked nor over.
  predicate HasLiveRow(tokens: map<nat, Token>, administrator: nat, family: nat, now: int) {
    exists t :: && t in tokens && tokens[t].administrator == administrator && tokens[t].family == family
                && tokens[t].revokedAt == None && now < tokens[t].expiresAt
  }

  lemma ActiveIs(s: Store, administrator: nat, family: nat, now: int)
    ensures Active(s, administrator, family, now) <==> HasLiveRow(s.tokens, administrator, family, now)
  {
    if Active(s, administrator, family, now) {
      var t :| t in s.tokens && Live(s.tokens[t], family, administrator, now);
      assert s.tokens[t].administrator == administrator;
    }
    if t :| && t in s.tokens && s.tokens[t].administrator == administrator && s.tokens[t].family == family
            && s.tokens[t].revokedAt == None && now < s.tokens[t].expiresAt {
      assert Live(s.tokens[t], family, administrator, now);
    }
  }

  // After a login the session is accepted to the millisecond until the idle time or the maximum is over.
  lemma LoginLasts(s: Store, policy: Policy, administrator: nat, at: int, now: int)
    requires Inv(s)
    ensures Active(Start(s, policy, administrator, at), administrator, s.nextFamily, now)
       <==> now < at + policy.idleTimeoutMs && now < at + policy.maxSessionMs
  {
    LoginOpensASession(s, policy, administrator, at, now);
  }

  // After a claimed rotation, until the idle time since the rotation began, or its session, is over.
  lemma RotationLasts(s: Store, policy: Policy, rotation: nat, at: int, now: int)
    requires Inv(s) && rotation in s.rotations && TokenIsFree(s, s.rotations[rotation])
    ensures var r := s.rotations[rotation];
            Active(Finish(s, policy, rotation, at), r.seen.administrator, r.seen.family, now)
            <==> now < r.now + policy.idleTimeoutMs && now < r.seen.sessionExpiresAt
  {
    var r := s.rotations[rotation];
    var after := Finish(s, policy, rotation, at);
    FinishKeepsInv(s, policy, rotation, at);
    assert s.nextToken in after.tokens && after.tokens[s.nextToken].family == r.seen.family;
    assert forall t :: (t in after.tokens && after.tokens[t].family == r.seen.family && after.tokens[t].revokedAt.None?) ==> t == s.nextToken;
    if now < r.now + policy.idleTimeoutMs && now < r.seen.sessionExpiresAt {
      ClaimedRotationStaysActive(s, policy, rotation, at, now);
    }
  }
}
