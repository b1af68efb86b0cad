/** The session service over its table of refresh tokens. */
module SessionService {
  import opened Numbering
  import opened Sessions
  import opened SessionLaws

  class Service {
    const policy: Policy
    var tokens: map<nat, Token>
    var nextToken: nat
    var nextFamily: nat
    var rotations: map<nat, Rotation>
    var nextRotation: nat

    constructor (policy: Policy)
      ensures State() == EMPTY && this.policy == policy && Inv(State())
    {
      this.policy := policy;
      tokens, nextToken, nextFamily, rotations, nextRotation := map[], 0, 0, map[], 0;
    }

    ghost function State(): Store
      reads this
    {
      Store(tokens, nextToken, nextFamily, rotations, nextRotation)
    }

    // Writes the row of a new token and returns the token.
    method Issue(administrator: nat, family: nat, now: int, at: int, sessionExpiresAt: int) returns (token: nat)
      modifies this`tokens, this`nextToken
      ensures State() == Sessions.Issue(old(State()), policy, administrator, family, now, at, sessionExpiresAt)
      ensures token == old(nextToken)
    {
      token := nextToken;
      var expiresAt := RefreshTokenExpiry(policy, now, sessionExpiresAt);
      tokens := tokens[token := Token(family, administrator, at, expiresAt, sessionExpiresAt, None)];
      nextToken := nextToken + 1;
    }

    // Opens a session after a login.
    method Start(administrator: nat, now: int) returns (token: nat)
      requires Inv(State())
      modifies this
      ensures State() == Exec(old(State()), policy, Login(administrator, now)) && Inv(State())
      ensures token == old(nextToken) && LoggedIn(old(State()), policy, administrator, now, State())
    {
      hide LoggedIn;
      ghost var before := State();
      StartLogsIn(before, policy, administrator, now);
      tokens := map t | t in tokens && !(tokens[t].administrator == administrator && tokens[t].expiresAt < now) :: tokens[t];
      var family := nextFamily;
      nextFamily := nextFamily + 1;
      token := Issue(administrator, family, now, now, now + policy.maxSessionMs);
      assert State() == Exec(before, policy, Login(administrator, now));
      ExecKeepsInv(before, policy, Login(administrator, now));
    }

    method CloseFamily(family: nat, now: int)
      modifies this`tokens
      ensures tokens == RevokeFamily(old(tokens), family, now)
    {
      tokens := map t | t in tokens ::
        if tokens[t].family == family && tokens[t].revokedAt.None? then tokens[t].(revokedAt := Some(now)) else tokens[t];
    }

    // Reads the token; unknown ones get no rotation.
    method BeginRotate(token: nat, now: int) returns (rotation: Option<nat>)
      modifies this`rotations, this`nextRotation
      ensures State() == Exec(old(State()), policy, Event.BeginRotate(token, now))
      ensures rotation == if token in tokens then Some(old(nextRotation)) else None
    {
      if token !in tokens {
        return None;
      }
      rotation := Some(nextRotation);
      rotations := rotations[nextRotation := Rotation(token, tokens[token], now)];
      nextRotation := nextRotation + 1;
    }

    // Claims the token and replaces it, or closes the family.
    method FinishRotate(rotation: nat, at: int) returns (token: Option<nat>)
      requires rotation in rotations && Inv(State())
      modifies this
      ensures State() == Exec(old(State()), policy, Event.FinishRotate(rotation, at)) && Inv(State())
      ensures Rotated(old(State()), policy, rotation, State())
      ensures token == if TokenIsFree(old(State()), old(rotations)[rotation]) then Some(old(nextToken)) else None
      ensures token.None? && old(rotations)[rotation].seen.revokedAt.Some? ==> Closed(State(), old(rotations)[rotation].seen.family)
    {
      ghost var before := State();
      FinishKeepsInv(before, policy, rotation, at);
      FinishRotates(before, policy, rotation, at);
      var r := rotations[rotation];
      rotations := map k | k in rotations && k != rotation :: rotations[k];
      if r.seen.revokedAt.Some? {
        CloseFamily(r.seen.family, r.now);
        RevokedIsClosed(before, policy, rotation, at);
        return None;
      }
      if r.seen.expiresAt <= r.now {
        return None;
      }
      var claimed := r.token in tokens && tokens[r.token].revokedAt.None?;
      if !claimed {
        CloseFamily(r.seen.family, r.now);
        return None;
      }
      tokens := tokens[r.token := tokens[r.token].(revokedAt := Some(r.now))];
      var issued := Issue(r.seen.administrator, r.seen.family, r.now, at, r.seen.sessionExpiresAt);
      token := Some(issued);
    }

    // Logout.
    method Revoke(token: nat, now: int)
      requires Inv(State())
      modifies this`tokens
      ensures State() == Exec(old(State()), policy, Logout(token, now))
      ensures token in old(tokens) ==> && Closed(State(), old(tokens)[token].family)
                                       && FamilyRevoked(old(tokens), tokens, old(tokens)[token].family, now)
      ensures token !in old(tokens) ==> tokens == old(tokens)
    {
      if token in tokens {
        CloseFamily(tokens[token].family, now);
      }
    }

    // The administrator of a session that is still accepted.
    method FindActiveOwner(administrator: nat, family: nat, now: int) returns (owner: Option<nat>)
      requires Inv(State())
      ensures owner == if HasLiveRow(tokens, administrator, family, now) then Some(administrator) else None
    {
      ActiveIs(State(), administrator, family, now);
      for t := 0 to nextToken
        invariant forall k :: k in tokens && k < t ==> !Live(tokens[k], family, administrator, now)
      {
        if t in tokens && Live(tokens[t], family, administrator, now) {
          return Some(tokens[t].administrator);
        }
      }
      owner := None;
    }
  }
}
