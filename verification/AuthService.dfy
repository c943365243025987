/** The handlers of `routers/auth.py` over mutable tables, each proved against its step and keeping the laws of the sessions. */
module AuthService {
  import opened Results
  import opened Totp
  import opened Auth
  import opened AuthSessions
  import opened AuthMfa

  class Service {
    var users: seq<User>
    var policies: seq<MfaPolicy>
    var sessions: map<nat, Session>
    var nextToken: nat
    var challenges: seq<Challenge>
    var used: set<nat>
    var codes: seq<Code>
    var log: seq<Event>
    const codeAt: CodeAt

    function Snapshot(): State
      reads this
    {
      State(users, policies, sessions, nextToken, challenges, used, codes, log)
    }

    ghost predicate Valid()
      reads this
    {
      SessionInv(Snapshot())
    }

    constructor (codeAt: CodeAt)
      ensures Valid() && Snapshot() == NEW_SYSTEM && this.codeAt == codeAt
    {
      users, policies, sessions, nextToken, challenges, used, codes, log := [], [], map[], 0, [], {}, [], [];
      this.codeAt := codeAt;
    }

    /** `_issue_tokens` */
    method IssueTokens(user: nat, now: nat, chain: Option<nat>, event: Event) returns (token: nat)
      modifies this`sessions, this`nextToken, this`log
      ensures token == old(nextToken) && Snapshot() == Issue(old(Snapshot()), user, now, chain, event)
    {
      token := nextToken;
      sessions := sessions[token := Session(user, now + REFRESH_TTL, None, if chain.Some? then chain.value else token)];
      nextToken := nextToken + 1;
      log := log + [event];
    }

    /** All candidates are looked at, matched or not; the first match counts. */
    method FindUser(email: string, password: string) returns (found: Option<nat>)
      ensures found == FirstMatch(users, email, password)
    {
      found := None;
      var i := 0;
      while i < |users|
        invariant i <= |users|
        invariant found == FirstMatch(users[..i], email, password)
      {
        assert users[..i + 1][..i] == users[..i];
        if users[i].email == email && users[i].password == password && found.None? {
          found := Some(i);
        }
        i := i + 1;
      }
      assert users[..i] == users;
    }

    method Login(email: string, password: string, now: nat) returns (r: Result<Reply, AuthError>)
      requires Valid()
      modifies this
      ensures Valid() && Outcome(Snapshot(), r) == LoginSpec(old(Snapshot()), email, password, now)
    {
      StepKeepsSessionInv(Snapshot(), Op.Login(email, password, now), codeAt);
      var user := FindUser(email, password);
      if user.None? {
        return Err(InvalidCredentials);
      }
      var u := users[user.value];
      if u.enrolled {
        challenges := challenges + [Challenge(user.value, now + CHALLENGE_TTL)];
        return Err(MfaRequired(|challenges| - 1));
      }
      if u.household < |policies| && EnrollmentRequired(policies[u.household], u.admin) {
        return Err(MfaEnrollmentRequired);
      }
      var token := IssueTokens(user.value, now, None, LoggedIn(user.value, nextToken, ByPassword));
      r := Ok(Tokens(token));
    }

    /** `_consume_mfa_challenge`, after the token itself was found valid; committed at once. */
    method ConsumeChallenge(challenge: nat, now: nat) returns (ok: bool)
      modifies this`used
      ensures ok <==> Redeemable(old(Snapshot()), challenge, now)
      ensures Snapshot() == if ok then Redeem(old(Snapshot()), challenge) else old(Snapshot())
    {
      if challenge >= |challenges| || challenges[challenge].expires <= now || challenge in used {
        return false;
      }
      used := used + {challenge};
      ok := true;
    }

    method LoginMfa(challenge: nat, code: string, now: nat) returns (r: Result<Reply, AuthError>)
      requires Valid()
      modifies this
      ensures Valid() && Outcome(Snapshot(), r) == LoginMfaSpec(old(Snapshot()), challenge, code, now, codeAt)
      ensures r != Err(InvalidMfaToken) ==> challenge in used
    {
      StepKeepsSessionInv(Snapshot(), Op.LoginMfa(challenge, code, now), codeAt);
      var ok := ConsumeChallenge(challenge, now);
      if !ok {
        return Err(InvalidMfaToken);
      }
      var user := challenges[challenge].user;
      if user >= |users| || users[user].secret.None? || !users[user].enrolled {
        return Err(InvalidMfaToken);
      }
      var step := VerifyTotpCode(codeAt, users[user].secret.value, code, users[user].lastStep, now);
      if step.None? {
        return Err(MfaInvalidCode);
      }
      users := users[user := users[user].(lastStep := step)];
      var token := IssueTokens(user, now, None, LoggedIn(user, nextToken, ByTotp(challenge, step.value)));
      r := Ok(Tokens(token));
    }

    /** `_consume_recovery_code`: the first unused code that matches is marked used. */
    method ConsumeRecoveryCode(user: nat, text: string, now: nat) returns (found: Option<nat>)
      modifies this`codes
      ensures found == FindCode(old(codes), user, text)
      ensures codes == if found.Some? then old(codes)[found.value := old(codes)[found.value].(usedAt := Some(now))] else old(codes)
    {
      var i := 0;
      while i < |codes|
        invariant i <= |codes| && codes == old(codes)
        invariant FindCode(codes[..i], user, text) == None
      {
        assert codes[..i + 1][..i] == codes[..i];
        if Unspent(codes[i], user) && codes[i].text == text {
          assert forall k | 0 <= k < i :: !(Unspent(codes[..i][k], user) && codes[..i][k].text == text);
          codes := codes[i := codes[i].(usedAt := Some(now))];
          return Some(i);
        }
        i := i + 1;
      }
      assert codes[..i] == codes;
      found := None;
    }

    method LoginRecover(challenge: nat, text: string, now: nat) returns (r: Result<Reply, AuthError>)
      requires Valid()
      modifies this
      ensures Valid() && Outcome(Snapshot(), r) == LoginRecoverSpec(old(Snapshot()), challenge, text, now)
      ensures r != Err(InvalidMfaToken) ==> challenge in used
    {
      StepKeepsSessionInv(Snapshot(), Op.LoginRecover(challenge, text, now), codeAt);
      var ok := ConsumeChallenge(challenge, now);
      if !ok {
        return Err(InvalidMfaToken);
      }
      var user := challenges[challenge].user;
      if user >= |users| || !users[user].enrolled {
        return Err(InvalidMfaToken);
      }
      var matched := ConsumeRecoveryCode(user, text, now);
      if matched.None? {
        return Err(MfaInvalidRecoveryCode);
      }
      var token := IssueTokens(user, now, None, LoggedIn(user, nextToken, ByRecovery(challenge)));
      r := Ok(Tokens(token));
    }

    method Refresh(token: nat, now: nat) returns (r: Result<Reply, AuthError>)
      requires Valid()
      modifies this
      ensures Valid() && Outcome(Snapshot(), r) == RefreshSpec(old(Snapshot()), token, now)
      ensures r.Ok? ==> Dead(Snapshot(), token)
    {
      StepKeepsSessionInv(Snapshot(), Op.Refresh(token, now), codeAt);
      if token !in sessions || sessions[token].revokedAt.Some? || sessions[token].expires <= now {
        return Err(InvalidRefreshToken);
      }
      var row := sessions[token];
      if row.user >= |users| {
        return Err(InvalidRefreshToken);
      }
      sessions := sessions[token := row.(revokedAt := Some(now))];
      var next := IssueTokens(row.user, now, Some(row.chain), Exchanged(row.user, token, nextToken));
      r := Ok(Tokens(next));
    }

    method Logout(token: nat, now: nat) returns (r: Result<Reply, AuthError>)
      requires Valid()
      modifies this
      ensures Valid() && Outcome(Snapshot(), r) == LogoutSpec(old(Snapshot()), token, now)
      ensures token in old(sessions) ==> Dead(Snapshot(), token)
    {
      StepKeepsSessionInv(Snapshot(), Op.Logout(token, now), codeAt);
      if token in sessions && sessions[token].revokedAt.None? {
        sessions := sessions[token := sessions[token].(revokedAt := Some(now))];
      }
      r := Ok(NoContent);
    }

    method ChangePassword(caller: nat, current: string, newPassword: string, now: nat) returns (r: Result<Reply, AuthError>)
      requires Valid()
      modifies this
      ensures Valid() && Outcome(Snapshot(), r) == ChangePasswordSpec(old(Snapshot()), caller, current, newPassword, now)
      ensures r.Ok? ==> forall t | t in sessions && sessions[t].user == caller :: Dead(Snapshot(), t)
    {
      ghost var next := Apply(Snapshot(), Op.ChangePassword(caller, current, newPassword, now), codeAt).state;
      StepKeepsSessionInv(Snapshot(), Op.ChangePassword(caller, current, newPassword, now), codeAt);
      if caller >= |users| {
        return Err(Unauthorized);
      }
      if users[caller].password != current {
        return Err(InvalidCredentials);
      }
      users := users[caller := users[caller].(password := newPassword)];
      sessions := RevokeAll(sessions, caller, now);
      log := log + [PasswordChanged(caller)];
      assert Snapshot() == next;
      r := Ok(NoContent);
    }

    // ----- Enrollment and recovery codes -----

    method MfaEnroll(caller: nat, secret: nat) returns (r: Result<Reply, AuthError>)
      requires Valid()
      modifies this
      ensures Valid() && Outcome(Snapshot(), r) == EnrollSpec(old(Snapshot()), caller, secret)
    {
      StepKeepsSessionInv(Snapshot(), Op.Enroll(caller, secret), codeAt);
      if caller >= |users| {
        return Err(Unauthorized);
      }
      if users[caller].enrolled {
        return Err(MfaAlreadyEnrolled);
      }
      users := users[caller := users[caller].(secret := Some(secret))];
      r := Ok(Secret(secret));
    }

    /** `_mint_recovery_codes` */
    method MintRecoveryCodes(user: nat, newCodes: EightCodes)
      modifies this`codes
      ensures codes == old(codes) + MintedCodes(user, newCodes)
      ensures Unused(codes, user) == Unused(old(codes), user) + CODE_COUNT
    {
      var i := 0;
      while i < |newCodes|
        invariant i <= |newCodes|
        invariant codes == old(codes) + MintedCodes(user, newCodes[..i])
      {
        codes := codes + [Code(user, newCodes[i], None)];
        i := i + 1;
      }
      assert newCodes[..i] == newCodes;
      UnusedConcat(old(codes), MintedCodes(user, newCodes), user);
      UnusedFresh(MintedCodes(user, newCodes), user, user);
    }

    method MfaVerify(caller: nat, code: string, newCodes: EightCodes, now: nat) returns (r: Result<Reply, AuthError>)
      requires Valid()
      modifies this
      ensures Valid() && Outcome(Snapshot(), r) == VerifySpec(old(Snapshot()), caller, code, newCodes, now, codeAt)
    {
      ghost var next := Apply(Snapshot(), Op.Verify(caller, code, newCodes, now), codeAt).state;
      StepKeepsSessionInv(Snapshot(), Op.Verify(caller, code, newCodes, now), codeAt);
      if caller >= |users| {
        return Err(Unauthorized);
      }
      if users[caller].enrolled {
        return Err(MfaAlreadyEnrolled);
      }
      if users[caller].secret.None? {
        return Err(MfaNotPending);
      }
      var step := VerifyTotpCode(codeAt, users[caller].secret.value, code, None, now);
      if step.None? {
        return Err(MfaInvalidCode);
      }
      users := users[caller := users[caller].(enrolled := true)];
      MintRecoveryCodes(caller, newCodes);
      log := log + [Minted(caller)];
      assert Snapshot() == next;
      r := Ok(RecoveryCodes(newCodes));
    }

    method RegenerateRecoveryCodes(caller: nat, code: string, newCodes: EightCodes, now: nat) returns (r: Result<Reply, AuthError>)
      requires Valid()
      modifies this
      ensures Valid() && Outcome(Snapshot(), r) == RegenerateSpec(old(Snapshot()), caller, code, newCodes, now, codeAt)
    {
      ghost var next := Apply(Snapshot(), Op.Regenerate(caller, code, newCodes, now), codeAt).state;
      StepKeepsSessionInv(Snapshot(), Op.Regenerate(caller, code, newCodes, now), codeAt);
      if caller >= |users| || users[caller].secret.None? || !users[caller].enrolled {
        return Err(MfaNotEnrolled);
      }
      var step := VerifyTotpCode(codeAt, users[caller].secret.value, code, None, now);
      if step.None? {
        return Err(MfaInvalidCode);
      }
      codes := DropUser(codes, caller);
      MintRecoveryCodes(caller, newCodes);
      log := log + [Minted(caller)];
      assert Snapshot() == next;
      r := Ok(RecoveryCodes(newCodes));
    }
  }
}
