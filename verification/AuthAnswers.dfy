/** What each authentication request answers, in terms of the rows it finds and of what was presented. */
module AuthAnswers {
  import opened Results
  import opened Totp
  import opened Auth

  // ----- Password login -----

  predicate Presents(u: User, email: string, password: string) {
    u.email == email && u.password == password
  }

  /** The first user with this email and password. */
  predicate IsFirst(users: seq<User>, u: nat, email: string, password: string) {
    u < |users| && Presents(users[u], email, password) && forall i | 0 <= i < u :: !Presents(users[i], email, password)
  }

  predicate PolicyDemands(s: State, u: User) {
    u.household < |s.policies|
    && (s.policies[u.household] == RequiredForAll || (s.policies[u.household] == RequiredForAdmins && u.admin))
  }

  /** `s'` is `s` with one new session of the user, good for thirty days, and the login in the log. */
  predicate LoggedInNow(s: State, s': State, user: nat, now: int, via: Via) {
    var t := s.nextToken;
    s' == s.(sessions := s.sessions[t := Session(user, now + 2_592_000, None, t)], nextToken := t + 1,
             log := s.log + [LoggedIn(user, t, via)])
  }

  /**
    A login is refused if and only if no user has that email and password. Otherwise the first such user gets a challenge good
    for five minutes if enrolled, the enrollment demand if the household's policy asks for it, and tokens if neither.
    */
  lemma LoginExactly(s: State, email: string, password: string, now: int)
    ensures var o := LoginSpec(s, email, password, now);
            && (o.reply == Err(InvalidCredentials) <==> !exists u: nat :: IsFirst(s.users, u, email, password))
            && (o.reply == Err(InvalidCredentials) <==> forall i | 0 <= i < |s.users| :: !Presents(s.users[i], email, password))
            && (o.reply == Err(InvalidCredentials) ==> o.state == s)
            && forall u: nat | IsFirst(s.users, u, email, password) ::
                 if s.users[u].enrolled then
                   o == Outcome(s.(challenges := s.challenges + [Challenge(u, now + 300)]), Err(MfaRequired(|s.challenges|)))
                 else if PolicyDemands(s, s.users[u]) then o == Outcome(s, Err(MfaEnrollmentRequired))
                 else o.reply == Ok(Tokens(s.nextToken)) && LoggedInNow(s, o.state, u, now, ByPassword)
  {
    var m := FirstMatch(s.users, email, password);
    forall i | 0 <= i < |s.users|
      ensures Matches(s.users[i], email, password) <==> Presents(s.users[i], email, password)
    {
    }
    if m.Some? {
      FirstMatchIsFirst(s.users, email, password);
    }
  }

  lemma {:induction false} FirstMatchIsFirst(users: seq<User>, email: string, password: string)
    requires FirstMatch(users, email, password).Some?
    ensures forall u: nat :: IsFirst(users, u, email, password) <==> FirstMatch(users, email, password) == Some(u)
  {
    var m := FirstMatch(users, email, password).value;
    forall i | 0 <= i < m
      ensures !Presents(users[i], email, password)
    {
      assert !Matches(users[i], email, password);
    }
    assert IsFirst(users, m, email, password);
  }

  /** Every password login of a run comes from a request that carried the user's email and password at that moment. */
  lemma {:induction false} PasswordWasPresented(s: State, ops: seq<Op>, codeAt: CodeAt, i: nat) returns (k: nat)
    requires |s.log| <= i < |Run(s, ops, codeAt).log|
    requires Run(s, ops, codeAt).log[i].LoggedIn? && Run(s, ops, codeAt).log[i].via == ByPassword
    ensures k < |ops| && ops[k].Login?
    ensures var at, u := Run(s, ops[..k], codeAt), Run(s, ops, codeAt).log[i].user;
            |at.log| == i && u < |at.users| && at.users[u].email == ops[k].email && at.users[u].password == ops[k].password
    decreases |ops|
  {
    var s1 := Apply(s, ops[0], codeAt).state;
    StepAppends(s, ops[0], codeAt);
    if i < |s1.log| {
      LogStays(s1, ops[1..], codeAt, i);
      k := 0;
    } else {
      var j := PasswordWasPresented(s1, ops[1..], codeAt, i);
      k := j + 1;
      assert ops[..k][1..] == ops[1..][..j];
    }
  }

  /** A step logs at most one event; a password login only for the user that presented the password. */
  lemma StepAppends(s: State, op: Op, codeAt: CodeAt)
    ensures var s' := Apply(s, op, codeAt).state;
            s'.log == s.log || (|s'.log| == |s.log| + 1 && s'.log[..|s.log|] == s.log && FitsRequest(s, op, s'.log[|s.log|]))
  {
  }

  predicate FitsRequest(s: State, op: Op, e: Event) {
    e.LoggedIn? && e.via == ByPassword ==> op.Login? && e.user < |s.users| && Presents(s.users[e.user], op.email, op.password)
  }

  lemma {:induction false} LogStays(s: State, ops: seq<Op>, codeAt: CodeAt, i: nat)
    requires i < |s.log|
    ensures i < |Run(s, ops, codeAt).log| && Run(s, ops, codeAt).log[i] == s.log[i]
    decreases |ops|
  {
    if ops != [] {
      StepAppends(s, ops[0], codeAt);
      LogStays(Apply(s, ops[0], codeAt).state, ops[1..], codeAt, i);
    }
  }

  // ----- Second factors -----

  /** The challenge was issued, has not expired and was not used. */
  predicate Good(s: State, challenge: nat, now: int) {
    challenge < |s.challenges| && now < s.challenges[challenge].expires && challenge !in s.used
  }

  ghost predicate CodeShows(codeAt: CodeAt, u: User, code: string, last: Option<int>, now: nat) {
    u.secret.Some? && CanVerify(codeAt, u.secret.value, code, last, now)
  }

  /**
    A TOTP login needs a good challenge of an enrolled user and a code that a step past the remembered one shows. A good
    challenge is used up in any case, and nothing else changes unless the login succeeds.
    */
  lemma LoginMfaExactly(s: State, challenge: nat, code: string, now: nat, codeAt: CodeAt)
    ensures var o := LoginMfaSpec(s, challenge, code, now, codeAt);
            && (o.reply.Ok? <==>
                  && Good(s, challenge, now)
                  && var u := s.challenges[challenge].user;
                     u < |s.users| && s.users[u].enrolled && CodeShows(codeAt, s.users[u], code, s.users[u].lastStep, now))
            && (o.reply.Err? ==> o.state == if Good(s, challenge, now) then s.(used := s.used + {challenge}) else s)
            && (o.reply.Ok? ==>
                  var u := s.challenges[challenge].user;
                  exists step ::
                    && Shows(codeAt, s.users[u].secret.value, code, s.users[u].lastStep, now, step)
                    && LoggedInNow(s.(used := s.used + {challenge}, users := s.users[u := s.users[u].(lastStep := Some(step))]),
                                   o.state, u, now, ByTotp(challenge, step)))
  {
    if Good(s, challenge, now) {
      var u := s.challenges[challenge].user;
      if u < |s.users| && s.users[u].secret.Some? {
        VerifiesIff(codeAt, s.users[u].secret.value, code, s.users[u].lastStep, now);
        var r := VerifiedStep(codeAt, s.users[u].secret.value, code, s.users[u].lastStep, now);
        if r.Some? {
          VerifiesExactly(codeAt, s.users[u].secret.value, code, s.users[u].lastStep, now, r.value);
        }
      }
    }
  }

  /** The user has an unused recovery code with this text. */
  predicate HasCode(s: State, user: nat, text: string) {
    exists i | 0 <= i < |s.codes| :: s.codes[i] == Code(user, text, None)
  }

  /** A recovery login needs a good challenge of an enrolled user and one of the user's unused codes, which it marks used. */
  lemma LoginRecoverExactly(s: State, challenge: nat, text: string, now: int)
    ensures var o := LoginRecoverSpec(s, challenge, text, now);
            && (o.reply.Ok? <==>
                  && Good(s, challenge, now)
                  && var u := s.challenges[challenge].user; u < |s.users| && s.users[u].enrolled && HasCode(s, u, text))
            && (o.reply.Err? ==> o.state == if Good(s, challenge, now) then s.(used := s.used + {challenge}) else s)
            && (o.reply.Ok? ==>
                  var u := s.challenges[challenge].user;
                  exists k | 0 <= k < |s.codes| ::
                    && s.codes[k] == Code(u, text, None)
                    && LoggedInNow(s.(used := s.used + {challenge}, codes := s.codes[k := Code(u, text, Some(now))]),
                                   o.state, u, now, ByRecovery(challenge)))
  {
  }

  /** Enrollment and regeneration take any step of the window; the first needs a pending secret, the second an enrolled user. */
  lemma MintingExactly(s: State, caller: nat, code: string, newCodes: EightCodes, now: nat, codeAt: CodeAt)
    ensures VerifySpec(s, caller, code, newCodes, now, codeAt).reply.Ok? <==>
            caller < |s.users| && !s.users[caller].enrolled && CodeShows(codeAt, s.users[caller], code, None, now)
    ensures RegenerateSpec(s, caller, code, newCodes, now, codeAt).reply.Ok? <==>
            caller < |s.users| && s.users[caller].enrolled && CodeShows(codeAt, s.users[caller], code, None, now)
  {
    if caller < |s.users| && s.users[caller].secret.Some? {
      VerifiesIff(codeAt, s.users[caller].secret.value, code, None, now);
    }
  }

  // ----- Sessions and passwords -----

  /** A refresh token is exchanged exactly while its row is there, not revoked and not expired. */
  lemma RefreshExactly(s: State, token: nat, now: int)
    ensures RefreshSpec(s, token, now).reply.Ok? <==>
            && token in s.sessions && s.sessions[token].revokedAt == None && now < s.sessions[token].expires
            && s.sessions[token].user < |s.users|
    ensures RefreshSpec(s, token, now).reply.Err? ==> RefreshSpec(s, token, now) == Outcome(s, Err(InvalidRefreshToken))
    ensures RefreshSpec(s, token, now).reply.Ok? ==>
              var row, s', t := s.sessions[token], RefreshSpec(s, token, now).state, s.nextToken;
              && RefreshSpec(s, token, now).reply == Ok(Tokens(t))
              && s' == s.(sessions := s.sessions[token := row.(revokedAt := Some(now))]
                                                [t := Session(row.user, now + 2_592_000, None, row.chain)],
                          nextToken := t + 1, log := s.log + [Exchanged(row.user, token, t)])
  {
  }

  /** The tokens of a login can be exchanged for thirty days, and no longer. */
  lemma FreshTokenLives(s: State, s': State, user: nat, now: int, via: Via, later: int)
    requires LoggedInNow(s, s', user, now, via) && user < |s.users|
    ensures RefreshSpec(s', s.nextToken, later).reply.Ok? <==> later < now + 2_592_000
  {
    RefreshExactly(s', s.nextToken, later);
  }

  /**
    A password change needs the current password. Afterwards the new one logs in, the old one does not log this user in any
    more, and none of the user's refresh tokens can be exchanged.
    */
  lemma PasswordChanges(s: State, caller: nat, current: string, newPassword: string, now: int, later: int)
    ensures var o := ChangePasswordSpec(s, caller, current, newPassword, now);
            && (o.reply.Ok? <==> caller < |s.users| && s.users[caller].password == current)
            && (o.reply.Err? ==> o.state == s)
            && (o.reply.Ok? ==>
                  && o.state.users == s.users[caller := s.users[caller].(password := newPassword)]
                  && LoginSpec(o.state, s.users[caller].email, newPassword, later).reply != Err(InvalidCredentials)
                  && (current != newPassword ==> !IsFirst(o.state.users, caller, s.users[caller].email, current))
                  && forall t | t in o.state.sessions && o.state.sessions[t].user == caller ::
                       RefreshSpec(o.state, t, later).reply.Err?)
  {
    var o := ChangePasswordSpec(s, caller, current, newPassword, now);
    if o.reply.Ok? {
      LoginExactly(o.state, s.users[caller].email, newPassword, later);
      assert Presents(o.state.users[caller], s.users[caller].email, newPassword);
    }
  }
}
