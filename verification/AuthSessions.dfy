/** What every run keeps about refresh tokens: exchanged once, one live per login, none that outlives a password change. */
module AuthSessions {
  import opened Results
  import opened Totp
  import opened Auth

  // ----- Dead tokens stay dead -----

  /** The token was issued, and if its row still exists, it is revoked. */
  predicate Dead(s: State, token: nat) {
    token < s.nextToken && (token in s.sessions ==> s.sessions[token].revokedAt.Some?)
  }

  /** The row is the same, or has been revoked since. */
  predicate Aged(before: Session, after: Session) {
    after.(revokedAt := before.revokedAt) == before && (before.revokedAt.Some? ==> after.revokedAt.Some?)
  }

  /** Rows that remain are aged; a row that is new has a fresh token, and at most one is new. */
  predicate SessionsAge(s: State, s': State) {
    && s.nextToken <= s'.nextToken <= s.nextToken + 1
    && forall t | t in s'.sessions ::
         if t < s.nextToken then t in s.sessions && Aged(s.sessions[t], s'.sessions[t]) else t < s'.nextToken
  }

  predicate TokensOk(s: State) {
    forall t | t in s.sessions :: t < s.nextToken && s.sessions[t].chain <= t
  }

  lemma StepAges(s: State, op: Op, codeAt: CodeAt)
    requires TokensOk(s)
    ensures SessionsAge(s, Apply(s, op, codeAt).state) && TokensOk(Apply(s, op, codeAt).state)
  {
  }

  lemma DeadStays(s: State, op: Op, codeAt: CodeAt, token: nat)
    requires TokensOk(s) && Dead(s, token)
    ensures Dead(Apply(s, op, codeAt).state, token)
    ensures op.Refresh? && op.token == token ==> Apply(s, op, codeAt) == Outcome(s, Err(InvalidRefreshToken))
  {
    StepAges(s, op, codeAt);
  }

  // ----- One live token per login -----

  predicate OnePerChain(s: State) {
    forall t, u | t in s.sessions && u in s.sessions && t != u && s.sessions[t].chain == s.sessions[u].chain ::
      s.sessions[t].revokedAt.Some? || s.sessions[u].revokedAt.Some?
  }

  lemma AgedKeepsOnePerChain(s: State, s': State)
    requires TokensOk(s) && SessionsAge(s, s') && OnePerChain(s) && s'.nextToken == s.nextToken
    ensures OnePerChain(s')
  {
    forall t, u | t in s'.sessions && u in s'.sessions && t != u && s'.sessions[t].chain == s'.sessions[u].chain
      ensures s'.sessions[t].revokedAt.Some? || s'.sessions[u].revokedAt.Some?
    {
      assert Aged(s.sessions[t], s'.sessions[t]) && Aged(s.sessions[u], s'.sessions[u]);
    }
  }

  lemma StepKeepsOnePerChain(s: State, op: Op, codeAt: CodeAt)
    requires TokensOk(s) && OnePerChain(s)
    ensures OnePerChain(Apply(s, op, codeAt).state)
  {
    StepAges(s, op, codeAt);
    if Apply(s, op, codeAt).state.nextToken == s.nextToken {
      AgedKeepsOnePerChain(s, Apply(s, op, codeAt).state);
    } else {
      assert op.Login? || op.LoginMfa? || op.LoginRecover? || op.Refresh?;
    }
  }

  // ----- The log -----

  predicate Issues(e: Event) {
    e.LoggedIn? || e.Exchanged?
  }

  /** Issued tokens are below the counter, and their rows belong to the user they were issued to. */
  predicate IssuedOk(s: State) {
    forall i | 0 <= i < |s.log| && Issues(s.log[i]) ::
      s.log[i].token < s.nextToken && (s.log[i].token in s.sessions ==> s.sessions[s.log[i].token].user == s.log[i].user)
  }

  /** Exchanged tokens are dead, and no token is exchanged twice. */
  predicate ExchangedOk(s: State) {
    && (forall i | 0 <= i < |s.log| && s.log[i].Exchanged? :: Dead(s, s.log[i].oldToken))
    && forall i, k | 0 <= i < k < |s.log| && s.log[i].Exchanged? && s.log[k].Exchanged? :: s.log[i].oldToken != s.log[k].oldToken
  }

  /** Tokens issued before a password change of their user are dead, and none of them is exchanged after it. */
  predicate ChangedOk(s: State) {
    && (forall i, j | 0 <= i < j < |s.log| && Issues(s.log[i]) && s.log[j] == PasswordChanged(s.log[i].user) ::
          Dead(s, s.log[i].token))
    && forall i, j, k | 0 <= i < j < k < |s.log| && Issues(s.log[i]) && s.log[j] == PasswordChanged(s.log[i].user)
                        && s.log[k].Exchanged? :: s.log[k].oldToken != s.log[i].token
  }

  predicate SessionInv(s: State) {
    TokensOk(s) && OnePerChain(s) && IssuedOk(s) && ExchangedOk(s) && ChangedOk(s)
  }

  /** What an appended event says about the two states. */
  predicate EventFits(s: State, s': State, e: Event) {
    match e
    case LoggedIn(u, t, _) => t == s.nextToken && t in s'.sessions && s'.sessions[t].user == u
    case Exchanged(u, was, t) => t == s.nextToken && t in s'.sessions && s'.sessions[t].user == u && !Dead(s, was) && Dead(s', was)
    case PasswordChanged(u) => forall t | t in s'.sessions && s'.sessions[t].user == u :: s'.sessions[t].revokedAt.Some?
    case Minted(_) => true
  }

  /** A step appends at most one event; only an event that issues takes a token. */
  predicate LogStep(s: State, s': State) {
    || (s'.log == s.log && s'.nextToken == s.nextToken)
    || (|s'.log| == |s.log| + 1 && s'.log == s.log + [s'.log[|s.log|]] && EventFits(s, s', s'.log[|s.log|])
        && (!Issues(s'.log[|s.log|]) ==> s'.nextToken == s.nextToken))
  }

  lemma StepLogs(s: State, op: Op, codeAt: CodeAt)
    requires TokensOk(s)
    ensures LogStep(s, Apply(s, op, codeAt).state)
  {
  }

  lemma IssuedKept(s: State, s': State)
    requires TokensOk(s) && SessionsAge(s, s') && LogStep(s, s') && IssuedOk(s)
    ensures IssuedOk(s')
  {
    forall i | 0 <= i < |s'.log| && Issues(s'.log[i])
      ensures s'.log[i].token < s'.nextToken
      ensures s'.log[i].token in s'.sessions ==> s'.sessions[s'.log[i].token].user == s'.log[i].user
    {
      if i < |s.log| {
        assert s'.log[i] == s.log[i];
      }
    }
  }

  lemma ExchangedKept(s: State, s': State)
    requires TokensOk(s) && SessionsAge(s, s') && LogStep(s, s') && ExchangedOk(s)
    ensures ExchangedOk(s')
  {
    forall i | 0 <= i < |s'.log| && s'.log[i].Exchanged?
      ensures Dead(s', s'.log[i].oldToken)
    {
      if i < |s.log| {
        assert s'.log[i] == s.log[i];
        assert Dead(s, s.log[i].oldToken);
      }
    }
    forall i, k | 0 <= i < k < |s'.log| && s'.log[i].Exchanged? && s'.log[k].Exchanged?
      ensures s'.log[i].oldToken != s'.log[k].oldToken
    {
      assert s'.log[i] == s.log[i];
      assert Dead(s, s.log[i].oldToken);
    }
  }

  lemma ChangedKept(s: State, s': State)
    requires TokensOk(s) && SessionsAge(s, s') && LogStep(s, s') && IssuedOk(s) && IssuedOk(s') && ChangedOk(s)
    ensures ChangedOk(s')
  {
    forall i, j | 0 <= i < j < |s'.log| && Issues(s'.log[i]) && s'.log[j] == PasswordChanged(s'.log[i].user)
      ensures Dead(s', s'.log[i].token)
    {
      assert s'.log[i] == s.log[i];
      if j < |s.log| {
        assert s'.log[j] == s.log[j];
        assert Dead(s, s.log[i].token);
      }
    }
    forall i, j, k | 0 <= i < j < k < |s'.log| && Issues(s'.log[i]) && s'.log[j] == PasswordChanged(s'.log[i].user)
                     && s'.log[k].Exchanged?
      ensures s'.log[k].oldToken != s'.log[i].token
    {
      assert s'.log[i] == s.log[i] && s'.log[j] == s.log[j];
      assert Dead(s, s.log[i].token);
    }
  }

  lemma StepKeepsSessionInv(s: State, op: Op, codeAt: CodeAt)
    requires SessionInv(s)
    ensures SessionInv(Apply(s, op, codeAt).state)
  {
    var s' := Apply(s, op, codeAt).state;
    StepAges(s, op, codeAt);
    StepKeepsOnePerChain(s, op, codeAt);
    StepLogs(s, op, codeAt);
    IssuedKept(s, s');
    ExchangedKept(s, s');
    ChangedKept(s, s');
  }

  lemma {:induction false} RunKeepsSessionInv(s: State, ops: seq<Op>, codeAt: CodeAt)
    requires SessionInv(s)
    ensures SessionInv(Run(s, ops, codeAt))
    decreases |ops|
  {
    if ops != [] {
      StepKeepsSessionInv(s, ops[0], codeAt);
      RunKeepsSessionInv(Apply(s, ops[0], codeAt).state, ops[1..], codeAt);
    }
  }

  lemma ReachableSessionInv(s: State, codeAt: CodeAt)
    requires Reachable(s, codeAt)
    ensures SessionInv(s)
  {
    var ops :| s == Run(NEW_SYSTEM, ops, codeAt);
    RunKeepsSessionInv(NEW_SYSTEM, ops, codeAt);
  }

  // ----- The laws -----

  /** In every run each refresh token is exchanged at most once. */
  lemma ExchangedAtMostOnce(s: State, codeAt: CodeAt, i: nat, k: nat)
    requires Reachable(s, codeAt) && i < |s.log| && k < |s.log|
    requires s.log[i].Exchanged? && s.log[k].Exchanged? && s.log[i].oldToken == s.log[k].oldToken
    ensures i == k
  {
    ReachableSessionInv(s, codeAt);
  }

  /** Of the tokens that descend from one login, at most one is not revoked. */
  lemma OneLiveTokenPerLogin(s: State, codeAt: CodeAt, t: nat, u: nat)
    requires Reachable(s, codeAt) && t in s.sessions && u in s.sessions
    requires s.sessions[t].revokedAt.None? && s.sessions[u].revokedAt.None?
    requires s.sessions[t].chain == s.sessions[u].chain
    ensures t == u
  {
    ReachableSessionInv(s, codeAt);
  }

  /** A token issued before a password change of its user is never exchanged after it. */
  lemma NoExchangeAfterPasswordChange(s: State, codeAt: CodeAt, i: nat, j: nat, k: nat)
    requires Reachable(s, codeAt) && i < j < k < |s.log|
    requires Issues(s.log[i]) && s.log[j] == PasswordChanged(s.log[i].user) && s.log[k].Exchanged?
    ensures s.log[k].oldToken != s.log[i].token
  {
    ReachableSessionInv(s, codeAt);
  }

  /** An exchange, a logout or a password change is final: from then on the token is refused, in every run. */
  lemma {:induction false} DeadIsFinal(s: State, ops: seq<Op>, codeAt: CodeAt, token: nat, now: nat)
    requires TokensOk(s) && Dead(s, token)
    ensures RefreshSpec(Run(s, ops, codeAt), token, now) == Outcome(Run(s, ops, codeAt), Err(InvalidRefreshToken))
    decreases |ops|
  {
    if ops != [] {
      StepAges(s, ops[0], codeAt);
      DeadStays(s, ops[0], codeAt, token);
      DeadIsFinal(Apply(s, ops[0], codeAt).state, ops[1..], codeAt, token, now);
    }
  }
}
