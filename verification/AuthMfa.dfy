/** What every run keeps about second factors: single-use challenges, strictly increasing TOTP steps, eight recovery codes. */
module AuthMfa {
  import opened Results
  import opened Totp
  import opened Auth

  // ----- Challenges are single-use -----

  function ChallengeOf(via: Via): Option<nat> {
    match via
    case ByPassword => None
    case ByTotp(challenge, _) => Some(challenge)
    case ByRecovery(challenge) => Some(challenge)
  }

  /** The login completed this challenge. */
  predicate Completes(e: Event, challenge: nat) {
    e.LoggedIn? && ChallengeOf(e.via) == Some(challenge)
  }

  predicate ChallengesOk(s: State) {
    && (forall i | 0 <= i < |s.log| && s.log[i].LoggedIn? && ChallengeOf(s.log[i].via).Some? ::
          ChallengeOf(s.log[i].via).value in s.used)
    && forall i, k | 0 <= i < k < |s.log| && s.log[i].LoggedIn? && s.log[k].LoggedIn? && ChallengeOf(s.log[i].via).Some? ::
         ChallengeOf(s.log[i].via) != ChallengeOf(s.log[k].via)
  }

  /** What a step does to the log and to the challenges used. */
  predicate ChallengeStep(s: State, s': State) {
    && s.used <= s'.used
    && (s'.log == s.log
        || (|s'.log| == |s.log| + 1 && s'.log == s.log + [s'.log[|s.log|]]
            && var e := s'.log[|s.log|];
               e.LoggedIn? && ChallengeOf(e.via).Some? ==>
                 ChallengeOf(e.via).value !in s.used && ChallengeOf(e.via).value in s'.used))
  }

  lemma StepChallenges(s: State, op: Op, codeAt: CodeAt)
    ensures ChallengeStep(s, Apply(s, op, codeAt).state)
  {
  }

  lemma ChallengesKept(s: State, s': State)
    requires ChallengesOk(s) && ChallengeStep(s, s')
    ensures ChallengesOk(s')
  {
    forall i | 0 <= i < |s'.log| && i < |s.log|
      ensures s'.log[i] == s.log[i]
    {
    }
  }

  /** Presenting a challenge uses it up whatever the second factor says; from then on both endpoints refuse it. */
  lemma {:induction false} ChallengeIsSpent(s: State, ops: seq<Op>, codeAt: CodeAt, challenge: nat, code: string, now: nat)
    requires challenge in s.used
    ensures var s' := Run(s, ops, codeAt);
            && LoginMfaSpec(s', challenge, code, now, codeAt) == Outcome(s', Err(InvalidMfaToken))
            && LoginRecoverSpec(s', challenge, code, now) == Outcome(s', Err(InvalidMfaToken))
    decreases |ops|
  {
    if ops != [] {
      StepChallenges(s, ops[0], codeAt);
      ChallengeIsSpent(Apply(s, ops[0], codeAt).state, ops[1..], codeAt, challenge, code, now);
    }
  }

  // ----- TOTP steps increase -----

  predicate TotpLogin(e: Event, user: nat) {
    e.LoggedIn? && e.via.ByTotp? && e.user == user
  }

  predicate StepsOk(s: State) {
    && (forall i | 0 <= i < |s.log| && s.log[i].LoggedIn? && s.log[i].via.ByTotp? ::
          var u := s.log[i].user; u < |s.users| && s.users[u].lastStep.Some? && s.log[i].via.step <= s.users[u].lastStep.value)
    && forall i, k | 0 <= i < k < |s.log| && s.log[i].LoggedIn? && TotpLogin(s.log[k], s.log[i].user) && s.log[i].via.ByTotp? ::
         s.log[i].via.step < s.log[k].via.step
  }

  /** Remembered steps only grow, and a TOTP login is past the remembered one, which it replaces. */
  predicate TotpStep(s: State, s': State) {
    && |s.users| <= |s'.users|
    && (forall u | 0 <= u < |s.users| && s.users[u].lastStep.Some? ::
          s'.users[u].lastStep.Some? && s.users[u].lastStep.value <= s'.users[u].lastStep.value)
    && (s'.log == s.log || (|s'.log| == |s.log| + 1 && s'.log == s.log + [s'.log[|s.log|]] && TotpFits(s, s', s'.log[|s.log|])))
  }

  predicate TotpFits(s: State, s': State, e: Event)
    requires |s.users| <= |s'.users|
  {
    e.LoggedIn? && e.via.ByTotp? ==>
      && e.user < |s.users| && s'.users[e.user].lastStep == Some(e.via.step)
      && (s.users[e.user].lastStep.Some? ==> s.users[e.user].lastStep.value < e.via.step)
  }

  lemma StepTotp(s: State, op: Op, codeAt: CodeAt)
    ensures TotpStep(s, Apply(s, op, codeAt).state)
  {
  }

  lemma StepsKept(s: State, s': State)
    requires StepsOk(s) && TotpStep(s, s')
    ensures StepsOk(s')
  {
    forall i | 0 <= i < |s'.log| && i < |s.log|
      ensures s'.log[i] == s.log[i]
    {
    }
  }

  // ----- Recovery codes -----

  function Unused(codes: seq<Code>, user: nat): nat {
    if codes == [] then 0
    else Unused(codes[..|codes| - 1], user) + if Unspent(codes[|codes| - 1], user) then 1 else 0
  }

  /** The user's recovery logins since the last mint; all of them if there was none. */
  function SinceMint(log: seq<Event>, user: nat): nat {
    if log == [] then 0
    else
      var e := log[|log| - 1];
      if e == Minted(user) then 0
      else SinceMint(log[..|log| - 1], user) + if e.LoggedIn? && e.user == user && e.via.ByRecovery? then 1 else 0
  }

  predicate HasMinted(log: seq<Event>, user: nat) {
    exists i | 0 <= i < |log| :: log[i] == Minted(user)
  }

  /** Eight codes since the last mint, used or not; before the first mint there are none. */
  predicate CodesOk(s: State, user: nat) {
    && (user < |s.users| && s.users[user].enrolled <==> HasMinted(s.log, user))
    && Unused(s.codes, user) + SinceMint(s.log, user) == if HasMinted(s.log, user) then CODE_COUNT else 0
  }

  lemma SinceMintAppend(log: seq<Event>, e: Event, user: nat)
    ensures SinceMint(log + [e], user)
         == if e == Minted(user) then 0
            else SinceMint(log, user) + if e.LoggedIn? && e.user == user && e.via.ByRecovery? then 1 else 0
    ensures HasMinted(log + [e], user) <==> HasMinted(log, user) || e == Minted(user)
  {
    assert (log + [e])[..|log|] == log;
    assert (log + [e])[|log|] == e;
    if HasMinted(log, user) {
      var i :| 0 <= i < |log| && log[i] == Minted(user);
      assert (log + [e])[i] == Minted(user);
    }
  }

  lemma {:induction false} UnusedConcat(a: seq<Code>, b: seq<Code>, user: nat)
    ensures Unused(a + b, user) == Unused(a, user) + Unused(b, user)
  {
    if b == [] {
      assert a + b == a;
    } else {
      var n := |b| - 1;
      assert (a + b)[..|a| + n] == a + b[..n];
      UnusedConcat(a, b[..n], user);
    }
  }

  lemma {:induction false} UnusedFresh(codes: seq<Code>, owner: nat, user: nat)
    requires forall i | 0 <= i < |codes| :: codes[i].user == owner && codes[i].usedAt.None?
    ensures Unused(codes, user) == if owner == user then |codes| else 0
  {
    if codes != [] {
      UnusedFresh(codes[..|codes| - 1], owner, user);
    }
  }

  /** Using up a code takes one from its owner and none from the others. */
  lemma {:induction false} UnusedSpent(codes: seq<Code>, k: nat, now: int, user: nat)
    requires k < |codes| && codes[k].usedAt.None?
    ensures Unused(codes, user)
         == Unused(codes[k := codes[k].(usedAt := Some(now))], user) + if codes[k].user == user then 1 else 0
  {
    var n, after := |codes| - 1, codes[k := codes[k].(usedAt := Some(now))];
    if k == n {
      assert after[..n] == codes[..n];
    } else {
      assert after[..n] == codes[..n][k := codes[k].(usedAt := Some(now))];
      UnusedSpent(codes[..n], k, now, user);
    }
  }

  lemma {:induction false} UnusedDropped(codes: seq<Code>, owner: nat, user: nat)
    ensures Unused(DropUser(codes, owner), user) == if owner == user then 0 else Unused(codes, user)
  {
    if codes != [] {
      var front, c := codes[..|codes| - 1], codes[|codes| - 1];
      UnusedDropped(front, owner, user);
      UnusedConcat(DropUser(front, owner), if c.user == owner then [] else [c], user);
      assert [c][..0] == [];
    }
  }

  /** Retention never takes an unused code. */
  lemma {:induction false} UnusedPruned(codes: seq<Code>, users: seq<User>, household: nat, cutoff: int, user: nat)
    ensures Unused(DropStale(codes, users, household, cutoff), user) == Unused(codes, user)
  {
    if codes != [] {
      var front, c := codes[..|codes| - 1], codes[|codes| - 1];
      UnusedPruned(front, users, household, cutoff, user);
      var drop := StaleCode(c, cutoff) && c.user < |users| && users[c.user].household == household;
      UnusedConcat(DropStale(front, users, household, cutoff), if drop then [] else [c], user);
      assert [c][..0] == [];
    }
  }

  lemma VerifyKeepsCodes(s: State, op: Op, codeAt: CodeAt, user: nat)
    requires CodesOk(s, user) && op.Verify?
    ensures CodesOk(Apply(s, op, codeAt).state, user)
  {
    SinceMintAppend(s.log, Minted(op.caller), user);
    var minted := MintedCodes(op.caller, op.newCodes);
    UnusedConcat(s.codes, minted, user);
    UnusedFresh(minted, op.caller, user);
  }

  lemma RegenerateKeepsCodes(s: State, op: Op, codeAt: CodeAt, user: nat)
    requires CodesOk(s, user) && op.Regenerate?
    ensures CodesOk(Apply(s, op, codeAt).state, user)
  {
    SinceMintAppend(s.log, Minted(op.caller), user);
    var minted := MintedCodes(op.caller, op.newCodes);
    UnusedDropped(s.codes, op.caller, user);
    UnusedConcat(DropUser(s.codes, op.caller), minted, user);
    UnusedFresh(minted, op.caller, user);
  }

  lemma RecoverKeepsCodes(s: State, op: Op, codeAt: CodeAt, user: nat)
    requires CodesOk(s, user) && op.LoginRecover? && Apply(s, op, codeAt).reply.Ok?
    ensures CodesOk(Apply(s, op, codeAt).state, user)
  {
    var u := s.challenges[op.challenge].user;
    var k := FindCode(s.codes, u, op.text).value;
    SinceMintAppend(s.log, LoggedIn(u, s.nextToken, ByRecovery(op.challenge)), user);
    UnusedSpent(s.codes, k, op.now, user);
  }

  /** The other steps leave enrollment alone, log neither mints nor recovery logins, and at most prune the codes. */
  predicate LeavesCodes(s: State, s': State, op: Op) {
    && |s.users| <= |s'.users|
    && (forall u | 0 <= u < |s'.users| :: s'.users[u].enrolled == (u < |s.users| && s.users[u].enrolled))
    && s'.codes == (if op.Prune? then DropStale(s.codes, s.users, op.household, op.cutoff) else s.codes)
    && (s'.log == s.log
        || (|s'.log| == |s.log| + 1 && s'.log == s.log + [s'.log[|s.log|]]
            && !s'.log[|s.log|].Minted? && !(s'.log[|s.log|].LoggedIn? && s'.log[|s.log|].via.ByRecovery?)))
  }

  lemma StepLeavesCodes(s: State, op: Op, codeAt: CodeAt)
    requires !op.Verify? && !op.Regenerate? && !(op.LoginRecover? && Apply(s, op, codeAt).reply.Ok?)
    ensures LeavesCodes(s, Apply(s, op, codeAt).state, op)
  {
  }

  lemma OtherKeepsCodes(s: State, s': State, op: Op, user: nat)
    requires CodesOk(s, user) && LeavesCodes(s, s', op)
    ensures CodesOk(s', user)
  {
    if op.Prune? {
      UnusedPruned(s.codes, s.users, op.household, op.cutoff, user);
    }
    if s'.log != s.log {
      SinceMintAppend(s.log, s'.log[|s.log|], user);
    }
  }

  lemma StepKeepsCodes(s: State, op: Op, codeAt: CodeAt, user: nat)
    requires CodesOk(s, user)
    ensures CodesOk(Apply(s, op, codeAt).state, user)
  {
    if op.Verify? {
      VerifyKeepsCodes(s, op, codeAt, user);
    } else if op.Regenerate? {
      RegenerateKeepsCodes(s, op, codeAt, user);
    } else if op.LoginRecover? && Apply(s, op, codeAt).reply.Ok? {
      RecoverKeepsCodes(s, op, codeAt, user);
    } else {
      StepLeavesCodes(s, op, codeAt);
      OtherKeepsCodes(s, Apply(s, op, codeAt).state, op, user);
    }
  }

  // ----- No way around the second factor -----

  /** Challenges belong to the user that logs in with them, and password-only logins are from before the first mint. */
  predicate FactorsOk(s: State) {
    && (forall i | 0 <= i < |s.log| && s.log[i].LoggedIn? && ChallengeOf(s.log[i].via).Some? ::
          ChallengeOf(s.log[i].via).value < |s.challenges| && s.challenges[ChallengeOf(s.log[i].via).value].user == s.log[i].user)
    && (forall i | 0 <= i < |s.log| && s.log[i].Minted? :: s.log[i].user < |s.users| && s.users[s.log[i].user].enrolled)
    && forall i, k | 0 <= i < k < |s.log| && s.log[i].Minted? && s.log[k].LoggedIn? && s.log[k].user == s.log[i].user ::
         !s.log[k].via.ByPassword?
  }

  /** Users stay enrolled and challenges stay as issued; an appended event fits the factors of its user. */
  predicate FactorStep(s: State, s': State) {
    && |s.users| <= |s'.users| && (forall u | 0 <= u < |s.users| && s.users[u].enrolled :: s'.users[u].enrolled)
    && s.challenges <= s'.challenges
    && (s'.log == s.log || (|s'.log| == |s.log| + 1 && s'.log == s.log + [s'.log[|s.log|]] && FactorFits(s, s', s'.log[|s.log|])))
  }

  predicate FactorFits(s: State, s': State, e: Event) {
    match e
    case LoggedIn(u, _, ByPassword) => u < |s.users| && !s.users[u].enrolled
    case LoggedIn(u, _, via) =>
      ChallengeOf(via).Some? && ChallengeOf(via).value < |s.challenges| && s.challenges[ChallengeOf(via).value].user == u
    case Minted(u) => u < |s'.users| && s'.users[u].enrolled
    case _ => true
  }

  lemma StepFactors(s: State, op: Op, codeAt: CodeAt)
    ensures FactorStep(s, Apply(s, op, codeAt).state)
  {
  }

  lemma FactorsKept(s: State, s': State)
    requires FactorsOk(s) && FactorStep(s, s')
    ensures FactorsOk(s')
  {
    forall i | 0 <= i < |s'.log| && i < |s.log|
      ensures s'.log[i] == s.log[i]
    {
    }
  }

  // ----- Every run -----

  lemma {:induction false} RunKeepsMfa(s: State, ops: seq<Op>, codeAt: CodeAt, user: nat)
    requires ChallengesOk(s) && StepsOk(s) && FactorsOk(s) && CodesOk(s, user)
    ensures var s' := Run(s, ops, codeAt); ChallengesOk(s') && StepsOk(s') && FactorsOk(s') && CodesOk(s', user)
    decreases |ops|
  {
    if ops != [] {
      var s' := Apply(s, ops[0], codeAt).state;
      StepChallenges(s, ops[0], codeAt);
      ChallengesKept(s, s');
      StepTotp(s, ops[0], codeAt);
      StepsKept(s, s');
      StepFactors(s, ops[0], codeAt);
      FactorsKept(s, s');
      StepKeepsCodes(s, ops[0], codeAt, user);
      RunKeepsMfa(s', ops[1..], codeAt, user);
    }
  }

  lemma NewSystemOk(user: nat)
    ensures ChallengesOk(NEW_SYSTEM) && StepsOk(NEW_SYSTEM) && FactorsOk(NEW_SYSTEM) && CodesOk(NEW_SYSTEM, user)
  {
    EmptyIsOk(NEW_SYSTEM, user);
  }

  lemma EmptyIsOk(s: State, user: nat)
    requires s.users == [] && s.log == [] && s.codes == []
    ensures ChallengesOk(s) && StepsOk(s) && FactorsOk(s) && CodesOk(s, user)
  {
    assert !HasMinted(s.log, user);
  }

  lemma ReachableMfa(s: State, codeAt: CodeAt, user: nat)
    requires Reachable(s, codeAt)
    ensures ChallengesOk(s) && StepsOk(s) && FactorsOk(s) && CodesOk(s, user)
  {
    var ops :| s == Run(NEW_SYSTEM, ops, codeAt);
    NewSystemOk(user);
    RunKeepsMfa(NEW_SYSTEM, ops, codeAt, user);
  }

  /** One challenge leads to at most one login, across both second-factor endpoints. */
  lemma OneLoginPerChallenge(s: State, codeAt: CodeAt, i: nat, k: nat, challenge: nat)
    requires Reachable(s, codeAt) && i < |s.log| && k < |s.log|
    requires Completes(s.log[i], challenge) && Completes(s.log[k], challenge)
    ensures i == k
  {
    ReachableMfa(s, codeAt, 0);
  }

  /** The TOTP steps that login accepts for a user strictly increase, so none is accepted twice. */
  lemma TotpStepsIncrease(s: State, codeAt: CodeAt, user: nat, i: nat, k: nat)
    requires Reachable(s, codeAt) && i < k < |s.log|
    requires TotpLogin(s.log[i], user) && TotpLogin(s.log[k], user)
    ensures s.log[i].via.step < s.log[k].via.step
  {
    ReachableMfa(s, codeAt, user);
  }

  /** For every enrolled user, unused codes and recovery logins since the last mint add up to eight. */
  lemma EightRecoveryCodes(s: State, codeAt: CodeAt, user: nat)
    requires Reachable(s, codeAt) && user < |s.users|
    ensures Unused(s.codes, user) + SinceMint(s.log, user) == if s.users[user].enrolled then 8 else 0
  {
    ReachableMfa(s, codeAt, user);
  }

  /** Once enrolled, a user never logs in on a password alone, and the challenge behind a login was issued to that user. */
  lemma SecondFactorAlways(s: State, codeAt: CodeAt, i: nat, k: nat)
    requires Reachable(s, codeAt) && i < k < |s.log| && s.log[k].LoggedIn?
    ensures s.log[i] == Minted(s.log[k].user) ==>
              match ChallengeOf(s.log[k].via)
              case None => false
              case Some(c) => c in s.used && c < |s.challenges| && s.challenges[c].user == s.log[k].user
  {
    ReachableMfa(s, codeAt, 0);
  }

  // ----- The replay gate guards login only -----

  /** Enrolled users stay enrolled with the secret they have, and their remembered step only grows. */
  predicate EnrolledKept(s: State, s': State) {
    && |s.users| <= |s'.users|
    && forall u | 0 <= u < |s.users| && s.users[u].enrolled :: UserKept(s.users[u], s'.users[u])
  }

  predicate UserKept(u: User, u': User) {
    && u'.enrolled && u'.secret == u.secret
    && (u.lastStep.Some? ==> u'.lastStep.Some? && u.lastStep.value <= u'.lastStep.value)
  }

  lemma StepKeepsEnrolled(s: State, op: Op, codeAt: CodeAt)
    ensures EnrolledKept(s, Apply(s, op, codeAt).state)
  {
  }

  lemma {:induction false} RunKeepsEnrolled(s: State, ops: seq<Op>, codeAt: CodeAt)
    ensures EnrolledKept(s, Run(s, ops, codeAt))
    decreases |ops|
  {
    if ops != [] {
      var s1, s' := Apply(s, ops[0], codeAt).state, Run(s, ops, codeAt);
      StepKeepsEnrolled(s, ops[0], codeAt);
      RunKeepsEnrolled(s1, ops[1..], codeAt);
      forall u | 0 <= u < |s.users| && s.users[u].enrolled
        ensures UserKept(s.users[u], s'.users[u])
      {
        assert UserKept(s.users[u], s1.users[u]) && UserKept(s1.users[u], s'.users[u]);
      }
    }
  }

  /**
    A code that a login accepted, presented again after any further requests. Regeneration accepts it if and only if some step
    of the window then shows it, the accepted step included. A second login needs a step past the accepted one.
    */
  lemma AcceptedCodeAgain(
      s: State, codeAt: CodeAt, challenge: nat, code: string, now: nat, ops: seq<Op>,
      newCodes: EightCodes, next: nat, later: nat)
    requires LoginMfaSpec(s, challenge, code, now, codeAt).reply.Ok?
    ensures var s', u := Run(LoginMfaSpec(s, challenge, code, now, codeAt).state, ops, codeAt), s.challenges[challenge].user;
            var secret := s.users[u].secret.value;
            var step := VerifiedStep(codeAt, secret, code, s.users[u].lastStep, now).value;
            && (RegenerateSpec(s', u, code, newCodes, later, codeAt).reply.Ok? <==> CanVerify(codeAt, secret, code, None, later))
            && (InWindow(later, step) ==> RegenerateSpec(s', u, code, newCodes, later, codeAt).reply.Ok?)
            && ((next < |s'.challenges| && s'.challenges[next].user == u && LoginMfaSpec(s', next, code, later, codeAt).reply.Ok?) ==>
                  CanVerify(codeAt, secret, code, Some(step), later))
  {
    var u := s.challenges[challenge].user;
    var secret := s.users[u].secret.value;
    var step := VerifiedStep(codeAt, secret, code, s.users[u].lastStep, now).value;
    var s1 := LoginMfaSpec(s, challenge, code, now, codeAt).state;
    var s' := Run(s1, ops, codeAt);
    RunKeepsEnrolled(s1, ops, codeAt);
    assert UserKept(s1.users[u], s'.users[u]) && s1.users[u].lastStep == Some(step);
    VerifiesExactly(codeAt, secret, code, s.users[u].lastStep, now, step);
    VerifiesIff(codeAt, secret, code, None, later);
    assert InWindow(later, step) ==> Shows(codeAt, secret, code, None, later, step);
    if next < |s'.challenges| && s'.challenges[next].user == u && LoginMfaSpec(s', next, code, later, codeAt).reply.Ok? {
      var last := s'.users[u].lastStep;
      var again := VerifiedStep(codeAt, secret, code, last, later);
      VerifiesExactly(codeAt, secret, code, last, later, again.value);
      assert Shows(codeAt, secret, code, Some(step), later, again.value);
    }
  }
}
