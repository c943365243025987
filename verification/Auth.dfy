/**
  Login, refresh rotation, password change and multi-factor authentication as atomic steps over the tables. Hashes are modelled
  by what they hash, tokens and challenge ids by fresh numbers, and `log` by the audit actions the laws speak of.
  */
module Auth {
  import opened Results
  import opened Totp

  // ----- Tables -----

  datatype MfaPolicy = Optional | RequiredForAdmins | RequiredForAll

  datatype User = User(
    email: string, password: string, household: nat, admin: bool,
    secret: Option<nat>, enrolled: bool, lastStep: Option<int>)

  /** A session row, keyed by its refresh token. `chain`, a history variable, is the token of the login it descends from. */
  datatype Session = Session(user: nat, expires: int, revokedAt: Option<int>, chain: nat)

  /** What an issued challenge token carries; its id is the position in the list. */
  datatype Challenge = Challenge(user: nat, expires: int)

  datatype Code = Code(user: nat, text: string, usedAt: Option<int>)

  datatype Via = ByPassword | ByTotp(challenge: nat, step: int) | ByRecovery(challenge: nat)

  datatype Event =
    | LoggedIn(user: nat, token: nat, via: Via)
    | Exchanged(user: nat, oldToken: nat, token: nat)
    | PasswordChanged(user: nat)
    | Minted(user: nat)

  datatype State = State(
    users: seq<User>, policies: seq<MfaPolicy>, sessions: map<nat, Session>, nextToken: nat,
    challenges: seq<Challenge>, used: set<nat>, codes: seq<Code>, log: seq<Event>)

  datatype AuthError =
    | InvalidCredentials | MfaRequired(challenge: nat) | MfaEnrollmentRequired
    | InvalidMfaToken | MfaInvalidCode | MfaInvalidRecoveryCode | InvalidRefreshToken
    | Unauthorized | MfaAlreadyEnrolled | MfaNotPending | MfaNotEnrolled | DuplicateEmail

  datatype Reply = Tokens(refreshToken: nat) | Secret(secret: nat) | RecoveryCodes(codes: seq<string>) | NoContent

  /** A refused request can still leave a trace: a second factor that fails has used up its challenge. */
  datatype Outcome = Outcome(state: State, reply: Result<Reply, AuthError>)

  const REFRESH_TTL := 30 * 24 * 3600
  const CHALLENGE_TTL := 300
  const CODE_COUNT := 8

  type EightCodes = s: seq<string> | |s| == CODE_COUNT witness ["", "", "", "", "", "", "", ""]

  // ----- Issuing tokens -----

  /** `_issue_tokens`: a fresh row; a rotated one stays in the chain of its login. */
  function Issue(s: State, user: nat, now: int, chain: Option<nat>, event: Event): State {
    var root := if chain.Some? then chain.value else s.nextToken;
    s.(sessions := s.sessions[s.nextToken := Session(user, now + REFRESH_TTL, None, root)],
       nextToken := s.nextToken + 1, log := s.log + [event])
  }

  function LogIn(s: State, user: nat, now: int, via: Via): Outcome {
    Outcome(Issue(s, user, now, None, LoggedIn(user, s.nextToken, via)), Ok(Tokens(s.nextToken)))
  }

  // ----- First factor -----

  predicate EnrollmentRequired(policy: MfaPolicy, admin: bool) {
    policy == RequiredForAll || (policy == RequiredForAdmins && admin)
  }

  predicate Matches(u: User, email: string, password: string) {
    u.email == email && u.password == password
  }

  /** Emails repeat across households: the first user whose password matches. */
  function FirstMatch(users: seq<User>, email: string, password: string): (r: Option<nat>)
    ensures r.Some? ==> r.value < |users| && Matches(users[r.value], email, password)
    ensures forall i | 0 <= i < |users| && Matches(users[i], email, password) :: r.Some? && r.value <= i
  {
    if users == [] then None
    else
      var n := |users| - 1;
      var front := FirstMatch(users[..n], email, password);
      if front.Some? then front else if Matches(users[n], email, password) then Some(n) else None
  }

  predicate MustEnroll(s: State, user: User) {
    user.household < |s.policies| && EnrollmentRequired(s.policies[user.household], user.admin)
  }

  function LoginSpec(s: State, email: string, password: string, now: int): Outcome {
    match FirstMatch(s.users, email, password)
    case None => Outcome(s, Err(InvalidCredentials))
    case Some(u) =>
      if s.users[u].enrolled then
        Outcome(s.(challenges := s.challenges + [Challenge(u, now + CHALLENGE_TTL)]), Err(MfaRequired(|s.challenges|)))
      else if MustEnroll(s, s.users[u]) then Outcome(s, Err(MfaEnrollmentRequired))
      else LogIn(s, u, now, ByPassword)
  }

  // ----- Second factor -----

  /** The token is one that was issued and has not expired, and it was not redeemed before. */
  predicate Redeemable(s: State, challenge: nat, now: int) {
    challenge < |s.challenges| && now < s.challenges[challenge].expires && challenge !in s.used
  }

  function Redeem(s: State, challenge: nat): State {
    s.(used := s.used + {challenge})
  }

  function LoginMfaSpec(s: State, challenge: nat, code: string, now: nat, codeAt: CodeAt): Outcome {
    if !Redeemable(s, challenge, now) then Outcome(s, Err(InvalidMfaToken))
    else
      var s1, u := Redeem(s, challenge), s.challenges[challenge].user;
      if u >= |s.users| || s.users[u].secret.None? || !s.users[u].enrolled then Outcome(s1, Err(InvalidMfaToken))
      else
        match VerifiedStep(codeAt, s.users[u].secret.value, code, s.users[u].lastStep, now)
        case None => Outcome(s1, Err(MfaInvalidCode))
        case Some(step) =>
          LogIn(s1.(users := s.users[u := s.users[u].(lastStep := Some(step))]), u, now, ByTotp(challenge, step))
  }

  predicate Unspent(c: Code, user: nat) {
    c.user == user && c.usedAt.None?
  }

  /** The first unused code of the user that matches. */
  function FindCode(codes: seq<Code>, user: nat, text: string): (r: Option<nat>)
    ensures r.Some? ==> r.value < |codes| && Unspent(codes[r.value], user) && codes[r.value].text == text
    ensures forall i | 0 <= i < |codes| && Unspent(codes[i], user) && codes[i].text == text :: r.Some? && r.value <= i
  {
    if codes == [] then None
    else
      var n := |codes| - 1;
      var front := FindCode(codes[..n], user, text);
      if front.Some? then front else if Unspent(codes[n], user) && codes[n].text == text then Some(n) else None
  }

  function LoginRecoverSpec(s: State, challenge: nat, text: string, now: int): Outcome {
    if !Redeemable(s, challenge, now) then Outcome(s, Err(InvalidMfaToken))
    else
      var s1, u := Redeem(s, challenge), s.challenges[challenge].user;
      if u >= |s.users| || !s.users[u].enrolled then Outcome(s1, Err(InvalidMfaToken))
      else
        match FindCode(s.codes, u, text)
        case None => Outcome(s1, Err(MfaInvalidRecoveryCode))
        case Some(k) => LogIn(s1.(codes := s.codes[k := s.codes[k].(usedAt := Some(now))]), u, now, ByRecovery(challenge))
  }

  // ----- Sessions -----

  predicate Exchangeable(s: State, token: nat, now: int) {
    token in s.sessions && s.sessions[token].revokedAt.None? && now < s.sessions[token].expires
  }

  function Revoke(sessions: map<nat, Session>, token: nat, now: int): map<nat, Session>
    requires token in sessions
  {
    sessions[token := sessions[token].(revokedAt := Some(now))]
  }

  function RefreshSpec(s: State, token: nat, now: int): Outcome {
    if !Exchangeable(s, token, now) || s.sessions[token].user >= |s.users| then Outcome(s, Err(InvalidRefreshToken))
    else
      var row := s.sessions[token];
      Outcome(Issue(s.(sessions := Revoke(s.sessions, token, now)), row.user, now, Some(row.chain),
                    Exchanged(row.user, token, s.nextToken)),
              Ok(Tokens(s.nextToken)))
  }

  function LogoutSpec(s: State, token: nat, now: int): Outcome {
    if token in s.sessions && s.sessions[token].revokedAt.None? then
      Outcome(s.(sessions := Revoke(s.sessions, token, now)), Ok(NoContent))
    else Outcome(s, Ok(NoContent))
  }

  function RevokeAll(sessions: map<nat, Session>, user: nat, now: int): (r: map<nat, Session>)
    ensures r.Keys == sessions.Keys
  {
    map t | t in sessions ::
      if sessions[t].user == user && sessions[t].revokedAt.None? then sessions[t].(revokedAt := Some(now)) else sessions[t]
  }

  function ChangePasswordSpec(s: State, caller: nat, current: string, newPassword: string, now: int): Outcome {
    if caller >= |s.users| then Outcome(s, Err(Unauthorized))
    else if s.users[caller].password != current then Outcome(s, Err(InvalidCredentials))
    else
      Outcome(s.(users := s.users[caller := s.users[caller].(password := newPassword)],
                 sessions := RevokeAll(s.sessions, caller, now), log := s.log + [PasswordChanged(caller)]),
              Ok(NoContent))
  }

  // ----- Enrollment and recovery codes -----

  function EnrollSpec(s: State, caller: nat, secret: nat): Outcome {
    if caller >= |s.users| then Outcome(s, Err(Unauthorized))
    else if s.users[caller].enrolled then Outcome(s, Err(MfaAlreadyEnrolled))
    else Outcome(s.(users := s.users[caller := s.users[caller].(secret := Some(secret))]), Ok(Secret(secret)))
  }

  function MintedCodes(user: nat, newCodes: seq<string>): (r: seq<Code>)
    ensures |r| == |newCodes| && forall i | 0 <= i < |r| :: r[i] == Code(user, newCodes[i], None)
  {
    seq(|newCodes|, i requires 0 <= i < |newCodes| => Code(user, newCodes[i], None))
  }

  /** Enrollment has no replay gate, so that the first login can use the same code. */
  function VerifySpec(s: State, caller: nat, code: string, newCodes: EightCodes, now: nat, codeAt: CodeAt): Outcome {
    if caller >= |s.users| then Outcome(s, Err(Unauthorized))
    else
      var u := s.users[caller];
      if u.enrolled then Outcome(s, Err(MfaAlreadyEnrolled))
      else if u.secret.None? then Outcome(s, Err(MfaNotPending))
      else if VerifiedStep(codeAt, u.secret.value, code, None, now).None? then Outcome(s, Err(MfaInvalidCode))
      else
        Outcome(s.(users := s.users[caller := u.(enrolled := true)], codes := s.codes + MintedCodes(caller, newCodes),
                   log := s.log + [Minted(caller)]),
                Ok(RecoveryCodes(newCodes)))
  }

  function DropUser(codes: seq<Code>, user: nat): seq<Code> {
    if codes == [] then []
    else DropUser(codes[..|codes| - 1], user) + if codes[|codes| - 1].user == user then [] else [codes[|codes| - 1]]
  }

  function RegenerateSpec(s: State, caller: nat, code: string, newCodes: EightCodes, now: nat, codeAt: CodeAt): Outcome {
    if caller >= |s.users| || s.users[caller].secret.None? || !s.users[caller].enrolled then Outcome(s, Err(MfaNotEnrolled))
    else if VerifiedStep(codeAt, s.users[caller].secret.value, code, None, now).None? then Outcome(s, Err(MfaInvalidCode))
    else
      Outcome(s.(codes := DropUser(s.codes, caller) + MintedCodes(caller, newCodes), log := s.log + [Minted(caller)]),
              Ok(RecoveryCodes(newCodes)))
  }

  // ----- Around the protocol -----

  function RegisterSpec(s: State, email: string, password: string): Outcome {
    Outcome(s.(users := s.users + [User(email, password, |s.policies|, true, None, false, None)],
               policies := s.policies + [Optional]),
            Ok(NoContent))
  }

  /** A used code past its retention. */
  predicate StaleCode(c: Code, cutoff: int) {
    c.usedAt.Some? && c.usedAt.value < cutoff
  }

  function DropStale(codes: seq<Code>, users: seq<User>, household: nat, cutoff: int): seq<Code> {
    if codes == [] then []
    else
      var c := codes[|codes| - 1];
      DropStale(codes[..|codes| - 1], users, household, cutoff)
      + if StaleCode(c, cutoff) && c.user < |users| && users[c.user].household == household then [] else [c]
  }

  /** The daily retention run of one household: only revoked sessions and used codes go. */
  function PruneSpec(s: State, household: nat, cutoff: int): Outcome {
    Outcome(s.(sessions := map t | t in s.sessions && !(s.sessions[t].revokedAt.Some? && s.sessions[t].revokedAt.value < cutoff
                                                        && s.sessions[t].user < |s.users|
                                                        && s.users[s.sessions[t].user].household == household) :: s.sessions[t],
               codes := DropStale(s.codes, s.users, household, cutoff)),
            Ok(NoContent))
  }

  // ----- Runs -----

  datatype Op =
    | Login(email: string, password: string, now: nat)
    | LoginMfa(challenge: nat, code: string, now: nat)
    | LoginRecover(challenge: nat, text: string, now: nat)
    | Refresh(token: nat, now: nat)
    | Logout(token: nat, now: nat)
    | ChangePassword(caller: nat, current: string, newPassword: string, now: nat)
    | Enroll(caller: nat, secret: nat)
    | Verify(caller: nat, code: string, newCodes: EightCodes, now: nat)
    | Regenerate(caller: nat, code: string, newCodes: EightCodes, now: nat)
    | Register(email: string, password: string)
    | AddMember(user: User)
    | SetPolicy(household: nat, policy: MfaPolicy)
    | Prune(household: nat, cutoff: int)

  function Apply(s: State, op: Op, codeAt: CodeAt): Outcome {
    match op
    case Login(email, password, now) => LoginSpec(s, email, password, now)
    case LoginMfa(challenge, code, now) => LoginMfaSpec(s, challenge, code, now, codeAt)
    case LoginRecover(challenge, text, now) => LoginRecoverSpec(s, challenge, text, now)
    case Refresh(token, now) => RefreshSpec(s, token, now)
    case Logout(token, now) => LogoutSpec(s, token, now)
    case ChangePassword(caller, current, newPassword, now) => ChangePasswordSpec(s, caller, current, newPassword, now)
    case Enroll(caller, secret) => EnrollSpec(s, caller, secret)
    case Verify(caller, code, newCodes, now) => VerifySpec(s, caller, code, newCodes, now, codeAt)
    case Regenerate(caller, code, newCodes, now) => RegenerateSpec(s, caller, code, newCodes, now, codeAt)
    case Register(email, password) => RegisterSpec(s, email, password)
    case AddMember(user) =>
      Outcome(s.(users := s.users + [user.(secret := None, enrolled := false, lastStep := None)]), Ok(NoContent))
    case SetPolicy(household, policy) =>
      if household < |s.policies| then Outcome(s.(policies := s.policies[household := policy]), Ok(NoContent))
      else Outcome(s, Ok(NoContent))
    case Prune(household, cutoff) => PruneSpec(s, household, cutoff)
  }

  const NEW_SYSTEM := State([], [], map[], 0, [], {}, [], [])

  function Run(s: State, ops: seq<Op>, codeAt: CodeAt): State
    decreases |ops|
  {
    if ops == [] then s else Run(Apply(s, ops[0], codeAt).state, ops[1..], codeAt)
  }

  /** Some run of requests leads to `s`. */
  ghost predicate Reachable(s: State, codeAt: CodeAt) {
    exists ops :: s == Run(NEW_SYSTEM, ops, codeAt)
  }
}
