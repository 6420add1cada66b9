/**
 * Properties that span several calls: the store invariant over any sequence of service
 * calls starting from an empty table, and the path from signing up, through signing in,
 * to a request the authentication filter attributes to the new account.
 */
module Scenarios {
  import opened Wrappers
  import opened Uuids
  import opened UserEntity
  import opened UserServiceImpl
  import AuthenticationFilter
  import Jwt

  /** One call on the service, with the values the environment supplies for it. */
  datatype Call =
    | SignUpCall(request: SignUpRequest, salt: Salt, newId: Uuid, now: Timestamp)
    | SignInCall(credentials: SignInRequest, now: Timestamp)
    | GetUserCall(userId: Uuid)
    | GetStatusCall(userId: Uuid)

  /** The table after one call; the lookups leave it as it is. */
  ghost function Step(users: Users, call: Call, pe: PasswordEncoder, jwt: Jwt.JwtService): Users {
    match call
    case SignUpCall(request, salt, newId, now) => SignUpSpec(users, request, pe.encode(request.password, salt), newId, now).users
    case SignInCall(credentials, now) => SignInSpec(users, credentials, pe, jwt, now).users
    case GetUserCall(_) => users
    case GetStatusCall(_) => users
  }

  /** The table after a sequence of calls, first call first. */
  ghost function Run(users: Users, calls: seq<Call>, pe: PasswordEncoder, jwt: Jwt.JwtService): Users
    decreases |calls|
  {
    if calls == [] then users else Run(Step(users, calls[0], pe, jwt), calls[1..], pe, jwt)
  }

  /** Every sequence of calls keeps the store invariant. */
  lemma {:induction false} RunKeepsInvariant(users: Users, calls: seq<Call>, pe: PasswordEncoder, jwt: Jwt.JwtService)
    requires StoreInvariant(users)
    ensures StoreInvariant(Run(users, calls, pe, jwt))
    decreases |calls|
  {
    if calls != [] {
      match calls[0] {
        case SignUpCall(request, salt, newId, now) =>
          SignUpKeepsInvariant(users, request, pe.encode(request.password, salt), newId, now);
        case SignInCall(credentials, now) =>
          SignInKeepsInvariant(users, credentials, pe, jwt, now);
        case GetUserCall(_) =>
        case GetStatusCall(_) =>
      }
      RunKeepsInvariant(Step(users, calls[0], pe, jwt), calls[1..], pe, jwt);
    }
  }

  /**
   * From an empty table, whatever calls are made: every account's counter lies in 0..5 and
   * is 5 exactly when the account is locked, every row meets the column constraints, and
   * no email belongs to two accounts.
   */
  lemma LockoutInvariantFromEmpty(calls: seq<Call>, pe: PasswordEncoder, jwt: Jwt.JwtService)
    ensures var users := Run(map[], calls, pe, jwt);
            && EmailsUnique(users)
            && forall id | id in users ::
                 && 0 <= users[id].failedLoginAttempts <= LockThreshold
                 && (users[id].failedLoginAttempts == LockThreshold <==> users[id].isLocked)
                 && WellFormed(users[id])
  {
    RunKeepsInvariant(map[], calls, pe, jwt);
    var users := Run(map[], calls, pe, jwt);
    forall id | id in users
      ensures LockoutInvariant(users[id]) && WellFormed(users[id])
    {
      assert RowOk(id, users[id]);
    }
  }

  /**
   * A successful sign-up followed by a sign-in with the same email and password: the
   * sign-in succeeds for the new account, its counter stays 0, and the token it returns,
   * presented as a Bearer header before it expires, authenticates the request as that account.
   */
  lemma SignUpThenSignIn(users: Users, request: SignUpRequest, salt: Salt, newId: Uuid, signedUpAt: Timestamp,
                         pe: PasswordEncoder, jwt: Jwt.JwtService, signedInAt: Timestamp, requestAt: Timestamp)
    requires StoreInvariant(users) && Sound(pe) && Jwt.Lawful(jwt.jws) && Jwt.GetSigningKey(jwt).Ok?
    requires SignUpSpec(users, request, pe.encode(request.password, salt), newId, signedUpAt).result.Ok?
    requires requestAt <= Jwt.ExpiryInstant(jwt, signedInAt)
    ensures var registered := SignUpSpec(users, request, pe.encode(request.password, salt), newId, signedUpAt).users;
            var e := SignInSpec(registered, SignInRequest(request.email, request.password), pe, jwt, signedInAt);
            && e.result.Ok?
            && e.result.value.userId == newId
            && e.result.value.expiresIn == jwt.expirationTime
            && e.users[newId].failedLoginAttempts == 0
            && AuthenticationFilter.ResolvePrincipal(jwt, Some(AuthenticationFilter.BearerPrefix + e.result.value.token), requestAt)
               == Ok(Some(newId))
            && AuthenticationFilter.AuthenticationAfter(None, Some(AuthenticationFilter.BearerPrefix + e.result.value.token), Some(newId))
               == Some(AuthenticationFilter.UsernamePasswordAuthenticationToken(newId, e.result.value.token))
  {
    var encoded := pe.encode(request.password, salt);
    SignUpKeepsInvariant(users, request, encoded, newId, signedUpAt);
    var registered := SignUpSpec(users, request, encoded, newId, signedUpAt).users;
    var row := registered[newId];
    assert pe.matches(request.password, row.password);
    SignInOnAccount(registered, newId, SignInRequest(request.email, request.password), pe, jwt, signedInAt);
    AuthenticationFilter.IssuedTokenAuthenticates(jwt, newId, row.email, row.firstName, signedInAt, requestAt);
  }

  /** One wrong password on an unlocked account: one more failure, saved, and the answer that goes with it. */
  lemma WrongPasswordAttempt(users: Users, id: Uuid, password: string, pe: PasswordEncoder, jwt: Jwt.JwtService, now: Timestamp)
    requires StoreInvariant(users) && id in users && !users[id].isLocked
    requires !pe.matches(password, users[id].password)
    ensures var e := SignInSpec(users, SignInRequest(users[id].email, password), pe, jwt, now);
            && StoreInvariant(e.users) && id in e.users
            && e.users[id].email == users[id].email && e.users[id].password == users[id].password
            && e.users[id].failedLoginAttempts == users[id].failedLoginAttempts + 1
            && (e.users[id].isLocked <==> users[id].failedLoginAttempts + 1 >= LockThreshold)
            && e.result == Err(if users[id].failedLoginAttempts + 1 >= LockThreshold then AccountIsLocked else BadCredentials)
  {
    SignInOnAccount(users, id, SignInRequest(users[id].email, password), pe, jwt, now);
    SignInKeepsInvariant(users, SignInRequest(users[id].email, password), pe, jwt, now);
  }

  /** Wrong-password sign-ins at the instants t, one after another: the table and answer after the last. */
  ghost function WrongSignIns(users: Users, email: string, wrong: string, pe: PasswordEncoder,
                              jwt: Jwt.JwtService, t: seq<Timestamp>): Effect<SignInResponse>
    requires |t| >= 1
    decreases |t|
  {
    var e := SignInSpec(users, SignInRequest(email, wrong), pe, jwt, t[0]);
    if |t| == 1 then e else WrongSignIns(e.users, email, wrong, pe, jwt, t[1..])
  }

  /**
   * Up to the threshold, each wrong password in a row adds one failure; the account locks and
   * the answer turns from UNAUTHORIZED to FORBIDDEN exactly when the count reaches 5.
   */
  lemma {:induction false} ConsecutiveWrongSignIns(users: Users, id: Uuid, wrong: string, pe: PasswordEncoder,
                                                   jwt: Jwt.JwtService, t: seq<Timestamp>)
    requires StoreInvariant(users) && id in users && !users[id].isLocked
    requires !pe.matches(wrong, users[id].password)
    requires 1 <= |t| <= LockThreshold - users[id].failedLoginAttempts
    ensures var e := WrongSignIns(users, users[id].email, wrong, pe, jwt, t);
            var failures := users[id].failedLoginAttempts + |t|;
            && StoreInvariant(e.users) && id in e.users
            && e.users[id].email == users[id].email && e.users[id].password == users[id].password
            && e.users[id].failedLoginAttempts == failures
            && (e.users[id].isLocked <==> failures == LockThreshold)
            && e.result == Err(if failures == LockThreshold then AccountIsLocked else BadCredentials)
    decreases |t|
  {
    WrongPasswordAttempt(users, id, wrong, pe, jwt, t[0]);
    if |t| > 1 {
      var e := SignInSpec(users, SignInRequest(users[id].email, wrong), pe, jwt, t[0]);
      ConsecutiveWrongSignIns(e.users, id, wrong, pe, jwt, t[1..]);
    }
  }

  /**
   * On an account with no failures: the first four wrong passwords each answer UNAUTHORIZED,
   * the fifth answers FORBIDDEN and locks the account, and after that even the right
   * password answers FORBIDDEN and changes nothing.
   */
  lemma FiveFailuresLockAccount(users: Users, id: Uuid, wrong: string, right: string,
                                pe: PasswordEncoder, jwt: Jwt.JwtService, t: seq<Timestamp>, later: Timestamp)
    requires StoreInvariant(users) && id in users
    requires users[id].failedLoginAttempts == 0 && !users[id].isLocked
    requires !pe.matches(wrong, users[id].password) && pe.matches(right, users[id].password)
    requires |t| == LockThreshold
    ensures forall n | 1 <= n < LockThreshold ::
              WrongSignIns(users, users[id].email, wrong, pe, jwt, t[..n]).result == Err(BadCredentials)
    ensures var e := WrongSignIns(users, users[id].email, wrong, pe, jwt, t);
            && e.result == Err(AccountIsLocked) && id in e.users && e.users[id].isLocked
            && SignInSpec(e.users, SignInRequest(users[id].email, right), pe, jwt, later) == Effect(e.users, Err(AccountIsLocked))
  {
    forall n | 1 <= n < LockThreshold
      ensures WrongSignIns(users, users[id].email, wrong, pe, jwt, t[..n]).result == Err(BadCredentials)
    {
      ConsecutiveWrongSignIns(users, id, wrong, pe, jwt, t[..n]);
    }
    ConsecutiveWrongSignIns(users, id, wrong, pe, jwt, t);
    var e := WrongSignIns(users, users[id].email, wrong, pe, jwt, t);
    SignInOnAccount(e.users, id, SignInRequest(users[id].email, right), pe, jwt, later);
  }

  /** Sign-ins with the given passwords at the given instants, one after another, all for one email. */
  ghost function SignIns(users: Users, email: string, passwords: seq<string>, pe: PasswordEncoder,
                         jwt: Jwt.JwtService, t: seq<Timestamp>): Users
    requires |t| == |passwords|
    decreases |passwords|
  {
    if passwords == [] then users
    else SignIns(SignInSpec(users, SignInRequest(email, passwords[0]), pe, jwt, t[0]).users, email, passwords[1..], pe, jwt, t[1..])
  }

  /**
   * Any run of sign-ins on one account moves it exactly as the lockout guard says: apart
   * from updatedAt, the stored account is Replay of the password checks, in order.
   */
  lemma {:induction false} SignInsFollowReplay(users: Users, id: Uuid, passwords: seq<string>, checks: seq<bool>,
                                               pe: PasswordEncoder, jwt: Jwt.JwtService, t: seq<Timestamp>)
    requires StoreInvariant(users) && id in users
    requires |t| == |passwords| == |checks|
    requires forall i :: 0 <= i < |checks| ==> checks[i] == pe.matches(passwords[i], users[id].password)
    ensures var after := SignIns(users, users[id].email, passwords, pe, jwt, t);
            && StoreInvariant(after) && id in after
            && after[id] == Replay(users[id], checks).(updatedAt := after[id].updatedAt)
    decreases |passwords|
  {
    var row := users[id];
    if passwords != [] {
      var e := SignInSpec(users, SignInRequest(row.email, passwords[0]), pe, jwt, t[0]);
      var a := GuardAttempt(row, checks[0]);
      var next := if a.changed.Some? then a.changed.value else row;
      SignInStep(users, id, passwords[0], checks[0], pe, jwt, t[0]);
      SignInsFollowReplay(e.users, id, passwords[1..], checks[1..], pe, jwt, t[1..]);
      ReplayIgnoresUpdatedAt(next, checks[1..], e.users[id].updatedAt);
    }
  }

  /** One sign-in on an account moves it as one step of the guard, apart from updatedAt. */
  lemma SignInStep(users: Users, id: Uuid, password: string, check: bool,
                   pe: PasswordEncoder, jwt: Jwt.JwtService, t: Timestamp)
    requires StoreInvariant(users) && id in users
    requires check == pe.matches(password, users[id].password)
    ensures var e := SignInSpec(users, SignInRequest(users[id].email, password), pe, jwt, t);
            var a := GuardAttempt(users[id], check);
            var next := if a.changed.Some? then a.changed.value else users[id];
            && StoreInvariant(e.users) && id in e.users
            && e.users[id] == next.(updatedAt := e.users[id].updatedAt)
  {
    var request := SignInRequest(users[id].email, password);
    SignInOnAccount(users, id, request, pe, jwt, t);
    SignInKeepsInvariant(users, request, pe, jwt, t);
  }
}
