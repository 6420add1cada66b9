/**
 * UserServiceImpl: sign-up, sign-in with account lockout, and the two lookups, over the
 * `users` table (a map from id to row) and the "welcome-topic" message stream.
 *
 * The pure part states what each operation does to the table (SignUpSpec, SignInSpec and
 * the per-account step GuardAttempt) and proves the lockout invariant; the class
 * UserService performs the operations step by step on loaded entity objects, as the
 * source does, and is proved to agree with them.
 */
module UserServiceImpl {
  import opened Wrappers
  import opened ServiceErrors
  import opened Uuids
  import opened UserEntity
  import Jwt

  /** Failed attempts after which an account is locked. */
  const LockThreshold := 5

  // ---------------------------------------------------------------- collaborators and messages

  /** The random salt BCrypt draws for each encoding. */
  type Salt = nat

  /** The password hasher: encode(raw, salt) and the matches(raw, encoded) check. */
  datatype PasswordEncoder = PasswordEncoder(encode: (string, Salt) -> string, matches: (string, string) -> bool)

  /** What the hasher guarantees: an encoding matches the password it was made from. */
  ghost predicate Sound(pe: PasswordEncoder) {
    forall raw, salt :: pe.matches(raw, pe.encode(raw, salt))
  }

  datatype SignUpRequest = SignUpRequest(
    email: string, password: string, phoneNumber: string, firstName: string,
    lastName: string, dateOfBirth: LocalDate, address: string)

  datatype SignInRequest = SignInRequest(email: string, password: string)

  datatype SignUpResponse = SignUpResponse(
    userId: Uuid, email: string, firstName: string, lastName: string,
    isActive: bool, isLocked: bool, createdAt: Timestamp)

  datatype SignInResponse = SignInResponse(token: string, userId: Uuid, expiresIn: int)

  datatype UserResponse = UserResponse(
    userId: Uuid, email: string, phoneNumber: string, firstName: string, lastName: string,
    dateOfBirth: LocalDate, address: string, isActive: bool, isLocked: bool, createdAt: Timestamp)

  datatype UserStatusResponse = UserStatusResponse(userId: Uuid, isActive: bool, isLocked: bool, failedLoginAttempts: int)

  datatype WelcomeNotification = WelcomeNotification(recipient: string, name: string)

  /** How handing the welcome message to the broker ends. */
  datatype Delivery = Published | SerializationFailed | SendFailed

  const DuplicateEmail := UserServiceException("User with this email already exists", Conflict)
  const UserNotFound := UserServiceException("User not found", NotFound)
  const AccountIsLocked := UserServiceException("Account is locked", Forbidden)
  const BadCredentials := UserServiceException("Invalid email or password", Unauthorized)

  function SignUpFailure(email: string): ServiceError {
    UserServiceException("Unexpected error during user signup for email: " + email, InternalServerError)
  }

  function SignInFailure(email: string): ServiceError {
    UserServiceException("Unexpected error during user signin for email: " + email, InternalServerError)
  }

  // ---------------------------------------------------------------- the table and its invariant

  type Users = map<Uuid, UserRecord>

  /** The lockout invariant of one account: at most 5 failures, and 5 exactly when locked. */
  predicate LockoutInvariant(r: UserRecord) {
    0 <= r.failedLoginAttempts <= LockThreshold && (r.failedLoginAttempts == LockThreshold <==> r.isLocked)
  }

  /** The unique constraint on the email column. */
  ghost predicate EmailsUnique(users: Users) {
    forall i, j | i in users && j in users && users[i].email == users[j].email :: i == j
  }

  /** A row filed under id: it carries that id, satisfies the column constraints and the lockout invariant. */
  predicate RowOk(id: Uuid, r: UserRecord) {
    r.userId == id && WellFormed(r) && LockoutInvariant(r)
  }

  /** Every row is filed under its own id and is sound, and no email is used twice. */
  ghost predicate StoreInvariant(users: Users) {
    EmailsUnique(users) && forall id | id in users :: RowOk(id, users[id])
  }

  /** existsByEmail. */
  predicate ExistsByEmail(users: Users, email: string): (b: bool)
    ensures b <==> email in (set id | id in users :: users[id].email)
  {
    exists id | id in users :: users[id].email == email
  }

  /** findByEmail: the row with that email, if any. */
  ghost function FindByEmail(users: Users, email: string): (r: Option<UserRecord>)
    ensures r.Some? <==> ExistsByEmail(users, email)
    ensures r.Some? ==> r.value.email == email && exists id | id in users :: users[id] == r.value
  {
    if ExistsByEmail(users, email) then
      var id :| id in users && users[id].email == email;
      Some(users[id])
    else
      None
  }

  /** Under the unique constraint the row findByEmail returns is the one with that email. */
  lemma FindByEmailUnique(users: Users, id: Uuid)
    requires EmailsUnique(users) && id in users
    ensures FindByEmail(users, users[id].email) == Some(users[id])
  {
  }

  // ---------------------------------------------------------------- the account guard

  datatype Verdict = AccountLocked | InvalidCredentials | Authenticated

  /** What signIn's lock check and password check decide for one account: the entity it saves, if any. */
  datatype Attempt = Attempt(changed: Option<UserRecord>, verdict: Verdict)

  /**
   * The lock check comes before the password check; a wrong password adds one failure and
   * locks the account at the threshold; a right one clears the failures.
   */
  function GuardAttempt(row: UserRecord, passwordMatches: bool): (a: Attempt)
    ensures a.changed.None? <==> row.isLocked
    ensures a.verdict == Authenticated <==> !row.isLocked && passwordMatches
    ensures a.verdict == InvalidCredentials <==> !row.isLocked && !passwordMatches && row.failedLoginAttempts + 1 < LockThreshold
    ensures a.changed.Some? ==> a.changed.value == row.(
              failedLoginAttempts := if passwordMatches then 0 else row.failedLoginAttempts + 1,
              isLocked := !passwordMatches && row.failedLoginAttempts + 1 >= LockThreshold)
    ensures LockoutInvariant(row) && a.changed.Some? ==> LockoutInvariant(a.changed.value)
  {
    if row.isLocked then
      Attempt(None, AccountLocked)
    else if !passwordMatches then
      var failed := row.failedLoginAttempts + 1;
      if failed >= LockThreshold then
        Attempt(Some(row.(failedLoginAttempts := failed, isLocked := true)), AccountLocked)
      else
        Attempt(Some(row.(failedLoginAttempts := failed)), InvalidCredentials)
    else
      Attempt(Some(row.(failedLoginAttempts := 0)), Authenticated)
  }

  /**
   * save on a stored row: nothing is written (and @PreUpdate does not run) when the entity
   * is unchanged; otherwise updatedAt is stamped, created_at keeps its stored value (it is
   * not updatable), and the column constraints are checked.  None: the save raised.
   */
  function Merge(stored: UserRecord, entity: UserRecord, now: Timestamp): (r: Option<UserRecord>)
    ensures entity == stored ==> r == Some(stored)
    ensures r.Some? ==> r.value.createdAt == stored.createdAt
    ensures r.Some? && entity != stored ==> r.value.updatedAt == now
    ensures r.Some? ==> r.value.(createdAt := entity.createdAt, updatedAt := entity.updatedAt) == entity
    ensures r.Some? <==> entity == stored || WellFormed(entity.(createdAt := stored.createdAt, updatedAt := now))
    ensures WellFormed(stored) && r.Some? ==> WellFormed(r.value)
  {
    if entity == stored then Some(stored)
    else
      var row := entity.(createdAt := stored.createdAt, updatedAt := now);
      if WellFormed(row) then Some(row) else None
  }

  // ---------------------------------------------------------------- the operations as functions

  datatype Effect<T> = Effect(users: Users, result: Result<T, ServiceError>)

  /** The row signUp persists: the request's profile, the encoded password, the fixed defaults. */
  function NewAccount(request: SignUpRequest, encoded: string, id: Uuid, now: Timestamp): (r: UserRecord)
    ensures r.isActive && !r.isLocked && r.failedLoginAttempts == 0 && LockoutInvariant(r)
  {
    UserRecord(id, request.email, encoded, request.phoneNumber, request.firstName, request.lastName,
               request.dateOfBirth, request.address, true, false, 0, now, now)
  }

  function SignUpResponseOf(r: UserRecord): (rsp: SignUpResponse)
    ensures rsp.userId == r.userId && rsp.email == r.email
    ensures rsp.firstName == r.firstName && rsp.lastName == r.lastName
    ensures rsp.isActive == r.isActive && rsp.isLocked == r.isLocked && rsp.createdAt == r.createdAt
  {
    SignUpResponse(r.userId, r.email, r.firstName, r.lastName, r.isActive, r.isLocked, r.createdAt)
  }

  /** signUp: refuse a taken email; persist the new account (which may raise); answer its projection. */
  function SignUpSpec(users: Users, request: SignUpRequest, encoded: string, newId: Uuid, now: Timestamp): (e: Effect<SignUpResponse>)
    ensures ExistsByEmail(users, request.email) ==> e == Effect(users, Err(DuplicateEmail))
    ensures e.result.Ok? <==> !ExistsByEmail(users, request.email) && newId !in users && WellFormed(NewAccount(request, encoded, newId, now))
    ensures e.result.Err? ==> e.users == users
    ensures e.result.Ok? ==> newId !in users && e.users == users[newId := NewAccount(request, encoded, newId, now)]
                             && e.result.value.userId == newId && e.result.value.isActive && !e.result.value.isLocked
    ensures e.result.Ok? ==> e.result.value == SignUpResponseOf(NewAccount(request, encoded, newId, now))
  {
    if ExistsByEmail(users, request.email) then Effect(users, Err(DuplicateEmail))
    else
      var row := NewAccount(request, encoded, newId, now);
      if newId in users || !WellFormed(row) then Effect(users, Err(SignUpFailure(request.email)))
      else Effect(users[newId := row], Ok(SignUpResponseOf(row)))
  }

  /** signIn: look up, check the lock, check the password, save, then fail or issue a token. */
  ghost function SignInSpec(users: Users, request: SignInRequest, pe: PasswordEncoder,
                            jwt: Jwt.JwtService, now: Timestamp): (e: Effect<SignInResponse>)
    ensures !ExistsByEmail(users, request.email) ==> e == Effect(users, Err(UserNotFound))
    ensures e.result.Ok? ==> exists id | id in users :: users[id].email == request.email && e.result.value.userId == users[id].userId
  {
    match FindByEmail(users, request.email)
    case None => Effect(users, Err(UserNotFound))
    case Some(row) =>
      var a := GuardAttempt(row, pe.matches(request.password, row.password));
      if a.changed.None? then Effect(users, Err(AccountIsLocked))
      else
        match Merge(row, a.changed.value, now)
        case None => Effect(users, Err(SignInFailure(request.email)))
        case Some(saved) =>
          var after := users[row.userId := saved];
          match a.verdict
          case AccountLocked => Effect(after, Err(AccountIsLocked))
          case InvalidCredentials => Effect(after, Err(BadCredentials))
          case Authenticated =>
            match Jwt.GenerateToken(jwt, row.userId, row.email, row.firstName, now)
            case Err(err) => Effect(after, Err(err))
            case Ok(token) => Effect(after, Ok(SignInResponse(token, row.userId, Jwt.GetExpirationTime(jwt))))
  }

  /** signUp keeps the table's invariant: the new row is filed under its id, well formed, unlocked, and its email was free. */
  lemma SignUpKeepsInvariant(users: Users, request: SignUpRequest, encoded: string, newId: Uuid, now: Timestamp)
    requires StoreInvariant(users)
    ensures StoreInvariant(SignUpSpec(users, request, encoded, newId, now).users)
  {
    var e := SignUpSpec(users, request, encoded, newId, now);
    if e.result.Ok? {
      assert RowOk(newId, NewAccount(request, encoded, newId, now));
    }
  }

  /** signIn keeps the table's invariant: only the account's counter, lock flag and updatedAt change. */
  lemma SignInKeepsInvariant(users: Users, request: SignInRequest, pe: PasswordEncoder, jwt: Jwt.JwtService, now: Timestamp)
    requires StoreInvariant(users)
    ensures StoreInvariant(SignInSpec(users, request, pe, jwt, now).users)
  {
    var found := FindByEmail(users, request.email);
    if found.Some? {
      var row := found.value;
      var a := GuardAttempt(row, pe.matches(request.password, row.password));
      if a.changed.Some? {
        var m := Merge(row, a.changed.value, now);
        if m.Some? {
          var id :| id in users && users[id] == row;
          assert row.userId == id;
          var after := users[id := m.value];
          assert m.value.userId == id && m.value.email == row.email;
          assert LockoutInvariant(m.value);
          forall i, j | i in after && j in after && after[i].email == after[j].email
            ensures i == j
          {
            assert users[i].email == after[i].email && users[j].email == after[j].email;
          }
        }
      }
    }
  }

  /**
   * signIn on a stored account: a locked account answers FORBIDDEN and nothing changes,
   * whatever the password; otherwise the save cannot fail, only that account's counter,
   * lock flag and updatedAt change, a wrong password answers FORBIDDEN when it reaches the
   * threshold and UNAUTHORIZED below it, and a right one issues a token for that account.
   */
  lemma SignInOnAccount(users: Users, id: Uuid, request: SignInRequest, pe: PasswordEncoder, jwt: Jwt.JwtService, now: Timestamp)
    requires StoreInvariant(users) && id in users && users[id].email == request.email
    ensures var row := users[id];
            var e := SignInSpec(users, request, pe, jwt, now);
            var matches := pe.matches(request.password, row.password);
            && (row.isLocked ==> e == Effect(users, Err(AccountIsLocked)))
            && (!row.isLocked ==>
                  && e.users.Keys == users.Keys
                  && (forall other | other in users && other != id :: e.users[other] == users[other])
                  && e.users[id].failedLoginAttempts == (if matches then 0 else row.failedLoginAttempts + 1)
                  && e.users[id].isLocked == (!matches && row.failedLoginAttempts + 1 >= LockThreshold)
                  && e.users[id].createdAt == row.createdAt
                  && e.users[id].(failedLoginAttempts := row.failedLoginAttempts, isLocked := row.isLocked, updatedAt := row.updatedAt) == row)
            && (!row.isLocked && !matches ==>
                  e.result == Err(if row.failedLoginAttempts + 1 >= LockThreshold then AccountIsLocked else BadCredentials))
            && (!row.isLocked && matches ==>
                  && (e.result.Ok? <==> Jwt.GetSigningKey(jwt).Ok?)
                  && (e.result.Err? ==> e.result.error == Jwt.SigningKeyFailure)
                  && (e.result.Ok? ==>
                        e.result.value == SignInResponse(Jwt.GenerateToken(jwt, id, row.email, row.firstName, now).value, id, jwt.expirationTime)))
  {
    var row := users[id];
    FindByEmailUnique(users, id);
    assert RowOk(id, row);
    if !row.isLocked {
      var a := GuardAttempt(row, pe.matches(request.password, row.password));
      assert WellFormed(a.changed.value.(createdAt := row.createdAt, updatedAt := now));
    }
  }

  // ---------------------------------------------------------------- the lockout state machine

  /** One account after a run of password checks at sign-in, each saved as signIn saves it (timestamps aside). */
  function Replay(row: UserRecord, checks: seq<bool>): (r: UserRecord)
    ensures r.userId == row.userId && r.email == row.email && r.password == row.password
    decreases |checks|
  {
    if checks == [] then row
    else
      var a := GuardAttempt(row, checks[0]);
      Replay(if a.changed.Some? then a.changed.value else row, checks[1..])
  }

  /** Any run of checks keeps the lockout invariant: the counter stays in 0..5 and is 5 exactly when locked. */
  lemma {:induction false} ReplayKeepsLockout(row: UserRecord, checks: seq<bool>)
    requires LockoutInvariant(row)
    ensures LockoutInvariant(Replay(row, checks))
    decreases |checks|
  {
    if checks != [] {
      var a := GuardAttempt(row, checks[0]);
      ReplayKeepsLockout(if a.changed.Some? then a.changed.value else row, checks[1..]);
    }
  }

  /** Nothing signIn does unlocks an account: a locked account stays exactly as it is. */
  lemma {:induction false} LockedStaysLocked(row: UserRecord, checks: seq<bool>)
    requires row.isLocked
    ensures Replay(row, checks) == row
    decreases |checks|
  {
    if checks != [] {
      LockedStaysLocked(row, checks[1..]);
    }
  }

  /** n wrong passwords in a row: the counter climbs by one each time and the account locks on reaching 5. */
  lemma {:induction false} ConsecutiveFailures(row: UserRecord, n: nat)
    requires LockoutInvariant(row) && !row.isLocked
    ensures var r := Replay(row, seq(n, _ => false));
            && r.failedLoginAttempts == (if row.failedLoginAttempts + n >= LockThreshold then LockThreshold else row.failedLoginAttempts + n)
            && (r.isLocked <==> row.failedLoginAttempts + n >= LockThreshold)
    decreases n
  {
    if n > 0 {
      var falses := seq(n, _ => false);
      assert falses[1..] == seq(n - 1, _ => false);
      var next := GuardAttempt(row, false).changed.value;
      if next.isLocked {
        LockedStaysLocked(next, falses[1..]);
      } else {
        ConsecutiveFailures(next, n - 1);
      }
    }
  }

  /** A right password on an unlocked account clears the failures, whatever came before. */
  lemma SuccessClearsFailures(row: UserRecord, checks: seq<bool>)
    requires !Replay(row, checks).isLocked
    ensures Replay(row, checks + [true]).failedLoginAttempts == 0 && !Replay(row, checks + [true]).isLocked
  {
    ReplayAppend(row, checks, true);
  }

  /** A run of checks never looks at updatedAt and never sets it. */
  lemma {:induction false} ReplayIgnoresUpdatedAt(row: UserRecord, checks: seq<bool>, stamp: Timestamp)
    ensures Replay(row.(updatedAt := stamp), checks) == Replay(row, checks).(updatedAt := stamp)
    decreases |checks|
  {
    if checks != [] {
      var a := GuardAttempt(row, checks[0]);
      var next := if a.changed.Some? then a.changed.value else row;
      ReplayIgnoresUpdatedAt(next, checks[1..], stamp);
    }
  }

  lemma {:induction false} ReplayAppend(row: UserRecord, checks: seq<bool>, last: bool)
    ensures Replay(row, checks + [last]) == Replay(Replay(row, checks), [last])
    decreases |checks|
  {
    if checks != [] {
      var a := GuardAttempt(row, checks[0]);
      assert (checks + [last])[1..] == checks[1..] + [last];
      ReplayAppend(if a.changed.Some? then a.changed.value else row, checks[1..], last);
    }
  }

  function UserResponseOf(r: UserRecord): (rsp: UserResponse)
    ensures rsp.userId == r.userId && rsp.email == r.email && rsp.phoneNumber == r.phoneNumber
    ensures rsp.firstName == r.firstName && rsp.lastName == r.lastName
    ensures rsp.dateOfBirth == r.dateOfBirth && rsp.address == r.address
    ensures rsp.isActive == r.isActive && rsp.isLocked == r.isLocked && rsp.createdAt == r.createdAt
  {
    UserResponse(r.userId, r.email, r.phoneNumber, r.firstName, r.lastName, r.dateOfBirth,
                 r.address, r.isActive, r.isLocked, r.createdAt)
  }

  function StatusOf(r: UserRecord): (rsp: UserStatusResponse)
    ensures rsp.userId == r.userId && rsp.isActive == r.isActive
    ensures rsp.isLocked == r.isLocked && rsp.failedLoginAttempts == r.failedLoginAttempts
  {
    UserStatusResponse(r.userId, r.isActive, r.isLocked, r.failedLoginAttempts)
  }

  /**
   * No response carries the password hash or updatedAt: two rows that differ only there
   * answer alike, and the status answer does not depend on the profile columns either.
   */
  lemma ResponsesHideSecrets(r: UserRecord, password: string, updatedAt: Timestamp,
                             email: string, phoneNumber: string, firstName: string, lastName: string,
                             dateOfBirth: LocalDate, address: string)
    ensures var s := r.(password := password, updatedAt := updatedAt);
            SignUpResponseOf(s) == SignUpResponseOf(r) && UserResponseOf(s) == UserResponseOf(r)
    ensures var s := r.(password := password, updatedAt := updatedAt, email := email,
                        phoneNumber := phoneNumber, firstName := firstName, lastName := lastName,
                        dateOfBirth := dateOfBirth, address := address);
            StatusOf(s) == StatusOf(r)
  {
  }

  // ---------------------------------------------------------------- the service object

  class UserService {
    /** The users table behind UserRepository. */
    var users: Users
    /** The messages handed to the broker on "welcome-topic", oldest first. */
    var welcomeTopic: seq<WelcomeNotification>
    const passwordEncoder: PasswordEncoder
    const jwtService: Jwt.JwtService

    ghost predicate Valid()
      reads this
    {
      StoreInvariant(users)
    }

    constructor (passwordEncoder: PasswordEncoder, jwtService: Jwt.JwtService)
      ensures Valid() && users == map[] && welcomeTopic == []
      ensures this.passwordEncoder == passwordEncoder && this.jwtService == jwtService
    {
      users := map[];
      welcomeTopic := [];
      this.passwordEncoder := passwordEncoder;
      this.jwtService := jwtService;
    }

    /** findByEmail: a fresh entity loaded from the row with that email. */
    method LoadByEmail(email: string) returns (found: Option<User>)
      requires Valid()
      ensures found.None? <==> FindByEmail(users, email).None?
      ensures found.Some? ==> fresh(found.value) && found.value.Persisted()
                              && found.value.Record() == FindByEmail(users, email).value
    {
      if ExistsByEmail(users, email) {
        var id :| id in users && users[id].email == email;
        FindByEmailUnique(users, id);
        var user := new User.Load(users[id]);
        found := Some(user);
      } else {
        found := None;
      }
    }

    /** The request mapped onto a new entity: the profile, the encoded password and the defaults. */
    static method NewEntity(request: SignUpRequest, encoded: string) returns (user: User)
      ensures fresh(user) && user.userId.None? && user.createdAt.None? && user.updatedAt.None?
      ensures forall id, now :: NewAccount(request, encoded, id, now) ==
                UserRecord(id, user.email, user.password, user.phoneNumber, user.firstName, user.lastName,
                           user.dateOfBirth, user.address, user.isActive, user.isLocked, user.failedLoginAttempts, now, now)
    {
      user := new User();
      user.email := request.email;
      user.password := encoded;
      user.phoneNumber := request.phoneNumber;
      user.firstName := request.firstName;
      user.lastName := request.lastName;
      user.dateOfBirth := request.dateOfBirth;
      user.address := request.address;
      user.isActive := true;
      user.isLocked := false;
      user.failedLoginAttempts := 0;
    }

    /** save of a new entity: the generated id, @PrePersist, the constraints, the insert. */
    method Insert(user: User, newId: Uuid, now: Timestamp) returns (ok: bool)
      requires user.userId.None?
      modifies this`users, user`userId, user`createdAt, user`updatedAt
      ensures user.Persisted() && user.userId == Some(newId)
      ensures user.createdAt == Some(now) && user.updatedAt == Some(now)
      ensures ok <==> newId !in old(users) && WellFormed(user.Record())
      ensures users == if ok then old(users)[newId := user.Record()] else old(users)
    {
      user.userId := Some(newId);
      user.OnCreate(now);
      if newId in users || !WellFormed(user.Record()) {
        return false;
      }
      users := users[newId := user.Record()];
      return true;
    }

    /** save of a loaded entity: written back through Merge. */
    method Update(user: User, now: Timestamp) returns (ok: bool)
      requires user.Persisted() && user.userId.value in users
      modifies this`users, user`updatedAt
      ensures var m := Merge(old(users)[user.userId.value], old(user.Record()), now);
              ok == m.Some? && users == if ok then old(users)[user.userId.value := m.value] else old(users)
      ensures user.updatedAt == if old(user.Record()) == old(users)[user.userId.value] then old(user.updatedAt) else Some(now)
    {
      var id := user.userId.value;
      var stored := users[id];
      if user.Record() == stored {
        return true;
      }
      user.OnUpdate(now);
      var row := user.Record().(createdAt := stored.createdAt);
      if !WellFormed(row) {
        return false;
      }
      users := users[id := row];
      return true;
    }

    /** sendWelcomeNotification: publishes {recipient, name}; any failure is swallowed. */
    method SendWelcomeNotification(email: string, firstName: string, delivery: Delivery)
      modifies this`welcomeTopic
      ensures welcomeTopic == old(welcomeTopic) + if delivery == Published then [WelcomeNotification(email, firstName)] else []
    {
      if delivery == Published {
        welcomeTopic := welcomeTopic + [WelcomeNotification(email, firstName)];
      }
    }

    /** signUp, with the hasher's salt, the generated id, the instant and the broker's answer as parameters. */
    method SignUp(request: SignUpRequest, salt: Salt, newId: Uuid, now: Timestamp, delivery: Delivery)
      returns (r: Result<SignUpResponse, ServiceError>)
      requires Valid()
      modifies this
      ensures Valid()
      ensures Effect(users, r) == SignUpSpec(old(users), request, passwordEncoder.encode(request.password, salt), newId, now)
      ensures welcomeTopic == old(welcomeTopic) +
                if r.Ok? && delivery == Published then [WelcomeNotification(request.email, request.firstName)] else []
    {
      if ExistsByEmail(users, request.email) {
        return Err(DuplicateEmail);
      }
      var user := NewEntity(request, passwordEncoder.encode(request.password, salt));
      ghost var encoded := passwordEncoder.encode(request.password, salt);
      var saved := Insert(user, newId, now);
      assert user.Record() == NewAccount(request, encoded, newId, now);
      SignUpKeepsInvariant(old(users), request, encoded, newId, now);
      if !saved {
        return Err(SignUpFailure(request.email));
      }
      SendWelcomeNotification(user.email, user.firstName, delivery);
      r := Ok(SignUpResponse(user.userId.value, user.email, user.firstName, user.lastName,
                             user.isActive, user.isLocked, user.createdAt.value));
    }

    /** signIn at instant now. */
    method SignIn(request: SignInRequest, now: Timestamp) returns (r: Result<SignInResponse, ServiceError>)
      requires Valid()
      modifies this`users
      ensures Valid()
      ensures Effect(users, r) == SignInSpec(old(users), request, passwordEncoder, jwtService, now)
    {
      SignInKeepsInvariant(users, request, passwordEncoder, jwtService, now);
      var found := LoadByEmail(request.email);
      if found.None? {
        return Err(UserNotFound);
      }
      var user := found.value;
      ghost var row := user.Record();
      if user.isLocked {
        return Err(AccountIsLocked);
      }
      var matches := passwordEncoder.matches(request.password, user.password);
      ghost var attempt := GuardAttempt(row, matches);
      if !matches {
        user.failedLoginAttempts := user.failedLoginAttempts + 1;
        if user.failedLoginAttempts >= LockThreshold {
          user.isLocked := true;
          assert user.Record() == attempt.changed.value;
          var saved := Update(user, now);
          if !saved {
            return Err(SignInFailure(request.email));
          }
          return Err(AccountIsLocked);
        }
        assert user.Record() == attempt.changed.value;
        var saved := Update(user, now);
        if !saved {
          return Err(SignInFailure(request.email));
        }
        return Err(BadCredentials);
      }
      user.failedLoginAttempts := 0;
      assert user.Record() == attempt.changed.value;
      var saved := Update(user, now);
      if !saved {
        return Err(SignInFailure(request.email));
      }
      var token := Jwt.GenerateToken(jwtService, user.userId.value, user.email, user.firstName, now);
      if token.Err? {
        return Err(token.error);
      }
      r := Ok(SignInResponse(token.value, user.userId.value, Jwt.GetExpirationTime(jwtService)));
    }

    /** getUser: the stored profile, or NOT_FOUND. */
    method GetUser(userId: Uuid) returns (r: Result<UserResponse, ServiceError>)
      requires Valid()
      ensures r.Ok? <==> userId in users
      ensures r.Ok? ==> r.value == UserResponseOf(users[userId]) && r.value.userId == userId
      ensures r.Err? ==> r.error == UserNotFound
    {
      if userId !in users {
        return Err(UserNotFound);
      }
      r := Ok(UserResponseOf(users[userId]));
    }

    /** getStatus: the stored flags and counter, or NOT_FOUND. */
    method GetStatus(userId: Uuid) returns (r: Result<UserStatusResponse, ServiceError>)
      requires Valid()
      ensures r.Ok? <==> userId in users
      ensures r.Ok? ==> r.value == StatusOf(users[userId]) && r.value.userId == userId
      ensures r.Err? ==> r.error == UserNotFound
    {
      if userId !in users {
        return Err(UserNotFound);
      }
      r := Ok(StatusOf(users[userId]));
    }
  }
}
