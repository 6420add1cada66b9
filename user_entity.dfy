/**
 * The `users` table: one row per account (UserRecord), the declared column constraints
 * that bean validation checks whenever a row is inserted or updated (WellFormed), and the
 * mutable entity object (User) with its two lifecycle hooks.
 */
module UserEntity {
  import opened Wrappers
  import opened Uuids

  /** An instant as the service's clock reports it, in milliseconds. */
  type Timestamp = int

  /** A calendar date, as a day number. */
  type LocalDate = int

  /** One persisted account: every column of the `users` table. */
  datatype UserRecord = UserRecord(
    userId: Uuid,
    email: string,
    password: string,            // the encoded credential, never the raw password
    phoneNumber: string,
    firstName: string,
    lastName: string,
    dateOfBirth: LocalDate,
    address: string,
    isActive: bool,
    isLocked: bool,
    failedLoginAttempts: int,
    createdAt: Timestamp,
    updatedAt: Timestamp)

  /** `String.trim()`: drops every character up to U+0020 from both ends. */
  function Trim(s: string): (t: string)
    ensures |t| == 0 <==> forall i :: 0 <= i < |s| ==> s[i] <= ' '
    ensures |t| > 0 ==> t[0] > ' ' && t[|t| - 1] > ' '
  {
    TrimEnd(TrimStart(s))
  }

  /** The leading half of `Trim`. */
  function TrimStart(s: string): (t: string)
    ensures |t| <= |s| && t == s[|s| - |t|..]
    ensures |t| == 0 <==> forall i :: 0 <= i < |s| ==> s[i] <= ' '
    ensures |t| > 0 ==> t[0] > ' '
  {
    if |s| > 0 && s[0] <= ' ' then TrimStart(s[1..]) else s
  }

  /** The trailing half of `Trim`. */
  function TrimEnd(s: string): (t: string)
    ensures |t| <= |s| && t == s[..|t|]
    ensures |t| == 0 <==> forall i :: 0 <= i < |s| ==> s[i] <= ' '
    ensures |t| > 0 ==> t[|t| - 1] > ' '
  {
    if |s| > 0 && s[|s| - 1] <= ' ' then TrimEnd(s[..|s| - 1]) else s
  }

  /** @NotBlank: some character other than white space. */
  predicate NotBlank(s: string) {
    exists i :: 0 <= i < |s| && s[i] > ' '
  }

  /** @NotBlank is the validator's test: the trimmed text is not empty. */
  lemma NotBlankIsTrimmedNonEmpty(s: string)
    ensures NotBlank(s) <==> |Trim(s)| > 0
  {
  }

  /** The characters `[0-9. ()-]` of the phone-number pattern. */
  predicate PhoneChar(c: char) {
    ('0' <= c <= '9') || c == '.' || c == ' ' || c == '(' || c == ')' || c == '-'
  }

  /**
   * @Pattern `^\+?[0-9. ()-]{7,25}$`: an optional leading '+', then 7 to 25 characters
   * from the class.  '+' is not in the class, so a leading '+' can only be the optional one.
   */
  predicate PhonePattern(s: string): (ok: bool)
    ensures ok ==> 7 <= |s| <= 26
    ensures ok && |s| == 26 ==> s[0] == '+'
  {
    var body := if |s| > 0 && s[0] == '+' then s[1..] else s;
    7 <= |body| <= 25 && forall i :: 0 <= i < |body| ==> PhoneChar(body[i])
  }

  /** A '+' only in front: an accepted number has none after its first character. */
  lemma PhonePatternShape(s: string)
    requires PhonePattern(s)
    ensures forall i :: 0 < i < |s| ==> s[i] != '+'
  {
    var body := if |s| > 0 && s[0] == '+' then s[1..] else s;
    forall i | 0 < i < |s| ensures s[i] != '+' {
      var j := if s[0] == '+' then i - 1 else i;
      assert s[i] == body[j] && PhoneChar(body[j]);
    }
  }

  /** A run of 7 to 25 characters of the class is a phone number without the '+'. */
  lemma PhoneCharsMatch(s: string)
    requires 7 <= |s| <= 25 && forall i :: 0 <= i < |s| ==> PhoneChar(s[i])
    ensures PhonePattern(s) && PhonePattern("+" + s)
  {
    assert ("+" + s)[1..] == s;
  }

  /**
   * Every constraint the entity declares on its columns (bean validation on insert and
   * update), and what a row that passed it guarantees about each column.
   */
  predicate WellFormed(r: UserRecord): (ok: bool)
    ensures ok ==> |r.email| >= 1 && |r.password| >= 8 && 7 <= |r.phoneNumber| <= 26
    ensures ok ==> 2 <= |r.firstName| <= 50 && 2 <= |r.lastName| <= 50
    ensures ok ==> 5 <= |r.address| <= 255
    ensures ok ==> r.failedLoginAttempts >= 0
  {
    && NotBlank(r.email)
    && NotBlank(r.password) && |r.password| >= 8
    && NotBlank(r.phoneNumber) && PhonePattern(r.phoneNumber)
    && NotBlank(r.firstName) && 2 <= |r.firstName| <= 50
    && NotBlank(r.lastName) && 2 <= |r.lastName| <= 50
    && NotBlank(r.address) && 5 <= |r.address| <= 255
    && r.failedLoginAttempts >= 0
  }

  /**
   * The entity object.  Columns that are null until the row is first persisted are
   * Options; the rest start from the empty value a fresh `new User()` is filled in from.
   */
  class User {
    var userId: Option<Uuid>
    var email: string
    var password: string
    var phoneNumber: string
    var firstName: string
    var lastName: string
    var dateOfBirth: LocalDate
    var address: string
    var isActive: bool
    var isLocked: bool
    var failedLoginAttempts: int
    var createdAt: Option<Timestamp>
    var updatedAt: Option<Timestamp>

    /** `new User()`: not yet persisted, no id and no timestamps. */
    constructor ()
      ensures userId.None? && createdAt.None? && updatedAt.None?
      ensures email == password == phoneNumber == firstName == lastName == address == ""
      ensures !isActive && !isLocked && failedLoginAttempts == 0
    {
      userId := None;
      email, password, phoneNumber := "", "", "";
      firstName, lastName, address := "", "", "";
      dateOfBirth := 0;
      isActive, isLocked, failedLoginAttempts := false, false, 0;
      createdAt, updatedAt := None, None;
    }

    /** The entity a repository lookup hands back for a stored row. */
    constructor Load(r: UserRecord)
      ensures Persisted() && Record() == r
    {
      userId := Some(r.userId);
      email, password, phoneNumber := r.email, r.password, r.phoneNumber;
      firstName, lastName, address := r.firstName, r.lastName, r.address;
      dateOfBirth := r.dateOfBirth;
      isActive, isLocked, failedLoginAttempts := r.isActive, r.isLocked, r.failedLoginAttempts;
      createdAt, updatedAt := Some(r.createdAt), Some(r.updatedAt);
    }

    predicate Persisted()
      reads this
    {
      userId.Some? && createdAt.Some? && updatedAt.Some?
    }

    /** The row this entity writes. */
    function Record(): (r: UserRecord)
      reads this
      requires Persisted()
      ensures r.userId == userId.value && r.createdAt == createdAt.value && r.updatedAt == updatedAt.value
      ensures r.failedLoginAttempts == failedLoginAttempts && r.isLocked == isLocked
    {
      UserRecord(userId.value, email, password, phoneNumber, firstName, lastName, dateOfBirth,
                 address, isActive, isLocked, failedLoginAttempts, createdAt.value, updatedAt.value)
    }

    /** @PrePersist: stamps both timestamps with the current instant; nothing else changes. */
    method OnCreate(now: Timestamp)
      modifies this`createdAt, this`updatedAt
      ensures createdAt == Some(now) && updatedAt == Some(now)
    {
      createdAt := Some(now);
      updatedAt := Some(now);
    }

    /** @PreUpdate: stamps only updatedAt; createdAt and every other field are left alone. */
    method OnUpdate(now: Timestamp)
      modifies this`updatedAt
      ensures updatedAt == Some(now)
    {
      updatedAt := Some(now);
    }
  }
}
