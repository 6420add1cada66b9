/**
 * JWTService: issues and checks JSON Web Tokens (RFC 7519) signed with HMAC-SHA256
 * (section 3.2 of RFC 7518), serialised in the JWS compact form of section 7.1 of
 * RFC 7515: header, payload and signature joined by '.'.
 *
 * The service's two configuration values are read-only, so the service is a value and
 * every operation a function of it, the token and the current instant.  Base64URL/JSON
 * coding of the payload and the HMAC itself are foreign primitives (Jws) that the model
 * only constrains by the laws in Lawful.
 */
module Jwt {
  import opened Wrappers
  import opened ServiceErrors
  import Uuids

  type Byte = b: int | 0 <= b < 256

  /** Milliseconds since the epoch, as java.util.Date#getTime reports them. */
  type Millis = int

  /** The claims the service puts in a token; iat and exp are whole seconds since the epoch. */
  datatype Claims = Claims(sub: string, userId: string, email: string, firstName: string, iat: int, exp: int)

  /**
   * The foreign primitives: Base64URL(JSON) coding of the claims, the Base64URL HMAC-SHA256
   * of a signing input under a key, and the library's check of a signature.
   */
  datatype Jws = Jws(
    encodePayload: Claims -> string,
    decodePayload: string -> Option<Claims>,
    sign: (seq<Byte>, string) -> string,
    verify: (seq<Byte>, string, string) -> bool)

  /** What the real primitives guarantee: coding round-trips, Base64URL has no '.', a signature verifies. */
  ghost predicate Lawful(jws: Jws) {
    && (forall c :: jws.decodePayload(jws.encodePayload(c)) == Some(c))
    && (forall c :: '.' !in jws.encodePayload(c))
    && (forall key, input :: '.' !in jws.sign(key, input) && jws.sign(key, input) != "")
    && (forall key, input :: jws.verify(key, input, jws.sign(key, input)))
  }

  /** The service: the configured secret, the configured lifetime in seconds, the primitives. */
  datatype JwtService = JwtService(secretKey: seq<Byte>, expirationTime: int, jws: Jws)

  /** Base64URL of the JOSE header {"alg":"HS256"}. */
  const HeaderHs256: string := "eyJhbGciOiJIUzI1NiJ9"

  /** HMAC-SHA256 needs a key of at least 256 bits. */
  const MinKeyBits := 256

  /** How many characters of a token the validity log line prints. */
  const LoggedPrefix := 10

  const SigningKeyFailure := UserServiceException("Failed to generate JWT signing key", InternalServerError)
  const ExpiryCheckFailure := UserServiceException("Failed to check if JWT token is expired", InternalServerError)
  const UserIdFailure := UserServiceException("Failed to extract userId from JWT token", InternalServerError)

  // ---------------------------------------------------------------- compact serialisation

  /** The '.'-separated parts of a string, as the token parser cuts them. */
  function Split(s: string): (parts: seq<string>)
    ensures |parts| >= 1
    ensures forall i :: 0 <= i < |parts| ==> '.' !in parts[i]
    ensures |parts| == 1 <==> '.' !in s
  {
    if s == [] then [""]
    else
      var rest := Split(s[1..]);
      if s[0] == '.' then [""] + rest
      else [[s[0]] + rest[0]] + rest[1..]
  }

  /** Parts joined by '.'. */
  function Join(parts: seq<string>): string
    requires |parts| >= 1
  {
    if |parts| == 1 then parts[0] else parts[0] + "." + Join(parts[1..])
  }

  /** A dot-free prefix only lengthens the first part. */
  lemma {:induction false} SplitDotFreePrefix(p: string, rest: string)
    requires '.' !in p
    ensures Split(p + rest) == [p + Split(rest)[0]] + Split(rest)[1..]
  {
    if p == [] {
      var r := Split(rest);
      assert p + rest == rest && p + r[0] == r[0];
      assert [r[0]] + r[1..] == r;
    } else {
      assert (p + rest)[1..] == p[1..] + rest;
      SplitDotFreePrefix(p[1..], rest);
      assert [p[0]] + (p[1..] + Split(rest)[0]) == p + Split(rest)[0];
    }
  }

  /** Splitting dot-free parts joined by '.' gives the parts back. */
  lemma {:induction false} SplitJoin(parts: seq<string>)
    requires |parts| >= 1
    requires forall i :: 0 <= i < |parts| ==> '.' !in parts[i]
    ensures Split(Join(parts)) == parts
  {
    if |parts| == 1 {
      SplitDotFreePrefix(parts[0], "");
      assert parts[0] + "" == parts[0];
    } else {
      var tail := Join(parts[1..]);
      SplitJoin(parts[1..]);
      assert ("." + tail)[0] == '.' && ("." + tail)[1..] == tail;
      assert Split("." + tail) == [""] + parts[1..];
      SplitDotFreePrefix(parts[0], "." + tail);
      assert parts[0] + "." + tail == parts[0] + ("." + tail);
      assert parts[0] + "" == parts[0];
      assert parts == [parts[0]] + parts[1..];
    }
  }

  // ---------------------------------------------------------------- the service

  /** getSigningKey: Keys.hmacShaKeyFor refuses a secret shorter than 256 bits. */
  function GetSigningKey(svc: JwtService): (r: Result<seq<Byte>, ServiceError>)
    ensures r.Ok? <==> |svc.secretKey| * 8 >= MinKeyBits
    ensures r.Ok? ==> r.value == svc.secretKey
    ensures r.Err? ==> r.error == SigningKeyFailure
  {
    if |svc.secretKey| * 8 < MinKeyBits then Err(SigningKeyFailure) else Ok(svc.secretKey)
  }

  /** Date#getTime() / 1000 in Java: division truncating toward zero. */
  function Seconds(ms: Millis): (r: int)
    ensures ms >= 0 ==> r >= 0 && r * 1000 <= ms < r * 1000 + 1000
    ensures ms < 0 ==> r <= 0 && r * 1000 - 1000 < ms <= r * 1000
  {
    if ms >= 0 then ms / 1000 else -((-ms) / 1000)
  }

  /**
   * The claims generateToken signs for a user at instant now: the id as canonical text in
   * both sub and userId, the e-mail and first name as given, and iat as now in whole seconds.
   */
  function IssueClaims(svc: JwtService, userId: Uuids.Uuid, email: string, firstName: string, now: Millis): (c: Claims)
    ensures c.sub == Uuids.ToString(userId) && c.userId == c.sub
    ensures Uuids.FromString(c.sub) == Some(userId)
    ensures c.email == email && c.firstName == firstName
    ensures now >= 0 ==> c.iat * 1000 <= now < c.iat * 1000 + 1000
  {
    Uuids.FromStringToString(userId);
    var id := Uuids.ToString(userId);
    Claims(sub := id, userId := id, email := email, firstName := firstName,
           iat := Seconds(now), exp := Seconds(now + svc.expirationTime * 1000))
  }

  /** The compact form of signed claims: header.payload.signature. */
  function Compact(jws: Jws, key: seq<Byte>, claims: Claims): (token: string)
    ensures |token| > |HeaderHs256|
  {
    var payload := jws.encodePayload(claims);
    Join([HeaderHs256, payload, jws.sign(key, HeaderHs256 + "." + payload)])
  }

  /** generateToken: fails only when the configured secret cannot make a signing key. */
  function GenerateToken(svc: JwtService, userId: Uuids.Uuid, email: string, firstName: string, now: Millis): (r: Result<string, ServiceError>)
    ensures r.Ok? <==> GetSigningKey(svc).Ok?
    ensures r.Err? ==> r.error == SigningKeyFailure
    ensures r.Ok? ==> |r.value| >= LoggedPrefix
  {
    var key :- GetSigningKey(svc);
    Ok(Compact(svc.jws, key, IssueClaims(svc, userId, email, firstName, now)))
  }

  /** The parser's own expiry rule: expired once the expiration instant is strictly before now. */
  predicate Expired(c: Claims, now: Millis) {
    c.exp * 1000 < now
  }

  /**
   * extractAllClaims: a signing key, exactly three parts, a non-empty signature that
   * verifies over header.payload, a payload that decodes, and not expired.  Every failure
   * the library raises ends as the same exception, so None stands for all of them.
   */
  function ParseClaims(svc: JwtService, token: string, now: Millis): (r: Option<Claims>)
    ensures r.Some? ==> GetSigningKey(svc).Ok? && !Expired(r.value, now)
    ensures r.Some? ==> |Split(token)| == 3 && svc.jws.decodePayload(Split(token)[1]) == r
    ensures r.Some? ==> var p := Split(token);
              p[2] != "" && svc.jws.verify(GetSigningKey(svc).value, p[0] + "." + p[1], p[2])
  {
    match GetSigningKey(svc)
    case Err(_) => None
    case Ok(key) =>
      var parts := Split(token);
      if |parts| != 3 || parts[2] == "" then None
      else if !svc.jws.verify(key, parts[0] + "." + parts[1], parts[2]) then None
      else
        match svc.jws.decodePayload(parts[1])
        case None => None
        case Some(c) => if Expired(c, now) then None else Some(c)
  }

  /** isTokenExpired: exp before now; a token that does not parse raises. */
  function IsTokenExpired(svc: JwtService, token: string, now: Millis): (r: Result<bool, ServiceError>)
    ensures r.Err? <==> ParseClaims(svc, token, now).None?
    ensures r.Err? ==> r.error == ExpiryCheckFailure
  {
    match ParseClaims(svc, token, now)
    case None => Err(ExpiryCheckFailure)
    case Some(c) => Ok(Expired(c, now))
  }

  /**
   * isTokenValid: never raises.  Any failure to parse gives false, and so does a token
   * shorter than ten characters, because the log line's substring(0, 10) raises inside
   * the same try block.
   */
  function IsTokenValid(svc: JwtService, token: string, now: Millis): (valid: bool)
    ensures |token| < LoggedPrefix ==> !valid
    ensures valid <==> |token| >= LoggedPrefix && ParseClaims(svc, token, now).Some?
  {
    match IsTokenExpired(svc, token, now)
    case Err(_) => false
    case Ok(expired) => if |token| < LoggedPrefix then false else !expired
  }

  /** extractUserId: the subject read as a UUID; any failure raises the same exception. */
  function ExtractUserId(svc: JwtService, token: string, now: Millis): (r: Result<Uuids.Uuid, ServiceError>)
    ensures r.Ok? <==> ParseClaims(svc, token, now).Some? && Uuids.FromString(ParseClaims(svc, token, now).value.sub).Some?
    ensures r.Ok? ==> Uuids.FromString(ParseClaims(svc, token, now).value.sub) == Some(r.value)
    ensures r.Err? ==> r.error == UserIdFailure
  {
    match ParseClaims(svc, token, now)
    case None => Err(UserIdFailure)
    case Some(c) =>
      match Uuids.FromString(c.sub)
      case None => Err(UserIdFailure)
      case Some(id) => Ok(id)
  }

  /** getExpirationTime: the configured lifetime in seconds. */
  function GetExpirationTime(svc: JwtService): (seconds: int)
    ensures seconds == svc.expirationTime
  {
    svc.expirationTime
  }

  // ---------------------------------------------------------------- properties

  /** The instant, in milliseconds, after which a token issued at now stops parsing. */
  function ExpiryInstant(svc: JwtService, now: Millis): Millis {
    Seconds(now + svc.expirationTime * 1000) * 1000
  }

  /** With a non-negative clock and lifetime, exp is iat plus the lifetime, in whole seconds. */
  lemma ExpiryArithmetic(svc: JwtService, userId: Uuids.Uuid, email: string, firstName: string, now: Millis)
    requires now >= 0 && svc.expirationTime >= 0
    ensures var c := IssueClaims(svc, userId, email, firstName, now);
            c.exp == c.iat + svc.expirationTime
            && now + svc.expirationTime * 1000 - 1000 < c.exp * 1000 <= now + svc.expirationTime * 1000
  {
  }

  /** Expiry is final: a token expired at some instant stays expired at every later one. */
  lemma ExpiredIsFinal(c: Claims, now: Millis, later: Millis)
    requires now <= later
    ensures Expired(c, now) ==> Expired(c, later)
    ensures !Expired(c, later) ==> !Expired(c, now)
  {
  }

  /**
   * Fresh claims are live at the instant they are issued as soon as the lifetime is at least
   * one millisecond; with a lifetime of zero they are already expired unless now falls on a
   * whole second.
   */
  lemma FreshClaimsLive(svc: JwtService, userId: Uuids.Uuid, email: string, firstName: string, now: Millis)
    requires now >= 0
    ensures svc.expirationTime >= 1 ==> !Expired(IssueClaims(svc, userId, email, firstName, now), now)
    ensures svc.expirationTime == 0 ==>
              (Expired(IssueClaims(svc, userId, email, firstName, now), now) <==> now % 1000 != 0)
  {
    var c := IssueClaims(svc, userId, email, firstName, now);
    if svc.expirationTime >= 1 {
      assert now + svc.expirationTime * 1000 >= now + 1000;
    }
  }

  /** An issued token parses back to exactly the claims that were signed, until it expires. */
  lemma {:induction false} IssuedTokenParses(svc: JwtService, userId: Uuids.Uuid, email: string, firstName: string, now: Millis, later: Millis)
    requires Lawful(svc.jws)
    requires GenerateToken(svc, userId, email, firstName, now).Ok?
    ensures var token := GenerateToken(svc, userId, email, firstName, now).value;
            var claims := IssueClaims(svc, userId, email, firstName, now);
            ParseClaims(svc, token, later) == if later <= ExpiryInstant(svc, now) then Some(claims) else None
  {
    var key := svc.secretKey;
    var claims := IssueClaims(svc, userId, email, firstName, now);
    var payload := svc.jws.encodePayload(claims);
    var signature := svc.jws.sign(key, HeaderHs256 + "." + payload);
    assert '.' !in HeaderHs256;
    SplitJoin([HeaderHs256, payload, signature]);
  }

  /** An issued token is valid exactly up to its expiry instant. */
  lemma IssuedTokenValidity(svc: JwtService, userId: Uuids.Uuid, email: string, firstName: string, now: Millis, later: Millis)
    requires Lawful(svc.jws)
    requires GenerateToken(svc, userId, email, firstName, now).Ok?
    ensures IsTokenValid(svc, GenerateToken(svc, userId, email, firstName, now).value, later)
            <==> later <= ExpiryInstant(svc, now)
  {
    IssuedTokenParses(svc, userId, email, firstName, now, later);
  }

  /** extractUserId(generateToken(id, e, f)) is id for as long as the token is unexpired. */
  lemma ExtractUserIdOfIssued(svc: JwtService, userId: Uuids.Uuid, email: string, firstName: string, now: Millis, later: Millis)
    requires Lawful(svc.jws)
    requires GenerateToken(svc, userId, email, firstName, now).Ok?
    requires later <= ExpiryInstant(svc, now)
    ensures ExtractUserId(svc, GenerateToken(svc, userId, email, firstName, now).value, later) == Ok(userId)
  {
    IssuedTokenParses(svc, userId, email, firstName, now, later);
    Uuids.FromStringToString(userId);
  }

  /**
   * A token whose compact form is not three parts with a non-empty signature that verifies
   * under the service's key is never valid, and extracting its user raises.
   */
  lemma UnverifiedTokenIsRejected(svc: JwtService, token: string, now: Millis)
    requires GetSigningKey(svc).Ok?
    requires var p := Split(token);
             !(|p| == 3 && p[2] != "" && svc.jws.verify(svc.secretKey, p[0] + "." + p[1], p[2]))
    ensures ParseClaims(svc, token, now).None?
    ensures !IsTokenValid(svc, token, now)
    ensures ExtractUserId(svc, token, now) == Err(UserIdFailure)
  {
  }

  /** The signed claims name the user twice (sub and userId) and carry email and first name. */
  lemma IssuedClaims(svc: JwtService, userId: Uuids.Uuid, email: string, firstName: string, now: Millis, later: Millis)
    requires Lawful(svc.jws)
    requires GenerateToken(svc, userId, email, firstName, now).Ok?
    requires later <= ExpiryInstant(svc, now)
    ensures var c := ParseClaims(svc, GenerateToken(svc, userId, email, firstName, now).value, later);
            c.Some? && c.value.sub == c.value.userId && Uuids.FromString(c.value.sub) == Some(userId)
            && c.value.sub == Uuids.ToString(userId)
            && c.value.email == email && c.value.firstName == firstName
  {
    IssuedTokenParses(svc, userId, email, firstName, now, later);
    Uuids.FromStringToString(userId);
  }
}
