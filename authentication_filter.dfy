/**
 * JWTAuthenticationFilter: once per request, takes a bearer token from the Authorization
 * header (section 2.1 of RFC 6750), and when the token is valid and nobody is
 * authenticated yet, puts the token's user into the request's security context.  The
 * filter never rejects a request itself; it always hands it on down the chain.
 */
module AuthenticationFilter {
  import opened Wrappers
  import opened ServiceErrors
  import Uuids
  import Jwt

  const BearerPrefix: string := "Bearer "

  /** The token of a header that starts with "Bearer ": the header without its first 7 characters. */
  function BearerToken(authHeader: Option<string>): (token: Option<string>)
    ensures token.Some? ==> authHeader == Some(BearerPrefix + token.value)
    ensures token.None? ==> authHeader.None? || |authHeader.value| < |BearerPrefix|
                            || authHeader.value[..|BearerPrefix|] != BearerPrefix
  {
    if authHeader.Some? && |authHeader.value| >= |BearerPrefix|
       && authHeader.value[..|BearerPrefix|] == BearerPrefix
    then
      var header := authHeader.value;
      assert header == header[..|BearerPrefix|] + header[|BearerPrefix|..];
      Some(header[|BearerPrefix|..])
    else None
  }

  /** Whatever follows "Bearer " is taken as the token, unchanged. */
  lemma BearerTokenOfHeader(token: string)
    ensures BearerToken(Some(BearerPrefix + token)) == Some(token)
  {
    assert (BearerPrefix + token)[..|BearerPrefix|] == BearerPrefix;
    assert (BearerPrefix + token)[|BearerPrefix|..] == token;
  }

  /** A UsernamePasswordAuthenticationToken: the user id as principal, the raw token as credentials. */
  datatype Authentication = UsernamePasswordAuthenticationToken(principal: Uuids.Uuid, credentials: string)

  /** The request's security context: at most one authentication. */
  class SecurityContext {
    var authentication: Option<Authentication>

    constructor ()
      ensures authentication.None?
    {
      authentication := None;
    }
  }

  /** How one invocation of the rest of the filter chain ends. */
  datatype ChainRun = Completes | RaisesServletOrIo | RaisesOther

  /** What escapes the filter: the token service's exception, or one raised down the chain. */
  datatype Escaped = ServiceFailure(error: ServiceError) | ChainFailure

  datatype FilterOutcome = FilterOutcome(chainInvocations: nat, escaped: Option<Escaped>)

  /**
   * The user the header names, once the token is checked: none without a bearer token or
   * with an invalid one; an exception when extractUserId raises on a valid token.
   */
  function ResolvePrincipal(svc: Jwt.JwtService, authHeader: Option<string>, now: Jwt.Millis): (r: Result<Option<Uuids.Uuid>, ServiceError>)
    ensures r == Ok(None) <==> BearerToken(authHeader).None? || !Jwt.IsTokenValid(svc, BearerToken(authHeader).value, now)
    ensures r.Ok? && r.value.Some? ==>
              && BearerToken(authHeader).Some?
              && Jwt.IsTokenValid(svc, BearerToken(authHeader).value, now)
              && Jwt.ExtractUserId(svc, BearerToken(authHeader).value, now) == Ok(r.value.value)
    ensures r.Err? ==>
              && r.error == Jwt.UserIdFailure
              && BearerToken(authHeader).Some?
              && Jwt.ParseClaims(svc, BearerToken(authHeader).value, now).Some?
              && Uuids.FromString(Jwt.ParseClaims(svc, BearerToken(authHeader).value, now).value.sub).None?
  {
    match BearerToken(authHeader)
    case None => Ok(None)
    case Some(token) =>
      if !Jwt.IsTokenValid(svc, token, now) then Ok(None)
      else
        match Jwt.ExtractUserId(svc, token, now)
        case Err(e) => Err(e)
        case Ok(id) => Ok(Some(id))
  }

  /** The context's authentication after the filter: set only if a user was found and none was set. */
  function AuthenticationAfter(existing: Option<Authentication>, authHeader: Option<string>, principal: Option<Uuids.Uuid>): (r: Option<Authentication>)
    requires principal.Some? ==> BearerToken(authHeader).Some?
    ensures existing.Some? ==> r == existing
    ensures existing.None? && principal.Some? ==>
              r == Some(UsernamePasswordAuthenticationToken(principal.value, BearerToken(authHeader).value))
    ensures existing.None? && principal.None? ==> r.None?
    ensures r.Some? ==> existing.Some? || (principal.Some? && r.value.principal == principal.value
                                          && authHeader == Some(BearerPrefix + r.value.credentials))
  {
    if principal.Some? && existing.None? then
      Some(UsernamePasswordAuthenticationToken(principal.value, BearerToken(authHeader).value))
    else
      existing
  }

  /** How many times the chain runs, and what escapes: a servlet or I/O exception earns one retry. */
  function ChainOutcome(first: ChainRun, retry: ChainRun): (o: FilterOutcome)
    ensures o.chainInvocations == if first == RaisesServletOrIo then 2 else 1
    ensures o.escaped.None? <==> first == Completes || (first == RaisesServletOrIo && retry == Completes)
  {
    match first
    case Completes => FilterOutcome(1, None)
    case RaisesOther => FilterOutcome(1, Some(ChainFailure))
    case RaisesServletOrIo => FilterOutcome(2, if retry == Completes then None else Some(ChainFailure))
  }

  class JwtAuthenticationFilter {
    const jwtService: Jwt.JwtService

    constructor (jwtService: Jwt.JwtService)
      ensures this.jwtService == jwtService
    {
      this.jwtService := jwtService;
    }

    /**
     * doFilterInternal for one request, with the header, the instant and how the two
     * possible runs of the rest of the chain end given as parameters.
     */
    method DoFilterInternal(context: SecurityContext, authHeader: Option<string>, now: Jwt.Millis,
                            first: ChainRun, retry: ChainRun) returns (outcome: FilterOutcome)
      modifies context
      ensures match ResolvePrincipal(jwtService, authHeader, now)
              case Err(e) =>
                context.authentication == old(context.authentication)
                && outcome == FilterOutcome(0, Some(ServiceFailure(e)))
              case Ok(principal) =>
                context.authentication == AuthenticationAfter(old(context.authentication), authHeader, principal)
                && outcome == ChainOutcome(first, retry)
    {
      var token: Option<string> := None;
      var userId: Option<Uuids.Uuid> := None;
      if authHeader.Some? && |authHeader.value| >= |BearerPrefix|
         && authHeader.value[..|BearerPrefix|] == BearerPrefix {
        token := Some(authHeader.value[|BearerPrefix|..]);
        if Jwt.IsTokenValid(jwtService, token.value, now) {
          var extracted := Jwt.ExtractUserId(jwtService, token.value, now);
          if extracted.Err? {
            return FilterOutcome(0, Some(ServiceFailure(extracted.error)));
          }
          userId := Some(extracted.value);
        }
      }
      if userId.Some? && context.authentication.None? {
        context.authentication := Some(UsernamePasswordAuthenticationToken(userId.value, token.value));
      }
      outcome := FilterOutcome(1, None);
      if first == RaisesServletOrIo {
        outcome := FilterOutcome(2, if retry == Completes then None else Some(ChainFailure));
      } else if first == RaisesOther {
        outcome := FilterOutcome(1, Some(ChainFailure));
      }
    }
  }

  /**
   * A token the service issued for a user, sent before it expires to a request nobody is
   * authenticated on yet, authenticates that request as that user with the token as credentials.
   */
  lemma IssuedTokenAuthenticates(svc: Jwt.JwtService, userId: Uuids.Uuid, email: string, firstName: string,
                                 issuedAt: Jwt.Millis, now: Jwt.Millis)
    requires Jwt.Lawful(svc.jws)
    requires Jwt.GenerateToken(svc, userId, email, firstName, issuedAt).Ok?
    requires now <= Jwt.ExpiryInstant(svc, issuedAt)
    ensures var token := Jwt.GenerateToken(svc, userId, email, firstName, issuedAt).value;
            var header := Some(BearerPrefix + token);
            && ResolvePrincipal(svc, header, now) == Ok(Some(userId))
            && AuthenticationAfter(None, header, Some(userId)) == Some(UsernamePasswordAuthenticationToken(userId, token))
  {
    var token := Jwt.GenerateToken(svc, userId, email, firstName, issuedAt).value;
    BearerTokenOfHeader(token);
    Jwt.IssuedTokenValidity(svc, userId, email, firstName, issuedAt, now);
    Jwt.ExtractUserIdOfIssued(svc, userId, email, firstName, issuedAt, now);
  }

  /** A bearer token whose signature does not verify leaves the request unauthenticated, without raising. */
  lemma UnverifiedTokenIsIgnored(svc: Jwt.JwtService, token: string, now: Jwt.Millis)
    requires Jwt.GetSigningKey(svc).Ok?
    requires var p := Jwt.Split(token);
             !(|p| == 3 && p[2] != "" && svc.jws.verify(svc.secretKey, p[0] + "." + p[1], p[2]))
    ensures ResolvePrincipal(svc, Some(BearerPrefix + token), now) == Ok(None)
  {
    BearerTokenOfHeader(token);
    Jwt.UnverifiedTokenIsRejected(svc, token, now);
  }

  /** Once expired, the same token leaves the request unauthenticated and the chain still runs. */
  lemma ExpiredTokenIsIgnored(svc: Jwt.JwtService, userId: Uuids.Uuid, email: string, firstName: string,
                              issuedAt: Jwt.Millis, now: Jwt.Millis)
    requires Jwt.Lawful(svc.jws)
    requires Jwt.GenerateToken(svc, userId, email, firstName, issuedAt).Ok?
    requires now > Jwt.ExpiryInstant(svc, issuedAt)
    ensures var token := Jwt.GenerateToken(svc, userId, email, firstName, issuedAt).value;
            ResolvePrincipal(svc, Some(BearerPrefix + token), now) == Ok(None)
  {
    var token := Jwt.GenerateToken(svc, userId, email, firstName, issuedAt).value;
    BearerTokenOfHeader(token);
    Jwt.IssuedTokenValidity(svc, userId, email, firstName, issuedAt, now);
  }
}
