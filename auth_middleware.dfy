/** Bearer-token authentication and role authorisation (middleware/auth.js).
    `authenticate` reads `Authorization: Bearer <token>` (section 2.1 of
    RFC 6750), picks the secret by the `kid` of the token header (section
    4.1.4 of RFC 7515), lets `jwt.verify` check the token with HS256 only
    (section 3.2 of RFC 7518) and consults the revocation list. The library
    calls are inputs; the settled revocation lookup is a value. */
module AuthMiddleware {
  import opened Common
  import opened JwtKeys
  import opened Security

  /** `req.user`. */
  datatype User = User(id: Option<string>, role: string)

  /** A 401 response with its error text, or `next()` with `req.user` set. */
  datatype AuthResult = Reject(status: int, error: string) | Accept(user: User)

  /** The protected header of a token, as `jwt.decode(token, {complete: true})` reports it. */
  datatype JoseHeader = JoseHeader(alg: Option<string>, kid: Option<string>)

  /** `jwt.decode(token, {complete: true}).header`; None is a `null` decode. */
  type HeaderDecoder = string -> Option<JoseHeader>

  datatype VerifyOptions = VerifyOptions(algorithms: seq<string>, issuer: Option<string>,
                                         audience: Option<string>, clockTolerance: int)

  /** `jwt.verify(token, secret, options)`; None is a thrown verification error. */
  type Verifier = (string, string, VerifyOptions) -> Option<Claims>

  /** The settled `isJtiBlacklisted(jti)` promise; None is a rejection. */
  type RevocationLookup = string -> Option<bool>

  const ClockToleranceSeconds := 90

  /** The options of middleware/auth.js:2-7 as merged at line 25. */
  function VerifyOpts(env: Env): VerifyOptions {
    VerifyOptions([JwtAlg], env.verifyIssuer, env.verifyAudience, ClockToleranceSeconds)
  }

  /** `/^Bearer$/i`. */
  predicate IsBearerScheme(s: string) {
    EqualsIgnoreCase(s, "bearer")
  }

  /** The kid the token header names, `default` when it names none. */
  function TokenKid(header: Option<JoseHeader>): string {
    if header.Some? then OrElse(header.value.kid, DefaultKid) else DefaultKid
  }

  /** `{ id: payload.id || payload.sub, role: payload.role || 'observer' }`. */
  function NormalizeUser(payload: Claims): (u: User)
    ensures u.role != ""
    ensures Truthy(payload.id) ==> u.id == payload.id
    ensures !Truthy(payload.id) ==> u.id == payload.sub
    ensures Truthy(payload.role) ==> u.role == payload.role.value
    ensures !Truthy(payload.role) ==> u.role == "observer"
  {
    User(if Truthy(payload.id) then payload.id else payload.sub, OrElse(payload.role, "observer"))
  }

  /** `authenticate` (middleware/auth.js:11-46). */
  function Authenticate(header: Option<string>, env: Env, parse: KeysParser, decode: HeaderDecoder,
                        verify: Verifier, revoked: RevocationLookup): (r: AuthResult)
    ensures r.Reject? ==> r.status == 401
    ensures r.Reject? ==>
              r.error in {"No token provided", "Invalid token format", "Invalid token", "Token revoked", "Token error"}
    ensures r == Reject(401, "No token provided") <==> !Truthy(header)
  {
    if !Truthy(header) then Reject(401, "No token provided")
    else
      var parts := Split(header.value, ' ');
      if |parts| != 2 then Reject(401, "Invalid token format")
      else if !IsBearerScheme(parts[0]) || parts[1] == "" then Reject(401, "Invalid token format")
      else
        var token := parts[1];
        var secret := GetSecretByKid(env, parse, TokenKid(decode(token)));
        if !Truthy(secret) then Reject(401, "Invalid token")
        else
          match verify(token, secret.value, VerifyOpts(env))
          case None => Reject(401, "Invalid token")
          case Some(payload) =>
            if Truthy(payload.jti) then
              match revoked(payload.jti.value)
              case None => Reject(401, "Token error")
              case Some(isRevoked) => if isRevoked then Reject(401, "Token revoked") else Accept(NormalizeUser(payload))
            else Accept(NormalizeUser(payload))
  }

  /** The only space of `h` is at index `i`. */
  predicate SoleSpaceAt(h: string, i: int) {
    0 <= i < |h| && h[i] == ' ' && ' ' !in h[..i] && ' ' !in h[i + 1..]
  }

  /** A well-formed credential: one space, the scheme `Bearer` in any case
      before it and a non-empty token after it. */
  predicate WellFormedBearer(h: string) {
    exists i :: 0 <= i < |h| && SoleSpaceAt(h, i) && IsBearerScheme(h[..i]) && i + 1 < |h|
  }

  /** The token of a well-formed credential. */
  function BearerToken(h: string): string
    requires WellFormedBearer(h)
  {
    var i :| SoleSpaceAt(h, i) && IsBearerScheme(h[..i]) && i + 1 < |h|;
    h[i + 1..]
  }

  lemma SoleSpaceUnique(h: string, i: int, j: int)
    requires SoleSpaceAt(h, i) && SoleSpaceAt(h, j)
    ensures i == j
  {
  }

  /** The split in `authenticate` accepts exactly the well-formed credentials and
      extracts their token. */
  lemma HeaderParse(h: string)
    ensures var parts := Split(h, ' ');
            (|parts| == 2 && IsBearerScheme(parts[0]) && parts[1] != "") <==> WellFormedBearer(h)
    ensures WellFormedBearer(h) ==> |Split(h, ' ')| == 2 && Split(h, ' ')[1] == BearerToken(h)
  {
    var parts := Split(h, ' ');
    SplitInTwo(h, ' ');
    if |parts| == 2 && IsBearerScheme(parts[0]) && parts[1] != "" {
      var i := |parts[0]|;
      assert h[..i] == parts[0] && h[i + 1..] == parts[1];
      assert SoleSpaceAt(h, i);
    }
    if WellFormedBearer(h) {
      var i :| SoleSpaceAt(h, i) && IsBearerScheme(h[..i]) && i + 1 < |h|;
      var j :| SoleSpaceAt(h, j) && IsBearerScheme(h[..j]) && j + 1 < |h| && BearerToken(h) == h[j + 1..];
      SoleSpaceUnique(h, i, j);
      assert h == h[..i] + [' '] + h[i + 1..];
    }
  }

  /** A present header that is not a well-formed credential gets 'Invalid token
      format', and nothing else does. */
  lemma FormatRejection(header: Option<string>, env: Env, parse: KeysParser, decode: HeaderDecoder,
                        verify: Verifier, revoked: RevocationLookup)
    requires Truthy(header)
    ensures Authenticate(header, env, parse, decode, verify, revoked) == Reject(401, "Invalid token format")
            <==> !WellFormedBearer(header.value)
  {
    HeaderParse(header.value);
  }

  /** A kid that resolves to no secret is rejected as 'Invalid token' before any
      verification: the verifier and the revocation list play no part. */
  lemma UnknownKidRejected(h: string, env: Env, parse: KeysParser, decode: HeaderDecoder,
                           v1: Verifier, v2: Verifier, b1: RevocationLookup, b2: RevocationLookup)
    requires WellFormedBearer(h)
    requires !Truthy(GetSecretByKid(env, parse, TokenKid(decode(BearerToken(h)))))
    ensures Authenticate(Some(h), env, parse, decode, v1, b1) == Reject(401, "Invalid token")
    ensures Authenticate(Some(h), env, parse, decode, v2, b2) == Authenticate(Some(h), env, parse, decode, v1, b1)
  {
    HeaderParse(h);
  }

  /** What `jsonwebtoken` promises for the `algorithms` option: it verifies a
      token only when the token's header names one of the listed algorithms. */
  ghost predicate HonoursAlgorithms(verify: Verifier, decode: HeaderDecoder) {
    forall token, secret, opts ::
      verify(token, secret, opts).Some? ==>
        decode(token).Some? && decode(token).value.alg.Some? && decode(token).value.alg.value in opts.algorithms
  }

  /** Algorithm enforcement: every accepted token declares HS256, so a token
      whose header names HS512 (or `none`) is rejected with 401. */
  lemma OnlyHs256Accepted(h: string, env: Env, parse: KeysParser, decode: HeaderDecoder,
                          verify: Verifier, revoked: RevocationLookup)
    requires HonoursAlgorithms(verify, decode)
    requires WellFormedBearer(h)
    ensures Authenticate(Some(h), env, parse, decode, verify, revoked).Accept? ==>
              decode(BearerToken(h)).Some? && decode(BearerToken(h)).value.alg == Some(JwtAlg)
    ensures decode(BearerToken(h)).Some? && decode(BearerToken(h)).value.alg != Some(JwtAlg) ==>
              Authenticate(Some(h), env, parse, decode, verify, revoked) == Reject(401, "Invalid token")
  {
    HeaderParse(h);
    var token := BearerToken(h);
    var secret := GetSecretByKid(env, parse, TokenKid(decode(token)));
    if Truthy(secret) && verify(token, secret.value, VerifyOpts(env)).Some? {
      assert decode(token).value.alg.value in VerifyOpts(env).algorithms;
    }
  }

  /** A token that resolves to a secret and verifies is accepted with the
      normalised user unless its jti is revoked ('Token revoked') or the lookup
      fails ('Token error'); a token without a jti skips the lookup. */
  lemma VerifiedTokenOutcome(h: string, env: Env, parse: KeysParser, decode: HeaderDecoder,
                             verify: Verifier, revoked: RevocationLookup, payload: Claims)
    requires WellFormedBearer(h)
    requires var secret := GetSecretByKid(env, parse, TokenKid(decode(BearerToken(h))));
             Truthy(secret) && verify(BearerToken(h), secret.value, VerifyOpts(env)) == Some(payload)
    ensures var r := Authenticate(Some(h), env, parse, decode, verify, revoked);
            && (!Truthy(payload.jti) ==> r == Accept(NormalizeUser(payload)))
            && (Truthy(payload.jti) && revoked(payload.jti.value) == Some(false) ==> r == Accept(NormalizeUser(payload)))
            && (Truthy(payload.jti) && revoked(payload.jti.value) == Some(true) ==> r == Reject(401, "Token revoked"))
            && (Truthy(payload.jti) && revoked(payload.jti.value).None? ==> r == Reject(401, "Token error"))
  {
    HeaderParse(h);
  }

  /** Every rejection after the header checks that is not about revocation is
      'Invalid token': an unresolved kid or any verification failure. */
  lemma VerifyFailureRejected(h: string, env: Env, parse: KeysParser, decode: HeaderDecoder,
                              verify: Verifier, revoked: RevocationLookup)
    requires WellFormedBearer(h)
    requires var secret := GetSecretByKid(env, parse, TokenKid(decode(BearerToken(h))));
             !Truthy(secret) || verify(BearerToken(h), secret.value, VerifyOpts(env)).None?
    ensures Authenticate(Some(h), env, parse, decode, verify, revoked) == Reject(401, "Invalid token")
  {
    HeaderParse(h);
  }

  // ---------------------------------------------------------------------
  // authorize

  /** The argument of `authorize`: one role or a list of roles. */
  datatype RoleSpec = OneRole(role: string) | RoleList(roles: seq<string>)

  datatype Gate = Forbidden | Proceed

  /** `Array.isArray(roles) ? roles : [roles]`. */
  function AllowedRoles(spec: RoleSpec): (allowed: seq<string>)
    ensures spec.OneRole? ==> allowed == [spec.role]
  {
    match spec
    case OneRole(role) => [role]
    case RoleList(roles) => roles
  }

  /** The handler `authorize(roles)` returns (middleware/auth.js:48-56). */
  function Authorize(spec: RoleSpec, user: Option<User>): (g: Gate)
    ensures user.None? ==> g == Forbidden
  {
    if user.None? || (|AllowedRoles(spec)| > 0 && user.value.role !in AllowedRoles(spec)) then Forbidden
    else Proceed
  }

  /** An empty list admits every authenticated user, a single role admits
      exactly the users with that role, and a list admits exactly its members. */
  lemma AuthorizeRoles(spec: RoleSpec, u: User)
    ensures Authorize(RoleList([]), Some(u)) == Proceed
    ensures Authorize(OneRole(u.role), Some(u)) == Proceed
    ensures forall role :: role != u.role ==> Authorize(OneRole(role), Some(u)) == Forbidden
    ensures forall roles :: |roles| > 0 ==> (Authorize(RoleList(roles), Some(u)) == Proceed <==> u.role in roles)
  {
  }
}
