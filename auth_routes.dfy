/** The account routes of routes/auth.js: `/logout`, which revokes the
    presented token's jti until the token's own expiry, and the decision order
    of `/register` and `/login`. Library calls (the user lookup, bcrypt,
    zxcvbn, speakeasy, `jwt.sign`, `jwt.decode`) are inputs; the revocation
    list and refresh-token families live in the shared store and the audit
    trail in the Audit collection. Times are in milliseconds. */
module AuthRoutes {
  import opened Common
  import opened Json
  import opened KvStore
  import opened JwtKeys
  import opened Security
  import AuthMiddleware
  import AuditModel
  import AuditLog

  // ---------------------------------------------------------------------
  // /logout

  /** `jwt.decode(token)`: the payload, or None for `null`. */
  type PayloadDecoder = string -> Option<Claims>

  /** `Math.max(1, exp - Math.floor(now / 1000))`: the seconds the token has
      left, at least one. */
  function LogoutTtl(exp: int, now: int): (ttl: int)
    ensures ttl >= 1
    ensures ttl == 1 || ttl == exp - now / 1000
    ensures exp - now / 1000 >= 1 ==> ttl == exp - now / 1000
  {
    if exp - now / 1000 > 1 then exp - now / 1000 else 1
  }

  /** The jti and expiry `/logout` revokes for a header, if any: the header
      must split into two parts on spaces, whatever the scheme, and the
      decoded payload must carry a truthy `jti` and a non-zero `exp`. */
  function LogoutTarget(header: Option<string>, decode: PayloadDecoder): (t: Option<(string, int)>)
    ensures t.Some? ==> Truthy(header) && |Split(header.value, ' ')| == 2 && t.value.0 != "" && t.value.1 != 0
  {
    if !Truthy(header) then None
    else
      var parts := Split(header.value, ' ');
      if |parts| != 2 then None
      else match decode(parts[1])
        case None => None
        case Some(claims) =>
          if Truthy(claims.jti) && claims.exp.Some? && claims.exp.value != 0 then Some((claims.jti.value, claims.exp.value))
          else None
  }

  /** The store after `/logout` at time `now`. */
  function LogoutData(data: Data, header: Option<string>, decode: PayloadDecoder, now: int): Data {
    match LogoutTarget(header, decode)
    case None => data
    case Some((jti, exp)) => SetEx(data, BlacklistKey(jti), "1", LogoutTtl(exp, now), now)
  }

  /** `/logout` (routes/auth.js:171-187): always answers `{ok: true}`; writes
      the revocation when there is a target and a store. */
  method Logout(redis: RedisStore?, header: Option<string>, decode: PayloadDecoder, now: int) returns (ok: bool)
    requires redis != null ==> WellTyped(redis.data)
    modifies redis
    ensures ok
    ensures redis != null ==> WellTyped(redis.data) && redis.data == LogoutData(old(redis.data), header, decode, now)
  {
    ok := true;
    var target := LogoutTarget(header, decode);
    if target.Some? {
      var (jti, exp) := target.value;
      var ttl := LogoutTtl(exp, now);
      var _ := BlacklistJti(redis, jti, Some(ttl), now);
    }
  }

  /** The store's answer to `isJtiBlacklisted` at time `now`. */
  function StoreLookup(data: Data, now: int): AuthMiddleware.RevocationLookup {
    jti => Some(Blacklisted(data, jti, now))
  }

  /** After `/logout` at `t` of a token that has not expired, the jti is
      revoked until `t + ttl` seconds, which is less than a second after the
      token's `exp`, and revoked no longer. Since `jwt.verify` allows 90
      seconds of clock tolerance, the window from one second after `exp` to
      90 seconds after it is non-empty: there the token passes verification
      and is no longer on the revocation list. */
  lemma RevocationEndsBeforeTolerance(data: Data, jti: string, exp: int, t: int, now: int)
    requires exp - t / 1000 >= 1
    ensures var after := SetEx(data, BlacklistKey(jti), "1", LogoutTtl(exp, t), t);
            && t + LogoutTtl(exp, t) * 1000 < exp * 1000 + 1000
            && (t <= now < t + LogoutTtl(exp, t) * 1000 ==> Blacklisted(after, jti, now))
            && (now >= exp * 1000 + 1000 ==> !Blacklisted(after, jti, now))
            && exp * 1000 + 1000 < (exp + AuthMiddleware.ClockToleranceSeconds) * 1000
  {
    BlacklistWindow(data, jti, LogoutTtl(exp, t), t, now);
  }

  /** The end-to-end consequence: a token logged out at `t`, presented again
      at `now`, is refused as 'Token revoked' while the entry lives, and is
      accepted again from one second after its `exp` whenever `jwt.verify`
      still accepts it, as it does within the 90-second tolerance. */
  lemma LoggedOutTokenOutcome(data: Data, header: string, decode: PayloadDecoder, t: int, now: int,
                              env: Env, parse: KeysParser, headerDecode: AuthMiddleware.HeaderDecoder,
                              verify: AuthMiddleware.Verifier, payload: Claims)
    requires LogoutTarget(Some(header), decode).Some?
    requires var (jti, exp) := LogoutTarget(Some(header), decode).value;
             exp - t / 1000 >= 1 && payload.jti == Some(jti)
    requires AuthMiddleware.WellFormedBearer(header)
    requires var token := AuthMiddleware.BearerToken(header);
             var secret := GetSecretByKid(env, parse, AuthMiddleware.TokenKid(headerDecode(token)));
             Truthy(secret) && verify(token, secret.value, AuthMiddleware.VerifyOpts(env)) == Some(payload)
    ensures var (jti, exp) := LogoutTarget(Some(header), decode).value;
            var after := LogoutData(data, Some(header), decode, t);
            var r := AuthMiddleware.Authenticate(Some(header), env, parse, headerDecode, verify, StoreLookup(after, now));
            && (t <= now < t + LogoutTtl(exp, t) * 1000 ==> r == AuthMiddleware.Reject(401, "Token revoked"))
            && (now >= exp * 1000 + 1000 ==> r == AuthMiddleware.Accept(AuthMiddleware.NormalizeUser(payload)))
  {
    var (jti, exp) := LogoutTarget(Some(header), decode).value;
    RevocationEndsBeforeTolerance(data, jti, exp, t, now);
    AuthMiddleware.VerifiedTokenOutcome(Some(header).value, env, parse, headerDecode, verify,
                                        StoreLookup(LogoutData(data, Some(header), decode, t), now), payload);
  }

  // ---------------------------------------------------------------------
  // /register

  /** A stored user: `mfaSecret` is set only for a provisioned admin. */
  datatype StoredUser = StoredUser(id: string, username: string, email: string, role: string, mfaSecret: Option<string>)

  /** `user.toJSON()`: the document without `password` and `mfaSecret`. */
  datatype PublicUser = PublicUser(id: string, username: string, email: string, role: string)

  datatype RegisterOutcome =
    | Conflict        // 409 'username or email already registered'
    | WeakPassword    // 400 'password too weak (score < 3)'
    | RegisterFailed  // 500 'Server error'
    | Created(user: PublicUser)

  /** MFA is enforced for admins when MFA_ENFORCE_ADMIN is exactly `true`. */
  predicate MfaEnforced(env: Env) {
    env.mfaEnforceAdmin == Some("true")
  }

  function ToJson(u: StoredUser): PublicUser {
    PublicUser(u.id, u.username, u.email, u.role)
  }

  /** The user `/register` builds: the role defaults to observer, and an admin
      under enforcement gets the drawn TOTP secret. */
  function NewUser(id: string, username: string, email: string, role: Option<string>, env: Env,
                   drawnSecret: string): (u: StoredUser)
    ensures u.role == OrElse(role, "observer")
    ensures u.mfaSecret.Some? <==> u.role == "admin" && MfaEnforced(env)
  {
    var r := OrElse(role, "observer");
    StoredUser(id, username, email, r, if r == "admin" && MfaEnforced(env) then Some(drawnSecret) else None)
  }

  /** The decision of `/register` (routes/auth.js:13-39), given whether the
      username or e-mail is taken, the zxcvbn score, the fresh id and TOTP
      secret, and whether `user.save()` succeeds; the second component is the
      user stored, if any. */
  function RegisterDecision(taken: bool, score: int, saved: bool, id: string, username: string, email: string,
                    role: Option<string>, env: Env, drawnSecret: string): (RegisterOutcome, Option<StoredUser>)
  {
    if taken then (Conflict, None)
    else if score < 3 then (WeakPassword, None)
    else
      var u := NewUser(id, username, email, role, env, drawnSecret);
      if !saved then (RegisterFailed, None) else (Created(ToJson(u)), Some(u))
  }

  /** The branch order: a taken name is refused before the strength check; a
      weak password is refused before anything is stored; a user is stored
      exactly when the answer is 201, with the defaulted role, and the answer
      carries the stored user without its TOTP secret. */
  lemma RegisterOrder(taken: bool, score: int, saved: bool, id: string, username: string, email: string,
                      role: Option<string>, env: Env, drawnSecret: string)
    ensures var (o, stored) := RegisterDecision(taken, score, saved, id, username, email, role, env, drawnSecret);
            && (o == Conflict <==> taken)
            && (o == WeakPassword <==> !taken && score < 3)
            && (stored.Some? <==> o.Created?)
            && (o.Created? ==> o.user == ToJson(stored.value) && o.user.role == OrElse(role, "observer"))
            && (o.Created? ==> (stored.value.mfaSecret.Some? <==> OrElse(role, "observer") == "admin" && MfaEnforced(env)))
  {
  }

  /** `/register` with its audit entry: after a 201 the trail gets a
      `register` entry for the new user with the username as details; every
      other answer leaves the trail as it was. */
  method Register(audit: AuditLog.AuditCollection, taken: bool, score: int, saved: bool, id: string,
                  username: string, email: string, role: Option<string>, env: Env, drawnSecret: string,
                  sha: Sha256Hex, iso: AuditModel.DateJson, auditStored: bool, now: int)
    returns (o: RegisterOutcome, stored: Option<StoredUser>)
    modifies audit
    ensures (o, stored) == RegisterDecision(taken, score, saved, id, username, email, role, env, drawnSecret)
    ensures o.Created? ==>
              audit.entries == AuditLog.AfterAppend(old(audit.entries), Some(id), "register", Some("user"),
                                                    Some(JObj([("username", JStr(username))])), now, sha, iso, auditStored)
    ensures !o.Created? ==> audit.entries == old(audit.entries)
  {
    if taken {
      return Conflict, None;
    }
    if score < 3 {
      return WeakPassword, None;
    }
    var u := NewUser(id, username, email, role, env, drawnSecret);
    if !saved {
      return RegisterFailed, None;
    }
    audit.AppendAudit(Some(id), "register", Some("user"), Some(JObj([("username", JStr(username))])), now, sha, iso, auditStored);
    o, stored := Created(ToJson(u)), Some(u);
  }

  // ---------------------------------------------------------------------
  // /login

  /** What the lookup by username loads: `mfaSecret` is a `select: false`
      field, so the loaded document carries it only when the query selects it. */
  datatype LoadedUser = LoadedUser(id: string, role: string, mfaSecret: Option<string>)

  datatype LoginOutcome =
    | InvalidCredentials   // 401 'Invalid credentials'
    | MfaNotProvisioned    // 403
    | TotpRequired         // 401 'TOTP required'
    | InvalidTotp          // 401 'Invalid TOTP'
    | LoginFailed          // 500 'Server error'
    | LoggedIn(token: string, refreshToken: Option<string>)

  /** The checks of `/login` before any token is made (routes/auth.js:48-60);
      None lets the request through. `passwordOk` is bcrypt's answer and
      `totpOk` speakeasy's. */
  function LoginGate(user: Option<LoadedUser>, passwordOk: bool, env: Env, totp: Option<string>, totpOk: bool)
    : Option<LoginOutcome>
  {
    if user.None? || !passwordOk then Some(InvalidCredentials)
    else if user.value.role == "admin" && MfaEnforced(env) then
      if !Truthy(user.value.mfaSecret) then Some(MfaNotProvisioned)
      else if !Truthy(totp) then Some(TotpRequired)
      else if !totpOk then Some(InvalidTotp)
      else None
    else None
  }

  /** An unknown user and a wrong password get the same answer; the MFA
      checks apply only to an admin under enforcement, in the order
      provisioning, presence, validity; everyone else passes on a correct
      password. */
  lemma LoginGateOrder(user: Option<LoadedUser>, passwordOk: bool, env: Env, totp: Option<string>, totpOk: bool)
    ensures LoginGate(None, passwordOk, env, totp, totpOk) == Some(InvalidCredentials)
    ensures user.Some? ==> LoginGate(user, false, env, totp, totpOk) == Some(InvalidCredentials)
    ensures user.Some? && passwordOk && !(user.value.role == "admin" && MfaEnforced(env)) ==>
              LoginGate(user, passwordOk, env, totp, totpOk).None?
    ensures user.Some? && passwordOk && user.value.role == "admin" && MfaEnforced(env) ==>
              LoginGate(user, passwordOk, env, totp, totpOk) ==
                (if !Truthy(user.value.mfaSecret) then Some(MfaNotProvisioned)
                 else if !Truthy(totp) then Some(TotpRequired)
                 else if !totpOk then Some(InvalidTotp)
                 else None)
    ensures LoginGate(user, passwordOk, env, totp, totpOk).None? ==> user.Some? && passwordOk
  {
  }

  /** The claims `/login` signs: the user's id and role. */
  function LoginClaims(u: LoadedUser): Claims {
    Claims(Some(u.id), None, Some(u.role), None, None)
  }

  /** `/login` (routes/auth.js:46-70). `jti`, `refreshId` and `refreshToken`
      are the fresh random values the helpers draw. A refusal, and a signing
      failure, change neither the store nor the audit trail. */
  method Login(redis: RedisStore?, audit: AuditLog.AuditCollection, user: Option<LoadedUser>, passwordOk: bool,
               env: Env, parse: KeysParser, totp: Option<string>, totpOk: bool,
               sign: JwtSigner, jti: string, refreshId: string, refreshToken: string,
               sha: Sha256Hex, iso: AuditModel.DateJson, auditStored: bool, now: int)
    returns (o: LoginOutcome)
    requires redis != null ==> WellTyped(redis.data)
    modifies redis, audit
    ensures redis != null ==> WellTyped(redis.data)
    ensures LoginGate(user, passwordOk, env, totp, totpOk).Some? ==>
              o == LoginGate(user, passwordOk, env, totp, totpOk).value &&
              (redis != null ==> redis.data == old(redis.data)) && audit.entries == old(audit.entries)
    ensures LoginGate(user, passwordOk, env, totp, totpOk).None? ==>
              var signed := SignJwt(env, parse, LoginClaims(user.value), jti, sign);
              if signed.None? then
                o == LoginFailed && (redis != null ==> redis.data == old(redis.data)) && audit.entries == old(audit.entries)
              else
                && o == LoggedIn(signed.value.token, if redis != null then Some(refreshToken) else None)
                && (redis != null ==> redis.data == IssueData(old(redis.data), user.value.id, refreshId, sha(refreshToken), now))
                && audit.entries == AuditLog.AfterAppend(old(audit.entries), Some(user.value.id), "login", Some("user"),
                                                         Some(JObj([])), now, sha, iso, auditStored)
  {
    var gate := LoginGate(user, passwordOk, env, totp, totpOk);
    if gate.Some? {
      return gate.value;
    }
    var signed := SignJwt(env, parse, LoginClaims(user.value), jti, sign);
    if signed.None? {
      return LoginFailed;
    }
    var issued := IssueRefreshToken(redis, user.value.id, refreshId, refreshToken, sha, now);
    audit.AppendAudit(Some(user.value.id), "login", Some("user"), Some(JObj([])), now, sha, iso, auditStored);
    o := LoggedIn(signed.value.token, if issued.Some? then Some(issued.value.token) else None);
  }
}
