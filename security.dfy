/** Token helpers (utils/security.js): signing access tokens with the active
    key, the revocation list of token identifiers (`jti`, section 4.1.7 of
    RFC 7519) and the per-user refresh-token family with rotation and reuse
    detection, all over the shared key-value store. A missing store client is
    a `null` store. Random identifiers, SHA-256 and `jwt.sign` are inputs. */
module Security {
  import opened Common
  import opened KvStore
  import opened JwtKeys

  /** The claims of a token payload, as far as the service reads them. */
  datatype Claims = Claims(
    id: Option<string>,
    sub: Option<string>,
    role: Option<string>,
    jti: Option<string>,
    exp: Option<int>)

  const JwtAlg := "HS256"
  const AccessTokenSeconds := 3600
  const DefaultIssuer := "purple-team-app"
  const DefaultAudience := "purple-team-clients"

  /** The options `signJwt` hands to `jwt.sign`; `kid` goes into the token header. */
  datatype SignOptions = SignOptions(expiresIn: int, algorithm: string, issuer: string, audience: string, kid: string)

  /** `jwt.sign(claims, secret, options)`. */
  type JwtSigner = (Claims, string, SignOptions) -> string


  datatype SignedJwt = SignedJwt(token: string, jti: string, kid: string)

  /** The result of an async helper: its value, or the exception it rejects with. */
  datatype Call<T> = Returned(value: T) | Threw

  /** `signJwt` (utils/security.js:8-25) with `jti` the fresh uuid; None is the
      'No JWT secret for active kid' exception. */
  function SignJwt(env: Env, parse: KeysParser, payload: Claims, jti: string, sign: JwtSigner): (r: Option<SignedJwt>)
    ensures r.None? <==> !Truthy(GetSecretByKid(env, parse, GetActiveKid(env)))
    ensures r.Some? ==> r.value.kid == GetActiveKid(env) && r.value.jti == jti
    ensures r.Some? ==>
              var options := SignOptions(AccessTokenSeconds, JwtAlg, OrElse(env.signIssuer, DefaultIssuer),
                                         OrElse(env.signAudience, DefaultAudience), r.value.kid);
              r.value.token == sign(payload.(jti := Some(jti)), Keys(env, parse)[r.value.kid], options)
  {
    var kid := GetActiveKid(env);
    var secret := GetSecretByKid(env, parse, kid);
    if !Truthy(secret) then None
    else
      var options := SignOptions(AccessTokenSeconds, JwtAlg, OrElse(env.signIssuer, DefaultIssuer),
                                 OrElse(env.signAudience, DefaultAudience), kid);
      Some(SignedJwt(sign(payload.(jti := Some(jti)), secret.value, options), jti, kid))
  }

  // ---------------------------------------------------------------------
  // Key layout

  const BlacklistPrefix := "jwt:blacklist:"
  const RefreshPrefix := "refresh:"

  function BlacklistKey(jti: string): string {
    BlacklistPrefix + jti
  }

  /** `refreshKey` (utils/security.js:44-46). */
  function RefreshKey(userId: string): string {
    RefreshPrefix + userId
  }

  predicate IsBlacklistKey(k: string) {
    |k| >= |BlacklistPrefix| && k[..|BlacklistPrefix|] == BlacklistPrefix
  }

  predicate IsRefreshKey(k: string) {
    |k| >= |RefreshPrefix| && k[..|RefreshPrefix|] == RefreshPrefix
  }

  /** Distinct users have distinct refresh keys, and no refresh key is a
      revocation key, so the two record kinds never share a key. */
  lemma {:induction false} KeyLayout(u: string, v: string, jti: string)
    ensures RefreshKey(u) == RefreshKey(v) ==> u == v
    ensures IsRefreshKey(RefreshKey(u)) && !IsBlacklistKey(RefreshKey(u))
    ensures IsBlacklistKey(BlacklistKey(jti)) && !IsRefreshKey(BlacklistKey(jti))
    ensures RefreshKey(u) != BlacklistKey(jti)
  {
    assert RefreshKey(u)[|RefreshPrefix|..] == u;
    assert RefreshKey(v)[|RefreshPrefix|..] == v;
    assert RefreshKey(u)[..|RefreshPrefix|] == RefreshPrefix;
    assert BlacklistKey(jti)[..|BlacklistPrefix|] == BlacklistPrefix;
    if |RefreshKey(u)| >= |BlacklistPrefix| {
      assert RefreshKey(u)[0] != BlacklistPrefix[0];
    }
    if |BlacklistKey(jti)| >= |RefreshPrefix| {
      assert BlacklistKey(jti)[0] != RefreshPrefix[0];
    }
  }

  /** What the helpers keep true of the store: refresh keys hold hashes and
      revocation keys hold strings, so no command of theirs meets WRONGTYPE. */
  predicate WellTyped(data: Data) {
    forall k :: k in data ==>
      (IsRefreshKey(k) ==> data[k].value.Hash?) && (IsBlacklistKey(k) ==> data[k].value.Str?)
  }

  // ---------------------------------------------------------------------
  // Revocation list

  const DefaultBlacklistSeconds := 3600

  /** `isJtiBlacklisted` on a store's contents: the key holds a non-empty string. */
  predicate Blacklisted(data: Data, jti: string, now: int) {
    var reply := Get(data, BlacklistKey(jti), now);
    reply.Ok? && reply.v.Some? && reply.v.value != ""
  }

  /** `blacklistJti` (utils/security.js:27-33): `SET jwt:blacklist:<jti> 1 EX <seconds>`,
      with 3600 when no time is given; Redis refuses a non-positive time. */
  method BlacklistJti(redis: RedisStore?, jti: string, expSeconds: Option<int>, now: int) returns (r: Call<bool>)
    requires redis != null ==> WellTyped(redis.data)
    modifies redis
    ensures redis == null ==> r == Returned(false)
    ensures redis != null ==> WellTyped(redis.data)
    ensures redis != null ==>
              var seconds := if expSeconds.Some? then expSeconds.value else DefaultBlacklistSeconds;
              if seconds > 0 then
                r == Returned(true) && redis.data == SetEx(old(redis.data), BlacklistKey(jti), "1", seconds, now)
              else
                r == Threw && redis.data == old(redis.data)
  {
    if redis == null {
      return Returned(false);
    }
    var seconds := if expSeconds.Some? then expSeconds.value else DefaultBlacklistSeconds;
    if seconds <= 0 {
      return Threw;
    }
    KeyLayout("", "", jti);
    redis.data := SetEx(redis.data, BlacklistKey(jti), "1", seconds, now);
    r := Returned(true);
  }

  /** `isJtiBlacklisted` (utils/security.js:35-41). */
  method IsJtiBlacklisted(redis: RedisStore?, jti: string, now: int) returns (r: Call<bool>)
    requires redis != null ==> WellTyped(redis.data)
    ensures r == Returned(redis != null && Blacklisted(redis.data, jti, now))
  {
    if redis == null {
      return Returned(false);
    }
    KeyLayout("", "", jti);
    var reply := Get(redis.data, BlacklistKey(jti), now);
    match reply {
      case Ok(v) => r := Returned(v.Some? && v.value != "");
      case WrongType => assert false;
    }
  }

  /** A revoked jti reads as revoked from the moment of the call until `seconds`
      have passed and not afterwards; other jtis are unaffected, and repeating
      the call only resets the expiry of the same key. */
  lemma {:induction false} BlacklistWindow(data: Data, jti: string, seconds: int, at: int, now: int)
    requires seconds > 0
    ensures at <= now < at + seconds * 1000 ==> Blacklisted(SetEx(data, BlacklistKey(jti), "1", seconds, at), jti, now)
    ensures now >= at + seconds * 1000 ==> !Blacklisted(SetEx(data, BlacklistKey(jti), "1", seconds, at), jti, now)
    ensures forall other :: other != jti ==>
              Blacklisted(SetEx(data, BlacklistKey(jti), "1", seconds, at), other, now) == Blacklisted(data, other, now)
    ensures forall s2, at2 :: SetEx(SetEx(data, BlacklistKey(jti), "1", seconds, at), BlacklistKey(jti), "1", s2, at2)
                              == SetEx(data, BlacklistKey(jti), "1", s2, at2)
  {
    forall other | other != jti
      ensures Blacklisted(SetEx(data, BlacklistKey(jti), "1", seconds, at), other, now) == Blacklisted(data, other, now)
    {
      assert BlacklistKey(other)[|BlacklistPrefix|..] == other;
      assert BlacklistKey(jti)[|BlacklistPrefix|..] == jti;
    }
  }

  // ---------------------------------------------------------------------
  // Refresh-token ledger

  const RefreshTtl := 30 * 24 * 3600

  datatype Issued = Issued(token: string, tokenId: string, ttl: int)

  /** The family a user's key holds when `rotateRefreshToken` finds it complete. */
  datatype Family = Family(tokenId: string, hash: string)

  datatype FailReason = NoRedis | Missing | ReuseDetected

  datatype RotateResult = Rotated(next: Issued) | Failed(reason: FailReason)

  /** What `HGETALL refresh:<userId>` yields when both fields are present and non-empty. */
  function FamilyOf(data: Data, userId: string, now: int): Option<Family> {
    match HGetAll(data, RefreshKey(userId), now)
    case Ok(fields) =>
      if "hash" in fields && fields["hash"] != "" && "tokenId" in fields && fields["tokenId"] != ""
      then Some(Family(fields["tokenId"], fields["hash"]))
      else None
    case WrongType => None
  }

  /** The store after `HSET refresh:<userId> tokenId <id> hash <hash>` then
      `EXPIRE refresh:<userId> 2592000`. */
  function IssueData(data: Data, userId: string, tokenId: string, hash: string, now: int): (after: Data)
    requires WellTyped(data)
    ensures WellTyped(after)
    ensures forall k :: k != RefreshKey(userId) ==> (k in after <==> k in data) && (k in data ==> after[k] == data[k])
  {
    KeyLayout(userId, userId, "");
    var key := RefreshKey(userId);
    var written := HSet(data, key, map["tokenId" := tokenId, "hash" := hash], now).value;
    Expire(written, key, RefreshTtl, now)
  }

  /** The store after deleting a user's family. */
  function RevokeData(data: Data, userId: string): (after: Data)
    requires WellTyped(data)
    ensures WellTyped(after)
  {
    Del(data, RefreshKey(userId))
  }

  /** `rotateRefreshToken` on a present store: the outcome and the store after it. */
  function Rotate(data: Data, userId: string, presented: string, newTokenId: string, newToken: string,
                  sha: Sha256Hex, now: int): (RotateResult, Data)
    requires WellTyped(data)
  {
    match FamilyOf(data, userId, now)
    case None => (Failed(Missing), data)
    case Some(family) =>
      if sha(presented) != family.hash then (Failed(ReuseDetected), RevokeData(data, userId))
      else (Rotated(Issued(newToken, newTokenId, RefreshTtl)), IssueData(data, userId, newTokenId, sha(newToken), now))
  }

  /** `issueRefreshToken` (utils/security.js:49-60) with `tokenId` and `token`
      the two fresh dash-less uuids; None is the `null` of a missing store. */
  method IssueRefreshToken(redis: RedisStore?, userId: string, tokenId: string, token: string,
                           sha: Sha256Hex, now: int) returns (r: Option<Issued>)
    requires redis != null ==> WellTyped(redis.data)
    modifies redis
    ensures redis == null ==> r == None
    ensures redis != null ==> WellTyped(redis.data)
    ensures redis != null ==>
              r == Some(Issued(token, tokenId, RefreshTtl)) &&
              redis.data == IssueData(old(redis.data), userId, tokenId, sha(token), now)
  {
    if redis == null {
      return None;
    }
    var ttl := 30 * 24 * 3600;
    var hash := sha(token);
    KeyLayout(userId, userId, "");
    redis.data := HSet(redis.data, RefreshKey(userId), map["tokenId" := tokenId, "hash" := hash], now).value;
    redis.data := Expire(redis.data, RefreshKey(userId), ttl, now);
    r := Some(Issued(token, tokenId, ttl));
  }

  /** `rotateRefreshToken` (utils/security.js:62-76), with the fresh uuids the
      nested `issueRefreshToken` would draw. */
  method RotateRefreshToken(redis: RedisStore?, userId: string, presented: string,
                            newTokenId: string, newToken: string, sha: Sha256Hex, now: int) returns (r: RotateResult)
    requires redis != null ==> WellTyped(redis.data)
    modifies redis
    ensures redis == null ==> r == Failed(NoRedis)
    ensures redis != null ==> WellTyped(redis.data)
    ensures redis != null ==>
              (r, redis.data) == Rotate(old(redis.data), userId, presented, newTokenId, newToken, sha, now)
  {
    if redis == null {
      return Failed(NoRedis);
    }
    KeyLayout(userId, userId, "");
    var reply := HGetAll(redis.data, RefreshKey(userId), now);
    var fields := if reply.Ok? then reply.v else map[];
    if !("hash" in fields && fields["hash"] != "" && "tokenId" in fields && fields["tokenId"] != "") {
      return Failed(Missing);
    }
    var hash := sha(presented);
    if hash != fields["hash"] {
      redis.data := Del(redis.data, RefreshKey(userId));
      return Failed(ReuseDetected);
    }
    var next := IssueRefreshToken(redis, userId, newTokenId, newToken, sha, now);
    r := Rotated(next.value);
  }

  /** A freshly issued family is what rotation finds for the whole 30-day TTL
      and is gone afterwards; every other key is untouched. */
  lemma {:induction false} IssuedFamilyLives(data: Data, userId: string, tokenId: string, hash: string, at: int, now: int)
    requires WellTyped(data)
    requires tokenId != "" && hash != ""
    ensures at <= now < at + RefreshTtl * 1000 ==>
              FamilyOf(IssueData(data, userId, tokenId, hash, at), userId, now) == Some(Family(tokenId, hash))
    ensures now >= at + RefreshTtl * 1000 ==> FamilyOf(IssueData(data, userId, tokenId, hash, at), userId, now) == None
  {
    KeyLayout(userId, userId, "");
    var key := RefreshKey(userId);
    var written := HSet(data, key, map["tokenId" := tokenId, "hash" := hash], at).value;
    assert Live(written, key, at);
    var fields := written[key].value.fields;
    assert fields["tokenId"] == tokenId && fields["hash"] == hash;
  }

  /** An absent or incomplete family fails with `missing` and changes nothing;
      a hash mismatch deletes the family, so the next rotation for that user
      fails with `missing`; a match installs the new token's hash. */
  lemma {:induction false} RotateOutcomes(data: Data, userId: string, presented: string, newTokenId: string,
                                          newToken: string, sha: Sha256Hex, now: int, later: int)
    requires WellTyped(data)
    ensures var (r, after) := Rotate(data, userId, presented, newTokenId, newToken, sha, now);
            && (FamilyOf(data, userId, now).None? <==> r == Failed(Missing))
            && (r == Failed(Missing) ==> after == data)
            && (r == Failed(ReuseDetected) <==>
                  FamilyOf(data, userId, now).Some? && sha(presented) != FamilyOf(data, userId, now).value.hash)
            && (r == Failed(ReuseDetected) ==> FamilyOf(after, userId, later).None?)
            && (r.Rotated? ==> r.next == Issued(newToken, newTokenId, RefreshTtl))
            && (r.Rotated? && newTokenId != "" && sha(newToken) != "" && now <= later < now + RefreshTtl * 1000 ==>
                  FamilyOf(after, userId, later) == Some(Family(newTokenId, sha(newToken))))
  {
    var (r, after) := Rotate(data, userId, presented, newTokenId, newToken, sha, now);
    if r.Rotated? && newTokenId != "" && sha(newToken) != "" {
      IssuedFamilyLives(data, userId, newTokenId, sha(newToken), now, later);
    }
  }

  /** Only the stored hash decides a rotation: two stores whose families differ
      only in `tokenId` give the same outcome. */
  lemma {:induction false} TokenIdIgnored(d1: Data, d2: Data, userId: string, presented: string, newTokenId: string,
                                          newToken: string, sha: Sha256Hex, now: int)
    requires WellTyped(d1) && WellTyped(d2)
    requires FamilyOf(d1, userId, now).Some? && FamilyOf(d2, userId, now).Some?
    requires FamilyOf(d1, userId, now).value.hash == FamilyOf(d2, userId, now).value.hash
    ensures Rotate(d1, userId, presented, newTokenId, newToken, sha, now).0 ==
            Rotate(d2, userId, presented, newTokenId, newToken, sha, now).0
  {
  }

  /** Issuing or rotating for one user leaves every other user's family and
      every revocation entry as they were. */
  lemma {:induction false} OtherKeysUntouched(data: Data, userId: string, presented: string, newTokenId: string,
                                              newToken: string, sha: Sha256Hex, now: int, other: string, jti: string, t: int)
    requires WellTyped(data)
    requires other != userId
    ensures var after := Rotate(data, userId, presented, newTokenId, newToken, sha, now).1;
            FamilyOf(after, other, t) == FamilyOf(data, other, t) &&
            Blacklisted(after, jti, t) == Blacklisted(data, jti, t)
  {
    KeyLayout(userId, other, jti);
    var after := Rotate(data, userId, presented, newTokenId, newToken, sha, now).1;
    assert forall k :: k != RefreshKey(userId) ==> (k in after <==> k in data) && (k in data ==> after[k] == data[k]);
  }

  /** The reuse scenario: issue token t1, rotate with t1 (success, t2 issued),
      present t1 again (reuse detected, family deleted), then present t2
      (missing). Needs only that the two tokens hash differently. */
  lemma {:induction false} StaleTokenRevokesFamily(data: Data, userId: string, id1: string, t1: string, id2: string, t2: string,
                                                   id3: string, t3: string, sha: Sha256Hex, at1: int, at2: int, at3: int)
    requires WellTyped(data)
    requires id1 != "" && id2 != "" && sha(t1) != "" && sha(t2) != ""
    requires sha(t1) != sha(t2)
    requires at1 <= at2 < at1 + RefreshTtl * 1000 && at2 <= at3 < at2 + RefreshTtl * 1000
    ensures var d1 := IssueData(data, userId, id1, sha(t1), at1);
            var (r2, d2) := Rotate(d1, userId, t1, id2, t2, sha, at2);
            var (r3, d3) := Rotate(d2, userId, t1, id3, t3, sha, at3);
            var (r4, d4) := Rotate(d3, userId, t2, id3, t3, sha, at3);
            r2 == Rotated(Issued(t2, id2, RefreshTtl)) && r3 == Failed(ReuseDetected) && r4 == Failed(Missing)
  {
    var d1 := IssueData(data, userId, id1, sha(t1), at1);
    IssuedFamilyLives(data, userId, id1, sha(t1), at1, at2);
    var (r2, d2) := Rotate(d1, userId, t1, id2, t2, sha, at2);
    IssuedFamilyLives(d1, userId, id2, sha(t2), at2, at3);
    var (r3, d3) := Rotate(d2, userId, t1, id3, t3, sha, at3);
    RotateOutcomes(d2, userId, t1, id3, t3, sha, at3, at3);
  }
}
