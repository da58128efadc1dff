/** The key registry (config/jwtKeys.js): HS256 secrets by key identifier,
    loaded from `JWT_KEYS_JSON` plus a `default` entry from `JWT_SECRET`, and
    the active key identifier from `ACTIVE_JWT_KID`. */
module JwtKeys {
  import opened Common

  /** The process environment variables the service reads. */
  datatype Env = Env(
    keysJson: Option<string>,        // JWT_KEYS_JSON
    jwtSecret: Option<string>,       // JWT_SECRET
    activeKid: Option<string>,       // ACTIVE_JWT_KID
    signIssuer: Option<string>,      // JWT_ISS, used when signing
    signAudience: Option<string>,    // JWT_AUD, used when signing
    verifyIssuer: Option<string>,    // JWT_ISSUER, used when verifying
    verifyAudience: Option<string>,  // JWT_AUDIENCE, used when verifying
    mfaEnforceAdmin: Option<string>  // MFA_ENFORCE_ADMIN
  )

  /** `Object.entries(JSON.parse(text))` for the key map: None when parsing throws. */
  type KeysParser = string -> Option<seq<(string, string)>>

  const DefaultKid := "default"

  /** The object the `forEach` over the entries builds: later entries overwrite earlier ones. */
  function EntriesMap(entries: seq<(string, string)>): map<string, string>
    decreases |entries|
  {
    if entries == [] then map[]
    else
      var last := entries[|entries| - 1];
      EntriesMap(entries[..|entries| - 1])[last.0 := last.1]
  }

  /** Every kid of the entries is in the map, and the map holds nothing else. */
  lemma {:induction false} EntriesMapKeys(entries: seq<(string, string)>)
    ensures forall k :: k in EntriesMap(entries) <==> exists i :: 0 <= i < |entries| && entries[i].0 == k
    decreases |entries|
  {
    if entries != [] {
      var n := |entries| - 1;
      var init := entries[..n];
      EntriesMapKeys(init);
      assert EntriesMap(entries) == EntriesMap(init)[entries[n].0 := entries[n].1];
      forall k ensures k in EntriesMap(entries) <==> exists i :: 0 <= i < |entries| && entries[i].0 == k {
        if k in EntriesMap(entries) && k != entries[n].0 {
          var i :| 0 <= i < |init| && init[i].0 == k;
          assert entries[i].0 == k;
        }
        if exists i :: 0 <= i < |entries| && entries[i].0 == k {
          var i :| 0 <= i < |entries| && entries[i].0 == k;
          if i < n { assert init[i].0 == k; }
        }
      }
    }
  }

  /** A kid maps to the secret of its last occurrence. */
  lemma {:induction false} EntriesMapLast(entries: seq<(string, string)>)
    ensures forall i :: 0 <= i < |entries| && (forall j :: i < j < |entries| ==> entries[j].0 != entries[i].0) ==>
              entries[i].0 in EntriesMap(entries) && EntriesMap(entries)[entries[i].0] == entries[i].1
    decreases |entries|
  {
    if entries != [] {
      var n := |entries| - 1;
      var init := entries[..n];
      EntriesMapLast(init);
      forall i | 0 <= i < |entries| && (forall j :: i < j < |entries| ==> entries[j].0 != entries[i].0)
        ensures entries[i].0 in EntriesMap(entries) && EntriesMap(entries)[entries[i].0] == entries[i].1
      {
        if i < n {
          assert init[i] == entries[i];
          assert forall j :: i < j < |init| ==> init[j] == entries[j];
        }
      }
    }
  }

  /** The `forEach` at config/jwtKeys.js:12, copying each entry into the map. */
  method CollectEntries(entries: seq<(string, string)>) returns (m: map<string, string>)
    ensures m == EntriesMap(entries)
  {
    m := map[];
    var i := 0;
    while i < |entries|
      invariant 0 <= i <= |entries|
      invariant m == EntriesMap(entries[..i])
    {
      assert entries[..i + 1][..i] == entries[..i];
      m := m[entries[i].0 := entries[i].1];
      i := i + 1;
    }
    assert entries[..|entries|] == entries;
  }

  /** The map `loadKeys` returns for an environment. */
  function Keys(env: Env, parse: KeysParser): (keys: map<string, string>)
    ensures Truthy(env.jwtSecret) ==> DefaultKid in keys && keys[DefaultKid] == env.jwtSecret.value
    ensures !Truthy(env.keysJson) && !Truthy(env.jwtSecret) ==> keys == map[]
    ensures Truthy(env.keysJson) && parse(env.keysJson.value).None? ==>
              keys == if Truthy(env.jwtSecret) then map[DefaultKid := env.jwtSecret.value] else map[]
  {
    var fromJson :=
      if Truthy(env.keysJson) then
        match parse(env.keysJson.value)
        case Some(entries) => EntriesMap(entries)
        case None => map[]
      else map[];
    if Truthy(env.jwtSecret) then fromJson[DefaultKid := env.jwtSecret.value] else fromJson
  }

  /** Every entry of a parseable `JWT_KEYS_JSON` is in the loaded map with the
      secret of its last occurrence, unless `JWT_SECRET` overrides `default`. */
  lemma JsonEntriesLoaded(env: Env, parse: KeysParser, entries: seq<(string, string)>)
    requires Truthy(env.keysJson) && parse(env.keysJson.value) == Some(entries)
    ensures forall i :: 0 <= i < |entries| ==> entries[i].0 in Keys(env, parse)
    ensures forall i :: (0 <= i < |entries| && (forall j :: i < j < |entries| ==> entries[j].0 != entries[i].0) &&
                         !(entries[i].0 == DefaultKid && Truthy(env.jwtSecret))) ==>
              Keys(env, parse)[entries[i].0] == entries[i].1
  {
    EntriesMapKeys(entries);
    EntriesMapLast(entries);
  }

  /** The loaded map holds exactly the configured kids: `default` when
      JWT_SECRET is set, and the kids of a parseable JWT_KEYS_JSON. No other
      kid gets a secret. */
  lemma KeysExactly(env: Env, parse: KeysParser)
    ensures forall k :: k in Keys(env, parse) <==>
              (Truthy(env.jwtSecret) && k == DefaultKid) ||
              (Truthy(env.keysJson) && parse(env.keysJson.value).Some? &&
               exists i :: 0 <= i < |parse(env.keysJson.value).value| && parse(env.keysJson.value).value[i].0 == k)
  {
    if Truthy(env.keysJson) && parse(env.keysJson.value).Some? {
      EntriesMapKeys(parse(env.keysJson.value).value);
    }
  }

  /** The environment after `loadKeys`: ACTIVE_JWT_KID becomes `default` only
      when JWT_SECRET is set and ACTIVE_JWT_KID is not. */
  function EnvAfterLoad(env: Env): (after: Env)
    ensures Truthy(env.activeKid) ==> after == env
    ensures !Truthy(env.jwtSecret) ==> after == env
  {
    if Truthy(env.jwtSecret) && !Truthy(env.activeKid) then env.(activeKid := Some(DefaultKid)) else env
  }

  /** `loadKeys` (config/jwtKeys.js:7-22): builds the map and writes the
      environment; an unparseable JWT_KEYS_JSON is reported and skipped. */
  method LoadKeys(env: Env, parse: KeysParser) returns (keys: map<string, string>, after: Env)
    ensures keys == Keys(env, parse)
    ensures after == EnvAfterLoad(env)
    ensures after.keysJson == env.keysJson && after.jwtSecret == env.jwtSecret
    ensures after.activeKid == env.activeKid ||
              (Truthy(env.jwtSecret) && !Truthy(env.activeKid) && after.activeKid == Some(DefaultKid))
  {
    keys := map[];
    after := env;
    if Truthy(env.keysJson) {
      var parsed := parse(env.keysJson.value);
      if parsed.Some? {
        keys := CollectEntries(parsed.value);
      }
    }
    if Truthy(env.jwtSecret) {
      keys := keys[DefaultKid := env.jwtSecret.value];
      if !Truthy(env.activeKid) {
        after := env.(activeKid := Some(DefaultKid));
      }
    }
  }

  /** `getActiveKid` (config/jwtKeys.js:24-26). */
  function GetActiveKid(env: Env): (kid: string)
    ensures Truthy(env.activeKid) ==> kid == env.activeKid.value
    ensures !Truthy(env.activeKid) ==> kid == DefaultKid
    ensures kid != ""
  {
    OrElse(env.activeKid, DefaultKid)
  }

  /** `getSecretByKid` (config/jwtKeys.js:28-31): a lookup in a freshly loaded
      map; None is `undefined`. */
  function GetSecretByKid(env: Env, parse: KeysParser, kid: string): (secret: Option<string>)
    ensures secret.Some? <==> kid in Keys(env, parse)
    ensures secret.Some? ==> secret.value == Keys(env, parse)[kid]
  {
    var keys := Keys(env, parse);
    if kid in keys then Some(keys[kid]) else None
  }

  /** The environment write of a load is invisible to later lookups: reloading
      yields the same map and the same active kid, so every call of
      `getSecretByKid` and `getActiveKid` sees one registry. */
  lemma {:induction false} LoadIsStable(env: Env, parse: KeysParser)
    ensures Keys(EnvAfterLoad(env), parse) == Keys(env, parse)
    ensures GetActiveKid(EnvAfterLoad(env)) == GetActiveKid(env)
    ensures EnvAfterLoad(EnvAfterLoad(env)) == EnvAfterLoad(env)
  {
  }
}
