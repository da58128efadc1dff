/** Request-body validation and scrubbing (middleware/validate.js). The Joi
    engine is an input (`Schema`); what the four schemas demand of the value
    they hand on is stated as predicates, and `scrub`, the removal of angle
    brackets from every string of the validated value, is modelled exactly. */
module Validate {
  import opened Common
  import opened Json

  predicate IsAngle(c: char) {
    c == '<' || c == '>'
  }

  /** `s.replace(/[<>]/g, '')`. */
  function StripAngles(s: string): (r: string)
    ensures |r| <= |s|
    ensures forall i :: 0 <= i < |r| ==> !IsAngle(r[i])
    ensures forall c :: c in r <==> c in s && !IsAngle(c)
    decreases |s|
  {
    if s == [] then ""
    else (if IsAngle(s[0]) then "" else [s[0]]) + StripAngles(s[1..])
  }

  /** Stripping works piece by piece: the stripped halves of a string are
      concatenated in order. With `StripAnglesChar` this makes the result `s`
      with exactly its angle brackets removed and every other character
      kept, in order and with its multiplicity. */
  lemma {:induction false} StripAnglesAppend(a: string, b: string)
    ensures StripAngles(a + b) == StripAngles(a) + StripAngles(b)
    decreases |a|
  {
    if a == [] {
      assert a + b == b;
    } else {
      assert (a + b)[0] == a[0];
      assert (a + b)[1..] == a[1..] + b;
      StripAnglesAppend(a[1..], b);
    }
  }

  /** A lone angle bracket becomes empty; any other character stays. */
  lemma StripAnglesChar(c: char)
    ensures StripAngles([c]) == if IsAngle(c) then "" else [c]
  {
    assert [c][1..] == [];
  }

  /** A string without angle brackets is returned as it is. */
  lemma {:induction false} StripAnglesIdentity(s: string)
    requires forall i :: 0 <= i < |s| ==> !IsAngle(s[i])
    ensures StripAngles(s) == s
    decreases |s|
  {
    if s != [] {
      StripAnglesIdentity(s[1..]);
    }
  }

  /** No string value anywhere in `v` contains an angle bracket (object keys
      are not values and are not looked at). */
  predicate NoAngles(v: Json) {
    match v
    case JStr(s) => forall i :: 0 <= i < |s| ==> !IsAngle(s[i])
    case JArr(items) => forall i :: 0 <= i < |items| ==> NoAngles(items[i])
    case JObj(fields) => forall i :: 0 <= i < |fields| ==> NoAngles(fields[i].1)
    case _ => true
  }

  /** `scrub` (middleware/validate.js:35-42): arrays are mapped, objects are
      rebuilt key by key, strings lose their angle brackets, and everything
      else (null, booleans, numbers) is returned as it is. */
  function Scrub(v: Json): (r: Json)
    ensures NoAngles(r)
    ensures SameShape(v, r)
  {
    match v
    case JArr(items) => JArr(seq(|items|, i requires 0 <= i < |items| => Scrub(items[i])))
    case JObj(fields) => JObj(seq(|fields|, i requires 0 <= i < |fields| => (fields[i].0, Scrub(fields[i].1))))
    case JStr(s) => JStr(StripAngles(s))
    case _ => v
  }

  /** A value without angle brackets is left as it is. */
  lemma {:induction false} ScrubIdentity(v: Json)
    requires NoAngles(v)
    ensures Scrub(v) == v
  {
    match v
    case JStr(s) => StripAnglesIdentity(s);
    case JArr(items) =>
      forall i | 0 <= i < |items| ensures Scrub(items[i]) == items[i] {
        ScrubIdentity(items[i]);
      }
    case JObj(fields) =>
      forall i | 0 <= i < |fields| ensures Scrub(fields[i].1) == fields[i].1 {
        ScrubIdentity(fields[i].1);
      }
    case _ =>
  }

  /** Scrubbing twice is scrubbing once. */
  lemma ScrubIdempotent(v: Json)
    ensures Scrub(Scrub(v)) == Scrub(v)
  {
    ScrubIdentity(Scrub(v));
  }

  // ---------------------------------------------------------------------
  // validate(schema)

  /** `schema.validate(body, {stripUnknown: true})`: the validated value with
      unknown keys stripped and defaults filled in, or the error message. */
  datatype SchemaResult = Valid(value: Json) | Invalid(message: string)

  type Schema = Json -> SchemaResult

  /** The 400 response, or `next()` with `req.body` replaced. */
  datatype Outcome = BadRequest(status: int, error: string) | Next(body: Json)

  /** The handler `validate(schema)` returns (middleware/validate.js:30-46). */
  function ValidateBody(schema: Schema, body: Json): (o: Outcome)
    ensures o.BadRequest? <==> schema(body).Invalid?
    ensures o.BadRequest? ==> o.status == 400 && o.error == schema(body).message
    ensures o.Next? ==> NoAngles(o.body) && SameShape(schema(body).value, o.body)
  {
    match schema(body)
    case Invalid(message) => BadRequest(400, message)
    case Valid(value) => Next(Scrub(value))
  }

  // ---------------------------------------------------------------------
  // The bounds of the four schemas

  /** The value of the first property named `key`. */
  function Field(v: Json, key: string): (r: Option<Json>)
    ensures r.Some? ==> v.JObj? && exists i :: 0 <= i < |v.fields| && v.fields[i] == (key, r.value)
  {
    if v.JObj? then FieldIn(v.fields, key) else None
  }

  function FieldIn(fields: seq<(string, Json)>, key: string): (r: Option<Json>)
    ensures r.Some? ==> exists i :: 0 <= i < |fields| && fields[i] == (key, r.value)
    ensures r.None? ==> forall i :: 0 <= i < |fields| ==> fields[i].0 != key
    decreases |fields|
  {
    if fields == [] then None
    else if fields[0].0 == key then Some(fields[0].1)
    else
      var r := FieldIn(fields[1..], key);
      assert r.Some? ==> fields[1..][0..] == fields[1..];
      r
  }

  /** Only the listed keys occur: what `stripUnknown` leaves. */
  predicate KeysWithin(v: Json, allowed: set<string>) {
    v.JObj? && forall i :: 0 <= i < |v.fields| ==> v.fields[i].0 in allowed
  }

  /** A string field whose length lies in `lo..hi`; absent only when optional. */
  predicate StringField(v: Option<Json>, lo: int, hi: int, required: bool) {
    match v
    case None => !required
    case Some(j) => j.JStr? && lo <= |j.s| <= hi
  }

  const Roles: set<string> := {"admin", "red", "blue", "observer"}

  predicate IsDecimalDigit(c: char) {
    '0' <= c <= '9'
  }

  /** registrationSchema (middleware/validate.js:3-8); the e-mail is a string. */
  predicate RegistrationBounds(v: Json) {
    && KeysWithin(v, {"username", "email", "password", "role"})
    && StringField(Field(v, "username"), 3, 64, true)
    && Field(v, "email").Some? && Field(v, "email").value.JStr?
    && StringField(Field(v, "password"), 8, 128, true)
    && (Field(v, "role").Some? ==> Field(v, "role").value.JStr? && Field(v, "role").value.s in Roles)
  }

  /** loginSchema (middleware/validate.js:10-14): a TOTP is six decimal digits. */
  predicate LoginBounds(v: Json) {
    && KeysWithin(v, {"username", "password", "totp"})
    && StringField(Field(v, "username"), 3, 64, true)
    && StringField(Field(v, "password"), 8, 128, true)
    && (Field(v, "totp").Some? ==>
          var t := Field(v, "totp").value;
          t.JStr? && |t.s| == 6 && forall i :: 0 <= i < |t.s| ==> IsDecimalDigit(t.s[i]))
  }

  /** stepSchema (middleware/validate.js:16-21). */
  predicate StepBounds(v: Json) {
    && KeysWithin(v, {"title", "description", "expectedAction", "outcome"})
    && StringField(Field(v, "title"), 1, 200, true)
    && StringField(Field(v, "description"), 1, 5000, true)
    && StringField(Field(v, "expectedAction"), 0, 2000, false)
    && StringField(Field(v, "outcome"), 0, 2000, false)
  }

  const DefaultRetentionDays := 30
  const MaxRetentionDays := 3650
  const MaxSteps := 200

  /** scenarioSchema (middleware/validate.js:23-28): after defaults are filled
      in, `steps` and `retentionDays` are always present. */
  predicate ScenarioBounds(v: Json) {
    && KeysWithin(v, {"title", "description", "steps", "retentionDays"})
    && StringField(Field(v, "title"), 1, 200, true)
    && StringField(Field(v, "description"), 0, 2000, false)
    && Field(v, "steps").Some? && Field(v, "steps").value.JArr?
    && |Field(v, "steps").value.items| <= MaxSteps
    && (forall i :: 0 <= i < |Field(v, "steps").value.items| ==> StepBounds(Field(v, "steps").value.items[i]))
    && Field(v, "retentionDays").Some? && Field(v, "retentionDays").value.JNum?
    && 1 <= Field(v, "retentionDays").value.n <= MaxRetentionDays
  }

  /** What Joi promises for a schema: every value it hands on meets the bounds. */
  ghost predicate Enforces(schema: Schema, bounds: Json -> bool) {
    forall body :: schema(body).Valid? ==> bounds(schema(body).value)
  }

  /** Scrubbing reaches into fields: the scrubbed object's field is the
      scrubbed field. */
  lemma ScrubField(v: Json, key: string)
    ensures Field(Scrub(v), key) == if Field(v, key).Some? then Some(Scrub(Field(v, key).value)) else None
  {
    if v.JObj? {
      ScrubFieldIn(v.fields, key);
    }
  }

  lemma {:induction false} ScrubFieldIn(fields: seq<(string, Json)>, key: string)
    ensures var scrubbed := seq(|fields|, i requires 0 <= i < |fields| => (fields[i].0, Scrub(fields[i].1)));
            FieldIn(scrubbed, key) == if FieldIn(fields, key).Some? then Some(Scrub(FieldIn(fields, key).value)) else None
    decreases |fields|
  {
    var scrubbed := seq(|fields|, i requires 0 <= i < |fields| => (fields[i].0, Scrub(fields[i].1)));
    if fields != [] && fields[0].0 != key {
      ScrubFieldIn(fields[1..], key);
      var tail := seq(|fields[1..]|, i requires 0 <= i < |fields[1..]| => (fields[1..][i].0, Scrub(fields[1..][i].1)));
      assert scrubbed[1..] == tail;
    }
  }

  /** Scrubbing keeps the keys of an object. */
  lemma ScrubKeys(v: Json, allowed: set<string>)
    requires KeysWithin(v, allowed)
    ensures KeysWithin(Scrub(v), allowed)
  {
    assert forall i :: 0 <= i < |v.fields| ==> Scrub(v).fields[i].0 == v.fields[i].0;
  }

  /** A string field stays present (or absent) and within its maximum length. */
  lemma ScrubStringField(v: Json, key: string, lo: int, hi: int, required: bool)
    requires StringField(Field(v, key), lo, hi, required)
    ensures StringField(Field(Scrub(v), key), 0, hi, required)
  {
    ScrubField(v, key);
  }

  /** What a handler behind `validate(scenarioSchema)` can rely on: the number
      of steps and the retention period pass through the scrub unchanged, no
      key is added, and no string grows beyond its maximum. */
  lemma ScrubbedScenario(v: Json)
    requires ScenarioBounds(v)
    ensures var w := Scrub(v);
            && KeysWithin(w, {"title", "description", "steps", "retentionDays"})
            && Field(w, "retentionDays") == Field(v, "retentionDays")
            && Field(w, "steps").Some? && Field(w, "steps").value.JArr?
            && |Field(w, "steps").value.items| == |Field(v, "steps").value.items| <= MaxSteps
            && StringField(Field(w, "title"), 0, 200, true)
            && StringField(Field(w, "description"), 0, 2000, false)
  {
    ScrubKeys(v, {"title", "description", "steps", "retentionDays"});
    ScrubField(v, "retentionDays");
    ScrubField(v, "steps");
    ScrubStringField(v, "title", 1, 200, true);
    ScrubStringField(v, "description", 0, 2000, false);
  }

  /** A field whose value holds no angle bracket reaches the handler as it was. */
  lemma ScrubCleanField(v: Json, key: string)
    requires Field(v, key).Some? && NoAngles(Field(v, key).value)
    ensures Field(Scrub(v), key) == Field(v, key)
  {
    ScrubField(v, key);
    ScrubIdentity(Field(v, key).value);
  }

  /** Behind `validate(registrationSchema)` the handler sees only the schema's
      keys, a username and password no longer than their maxima, and a role,
      when there is one, that is one of the four roles, unchanged. */
  lemma ValidatedRegistration(schema: Schema, body: Json)
    requires Enforces(schema, RegistrationBounds)
    requires ValidateBody(schema, body).Next?
    ensures var w := ValidateBody(schema, body).body;
            && KeysWithin(w, {"username", "email", "password", "role"})
            && StringField(Field(w, "username"), 0, 64, true)
            && StringField(Field(w, "password"), 0, 128, true)
            && (Field(w, "role").Some? ==> Field(w, "role").value.JStr? && Field(w, "role").value.s in Roles)
  {
    var v := schema(body).value;
    assert RegistrationBounds(v);
    ScrubKeys(v, {"username", "email", "password", "role"});
    ScrubStringField(v, "username", 3, 64, true);
    ScrubStringField(v, "password", 8, 128, true);
    ScrubRoleField(v);
  }

  lemma RoleClean(role: string)
    requires role in Roles
    ensures forall i :: 0 <= i < |role| ==> !IsAngle(role[i])
  {
    if role == "observer" {
      assert forall i :: 0 <= i < 8 ==> role[i] in "obsrve";
    } else if role == "admin" {
      assert forall i :: 0 <= i < 5 ==> role[i] in "admin";
    } else if role == "red" {
      assert forall i :: 0 <= i < 3 ==> role[i] in "red";
    } else {
      assert forall i :: 0 <= i < 4 ==> role[i] in "blue";
    }
  }

  lemma ScrubRoleField(v: Json)
    requires Field(v, "role").Some? ==> Field(v, "role").value.JStr? && Field(v, "role").value.s in Roles
    ensures Field(Scrub(v), "role") == Field(v, "role")
  {
    ScrubField(v, "role");
    if Field(v, "role").Some? {
      RoleClean(Field(v, "role").value.s);
      ScrubCleanField(v, "role");
    }
  }

  /** Behind `validate(loginSchema)` a TOTP, when there is one, reaches the
      handler as the six digits that were sent. */
  lemma ValidatedLogin(schema: Schema, body: Json)
    requires Enforces(schema, LoginBounds)
    requires ValidateBody(schema, body).Next?
    ensures var w := ValidateBody(schema, body).body;
            && KeysWithin(w, {"username", "password", "totp"})
            && Field(w, "totp") == Field(schema(body).value, "totp")
            && (Field(w, "totp").Some? ==>
                  var t := Field(w, "totp").value;
                  t.JStr? && |t.s| == 6 && forall i :: 0 <= i < |t.s| ==> IsDecimalDigit(t.s[i]))
  {
    var v := schema(body).value;
    assert LoginBounds(v);
    ScrubKeys(v, {"username", "password", "totp"});
    ScrubField(v, "totp");
    if Field(v, "totp").Some? {
      ScrubCleanField(v, "totp");
    }
  }

  /** Behind `validate(scenarioSchema)` the guarantees of `ScrubbedScenario` hold. */
  lemma ValidatedScenario(schema: Schema, body: Json)
    requires Enforces(schema, ScenarioBounds)
    requires ValidateBody(schema, body).Next?
    ensures var w := ValidateBody(schema, body).body;
            && Field(w, "retentionDays").Some? && Field(w, "retentionDays").value.JNum?
            && 1 <= Field(w, "retentionDays").value.n <= MaxRetentionDays
            && Field(w, "steps").Some? && Field(w, "steps").value.JArr?
            && |Field(w, "steps").value.items| <= MaxSteps
  {
    assert ScenarioBounds(schema(body).value);
    ScrubbedScenario(schema(body).value);
  }

  /** The scrub runs after validation, so the minimum lengths are not kept:
      a title of `<>` passes scenarioSchema and reaches the handler empty. */
  lemma ScrubCanBreakMinimumLength()
    ensures var v := JObj([("title", JStr("<>")), ("steps", JArr([])), ("retentionDays", JNum(30))]);
            ScenarioBounds(v) && !ScenarioBounds(Scrub(v)) && Field(Scrub(v), "title") == Some(JStr(""))
  {
    var v := JObj([("title", JStr("<>")), ("steps", JArr([])), ("retentionDays", JNum(30))]);
    var w := JObj([("title", JStr("")), ("steps", JArr([])), ("retentionDays", JNum(30))]);
    ScrubbedTitle(v, w);
    AngleTitleMeetsBounds(v);
    assert Field(w, "title") == Some(JStr(""));
  }

  lemma AngleTitleMeetsBounds(v: Json)
    requires v == JObj([("title", JStr("<>")), ("steps", JArr([])), ("retentionDays", JNum(30))])
    ensures ScenarioBounds(v)
  {
    assert Field(v, "title") == Some(JStr("<>"));
    assert Field(v, "description") == None;
    assert Field(v, "steps") == Some(JArr([]));
    assert Field(v, "retentionDays") == Some(JNum(30));
  }

  lemma ScrubbedTitle(v: Json, w: Json)
    requires v == JObj([("title", JStr("<>")), ("steps", JArr([])), ("retentionDays", JNum(30))])
    requires w == JObj([("title", JStr("")), ("steps", JArr([])), ("retentionDays", JNum(30))])
    ensures Scrub(v) == w
  {
    assert StripAngles("<>") == "";
    assert Scrub(JArr([])) == JArr([]);
    assert Scrub(v).fields == w.fields;
  }
}
