/** The audit trail (utils/audit.js): `redact`, which masks bearer tokens and
    e-mail addresses in a clone of the details and drops details whose text
    is too long, and `appendAudit`, which links each new document to the hash
    of the latest one. The Audit collection is an object holding the stored
    documents in insertion order. */
module AuditLog {
  import opened Common
  import opened Json
  import opened AuditModel

  const RedactedToken := "[REDACTED_TOKEN]"
  const MaxDetailsLength := 4000

  // ---------------------------------------------------------------------
  // The two patterns

  /** `[a-z0-9\-\._]` under the `i` flag. */
  predicate TokenChar(c: char) {
    ('a' <= LowerChar(c) <= 'z') || ('0' <= c <= '9') || c == '-' || c == '.' || c == '_'
  }

  /** `t` starts with `\s+` followed by a token character. */
  predicate SpacesThenToken(t: string) {
    exists k :: 1 <= k < |t| && (forall m :: 0 <= m < k ==> IsJsSpace(t[m])) && TokenChar(t[k])
  }

  /** A match of `/bearer\s+[a-z0-9\-\._]+/i` starts at index `i`. */
  predicate BearerAt(s: string, i: int) {
    0 <= i && i + 6 <= |s| && EqualsIgnoreCase(s[i..i + 6], "bearer") && SpacesThenToken(s[i + 6..])
  }

  /** `/bearer\s+[a-z0-9\-\._]+/i.test(s)`: the pattern occurs anywhere in `s`. */
  predicate HasBearerToken(s: string) {
    exists i :: 0 <= i <= |s| - 6 && BearerAt(s, i)
  }

  /** `[^@\s]+`. */
  predicate EmailPart(s: string) {
    s != "" && '@' !in s && NoJsSpace(s)
  }

  /** `[^@\s]+\.[^@\s]+`: a dot with something on either side. */
  predicate HasInnerDot(d: string) {
    exists j :: 0 < j < |d| - 1 && d[j] == '.'
  }

  /** `/^[^@\s]+@[^@\s]+\.[^@\s]+$/.test(s)`, the `@` at index `i`. */
  predicate EmailAt(s: string, i: int) {
    0 < i < |s| && s[i] == '@' && EmailPart(s[..i]) && EmailPart(s[i + 1..]) && HasInnerDot(s[i + 1..])
  }

  predicate IsEmail(s: string) {
    exists i :: 0 < i < |s| && EmailAt(s, i)
  }

  /** An e-mail address splits at its `@` into its local part and its domain. */
  lemma EmailSplit(s: string, i: int)
    requires EmailAt(s, i)
    ensures Split(s, '@') == [s[..i], s[i + 1..]]
  {
    assert s == s[..i] + ['@'] + s[i + 1..];
    SplitInTwo(s, '@');
  }

  /** `const [u, d] = v.split('@'); u[0] + '***@' + d`. */
  function EmailMask(s: string): (r: string)
    requires IsEmail(s)
    ensures forall i :: EmailAt(s, i) ==> r == [s[0]] + "***@" + s[i + 1..]
  {
    var i :| 0 < i < |s| && EmailAt(s, i);
    EmailSplit(s, i);
    var parts := Split(s, '@');
    assert forall j :: EmailAt(s, j) ==> j == i by {
      forall j | EmailAt(s, j) ensures j == i {
        EmailSplit(s, j);
      }
    }
    [parts[0][0]] + "***@" + parts[1]
  }

  /** What `walk` stores for a string property (utils/audit.js:10-15): the
      token mask first, then the e-mail mask, each matched against the original string. */
  function MaskString(s: string): string {
    var afterToken := if HasBearerToken(s) then RedactedToken else s;
    if IsEmail(s) then EmailMask(s) else afterToken
  }

  /** A string without white space holds no bearer token. */
  lemma NoSpaceNoToken(s: string)
    requires NoJsSpace(s)
    ensures !HasBearerToken(s)
  {
    forall i | 0 <= i <= |s| - 6 ensures !BearerAt(s, i) {
      var t := s[i + 6..];
      if |t| > 0 {
        assert t[0] == s[i + 6];
      }
    }
  }

  /** An e-mail address has no white space. */
  lemma EmailHasNoSpace(s: string)
    requires IsEmail(s)
    ensures NoJsSpace(s)
  {
    var i :| 0 < i < |s| && EmailAt(s, i);
    forall k | 0 <= k < |s| ensures !IsJsSpace(s[k]) {
      if k < i {
        assert s[k] == s[..i][k];
      } else if k > i {
        assert s[k] == s[i + 1..][k - i - 1];
      }
    }
  }

  /** The two masks never both apply, so the order of the two tests does not
      matter: a bearer token becomes the marker, an e-mail address keeps the
      first character of its local part and its domain, anything else stays. */
  lemma MaskOutcome(s: string)
    ensures !(HasBearerToken(s) && IsEmail(s))
    ensures HasBearerToken(s) ==> MaskString(s) == RedactedToken
    ensures forall i :: EmailAt(s, i) ==> MaskString(s) == [s[0]] + "***@" + s[i + 1..]
    ensures !HasBearerToken(s) && !IsEmail(s) ==> MaskString(s) == s
  {
    if IsEmail(s) {
      EmailHasNoSpace(s);
      NoSpaceNoToken(s);
    }
    forall i | EmailAt(s, i) ensures MaskString(s) == [s[0]] + "***@" + s[i + 1..] {
      assert IsEmail(s);
    }
  }

  lemma RedactedTokenIsInert()
    ensures !HasBearerToken(RedactedToken) && !IsEmail(RedactedToken)
  {
    assert NoJsSpace(RedactedToken);
    NoSpaceNoToken(RedactedToken);
    assert '@' !in RedactedToken;
  }

  /** A masked e-mail address is an e-mail address with the same mask. */
  lemma EmailMaskIsFixed(s: string, i: int)
    requires EmailAt(s, i)
    ensures EmailAt(MaskString(s), 4)
    ensures MaskString(MaskString(s)) == MaskString(s)
  {
    MaskOutcome(s);
    var m := MaskString(s);
    var d := s[i + 1..];
    assert m == [s[0]] + "***@" + d;
    assert s[0] == s[..i][0];
    assert m[..4] == [s[0]] + "***";
    assert m[5..] == d;
    MaskOutcome(m);
  }

  /** No bearer token survives a mask, and masking again changes nothing. */
  lemma MaskStringSettles(s: string)
    ensures !HasBearerToken(MaskString(s))
    ensures MaskString(MaskString(s)) == MaskString(s)
  {
    MaskOutcome(s);
    RedactedTokenIsInert();
    if IsEmail(s) {
      var i :| 0 < i < |s| && EmailAt(s, i);
      EmailMaskIsFixed(s, i);
      EmailHasNoSpace(MaskString(s));
      NoSpaceNoToken(MaskString(s));
    } else if HasBearerToken(s) {
      MaskOutcome(RedactedToken);
    } else {
      MaskOutcome(s);
    }
  }

  // ---------------------------------------------------------------------
  // walk

  /** What `walk` makes of a value found in a property: strings are masked,
      objects and arrays are walked, everything else is left alone. */
  function MaskValue(v: Json): (r: Json)
    ensures SameShape(v, r)
  {
    match v
    case JStr(s) => JStr(MaskString(s))
    case JArr(items) => JArr(seq(|items|, i requires 0 <= i < |items| => MaskValue(items[i])))
    case JObj(fields) => JObj(seq(|fields|, i requires 0 <= i < |fields| => (fields[i].0, MaskValue(fields[i].1))))
    case _ => v
  }

  /** `walk(json)` on the whole clone: a top-level string is not a property of
      anything and is returned as it is. */
  function Walked(j: Json): Json {
    if j.JStr? then j else MaskValue(j)
  }

  /** No string anywhere in `v` holds a bearer token. */
  predicate NoTokenStrings(v: Json) {
    match v
    case JStr(s) => !HasBearerToken(s)
    case JArr(items) => forall i :: 0 <= i < |items| ==> NoTokenStrings(items[i])
    case JObj(fields) => forall i :: 0 <= i < |fields| ==> NoTokenStrings(fields[i].1)
    case _ => true
  }

  /** After the walk no string holds a bearer token, and a second walk
      changes nothing. */
  lemma {:induction false} MaskValueSettles(v: Json)
    ensures NoTokenStrings(MaskValue(v))
    ensures MaskValue(MaskValue(v)) == MaskValue(v)
  {
    match v
    case JStr(s) => MaskStringSettles(s);
    case JArr(items) =>
      forall i | 0 <= i < |items|
        ensures NoTokenStrings(MaskValue(items[i])) && MaskValue(MaskValue(items[i])) == MaskValue(items[i])
      {
        MaskValueSettles(items[i]);
      }
    case JObj(fields) =>
      forall i | 0 <= i < |fields|
        ensures NoTokenStrings(MaskValue(fields[i].1)) && MaskValue(MaskValue(fields[i].1)) == MaskValue(fields[i].1)
      {
        MaskValueSettles(fields[i].1);
      }
    case _ =>
  }

  /** `walk` (utils/audit.js:6-17): overwrites the string properties of the
      object in place, one key after another, and descends into the nested
      objects and arrays. */
  method Walk(j: Json) returns (r: Json)
    ensures r == Walked(j)
    decreases j
  {
    match j
    case JObj(fields) =>
      var out := fields;
      var i := 0;
      while i < |fields|
        invariant 0 <= i <= |fields| && |out| == |fields|
        invariant forall m :: 0 <= m < i ==> out[m] == (fields[m].0, MaskValue(fields[m].1))
        invariant forall m :: i <= m < |fields| ==> out[m] == fields[m]
      {
        var v := fields[i].1;
        if v.JStr? {
          out := out[i := (fields[i].0, JStr(MaskString(v.s)))];
        } else if v.JArr? || v.JObj? {
          var w := Walk(v);
          out := out[i := (fields[i].0, w)];
        }
        i := i + 1;
      }
      r := JObj(out);
    case JArr(items) =>
      var out := items;
      var i := 0;
      while i < |items|
        invariant 0 <= i <= |items| && |out| == |items|
        invariant forall m :: 0 <= m < i ==> out[m] == MaskValue(items[m])
        invariant forall m :: i <= m < |items| ==> out[m] == items[m]
      {
        var v := items[i];
        if v.JStr? {
          out := out[i := JStr(MaskString(v.s))];
        } else if v.JArr? || v.JObj? {
          var w := Walk(v);
          out := out[i := w];
        }
        i := i + 1;
      }
      r := JArr(out);
    case _ =>
      r := j;
  }

  // ---------------------------------------------------------------------
  // redact

  /** The result of `redact(details)`; None is `undefined`. */
  function Redacted(details: Option<Json>): Json {
    var json := if details.Some? && JsTruthy(details.value) then details.value else JObj([]);
    var w := Walked(json);
    if |Stringify(w)| > MaxDetailsLength then JObj([]) else w
  }

  /** A cut-off text ending in `...` is not the serialisation of any value, so
      `JSON.parse` rejects it. */
  lemma TruncatedTextIsNotJson(s: string)
    requires |s| > MaxDetailsLength
    ensures forall v :: Stringify(v) != s[..MaxDetailsLength] + "..."
  {
    forall v ensures Stringify(v) != s[..MaxDetailsLength] + "..." {
      var t := s[..MaxDetailsLength] + "...";
      assert t[|t| - 1] == '.';
    }
  }

  /** `redact` (utils/audit.js:3-23): clone, walk, serialise; a text longer
      than 4000 characters is cut and fails to parse, giving `{}`. */
  method Redact(details: Option<Json>) returns (r: Json)
    ensures r == Redacted(details)
  {
    var json := if details.Some? && JsTruthy(details.value) then details.value else JObj([]);
    json := Walk(json);
    var s := Stringify(json);
    if |s| > MaxDetailsLength {
      TruncatedTextIsNotJson(s);
      r := JObj([]);
    } else {
      r := json;
    }
  }

  /** Falsy details give `{}`, the serialised result never exceeds 4000
      characters, and below the top level no string holds a bearer token. */
  lemma RedactedBounds(details: Option<Json>)
    ensures details.None? || !JsTruthy(details.value) ==> Redacted(details) == JObj([])
    ensures |Stringify(Redacted(details))| <= MaxDetailsLength
    ensures !Redacted(details).JStr? ==> NoTokenStrings(Redacted(details))
  {
    var json := if details.Some? && JsTruthy(details.value) then details.value else JObj([]);
    MaskValueSettles(json);
    assert Stringify(JObj([])) == "{}";
  }

  /** Redacting redacted details changes nothing. */
  lemma RedactIdempotent(details: Option<Json>)
    ensures Redacted(Some(Redacted(details))) == Redacted(details)
  {
    var json := if details.Some? && JsTruthy(details.value) then details.value else JObj([]);
    MaskValueSettles(json);
    var r := Redacted(details);
    assert JsTruthy(r) by {
      if !json.JStr? && !json.JArr? && !json.JObj? {
        assert Walked(json) == json;
      }
    }
    assert Stringify(JObj([])) == "{}";
  }

  // ---------------------------------------------------------------------
  // appendAudit

  /** `Audit.findOne().sort({ts: -1})`: a document with the greatest `ts`.
      MongoDB does not say which of several documents with the same `ts` it
      returns; the model takes the one inserted last. */
  function Latest(log: seq<AuditEntry>): (r: Option<AuditEntry>)
    ensures r.Some? <==> |log| > 0
    ensures r.Some? ==> r.value in log && forall e :: e in log ==> e.ts <= r.value.ts
    decreases |log|
  {
    if log == [] then None
    else
      var last := log[|log| - 1];
      var before := Latest(log[..|log| - 1]);
      assert log == log[..|log| - 1] + [last];
      if before.None? || before.value.ts <= last.ts then Some(last) else before
  }

  /** The log after `appendAudit`: one sealed document more, or the same log
      when Mongoose refuses the document or the write fails. */
  function AfterAppend(log: seq<AuditEntry>, userId: Option<string>, action: string, target: Option<string>,
                       details: Option<Json>, now: int, sha: Sha256Hex, iso: DateJson, stored: bool): seq<AuditEntry>
  {
    var prev := Latest(log);
    var e := NewEntry(now, if Truthy(userId) then userId else None, action, target, Redacted(details),
                      if prev.Some? then Some(prev.value.hash) else None);
    if Valid(e) && stored then log + [Seal(e, sha, iso)] else log
  }

  /** Times strictly increase along the log: at most one document per
      millisecond. */
  predicate Chronological(log: seq<AuditEntry>) {
    forall i, j :: 0 <= i < j < |log| ==> log[i].ts < log[j].ts
  }

  /** In a chronological log the last document is the only one with the
      greatest time, so the query returns it whichever way MongoDB breaks
      ties. */
  lemma {:induction false} LatestIsLast(log: seq<AuditEntry>)
    requires Chronological(log) && |log| > 0
    ensures Latest(log) == Some(log[|log| - 1])
    ensures forall e :: e in log && e.ts >= log[|log| - 1].ts ==> e == log[|log| - 1]
  {
    forall e | e in log && e.ts >= log[|log| - 1].ts ensures e == log[|log| - 1] {
      var k :| 0 <= k < |log| && log[k] == e;
      if k < |log| - 1 {
        assert log[k].ts < log[|log| - 1].ts;
      }
    }
    var before := Latest(log[..|log| - 1]);
    if before.Some? {
      assert before.value in log[..|log| - 1];
      var k :| 0 <= k < |log| - 1 && log[k] == before.value;
      assert before.value.ts <= log[|log| - 1].ts;
    }
  }

  /** What one append does: at most one document is added, after the existing
      ones, which stay as they were; it is sealed, stamped with `now`, carries
      the redacted details and a falsy user id as null, and names the hash of
      the latest earlier document (none in an empty log). */
  lemma AppendOutcome(log: seq<AuditEntry>, userId: Option<string>, action: string, target: Option<string>,
                      details: Option<Json>, now: int, sha: Sha256Hex, iso: DateJson, stored: bool)
    ensures var after := AfterAppend(log, userId, action, target, details, now, sha, iso, stored);
            && (after == log <==> !(stored && action != ""))
            && (stored && action != "" ==>
                  && |after| == |log| + 1 && after[..|log|] == log
                  && var e := after[|log|];
                     && Sealed(e, sha, iso) && e.ts == now && e.action == action && e.target == target
                     && e.details == Redacted(details)
                     && e.userId == (if Truthy(userId) then userId else None)
                     && e.prevHash == (if log == [] then None else Some(Latest(log).value.hash)))
  {
  }

  /** Sequential appends keep the chain: if the log is a valid chain in time
      order and every document is older than `now`, the log after the append
      is a valid chain in time order. */
  lemma AppendKeepsChain(log: seq<AuditEntry>, userId: Option<string>, action: string, target: Option<string>,
                         details: Option<Json>, now: int, sha: Sha256Hex, iso: DateJson, stored: bool)
    requires ChainValid(log, sha, iso) && Chronological(log)
    requires forall e :: e in log ==> e.ts < now
    ensures var after := AfterAppend(log, userId, action, target, details, now, sha, iso, stored);
            ChainValid(after, sha, iso) && Chronological(after)
  {
    var after := AfterAppend(log, userId, action, target, details, now, sha, iso, stored);
    AppendOutcome(log, userId, action, target, details, now, sha, iso, stored);
    if after != log {
      if |log| > 0 {
        LatestIsLast(log);
      }
      assert after == log + [after[|log|]];
      ExtendChain(log, after[|log|], sha, iso);
      ExtendChronological(log, after[|log|]);
    }
  }

  lemma ExtendChain(log: seq<AuditEntry>, e: AuditEntry, sha: Sha256Hex, iso: DateJson)
    requires ChainValid(log, sha, iso) && Sealed(e, sha, iso)
    requires e.prevHash == if log == [] then None else Some(log[|log| - 1].hash)
    ensures ChainValid(log + [e], sha, iso)
  {
  }

  lemma ExtendChronological(log: seq<AuditEntry>, e: AuditEntry)
    requires Chronological(log) && forall x :: x in log ==> x.ts < e.ts
    ensures Chronological(log + [e])
  {
    var after := log + [e];
    forall i, j | 0 <= i < j < |after| ensures after[i].ts <= after[j].ts {
      if j < |log| {
        assert after[i] == log[i] && after[j] == log[j];
      } else {
        assert after[i] in log;
      }
    }
  }

  /** The Audit collection: the stored documents, in insertion order. */
  class AuditCollection {
    var entries: seq<AuditEntry>

    constructor ()
      ensures entries == []
    {
      entries := [];
    }

    /** The query of utils/audit.js:30: a scan keeping the greatest time seen. */
    method FindLatest() returns (latest: Option<AuditEntry>)
      ensures latest == Latest(entries)
    {
      latest := None;
      var i := 0;
      while i < |entries|
        invariant 0 <= i <= |entries|
        invariant latest == Latest(entries[..i])
      {
        assert entries[..i + 1][..i] == entries[..i];
        if latest.None? || latest.value.ts <= entries[i].ts {
          latest := Some(entries[i]);
        }
        i := i + 1;
      }
      assert entries[..|entries|] == entries;
    }

    /** `appendAudit` (utils/audit.js:25-37) at time `now`; `stored` is whether
        the database accepts the write. A refused document or a failed write
        is reported and swallowed. */
    method AppendAudit(userId: Option<string>, action: string, target: Option<string>, details: Option<Json>,
                       now: int, sha: Sha256Hex, iso: DateJson, stored: bool)
      modifies this
      ensures entries == AfterAppend(old(entries), userId, action, target, details, now, sha, iso, stored)
    {
      var uid := if Truthy(userId) then userId else None;
      var redacted := Redact(details);
      var prev := FindLatest();
      var entry := NewEntry(now, uid, action, target, redacted, if prev.Some? then Some(prev.value.hash) else None);
      if Valid(entry) && stored {
        entries := entries + [Seal(entry, sha, iso)];
      }
    }
  }
}
