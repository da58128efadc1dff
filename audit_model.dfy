/** The audit document (models/audit.js): its fields, the defaults and
    required field of the schema, and the pre-save hook that seals each
    document with the SHA-256 hex digest of the JSON text of its six
    content fields. The digest and the Date-to-JSON rendering are inputs. */
module AuditModel {
  import opened Common
  import opened Json

  /** An audit document; `ts` is in milliseconds. `userId` and `prevHash` of
      None are stored as null, a `target` of None is left undefined. */
  datatype AuditEntry = AuditEntry(
    ts: int,
    userId: Option<string>,
    action: string,
    target: Option<string>,
    details: Json,
    prevHash: Option<string>,
    hash: string
  )

  /** The six fields the hash covers. */
  datatype Content = Content(ts: int, userId: Option<string>, action: string, target: Option<string>,
                             details: Json, prevHash: Option<string>)


  /** `Date.prototype.toJSON`: the ISO 8601 text of a time in ms. */
  type DateJson = int -> string

  function ContentOf(e: AuditEntry): Content {
    Content(e.ts, e.userId, e.action, e.target, e.details, e.prevHash)
  }

  function NullOr(v: Option<string>): Json {
    if v.Some? then JStr(v.value) else JNull
  }

  /** The object the hook serialises, properties in this order; an undefined
      `target` is left out of the text, as `JSON.stringify` does. */
  function Payload(c: Content, iso: DateJson): (p: Json)
    ensures p.JObj?
    ensures c.target.Some? ==> |p.fields| == 6 && p.fields[3] == ("target", JStr(c.target.value))
    ensures c.target.None? ==> |p.fields| == 5
    ensures p.fields[0] == ("ts", JStr(iso(c.ts))) && p.fields[1] == ("userId", NullOr(c.userId))
    ensures p.fields[2] == ("action", JStr(c.action)) && p.fields[|p.fields| - 1] == ("prevHash", NullOr(c.prevHash))
  {
    JObj([("ts", JStr(iso(c.ts))), ("userId", NullOr(c.userId)), ("action", JStr(c.action))]
         + (if c.target.Some? then [("target", JStr(c.target.value))] else [])
         + [("details", c.details), ("prevHash", NullOr(c.prevHash))])
  }

  /** The digest the hook computes for some content. */
  function Digest(c: Content, sha: Sha256Hex, iso: DateJson): string {
    sha(Stringify(Payload(c, iso)))
  }

  /** The `pre('save')` hook (models/audit.js:14-20): only `hash` changes. */
  function Seal(e: AuditEntry, sha: Sha256Hex, iso: DateJson): (r: AuditEntry)
    ensures ContentOf(r) == ContentOf(e)
    ensures Sealed(r, sha, iso)
  {
    e.(hash := Digest(ContentOf(e), sha, iso))
  }

  /** The stored hash matches the stored fields. */
  predicate Sealed(e: AuditEntry, sha: Sha256Hex, iso: DateJson) {
    e.hash == Digest(ContentOf(e), sha, iso)
  }

  /** The hash never covers itself: sealing again changes nothing, and two
      documents that differ only in their hash seal to the same document. */
  lemma SealIgnoresHash(e: AuditEntry, h: string, sha: Sha256Hex, iso: DateJson)
    ensures Seal(Seal(e, sha, iso), sha, iso) == Seal(e, sha, iso)
    ensures Seal(e.(hash := h), sha, iso) == Seal(e, sha, iso)
  {
  }

  /** The injective-hash abstraction: different content, different digest. */
  ghost predicate DigestInjective(sha: Sha256Hex, iso: DateJson) {
    forall a: Content, b: Content :: a != b ==> Digest(a, sha, iso) != Digest(b, sha, iso)
  }

  /** Two sealed documents with the same hash have the same six fields, so
      changing any one of them changes the hash. */
  lemma HashDeterminesContent(a: AuditEntry, b: AuditEntry, sha: Sha256Hex, iso: DateJson)
    requires DigestInjective(sha, iso)
    requires Sealed(a, sha, iso) && Sealed(b, sha, iso)
    ensures a.hash == b.hash <==> ContentOf(a) == ContentOf(b)
    ensures a.hash == b.hash ==> a == b
  {
  }

  /** `action` is required: Mongoose refuses to save a document without one. */
  predicate Valid(e: AuditEntry) {
    e.action != ""
  }

  /** `new Audit({...})` at time `now`: `ts` takes its default, the hash is
      not yet set. */
  function NewEntry(now: int, userId: Option<string>, action: string, target: Option<string>,
                    details: Json, prevHash: Option<string>): (e: AuditEntry)
    ensures e.ts == now && e.hash == ""
    ensures ContentOf(e) == Content(now, userId, action, target, details, prevHash)
  {
    AuditEntry(now, userId, action, target, details, prevHash, "")
  }

  // ---------------------------------------------------------------------
  // The chain

  /** Every document after the first names its predecessor's hash, and the
      first names none. */
  predicate Linked(log: seq<AuditEntry>) {
    && (|log| > 0 ==> log[0].prevHash.None?)
    && forall i :: 0 < i < |log| ==> log[i].prevHash == Some(log[i - 1].hash)
  }

  /** Every stored document carries the hash of its own fields. */
  predicate AllSealed(log: seq<AuditEntry>, sha: Sha256Hex, iso: DateJson) {
    forall i :: 0 <= i < |log| ==> Sealed(log[i], sha, iso)
  }

  predicate ChainValid(log: seq<AuditEntry>, sha: Sha256Hex, iso: DateJson) {
    Linked(log) && AllSealed(log, sha, iso)
  }

  /** Tamper evidence: replacing any document but the last with one of other
      content breaks the chain, whether or not the forger re-seals it. */
  lemma TamperBreaksChain(log: seq<AuditEntry>, k: int, forged: AuditEntry, sha: Sha256Hex, iso: DateJson)
    requires DigestInjective(sha, iso)
    requires ChainValid(log, sha, iso)
    requires 0 <= k < |log| - 1
    requires ContentOf(forged) != ContentOf(log[k])
    ensures !ChainValid(log[k := forged], sha, iso)
  {
    var t := log[k := forged];
    assert t[k + 1] == log[k + 1];
    if Sealed(forged, sha, iso) {
      assert Sealed(log[k], sha, iso);
      assert Digest(ContentOf(forged), sha, iso) != Digest(ContentOf(log[k]), sha, iso);
      assert t[k + 1].prevHash != Some(t[k].hash);
      assert !Linked(t);
    } else {
      assert !Sealed(t[k], sha, iso);
      assert !AllSealed(t, sha, iso);
    }
  }

  /** Re-sealing the last document with other content breaks nothing that
      links to it: the tail of the chain is protected only by its seal. */
  lemma LastEntryResealable(log: seq<AuditEntry>, forged: AuditEntry, sha: Sha256Hex, iso: DateJson)
    requires ChainValid(log, sha, iso)
    requires |log| > 0 && forged.prevHash == log[|log| - 1].prevHash
    ensures ChainValid(log[|log| - 1 := Seal(forged, sha, iso)], sha, iso)
  {
  }
}
