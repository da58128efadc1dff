/** The scenario routes of routes/scenarios.js: create (owner taken from the
    token, then a `scenario_create` audit entry), list (own scenarios unless
    admin, newest first, at most 200) and get-by-id (id format, existence,
    then ownership). The collection is a sequence of documents in insertion
    order; the database's failures are inputs. Times are in milliseconds. */
module ScenarioRoutes {
  import opened Common
  import opened Json
  import opened ScenarioModel
  import AuthMiddleware
  import AuditModel
  import AuditLog

  // ---------------------------------------------------------------------
  // ObjectId strings

  predicate IsHexDigit(c: char) {
    '0' <= c <= '9' || 'a' <= c <= 'f' || 'A' <= c <= 'F'
  }

  predicate IsHexId(s: string) {
    |s| == 24 && forall i :: 0 <= i < |s| ==> IsHexDigit(s[i])
  }

  /** What `ObjectId.toString()` prints: 24 lower-case hex digits. */
  predicate IsCanonicalId(s: string) {
    |s| == 24 && forall i :: 0 <= i < |s| ==> '0' <= s[i] <= '9' || 'a' <= s[i] <= 'f'
  }

  /** Twelve characters of one UTF-8 byte each: the 12 bytes of an id. */
  predicate IsByteId(s: string) {
    |s| == 12 && forall i :: 0 <= i < |s| ==> s[i] as int < 128
  }

  /** `mongoose.isValidObjectId` on a string: 24 hex digits, or any string of
      12 characters. */
  predicate IsValidObjectId(s: string) {
    IsHexId(s) || |s| == 12
  }

  /** The id cast from 24 hex digits, printed: the same digits in lower case. */
  function CanonicalId(s: string): (r: string)
    requires IsHexId(s)
    ensures IsCanonicalId(r)
    ensures forall i :: 0 <= i < |s| ==> r[i] == LowerChar(s[i])
  {
    seq(|s|, i requires 0 <= i < |s| => LowerChar(s[i]))
  }

  function HexDigit(n: int): (c: char)
    requires 0 <= n < 16
    ensures '0' <= c <= '9' || 'a' <= c <= 'f'
  {
    if n < 10 then ('0' as int + n) as char else ('a' as int + n - 10) as char
  }

  /** The bytes of an ASCII string, two lower-case hex digits each. */
  function BytesHex(s: string): (r: string)
    requires forall i :: 0 <= i < |s| ==> s[i] as int < 128
    ensures |r| == 2 * |s|
    ensures forall i :: 0 <= i < |r| ==> '0' <= r[i] <= '9' || 'a' <= r[i] <= 'f'
  {
    if s == [] then ""
    else [HexDigit(s[0] as int / 16), HexDigit(s[0] as int % 16)] + BytesHex(s[1..])
  }

  /** Mongoose's cast of a string to an ObjectId, printed as `toString()`
      prints it; None when the cast throws. 24 hex digits name the id they
      spell and 12 one-byte characters the id of their bytes. */
  function CastObjectId(s: string): (r: Option<string>)
    ensures r.Some? <==> IsHexId(s) || IsByteId(s)
    ensures r.Some? ==> IsCanonicalId(r.value)
  {
    if IsHexId(s) then Some(CanonicalId(s)) else if IsByteId(s) then Some(BytesHex(s)) else None
  }

  /** A printed id casts back to itself. */
  lemma CanonicalIsFixed(k: string)
    requires IsCanonicalId(k)
    ensures IsHexId(k) && CastObjectId(k) == Some(k)
  {
    assert IsHexId(k);
    assert CanonicalId(k) == k;
  }

  /** Casting is insensitive to the case of hex digits, and casting the
      printed form of an id gives the same id back. */
  lemma CastRoundTrip(s: string)
    ensures IsHexId(s) ==> CastObjectId(s) == Some(CanonicalId(s)) == CastObjectId(CanonicalId(s))
    ensures CastObjectId(s).Some? ==> CastObjectId(CastObjectId(s).value) == CastObjectId(s)
  {
    if CastObjectId(s).Some? {
      CanonicalIsFixed(CastObjectId(s).value);
    }
  }

  // ---------------------------------------------------------------------
  // GET / (routes/scenarios.js:28-37)

  /** `{}` or `{owner: req.user.id}` once Mongoose has cast the id; an owner
      of None is the condition on an undefined id, which no document meets. */
  datatype Filter = Everyone | OwnedBy(owner: Option<string>)

  /** The filter of the list route; None when the caller's id cannot be cast
      to an ObjectId and the query throws. */
  function ListFilter(user: AuthMiddleware.User): (f: Option<Filter>)
    ensures f == Some(Everyone) <==> user.role == "admin"
    ensures f.None? <==> user.role != "admin" && user.id.Some? && CastObjectId(user.id.value).None?
    ensures f.Some? && f.value.OwnedBy? ==> f.value.owner == if user.id.Some? then CastObjectId(user.id.value) else None
  {
    if user.role == "admin" then Some(Everyone)
    else if user.id.None? then Some(OwnedBy(None))
    else match CastObjectId(user.id.value)
      case None => None
      case Some(k) => Some(OwnedBy(Some(k)))
  }

  predicate Matches(f: Filter, s: Scenario) {
    match f
    case Everyone => true
    case OwnedBy(owner) => owner == Some(s.owner)
  }

  /** The matching documents in collection order. */
  function Filtered(docs: seq<Scenario>, f: Filter): (r: seq<Scenario>)
    ensures |r| <= |docs|
  {
    if docs == [] then []
    else
      var rest := Filtered(docs[..|docs| - 1], f);
      if Matches(f, docs[|docs| - 1]) then rest + [docs[|docs| - 1]] else rest
  }

  /** The filter keeps every copy of a matching document and nothing else. */
  lemma {:induction false} FilteredCounts(docs: seq<Scenario>, f: Filter)
    ensures forall s :: multiset(Filtered(docs, f))[s] == if Matches(f, s) then multiset(docs)[s] else 0
  {
    if docs != [] {
      var init, last := docs[..|docs| - 1], docs[|docs| - 1];
      FilteredCounts(init, f);
      assert docs == init + [last];
      assert multiset(docs) == multiset(init) + multiset{last};
    }
  }

  /** Ordered by `updatedAt`, newest first. */
  predicate NewestFirst(s: seq<Scenario>) {
    forall i, j :: 0 <= i < j < |s| ==> s[i].updatedAt >= s[j].updatedAt
  }

  /** `x` placed after every document at least as new as it. */
  function Insert(sorted: seq<Scenario>, x: Scenario): (r: seq<Scenario>)
    ensures |r| == |sorted| + 1
    ensures multiset(r) == multiset(sorted) + multiset{x}
    decreases |sorted|
  {
    if sorted == [] || sorted[0].updatedAt < x.updatedAt then [x] + sorted
    else
      assert sorted == [sorted[0]] + sorted[1..];
      [sorted[0]] + Insert(sorted[1..], x)
  }

  lemma {:induction false} InsertNewestFirst(sorted: seq<Scenario>, x: Scenario)
    requires NewestFirst(sorted)
    ensures NewestFirst(Insert(sorted, x))
    decreases |sorted|
  {
    if sorted == [] || sorted[0].updatedAt < x.updatedAt {
      forall j | 0 <= j < |sorted| ensures x.updatedAt >= sorted[j].updatedAt {
        assert sorted[0].updatedAt >= sorted[j].updatedAt;
      }
      ConsNewestFirst(x, sorted);
    } else {
      var tail := sorted[1..];
      SuffixNewestFirst(sorted, 1);
      InsertNewestFirst(tail, x);
      var t := Insert(tail, x);
      forall j | 0 <= j < |t| ensures sorted[0].updatedAt >= t[j].updatedAt {
        assert t[j] in multiset(t);
        if t[j] != x {
          assert t[j] in multiset(tail);
          var k :| 0 <= k < |tail| && tail[k] == t[j];
          assert tail[k] == sorted[k + 1];
        }
      }
      ConsNewestFirst(sorted[0], t);
    }
  }

  lemma ConsNewestFirst(h: Scenario, t: seq<Scenario>)
    requires NewestFirst(t) && forall j :: 0 <= j < |t| ==> h.updatedAt >= t[j].updatedAt
    ensures NewestFirst([h] + t)
  {
    var r := [h] + t;
    forall i, j | 0 <= i < j < |r| ensures r[i].updatedAt >= r[j].updatedAt {
      assert r[j] == t[j - 1];
      if i > 0 {
        assert r[i] == t[i - 1];
      }
    }
  }

  lemma SuffixNewestFirst(s: seq<Scenario>, k: int)
    requires NewestFirst(s) && 0 <= k <= |s|
    ensures NewestFirst(s[k..])
  {
    forall i, j | 0 <= i < j < |s| - k ensures s[k..][i].updatedAt >= s[k..][j].updatedAt {
      assert s[k..][i] == s[k + i] && s[k..][j] == s[k + j];
    }
  }

  /** `.sort({updatedAt: -1})`. MongoDB leaves the order of documents with
      equal times unspecified; the model keeps them in collection order. */
  function SortNewestFirst(s: seq<Scenario>): (r: seq<Scenario>)
    decreases |s|
  {
    if s == [] then [] else Insert(SortNewestFirst(s[..|s| - 1]), s[|s| - 1])
  }

  /** The sort orders by `updatedAt`. */
  lemma {:induction false} SortOrders(s: seq<Scenario>)
    ensures NewestFirst(SortNewestFirst(s))
    decreases |s|
  {
    if s != [] {
      SortOrders(s[..|s| - 1]);
      InsertNewestFirst(SortNewestFirst(s[..|s| - 1]), s[|s| - 1]);
    }
  }

  /** The sort is a permutation. */
  lemma {:induction false} SortPermutes(s: seq<Scenario>)
    ensures multiset(SortNewestFirst(s)) == multiset(s)
    decreases |s|
  {
    if s != [] {
      var init, last := s[..|s| - 1], s[|s| - 1];
      SortPermutes(init);
      assert s == init + [last];
      assert multiset(s) == multiset(init) + multiset{last};
    }
  }

  const ListLimit := 200

  /** The answer of `find(filter).sort({updatedAt: -1}).limit(200)`. */
  function ListResult(docs: seq<Scenario>, f: Filter): seq<Scenario> {
    var sorted := SortNewestFirst(Filtered(docs, f));
    if |sorted| <= ListLimit then sorted else sorted[..ListLimit]
  }

  /** The sorted matching documents: ordered, and as many of each as the
      collection holds that match. */
  lemma SortedMatches(docs: seq<Scenario>, f: Filter)
    ensures var sorted := SortNewestFirst(Filtered(docs, f));
            && NewestFirst(sorted)
            && |sorted| == |Filtered(docs, f)|
            && multiset(sorted) == multiset(Filtered(docs, f))
  {
    var filtered := Filtered(docs, f);
    SortOrders(filtered);
    SortPermutes(filtered);
    assert |multiset(SortNewestFirst(filtered))| == |multiset(filtered)|;
  }

  /** A prefix of an ordered sequence: everything it leaves out is no newer
      than its last element. */
  lemma PrefixIsNewest(sorted: seq<Scenario>, n: int)
    requires NewestFirst(sorted) && 0 < n <= |sorted|
    ensures forall s :: multiset(sorted[..n])[s] < multiset(sorted)[s] ==> s.updatedAt <= sorted[n - 1].updatedAt
  {
    assert sorted == sorted[..n] + sorted[n..];
    assert multiset(sorted) == multiset(sorted[..n]) + multiset(sorted[n..]);
    forall s | multiset(sorted[..n])[s] < multiset(sorted)[s] ensures s.updatedAt <= sorted[n - 1].updatedAt {
      assert s in multiset(sorted[n..]);
      var k :| 0 <= k < |sorted[n..]| && sorted[n..][k] == s;
      assert sorted[n + k] == s;
    }
  }

  lemma PrefixMultiset(sorted: seq<Scenario>, n: int)
    requires 0 <= n <= |sorted|
    ensures multiset(sorted[..n]) <= multiset(sorted)
  {
    assert sorted == sorted[..n] + sorted[n..];
  }

  /** The filtered sequence is part of the collection and holds only
      matching documents. */
  lemma FilteredWithin(docs: seq<Scenario>, f: Filter)
    ensures multiset(Filtered(docs, f)) <= multiset(docs)
    ensures forall s :: s in Filtered(docs, f) ==> Matches(f, s)
  {
    FilteredCounts(docs, f);
    forall s | s in Filtered(docs, f) ensures Matches(f, s) {
      assert s in multiset(Filtered(docs, f));
    }
  }

  lemma FilteredKeeps(docs: seq<Scenario>, f: Filter, s: Scenario)
    requires Matches(f, s)
    ensures multiset(Filtered(docs, f))[s] == multiset(docs)[s]
  {
    FilteredCounts(docs, f);
  }

  /** The list is part of the sorted matching documents: all of them when
      they are 200 or fewer, else their first 200. */
  lemma ListIsPrefix(docs: seq<Scenario>, f: Filter)
    ensures var sorted := SortNewestFirst(Filtered(docs, f));
            var r := ListResult(docs, f);
            && multiset(r) <= multiset(Filtered(docs, f))
            && (|sorted| <= ListLimit ==> r == sorted)
            && (|sorted| > ListLimit ==> r == sorted[..ListLimit])
  {
    var sorted := SortNewestFirst(Filtered(docs, f));
    SortPermutes(Filtered(docs, f));
    var r := ListResult(docs, f);
    assert r == sorted[..|r|];
    PrefixMultiset(sorted, |r|);
  }

  /** The answer of GET /: 500 'Server error', or the scenarios. */
  datatype ListOutcome = ListFailed | Listed(scenarios: seq<Scenario>)

  function List(docs: seq<Scenario>, user: AuthMiddleware.User): ListOutcome {
    match ListFilter(user)
    case None => ListFailed
    case Some(f) => Listed(ListResult(docs, f))
  }

  /** The list fails iff a non-admin's id cannot be cast; otherwise it holds
      only stored documents, no copy more often than the collection has it,
      and for a non-admin only those whose owner is the cast id. */
  lemma ListMembers(docs: seq<Scenario>, user: AuthMiddleware.User)
    ensures var o := List(docs, user);
            && (o.ListFailed? <==> user.role != "admin" && user.id.Some?
                                   && !IsHexId(user.id.value) && !IsByteId(user.id.value))
            && (o.Listed? ==> multiset(o.scenarios) <= multiset(docs) && forall s :: s in o.scenarios ==> s in docs)
            && (o.Listed? && user.role != "admin" ==>
                  forall s :: s in o.scenarios ==> user.id.Some? && CastObjectId(user.id.value) == Some(s.owner))
  {
    if ListFilter(user).Some? {
      var f := ListFilter(user).value;
      var filtered := Filtered(docs, f);
      var r := ListResult(docs, f);
      ListIsPrefix(docs, f);
      FilteredWithin(docs, f);
      forall s | s in r ensures s in docs && Matches(f, s) {
        assert s in multiset(r);
        assert s in multiset(filtered);
      }
    }
  }

  /** A hex id lists the same scenarios whatever the case of its digits. */
  lemma ListIgnoresIdCase(docs: seq<Scenario>, id: string, role: string)
    requires IsHexId(id)
    ensures List(docs, AuthMiddleware.User(Some(id), role)) == List(docs, AuthMiddleware.User(Some(CanonicalId(id)), role))
  {
    CastRoundTrip(id);
  }

  /** The list is newest first and as long as the matching documents, up
      to 200. */
  lemma ListOrder(docs: seq<Scenario>, f: Filter)
    ensures var r := ListResult(docs, f);
            && NewestFirst(r)
            && |r| == (if |Filtered(docs, f)| <= ListLimit then |Filtered(docs, f)| else ListLimit)
  {
    SortedMatches(docs, f);
  }

  /** Any matching document left out of the list is no newer than the last
      one listed, and is left out only when the list is full. */
  lemma ListTopK(docs: seq<Scenario>, f: Filter)
    ensures var r := ListResult(docs, f);
            forall s :: s in docs && Matches(f, s) && multiset(r)[s] < multiset(docs)[s] ==>
              |r| == ListLimit && s.updatedAt <= r[ListLimit - 1].updatedAt
  {
    var filtered := Filtered(docs, f);
    var sorted := SortNewestFirst(filtered);
    var r := ListResult(docs, f);
    SortOrders(filtered);
    SortPermutes(filtered);
    ListIsPrefix(docs, f);
    if |sorted| > ListLimit {
      PrefixIsNewest(sorted, ListLimit);
    }
    forall s | s in docs && Matches(f, s) && multiset(r)[s] < multiset(docs)[s]
      ensures |r| == ListLimit && s.updatedAt <= r[ListLimit - 1].updatedAt
    {
      FilteredKeeps(docs, f, s);
    }
  }

  // ---------------------------------------------------------------------
  // GET /:id (routes/scenarios.js:40-56)

  /** `Scenario.findById` once the id is cast: the first document with that
      id. */
  function FirstWithId(docs: seq<Scenario>, key: string): (r: Option<Scenario>)
    ensures r.Some? ==> r.value in docs && r.value.id == key
    ensures r.None? ==> forall s :: s in docs ==> s.id != key
  {
    if docs == [] then None
    else if docs[0].id == key then Some(docs[0])
    else FirstWithId(docs[1..], key)
  }

  datatype GetOutcome =
    | InvalidId   // 400 'Invalid ID format'
    | GetFailed   // 500 'Server error': the id passed the check but does not cast
    | NotFound    // 404 'Not found'
    | Forbidden   // 403 'Forbidden'
    | Found(scenario: Scenario)

  function GetById(docs: seq<Scenario>, id: string, user: AuthMiddleware.User): GetOutcome {
    if !IsValidObjectId(id) then InvalidId
    else match CastObjectId(id)
      case None => GetFailed
      case Some(key) =>
        match FirstWithId(docs, key)
        case None => NotFound
        case Some(s) =>
          if Some(s.owner) != user.id && user.role != "admin" then Forbidden else Found(s)
  }

  /** The answers in their order: a malformed id is refused whatever the
      collection holds; 12 characters that are not all one byte pass the
      check but fail the cast; a well-formed id with no document is 404; a
      found document is refused iff the caller neither owns it (the printed
      owner against the raw id of the token) nor is an admin, and is
      otherwise returned. */
  lemma GetByIdOutcome(docs: seq<Scenario>, other: seq<Scenario>, id: string, user: AuthMiddleware.User)
    ensures var o := GetById(docs, id, user);
            && (o == InvalidId <==> !IsValidObjectId(id))
            && (!IsValidObjectId(id) ==> GetById(other, id, user) == InvalidId)
            && (o == GetFailed <==> |id| == 12 && !IsByteId(id))
            && (o == NotFound <==> CastObjectId(id).Some? && forall s :: s in docs ==> s.id != CastObjectId(id).value)
            && (o == Forbidden <==> CastObjectId(id).Some? && FirstWithId(docs, CastObjectId(id).value).Some?
                                    && Some(FirstWithId(docs, CastObjectId(id).value).value.owner) != user.id
                                    && user.role != "admin")
            && (o.Found? ==> o.scenario in docs && Some(o.scenario.id) == CastObjectId(id)
                             && (Some(o.scenario.owner) == user.id || user.role == "admin"))
  {
  }

  /** A hex id finds the same document whatever the case of its digits. A
      caller whose token carries its own id with upper-case digits is shown
      its scenario by the list but refused it by get-by-id, which compares
      the printed owner with the raw id. */
  lemma MixedCaseOwner(docs: seq<Scenario>, id: string, userId: string, s: Scenario)
    requires IsHexId(id) && IsHexId(userId) && CanonicalId(userId) != userId
    requires FirstWithId(docs, CanonicalId(id)) == Some(s) && s.owner == CanonicalId(userId)
    ensures GetById(docs, id, AuthMiddleware.User(Some(userId), "observer"))
            == GetById(docs, CanonicalId(id), AuthMiddleware.User(Some(userId), "observer"))
            == Forbidden
    ensures Matches(ListFilter(AuthMiddleware.User(Some(userId), "observer")).value, s)
  {
    CastRoundTrip(id);
    CastRoundTrip(userId);
  }

  // ---------------------------------------------------------------------
  // POST / (routes/scenarios.js:12-25)

  /** The validated body's fields the route passes on. */
  datatype ScenarioInput = ScenarioInput(title: string, description: Option<string>, steps: seq<Step>,
                                         retentionDays: Option<int>)

  datatype CreateOutcome =
    | CreateFailed            // 500 'Server error'
    | Created(scenario: Scenario)

  /** The document `Scenario.create` builds, before validation: the owner
      must cast to an ObjectId, and unset fields take the schema defaults. */
  function Draft(user: AuthMiddleware.User, input: ScenarioInput, newId: string, now: int): Option<Scenario> {
    if user.id.None? || CastObjectId(user.id.value).None? then None
    else Some(Scenario(newId, CastObjectId(user.id.value).value, input.title, input.description, input.steps,
                       if input.retentionDays.Some? then input.retentionDays else Some(DefaultRetentionDays),
                       None, now, now))
  }

  /** The answer of create: validation, then the pre-save hook, then the
      insert, which may fail. */
  function CreateResult(user: AuthMiddleware.User, input: ScenarioInput, newId: string, inserted: bool, now: int)
    : CreateOutcome
  {
    match Draft(user, input, newId, now)
    case None => CreateFailed
    case Some(d) => if ScenarioValid(d) && inserted then Created(PreSave(d, now)) else CreateFailed
  }

  /** A created scenario belongs to the caller, carries the body's fields
      and the new id, and expires its retention period after `now`; it is
      created iff the caller's id casts to an ObjectId, the document meets the
      schema and the insert succeeds. An empty title, which the scrubber
      leaves from one made only of angle brackets, always ends in 500. */
  lemma CreateOutcomeSpec(user: AuthMiddleware.User, input: ScenarioInput, newId: string, inserted: bool, now: int)
    ensures var o := CreateResult(user, input, newId, inserted, now);
            && (o.Created? <==> user.id.Some? && CastObjectId(user.id.value).Some? && inserted
                                && ScenarioValid(Draft(user, input, newId, now).value))
            && (o.Created? ==>
                  && o.scenario.id == newId
                  && Some(o.scenario.owner) == CastObjectId(user.id.value)
                  && o.scenario.title == input.title && o.scenario.steps == input.steps
                  && o.scenario.description == input.description
                  && o.scenario.createdAt == now && o.scenario.updatedAt == now
                  && o.scenario.expireAt == Some(now + OrElseDays(input.retentionDays) * DayMs)
                  && ScenarioValid(o.scenario))
            && (input.title == "" ==> o == CreateFailed)
  {
  }

  /** The retention period a body leads to: its own, or 30 days. */
  function OrElseDays(days: Option<int>): int {
    if days.Some? && days.value != 0 then days.value else DefaultRetentionDays
  }

  /** The `scenario_create` audit details: the title only. */
  function CreateDetails(input: ScenarioInput): Json {
    JObj([("title", JStr(input.title))])
  }

  /** The scenario collection. */
  class ScenarioStore {
    var docs: seq<Scenario>

    constructor ()
      ensures docs == []
    {
      docs := [];
    }

    /** POST /: on success the document is added and a `scenario_create`
        entry targeting its id is appended to the trail; on failure neither
        changes. */
    method Create(audit: AuditLog.AuditCollection, user: AuthMiddleware.User, input: ScenarioInput,
                  newId: string, inserted: bool, now: int,
                  sha: Sha256Hex, iso: AuditModel.DateJson, auditStored: bool)
      returns (o: CreateOutcome)
      modifies this, audit
      ensures o == CreateResult(user, input, newId, inserted, now)
      ensures o.Created? ==> docs == old(docs) + [o.scenario]
      ensures o.Created? ==>
                audit.entries == AuditLog.AfterAppend(old(audit.entries), user.id, "scenario_create", Some(newId),
                                                      Some(CreateDetails(input)), now, sha, iso, auditStored)
      ensures !o.Created? ==> docs == old(docs) && audit.entries == old(audit.entries)
    {
      var draft := Draft(user, input, newId, now);
      if draft.None? || !ScenarioValid(draft.value) || !inserted {
        return CreateFailed;
      }
      var doc := PreSave(draft.value, now);
      docs := docs + [doc];
      audit.AppendAudit(user.id, "scenario_create", Some(newId), Some(CreateDetails(input)), now, sha, iso, auditStored);
      o := Created(doc);
    }
  }

  /** A scenario just created is returned to its owner by get-by-id when its
      id is new and the token carries the owner's id as printed, and appears
      in the owner's list when every other document was last saved before
      `now` (the order of documents saved in the same millisecond is not
      fixed, so 200 of them can push the new one out). */
  lemma CreatedIsVisible(docs: seq<Scenario>, user: AuthMiddleware.User, input: ScenarioInput, newId: string,
                         inserted: bool, now: int)
    requires CreateResult(user, input, newId, inserted, now).Created?
    requires IsCanonicalId(newId) && user.id.Some? && IsCanonicalId(user.id.value)
    requires forall s :: s in docs ==> s.id != newId && s.updatedAt < now
    ensures var s := CreateResult(user, input, newId, inserted, now).scenario;
            && GetById(docs + [s], newId, user) == Found(s)
            && List(docs + [s], user).Listed?
            && s in List(docs + [s], user).scenarios
  {
    var s := CreateResult(user, input, newId, inserted, now).scenario;
    CanonicalIsFixed(newId);
    CanonicalIsFixed(user.id.value);
    FirstWithIdLast(docs, s, newId);
    NewestIsListed(docs, s, ListFilter(user).value);
  }

  /** A matching document newer than every other is listed. */
  lemma NewestIsListed(docs: seq<Scenario>, s: Scenario, f: Filter)
    requires Matches(f, s)
    requires forall d :: d in docs ==> d.updatedAt < s.updatedAt
    ensures s in ListResult(docs + [s], f)
  {
    var after := docs + [s];
    var r := ListResult(after, f);
    ListIsPrefix(after, f);
    FilteredWithin(after, f);
    ListTopK(after, f);
    assert s in multiset(after);
    if |r| == ListLimit {
      assert r[ListLimit - 1] in multiset(r);
      assert r[ListLimit - 1] in after;
    }
  }

  lemma {:induction false} FirstWithIdLast(docs: seq<Scenario>, s: Scenario, key: string)
    requires s.id == key && forall d :: d in docs ==> d.id != key
    ensures FirstWithId(docs + [s], key) == Some(s)
    decreases |docs|
  {
    if docs != [] {
      assert (docs + [s])[1..] == docs[1..] + [s];
      FirstWithIdLast(docs[1..], s, key);
    }
  }
}
