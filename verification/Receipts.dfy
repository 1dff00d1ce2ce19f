/** Membership receipts as stored: two canonical ASCII documents per row. Whatever the log records can be
    read back, by a reader that bounds, re-canonicalizes and cross-checks every field. */
module Receipts {
  import opened Wrappers
  import opened Utf8
  import opened CanonicalJson
  import opened CanonicalDocuments
  import M = Membership

  const READ_LIMIT: nat := 65536

  function StoredText(v: Json): string {
    Write(Sorted(v), true)
  }

  // --- ASCII escaping expands at most threefold -----------------------------------------

  /** No control characters: neither those that JSON escapes anyway, nor DEL, which only ASCII escaping does. */
  predicate Plain(s: string) {
    forall k :: 0 <= k < |s| ==> s[k] as int >= 32 && s[k] as int != 127
  }

  lemma CharTriples(c: char)
    requires c as int >= 32 && c as int != 127
    ensures |EscapeChar(c, true)| <= 3 * |EncodeChar(c)|
  {
  }

  lemma {:induction false} EscapeTriples(s: string)
    requires Plain(s)
    ensures |Escape(s, true)| <= 3 * |Encode(s)|
  {
    if s != [] {
      EscapeTriples(s[1..]);
      CharTriples(s[0]);
      hide EscapeChar, EncodeChar;
    }
  }

  /** DEL at every position shows that the exclusion matters: sixfold. */
  lemma DeleteEscapesSixfold()
    ensures |EscapeChar(127 as char, true)| == 6 * |EncodeChar(127 as char)|
  {
  }

  // --- Documents ------------------------------------------------------------------------

  function AuthorityName(a: M.Authority): string {
    match a
    case LocalOs => "local_os"
    case VerifiedToken => "verified_token"
    case LocalService => "local_service"
  }

  function PrincipalDocument(p: M.Principal): Json {
    Obj([Field("id", Str(p.id)), Field("authority", Str(AuthorityName(p.authority)))])
  }

  const SORTED_PERMISSIONS: seq<string> := [
    "analysis:run", "approvals:decide", "artifacts:export", "operations:execute",
    "policies:decide", "project:admin", "project:read", "source:edit"
  ]

  /** The names among `names` that are held, in the same order. */
  function Listed(names: seq<string>, held: M.Permissions): seq<string> {
    if names == [] then []
    else (if names[0] in held then [names[0]] else []) + Listed(names[1..], held)
  }

  function Texts(names: seq<string>): seq<Json> {
    seq(|names|, k requires 0 <= k < |names| => Str(names[k]))
  }

  function PermissionsDocument(p: Option<M.Permissions>): Json {
    if p.None? then Null else Arr(Texts(Listed(SORTED_PERMISSIONS, p.value)))
  }

  function ActionOf(q: M.Request): string {
    if q.permissions.Some? then "membership.set" else "membership.revoke"
  }

  function RequestDocument(q: M.Request): Json {
    Obj([
      Field("action", Str(ActionOf(q))),
      Field("actor", PrincipalDocument(q.actor)),
      Field("target", PrincipalDocument(q.target)),
      Field("permissions", PermissionsDocument(q.permissions)),
      Field("expected_revision", Int(q.expectedRevision))
    ])
  }

  function ResultDocument(project: string, operation: string, recorded: string, q: M.Request, o: M.Outcome): Json {
    Obj([
      Field("target", PrincipalDocument(q.target)),
      Field("before", PermissionsDocument(o.before)),
      Field("after", PermissionsDocument(o.after)),
      Field("changed", Bool(o.changed)),
      Field("outcome", Str("committed")),
      Field("project_id", Str(project)),
      Field("operation_id", Str(operation)),
      Field("action", Str(ActionOf(q))),
      Field("actor", PrincipalDocument(q.actor)),
      Field("revision", Int(o.revision)),
      Field("recorded_at", Str(recorded))
    ])
  }

  datatype Stored = Stored(
    sequence: int, operation: string, action: string, version: int, actor: M.Principal, recorded: string,
    requestText: string, resultText: string)

  /** The row written for a change. */
  function RecordAction(project: string, recorded: string, row: M.Row): Stored {
    Stored(
      row.outcome.revision, row.operation, ActionOf(row.request), 1, row.request.actor, recorded,
      StoredText(RequestDocument(row.request)),
      StoredText(ResultDocument(project, row.operation, recorded, row.request, row.outcome)))
  }

  // --- Reading a row --------------------------------------------------------------------

  /** Equality of documents; see CanonicalDocuments.SortedIffSame. */
  predicate Equal(v: Json, w: Json) {
    Sorted(v) == Sorted(w)
  }

  function AuthorityOf(name: string): Option<M.Authority> {
    if name == "local_os" then Some(M.LocalOs)
    else if name == "verified_token" then Some(M.VerifiedToken)
    else if name == "local_service" then Some(M.LocalService)
    else None
  }

  function ReadPrincipal(v: Json): Option<M.Principal> {
    if !v.Obj? || Keys(v.fields) != {"id", "authority"} then None
    else
      var id, authority := Get(v.fields, "id"), Get(v.fields, "authority");
      if !id.Str? || !authority.Str? || AuthorityOf(authority.s) == None then None
      else Some(M.Principal(id.s, AuthorityOf(authority.s).value))
  }

  function ReadNames(v: Json): Option<seq<string>> {
    if !v.Arr? || exists k :: 0 <= k < |v.items| && !v.items[k].Str? then None
    else Some(seq(|v.items|, k requires 0 <= k < |v.items| && v.items[k].Str? => v.items[k].s))
  }

  const REQUEST_KEYS := {"action", "actor", "target", "permissions", "expected_revision"}

  const RESULT_KEYS := {
    "project_id", "operation_id", "action", "actor", "target", "before", "after", "changed", "revision", "recorded_at",
      "outcome"
  }

  /** The request that the stored one must be equal to: rebuilt from its own target, permissions and revision. */
  function Rebuilt(row: Stored, request: Json): Option<M.Request> {
    if !request.Obj? || Keys(request.fields) != REQUEST_KEYS then None
    else
      var target := ReadPrincipal(Get(request.fields, "target"));
      var names := ReadNames(Get(request.fields, "permissions"));
      var revision := Get(request.fields, "expected_revision");
      if target == None || !revision.Int? || (row.action == "membership.set" && names == None) then None
      else
        var values := if row.action == "membership.set" then Some(names.value) else None;
        var rebuilt :=
          M.MembershipRequest(row.actor, M.Change(target.value, values, Some(row.operation), Some(revision.n)));
        if rebuilt.Ok? then Some(rebuilt.value) else None
  }

  predicate RequestBound(row: Stored, request: Json) {
    var q := Rebuilt(row, request);
    && q.Some? && Equal(request, RequestDocument(q.value))
    && q.value.expectedRevision + 1 == row.sequence
  }

  /** Absent, or a sorted list of distinct known permissions. */
  predicate PermissionList(v: Json) {
    v == Null ||
    (ReadNames(v).Some? &&
     var held := set name | name in ReadNames(v).value;
     held <= M.OWNER_PERMISSIONS && v == PermissionsDocument(Some(held)))
  }

  predicate ResultBound(project: string, row: Stored, request: Json, result: Json)
    requires request.Obj?
  {
    result.Obj? && Keys(result.fields) == RESULT_KEYS &&
    var before, after, changed :=
      Get(result.fields, "before"), Get(result.fields, "after"), Get(result.fields, "changed");
    && PermissionList(before)
    && Equal(after, Get(request.fields, "permissions"))
    && changed.Bool? && changed.b == !Equal(before, after)
    && Equal(Get(result.fields, "target"), Get(request.fields, "target"))
    && Get(result.fields, "outcome") == Str("committed")
    && Get(result.fields, "project_id") == Str(project)
    && Get(result.fields, "operation_id") == Str(row.operation)
    && Get(result.fields, "action") == Str(row.action)
    && Equal(Get(result.fields, "actor"), PrincipalDocument(row.actor))
    && Get(result.fields, "revision") == Int(row.sequence)
    && Get(result.fields, "recorded_at") == Str(row.recorded)
  }

  /** Both documents of a row, if every check passes; `zoned` says which timestamps carry an offset. */
  function DecodeAction(load: string -> Option<Json>, zoned: string -> bool, project: string,
                        row: Stored): Option<(Json, Json)> {
    if !M.CanonicalUuid(row.operation) || row.version != 1 || !(1 <= row.sequence < INTEGER_LIMIT) then None
    else if |Encode(row.requestText)| > READ_LIMIT || |Encode(row.resultText)| > READ_LIMIT then None
    else
      var request, result := load(row.requestText), load(row.resultText);
      if request == None || result == None then None
      else if StoredText(request.value) != row.requestText || StoredText(result.value) != row.resultText then None
      else if row.action !in {"membership.set", "membership.revoke"} then None
      else if !M.ValidPrincipal(row.actor) || !zoned(row.recorded) then None
      else if !RequestBound(row, request.value) || !ResultBound(project, row, request.value, result.value) then None
      else Some((request.value, result.value))
  }

  // --- Fields of equal documents --------------------------------------------------------

  /** Equal objects have the same keys, and equal values under them. */
  lemma EqualFields(a: seq<Field>, b: seq<Field>)
    requires DistinctKeys(a) && DistinctKeys(b) && Equal(Obj(a), Obj(b))
    ensures Keys(a) == Keys(b)
    ensures forall key :: key in Keys(a) ==> Equal(Get(a, key), Get(b, key))
  {
    SortedFieldsHold(a);
    SortedFieldsHold(b);
    KeysInto(a, b);
    KeysInto(b, a);
    forall key | key in Keys(a) ensures Equal(Get(a, key), Get(b, key)) {
      var i :| 0 <= i < |a| && a[i].key == key;
      var k := MappedInto(a, b, i);
      GetIs(a, i);
      GetIs(b, k);
      assert SortedValues(a)[i].value == SortedValues(b)[k].value;
    }
  }

  /** Scalars, and lists of texts, are equal only to themselves. */
  lemma EqualScalar(v: Json, w: Json)
    requires Equal(v, w) && (w.Null? || w.Bool? || w.Int? || w.Str?)
    ensures v == w
  {
  }

  lemma EqualTexts(v: Json, names: seq<string>)
    requires Equal(v, Arr(Texts(names)))
    ensures v == Arr(Texts(names))
  {
    SortedItemsAre(v.items);
    SortedItemsAre(Texts(names));
    assert |v.items| == |names|;
    forall k | 0 <= k < |names| ensures v.items[k] == Str(names[k]) {
      assert Sorted(v.items[k]) == Sorted(Texts(names)[k]);
    }
  }
}
