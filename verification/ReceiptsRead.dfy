/** Every receipt the log writes is accepted by the reader, and read as the same two documents. */
module ReceiptsRead {
  import opened Wrappers
  import opened Utf8
  import opened CanonicalJson
  import opened CanonicalDocuments
  import opened Receipts
  import opened ReceiptsSize
  import M = Membership
  import opened JsonReader

  // --- The documents repeat no key ------------------------------------------------------

  lemma PrincipalDistinct(p: M.Principal)
    ensures Distinct(PrincipalDocument(p)) && Keys(PrincipalDocument(p).fields) == {"id", "authority"}
  {
    var fields := PrincipalDocument(p).fields;
    assert |"id"| != |"authority"|;
    assert fields[0].key == "id" && fields[1].key == "authority";
  }

  lemma PermissionsDistinct(p: Option<M.Permissions>)
    ensures Distinct(PermissionsDocument(p))
  {
  }

  /** Length and first two characters tell these names apart. */
  function Mark(s: string): (nat, char, char)
    requires |s| >= 2
  {
    (|s|, s[0], s[1])
  }

  lemma RequestKeysDistinct(q: M.Request)
    ensures DistinctKeys(RequestDocument(q).fields) && Keys(RequestDocument(q).fields) == REQUEST_KEYS
  {
    hide PrincipalDocument, PermissionsDocument, ActionOf;
    var fields := RequestDocument(q).fields;
    assert Mark("action") == (6, 'a', 'c') && Mark("actor") == (5, 'a', 'c') && Mark("target") == (6, 't', 'a');
    assert Mark("permissions") == (11, 'p', 'e') && Mark("expected_revision") == (17, 'e', 'x');
    assert fields[0].key == "action" && fields[1].key == "actor" && fields[2].key == "target"
      && fields[3].key == "permissions" && fields[4].key == "expected_revision";
  }

  const RESULT_ORDER: seq<string> := [
    "target", "before", "after", "changed", "outcome", "project_id", "operation_id", "action", "actor", "revision",
      "recorded_at"
  ]

  lemma ResultOrderOnce()
    ensures forall i, j :: 0 <= i < j < |RESULT_ORDER| ==> RESULT_ORDER[i] != RESULT_ORDER[j]
  {
    assert Mark(RESULT_ORDER[0]) == (6, 't', 'a') && Mark(RESULT_ORDER[1]) == (6, 'b', 'e')
      && Mark(RESULT_ORDER[2]) == (5, 'a', 'f');
    assert Mark(RESULT_ORDER[3]) == (7, 'c', 'h') && Mark(RESULT_ORDER[4]) == (7, 'o', 'u')
      && Mark(RESULT_ORDER[5]) == (10, 'p', 'r');
    assert Mark(RESULT_ORDER[6]) == (12, 'o', 'p') && Mark(RESULT_ORDER[7]) == (6, 'a', 'c')
      && Mark(RESULT_ORDER[8]) == (5, 'a', 'c');
    assert Mark(RESULT_ORDER[9]) == (8, 'r', 'e') && Mark(RESULT_ORDER[10]) == (11, 'r', 'e');
  }

  lemma ResultInOrder(project: string, operation: string, recorded: string, q: M.Request, o: M.Outcome)
    ensures ResultDocument(project, operation, recorded, q, o).Obj?
    ensures var fields := ResultDocument(project, operation, recorded, q, o).fields;
            |fields| == |RESULT_ORDER| && forall k :: 0 <= k < |fields| ==> fields[k].key == RESULT_ORDER[k]
  {
    hide PrincipalDocument, PermissionsDocument, ActionOf;
  }

  lemma ResultKeysAre(fields: seq<Field>)
    requires |fields| == |RESULT_ORDER| && forall k :: 0 <= k < |fields| ==> fields[k].key == RESULT_ORDER[k]
    ensures Keys(fields) == RESULT_KEYS
  {
    forall k | 0 <= k < |fields| ensures fields[k].key in Keys(fields) {}
    assert fields[0].key == "target" && fields[1].key == "before" && fields[2].key == "after"
      && fields[3].key == "changed";
    assert fields[4].key == "outcome" && fields[5].key == "project_id" && fields[6].key == "operation_id";
    assert fields[7].key == "action" && fields[8].key == "actor" && fields[9].key == "revision"
      && fields[10].key == "recorded_at";
  }

  lemma ResultKeysDistinct(project: string, operation: string, recorded: string, q: M.Request, o: M.Outcome)
    ensures var fields := ResultDocument(project, operation, recorded, q, o).fields;
            DistinctKeys(fields) && Keys(fields) == RESULT_KEYS
  {
    ResultOrderOnce();
    ResultInOrder(project, operation, recorded, q, o);
    hide RESULT_ORDER, RESULT_KEYS, ResultDocument;
    ResultKeysAre(ResultDocument(project, operation, recorded, q, o).fields);
    hide Keys;
  }

  lemma RequestDistinct(q: M.Request)
    ensures Distinct(RequestDocument(q))
  {
    RequestKeysDistinct(q);
    PrincipalDistinct(q.actor);
    PrincipalDistinct(q.target);
    PermissionsDistinct(q.permissions);
    hide PrincipalDocument, PermissionsDocument, DistinctKeys, Keys;
  }

  lemma ResultDistinct(project: string, operation: string, recorded: string, q: M.Request, o: M.Outcome)
    ensures Distinct(ResultDocument(project, operation, recorded, q, o))
  {
    ResultKeysDistinct(project, operation, recorded, q, o);
    PrincipalDistinct(q.actor);
    PrincipalDistinct(q.target);
    PermissionsDistinct(o.before);
    PermissionsDistinct(o.after);
    hide PrincipalDocument, PermissionsDocument, DistinctKeys, Keys;
  }

  // --- Reading the parts back -----------------------------------------------------------

  /** A document equal to a principal's reads as that principal. */
  lemma PrincipalReads(v: Json, p: M.Principal)
    requires Distinct(v) && Equal(v, PrincipalDocument(p))
    ensures ReadPrincipal(v) == Some(p)
  {
    PrincipalDistinct(p);
    var fields := PrincipalDocument(p).fields;
    EqualFields(v.fields, fields);
    GetIs(fields, 0);
    GetIs(fields, 1);
    assert fields[0].key == "id" && fields[1].key == "authority";
    assert "id" in Keys(v.fields) && "authority" in Keys(v.fields);
    hide Keys, Get, DistinctKeys;
    EqualScalar(Get(v.fields, "id"), Str(p.id));
    EqualScalar(Get(v.fields, "authority"), Str(AuthorityName(p.authority)));
    AuthorityReads(p.authority);
  }

  lemma AuthorityReads(a: M.Authority)
    ensures AuthorityOf(AuthorityName(a)) == Some(a)
  {
    assert "local_os"[6] == 'o' && "local_service"[6] == 's' && "verified_token"[0] == 'v';
  }

  predicate Once(names: seq<string>) {
    forall i, j :: 0 <= i < j < |names| ==> names[i] != names[j]
  }

  lemma {:induction false} ListedHolds(names: seq<string>, held: M.Permissions, name: string)
    ensures name in Listed(names, held) <==> name in names && name in held
  {
    if names != [] {
      ListedHolds(names[1..], held, name);
      assert names == [names[0]] + names[1..];
    }
  }

  lemma {:induction false} ListedOnce(names: seq<string>, held: M.Permissions)
    requires Once(names)
    ensures Once(Listed(names, held))
  {
    if names != [] {
      ListedOnce(names[1..], held);
      ListedHolds(names[1..], held, names[0]);
      hide Listed;
      assert names[0] !in names[1..];
      OnceCons(names[0], Listed(names[1..], held));
      assert Listed(names, held) == (if names[0] in held then [names[0]] else []) + Listed(names[1..], held);
    }
  }

  lemma OnceCons(name: string, rest: seq<string>)
    requires Once(rest) && name !in rest
    ensures Once([name] + rest)
  {
  }

  function SetOf(names: seq<string>): set<string> {
    set name | name in names
  }

  lemma SetOfCons(names: seq<string>)
    requires names != [] && names[0] !in names[1..]
    ensures |SetOf(names)| == |SetOf(names[1..])| + 1
  {
    assert names == [names[0]] + names[1..];
    assert SetOf(names) == SetOf(names[1..]) + {names[0]};
  }

  lemma {:induction false} OnceCounts(names: seq<string>)
    requires Once(names)
    ensures |SetOf(names)| == |names|
  {
    if names != [] {
      OnceCounts(names[1..]);
      SetOfCons(names);
    }
  }

  lemma SortedPermissionsOnce()
    ensures Once(SORTED_PERMISSIONS)
    ensures forall name :: name in SORTED_PERMISSIONS <==> name in M.OWNER_PERMISSIONS
  {
    assert Mark(SORTED_PERMISSIONS[0]) == (12, 'a', 'n') && Mark(SORTED_PERMISSIONS[1]) == (16, 'a', 'p');
    assert Mark(SORTED_PERMISSIONS[2]) == (16, 'a', 'r') && Mark(SORTED_PERMISSIONS[3]) == (18, 'o', 'p');
    assert Mark(SORTED_PERMISSIONS[4]) == (15, 'p', 'o') && Mark(SORTED_PERMISSIONS[5]) == (13, 'p', 'r');
    assert Mark(SORTED_PERMISSIONS[6]) == (12, 'p', 'r') && Mark(SORTED_PERMISSIONS[7]) == (11, 's', 'o');
  }

  lemma ListedSet(names: seq<string>, held: M.Permissions)
    requires Once(names) && forall name :: name in held ==> name in names
    ensures var listed := Listed(names, held); (set name | name in listed) == held && |listed| == |held|
  {
    var listed := Listed(names, held);
    ListedOnce(names, held);
    OnceCounts(listed);
    forall name ensures name in listed <==> name in held {
      ListedHolds(names, held, name);
    }
    hide Listed, Once;
    assert SetOf(listed) == held;
  }

  /** The list of a permission set reads as that set. */
  lemma PermissionsRead(v: Json, held: M.Permissions)
    requires held <= M.OWNER_PERMISSIONS && Equal(v, PermissionsDocument(Some(held)))
    ensures v == PermissionsDocument(Some(held)) && PermissionList(v) && ReadNames(v).Some?
    ensures "project:read" in held ==> M.PermissionValues(ReadNames(v).value) == Ok(held)
  {
    var names := Listed(SORTED_PERMISSIONS, held);
    hide Equal, Listed, Texts, ReadNames, Once, Sorted;
    EqualTexts(v, names);
    NamesRead(names);
    SortedPermissionsOnce();
    hide SORTED_PERMISSIONS;
    ListedSet(SORTED_PERMISSIONS, held);
  }

  lemma NamesRead(names: seq<string>)
    ensures ReadNames(Arr(Texts(names))) == Some(names)
  {
    var read := ReadNames(Arr(Texts(names))).value;
    assert |read| == |names| && forall k :: 0 <= k < |names| ==> read[k] == names[k];
    assert read == names;
  }

  lemma OptionalRead(v: Json, p: Option<M.Permissions>)
    requires M.Held(p) <= M.OWNER_PERMISSIONS && Equal(v, PermissionsDocument(p))
    ensures v == PermissionsDocument(p) && PermissionList(v)
  {
    if p.Some? {
      PermissionsRead(v, p.value);
    } else {
      EqualScalar(v, Null);
    }
  }

  // --- The round trip -------------------------------------------------------------------

  /** What is asked of the JSON library: it reads stored text back, up to the order of fields. */
  ghost predicate LoadsText(load: string -> Option<Json>) {
    forall v :: Distinct(v) ==>
      load(StoredText(v)).Some? && Distinct(load(StoredText(v)).value) && Same(v, load(StoredText(v)).value)
  }

  /** A reader of RFC 8259 is such a library. */
  lemma ReaderLoads()
    ensures LoadsText(text => ReadJson(text))
  {
    hide Distinct, Same, StoredText, ReadJson;
    forall v | Distinct(v)
      ensures ReadJson(StoredText(v)).Some? && Distinct(ReadJson(StoredText(v)).value)
      ensures Same(v, ReadJson(StoredText(v)).value)
    {
      StoredReads(v);
    }
  }

  /** Reading stored text gives the same document, with its fields in order. */
  lemma StoredReads(v: Json)
    requires Distinct(v)
    ensures ReadJson(StoredText(v)) == Some(Sorted(v)) && Distinct(Sorted(v)) && Same(v, Sorted(v))
    ensures Ascends(Sorted(v))
  {
    hide Distinct, Same, Sorted, Write, ReadJson, Ascends;
    SortedSame(v);
    ReadWritten(Sorted(v), true);
  }

  lemma LoadedEqual(load: string -> Option<Json>, v: Json)
    requires LoadsText(load) && Distinct(v)
    ensures load(StoredText(v)).Some?
    ensures var w := load(StoredText(v)).value; Distinct(w) && Equal(w, v) && StoredText(w) == StoredText(v)
  {
    SortedIffSame(v, load(StoredText(v)).value);
    hide Same, Distinct, Sorted, Write;
  }

  /** The named part of a loaded document is equal to the part that was stored. */
  lemma PartEqual(v: Json, fields: seq<Field>, i: nat, key: string, value: Json)
    requires Distinct(v) && v.Obj? && DistinctKeys(fields) && Equal(v, Obj(fields)) && i < |fields|
    requires fields[i] == Field(key, value)
    ensures Equal(Get(v.fields, key), value) && Distinct(Get(v.fields, key))
  {
    EqualFields(v.fields, fields);
    GetIs(fields, i);
    GetDistinct(v.fields, key);
  }

  lemma ScalarEqual(v: Json, fields: seq<Field>, i: nat, key: string, value: Json)
    requires Distinct(v) && v.Obj? && DistinctKeys(fields) && Equal(v, Obj(fields)) && i < |fields|
    requires fields[i] == Field(key, value)
    requires value.Null? || value.Bool? || value.Int? || value.Str?
    ensures Get(v.fields, key) == value
  {
    PartEqual(v, fields, i, key, value);
    EqualScalar(Get(v.fields, key), value);
  }

  /** The parts of a loaded request. */
  lemma LoadedRequest(d: Json, q: M.Request)
    requires Distinct(d) && Equal(d, RequestDocument(q))
    ensures d.Obj? && Keys(d.fields) == REQUEST_KEYS
    ensures Equal(Get(d.fields, "target"), PrincipalDocument(q.target)) && Distinct(Get(d.fields, "target"))
    ensures Equal(Get(d.fields, "permissions"), PermissionsDocument(q.permissions))
    ensures Get(d.fields, "expected_revision") == Int(q.expectedRevision)
  {
    hide *;
    RequestFieldsAre(q);
    RequestKeysDistinct(q);
    var fields := RequestDocument(q).fields;
    LoadedShape(d, fields, REQUEST_KEYS);
    PartEqual(d, fields, 2, "target", PrincipalDocument(q.target));
    PartEqual(d, fields, 3, "permissions", PermissionsDocument(q.permissions));
    ScalarEqual(d, fields, 4, "expected_revision", Int(q.expectedRevision));
  }

  lemma RequestFieldsAre(q: M.Request)
    ensures RequestDocument(q).Obj? && RequestDocument(q) == Obj(RequestDocument(q).fields)
    ensures |RequestDocument(q).fields| == 5
    ensures RequestDocument(q).fields[2] == Field("target", PrincipalDocument(q.target))
    ensures RequestDocument(q).fields[3] == Field("permissions", PermissionsDocument(q.permissions))
    ensures RequestDocument(q).fields[4] == Field("expected_revision", Int(q.expectedRevision))
  {
    hide PrincipalDocument, PermissionsDocument, ActionOf;
  }

  lemma RequestReads(row: Stored, d: Json, q: M.Request)
    requires Distinct(d) && Equal(d, RequestDocument(q)) && M.WellFormed(q) && M.CanonicalUuid(row.operation)
    requires row.action == ActionOf(q) && row.actor == q.actor
    ensures Rebuilt(row, d) == Some(q)
  {
    LoadedRequest(d, q);
    PrincipalReads(Get(d.fields, "target"), q.target);
    if q.permissions.Some? {
      PermissionsRead(Get(d.fields, "permissions"), q.permissions.value);
    }
    hide Keys, Get, RequestDocument, PermissionsDocument, PrincipalDocument, ReadNames, ReadPrincipal, Distinct, Sorted;
    RequestAgain(row.operation, q, ReadNames(Get(d.fields, "permissions")));
    ActionsDiffer();
    hide M.ValidPrincipal, M.CanonicalUuid, M.PermissionValues, M.WellFormed, M.MembershipRequest;
  }

  /** Checking a well-formed request again gives the same request. */
  lemma RequestAgain(operation: string, q: M.Request, names: Option<seq<string>>)
    requires M.WellFormed(q) && M.CanonicalUuid(operation)
    requires q.permissions.Some? ==> names.Some? && M.PermissionValues(names.value) == Ok(q.permissions.value)
    ensures var values := if q.permissions.Some? then Some(names.value) else None;
            M.MembershipRequest(q.actor, M.Change(q.target, values, Some(operation), Some(q.expectedRevision))) == Ok(q)
  {
    hide M.ValidPrincipal, M.CanonicalUuid, M.PermissionValues;
  }

  lemma ActionsDiffer()
    ensures "membership.set" != "membership.revoke"
  {
    assert |"membership.set"| != |"membership.revoke"|;
  }

  /** Equal permission documents belong to equal permissions. */
  lemma PermissionsInjective(p: Option<M.Permissions>, r: Option<M.Permissions>)
    requires M.Held(p) <= M.OWNER_PERMISSIONS && M.Held(r) <= M.OWNER_PERMISSIONS
    ensures Equal(PermissionsDocument(p), PermissionsDocument(r)) <==> p == r
  {
    if Equal(PermissionsDocument(p), PermissionsDocument(r)) {
      OptionalRead(PermissionsDocument(p), r);
      if p.Some? {
        SortedPermissionsOnce();
        hide SORTED_PERMISSIONS, M.OWNER_PERMISSIONS, Listed, Once, Equal;
        ListedSet(SORTED_PERMISSIONS, p.value);
        ListedSet(SORTED_PERMISSIONS, r.value);
        NamesRead(Listed(SORTED_PERMISSIONS, p.value));
        NamesRead(Listed(SORTED_PERMISSIONS, r.value));
        hide Texts, ReadNames;
      }
    }
  }

  lemma ResultFieldsAre(project: string, operation: string, recorded: string, q: M.Request, o: M.Outcome)
    ensures var d := ResultDocument(project, operation, recorded, q, o);
      && d.Obj? && d == Obj(d.fields) && |d.fields| == 11
      && d.fields[0] == Field("target", PrincipalDocument(q.target))
      && d.fields[1] == Field("before", PermissionsDocument(o.before))
      && d.fields[2] == Field("after", PermissionsDocument(o.after)) && d.fields[3] == Field("changed", Bool(o.changed))
      && d.fields[4] == Field("outcome", Str("committed")) && d.fields[5] == Field("project_id", Str(project))
      && d.fields[6] == Field("operation_id", Str(operation)) && d.fields[7] == Field("action", Str(ActionOf(q)))
      && d.fields[8] == Field("actor", PrincipalDocument(q.actor))
      && d.fields[9] == Field("revision", Int(o.revision)) && d.fields[10] == Field("recorded_at", Str(recorded))
  {
    hide PrincipalDocument, PermissionsDocument, ActionOf;
  }

  lemma LoadedShape(d: Json, fields: seq<Field>, keys: set<string>)
    requires Distinct(d) && Equal(d, Obj(fields)) && DistinctKeys(fields) && Keys(fields) == keys
    ensures d.Obj? && Keys(d.fields) == keys
  {
    EqualFields(d.fields, fields);
  }

  /** The parts of a loaded result that repeat the row. */
  lemma LoadedNames(d: Json, project: string, operation: string, recorded: string, q: M.Request, o: M.Outcome)
    requires Distinct(d) && Equal(d, ResultDocument(project, operation, recorded, q, o))
    ensures d.Obj? && Keys(d.fields) == RESULT_KEYS
    ensures Get(d.fields, "outcome") == Str("committed") && Get(d.fields, "project_id") == Str(project)
    ensures Get(d.fields, "operation_id") == Str(operation) && Get(d.fields, "action") == Str(ActionOf(q))
    ensures Get(d.fields, "revision") == Int(o.revision) && Get(d.fields, "recorded_at") == Str(recorded)
  {
    hide *;
    ResultFieldsAre(project, operation, recorded, q, o);
    ResultKeysDistinct(project, operation, recorded, q, o);
    var fields := ResultDocument(project, operation, recorded, q, o).fields;
    LoadedShape(d, fields, RESULT_KEYS);
    ScalarEqual(d, fields, 4, "outcome", Str("committed"));
    ScalarEqual(d, fields, 5, "project_id", Str(project));
    ScalarEqual(d, fields, 6, "operation_id", Str(operation));
    ScalarEqual(d, fields, 7, "action", Str(ActionOf(q)));
    ScalarEqual(d, fields, 9, "revision", Int(o.revision));
    ScalarEqual(d, fields, 10, "recorded_at", Str(recorded));
  }

  /** The parts of a loaded result that describe the change. */
  lemma LoadedChange(d: Json, project: string, operation: string, recorded: string, q: M.Request, o: M.Outcome)
    requires Distinct(d) && Equal(d, ResultDocument(project, operation, recorded, q, o))
    ensures d.Obj? && Get(d.fields, "changed") == Bool(o.changed)
    ensures Equal(Get(d.fields, "target"), PrincipalDocument(q.target))
    ensures Equal(Get(d.fields, "actor"), PrincipalDocument(q.actor))
    ensures Equal(Get(d.fields, "before"), PermissionsDocument(o.before))
    ensures Equal(Get(d.fields, "after"), PermissionsDocument(o.after))
  {
    hide *;
    ResultFieldsAre(project, operation, recorded, q, o);
    ResultKeysDistinct(project, operation, recorded, q, o);
    var fields := ResultDocument(project, operation, recorded, q, o).fields;
    LoadedShape(d, fields, RESULT_KEYS);
    PartEqual(d, fields, 0, "target", PrincipalDocument(q.target));
    PartEqual(d, fields, 1, "before", PermissionsDocument(o.before));
    PartEqual(d, fields, 2, "after", PermissionsDocument(o.after));
    PartEqual(d, fields, 8, "actor", PrincipalDocument(q.actor));
    ScalarEqual(d, fields, 3, "changed", Bool(o.changed));
  }

  /** What the log guarantees of a row. */
  ghost predicate Consistent(row: M.Row) {
    var (q, o) := (row.request, row.outcome);
    && M.WellFormed(q) && M.CanonicalUuid(row.operation) && M.Held(o.before) <= M.OWNER_PERMISSIONS
    && o.after == q.permissions && o.changed == (o.before != o.after) && o.revision == q.expectedRevision + 1
  }

  lemma ChangeReads(request: Json, result: Json, q: M.Request, o: M.Outcome)
    requires request.Obj? && result.Obj?
    requires M.Held(o.before) <= M.OWNER_PERMISSIONS && M.Held(o.after) <= M.OWNER_PERMISSIONS
    requires o.after == q.permissions && o.changed == (o.before != o.after)
    requires Equal(Get(request.fields, "permissions"), PermissionsDocument(q.permissions))
    requires Equal(Get(result.fields, "before"), PermissionsDocument(o.before))
    requires Equal(Get(result.fields, "after"), PermissionsDocument(o.after))
    requires Get(result.fields, "changed") == Bool(o.changed)
    ensures PermissionList(Get(result.fields, "before"))
    ensures Equal(Get(result.fields, "after"), Get(request.fields, "permissions"))
    ensures Get(result.fields, "changed").Bool?
    ensures Get(result.fields, "changed").b == !Equal(Get(result.fields, "before"), Get(result.fields, "after"))
  {
    OptionalRead(Get(result.fields, "before"), o.before);
    OptionalRead(Get(result.fields, "after"), o.after);
    PermissionsInjective(o.before, o.after);
    hide Get, PermissionsDocument, PermissionList, Sorted;
  }

  lemma StoredParts(project: string, recorded: string, row: M.Row)
    ensures var stored := RecordAction(project, recorded, row);
      && stored.operation == row.operation && stored.action == ActionOf(row.request) && stored.recorded == recorded
      && stored.actor == row.request.actor && stored.sequence == row.outcome.revision && stored.version == 1
      && stored.requestText == StoredText(RequestDocument(row.request))
      && stored.resultText == StoredText(ResultDocument(project, row.operation, recorded, row.request, row.outcome))
  {
  }

  lemma ConsistentParts(row: M.Row)
    requires Consistent(row)
    ensures M.WellFormed(row.request) && M.CanonicalUuid(row.operation)
    ensures M.Held(row.outcome.before) <= M.OWNER_PERMISSIONS && M.Held(row.outcome.after) <= M.OWNER_PERMISSIONS
    ensures row.outcome.after == row.request.permissions
    ensures row.outcome.changed == (row.outcome.before != row.outcome.after)
    ensures row.outcome.revision == row.request.expectedRevision + 1 && 1 <= row.outcome.revision < INTEGER_LIMIT
    ensures M.ValidPrincipal(row.request.actor)
  {
  }

  lemma ResultReads(project: string, recorded: string, row: M.Row, request: Json, result: Json)
    requires Consistent(row)
    requires Distinct(request) && Equal(request, RequestDocument(row.request))
    requires Distinct(result)
    requires Equal(result, ResultDocument(project, row.operation, recorded, row.request, row.outcome))
    ensures request.Obj? && ResultBound(project, RecordAction(project, recorded, row), request, result)
  {
    hide *;
    var q, o := row.request, row.outcome;
    ConsistentParts(row);
    LoadedRequest(request, q);
    LoadedNames(result, project, row.operation, recorded, q, o);
    LoadedChange(result, project, row.operation, recorded, q, o);
    ChangeReads(request, result, q, o);
    StoredParts(project, recorded, row);
    SamePrincipal(Get(result.fields, "target"), Get(request.fields, "target"), PrincipalDocument(q.target));
    BoundFromParts(project, RecordAction(project, recorded, row), request, result);
  }

  lemma SamePrincipal(v: Json, w: Json, p: Json)
    requires Equal(v, p) && Equal(w, p)
    ensures Equal(v, w)
  {
  }

  lemma BoundFromParts(project: string, row: Stored, request: Json, result: Json)
    requires request.Obj? && result.Obj? && Keys(result.fields) == RESULT_KEYS
    requires PermissionList(Get(result.fields, "before"))
    requires Equal(Get(result.fields, "after"), Get(request.fields, "permissions"))
    requires Get(result.fields, "changed").Bool?
    requires Get(result.fields, "changed").b == !Equal(Get(result.fields, "before"), Get(result.fields, "after"))
    requires Equal(Get(result.fields, "target"), Get(request.fields, "target"))
    requires Get(result.fields, "outcome") == Str("committed") && Get(result.fields, "project_id") == Str(project)
    requires Get(result.fields, "operation_id") == Str(row.operation) && Get(result.fields, "action") == Str(row.action)
    requires Equal(Get(result.fields, "actor"), PrincipalDocument(row.actor))
    requires Get(result.fields, "revision") == Int(row.sequence)
    requires Get(result.fields, "recorded_at") == Str(row.recorded)
    ensures ResultBound(project, row, request, result)
  {
    hide Equal, Get, Keys, PermissionList, PrincipalDocument, RESULT_KEYS;
  }

  lemma RequestBoundRead(project: string, recorded: string, row: M.Row, request: Json)
    requires Consistent(row) && Distinct(request) && Equal(request, RequestDocument(row.request))
    ensures RequestBound(RecordAction(project, recorded, row), request)
  {
    ConsistentParts(row);
    StoredParts(project, recorded, row);
    hide Consistent, RecordAction, RequestDocument, M.WellFormed, M.ValidPrincipal, M.CanonicalUuid, Distinct, Sorted;
    hide Rebuilt;
    RequestReads(RecordAction(project, recorded, row), request, row.request);
  }

  /** Every consistent receipt is accepted by the reader, which returns documents equal to the recorded ones. */
  lemma RecordedIsRead(load: string -> Option<Json>, zoned: string -> bool, project: string, recorded: string,
                       row: M.Row)
    requires LoadsText(load) && Consistent(row) && M.CanonicalUuid(project)
    requires zoned(recorded) && |recorded| <= 32 && NoDelete(recorded)
    ensures var read := DecodeAction(load, zoned, project, RecordAction(project, recorded, row));
      && read.Some?
      && Equal(read.value.0, RequestDocument(row.request))
      && Equal(read.value.1, ResultDocument(project, row.operation, recorded, row.request, row.outcome))
  {
    hide *;
    var stored := RecordAction(project, recorded, row);
    var q, o := RequestDocument(row.request),
      ResultDocument(project, row.operation, recorded, row.request, row.outcome);
    ConsistentParts(row);
    StoredParts(project, recorded, row);
    ReceiptsFit(project, recorded, row);
    RequestDistinct(row.request);
    ResultDistinct(project, row.operation, recorded, row.request, row.outcome);
    LoadedEqual(load, q);
    LoadedEqual(load, o);
    RequestBoundRead(project, recorded, row, load(stored.requestText).value);
    ResultReads(project, recorded, row, load(stored.requestText).value, load(stored.resultText).value);
    AcceptedFromParts(load, zoned, project, stored);
  }

  lemma AcceptedFromParts(load: string -> Option<Json>, zoned: string -> bool, project: string, row: Stored)
    requires M.CanonicalUuid(row.operation) && row.version == 1 && 1 <= row.sequence < INTEGER_LIMIT
    requires |Encode(row.requestText)| <= READ_LIMIT && |Encode(row.resultText)| <= READ_LIMIT
    requires load(row.requestText).Some? && load(row.resultText).Some?
    requires StoredText(load(row.requestText).value) == row.requestText
    requires StoredText(load(row.resultText).value) == row.resultText
    requires exists q :: row.action == ActionOf(q)
    requires M.ValidPrincipal(row.actor) && zoned(row.recorded)
    requires RequestBound(row, load(row.requestText).value) && load(row.requestText).value.Obj?
    requires ResultBound(project, row, load(row.requestText).value, load(row.resultText).value)
    ensures DecodeAction(load, zoned, project, row) == Some((load(row.requestText).value, load(row.resultText).value))
  {
    hide M.CanonicalUuid, Encode, StoredText, M.ValidPrincipal, RequestBound, ResultBound;
  }

  ghost predicate Known(members: M.Members) {
    forall p :: p in members ==> members[p] <= M.OWNER_PERMISSIONS
  }

  lemma {:induction false} FoldKnown(founders: M.Members, receipts: map<nat, M.Row>, n: nat)
    requires Known(founders) && forall k :: k in receipts ==> M.WellFormed(receipts[k].request)
    ensures Known(M.Fold(founders, receipts, n))
  {
    hide M.ValidPrincipal;
    if n > 0 {
      FoldKnown(founders, receipts, n - 1);
    }
  }

  /** The reader can take every row of an audited log: none of them ever reads as corrupt. */
  lemma LogIsReadable(s: M.State, founders: M.Members, k: nat)
    requires M.Audited(s, founders) && Known(founders) && k in s.receipts
    ensures Consistent(s.receipts[k])
  {
    hide M.WellFormed, M.CanonicalUuid, M.Fold, M.Distinct, M.Admins;
    forall j | j in s.receipts ensures M.WellFormed(s.receipts[j].request) {
      assert M.Truthful(founders, s.receipts, j);
    }
    FoldKnown(founders, s.receipts, k - 1);
    assert M.Truthful(founders, s.receipts, k);
  }
}
