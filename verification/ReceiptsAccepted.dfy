/** The converse of reading receipts: whatever row the reader accepts is the row that is recorded for some receipt. */
module ReceiptsAccepted {
  import opened Wrappers
  import opened Utf8
  import opened CanonicalJson
  import opened CanonicalDocuments
  import opened Receipts
  import opened ReceiptsRead
  import M = Membership

  lemma EqualIffSame(v: Json, w: Json)
    requires Distinct(v) && Distinct(w)
    ensures Equal(v, w) <==> Same(v, w)
  {
    SortedIffSame(v, w);
    hide Distinct, Same, Sorted;
  }

  /** The request that an accepted row stands for. */
  lemma RequestAccepted(row: Stored, request: Json) returns (q: M.Request)
    requires RequestBound(row, request) && row.action in {"membership.set", "membership.revoke"}
    ensures Rebuilt(row, request) == Some(q) && Equal(request, RequestDocument(q))
    ensures q.actor == row.actor && q.expectedRevision + 1 == row.sequence && ActionOf(q) == row.action
    ensures M.WellFormed(q) && M.CanonicalUuid(row.operation)
  {
    ActionsDiffer();
    q := Rebuilt(row, request).value;
    hide Equal, M.CanonicalUuid, M.ValidPrincipal, RequestDocument, Keys, ReadPrincipal;
    var target := ReadPrincipal(Get(request.fields, "target"));
    var names := ReadNames(Get(request.fields, "permissions"));
    hide ReadNames, Get;
    var values := if row.action == "membership.set" then Some(names.value) else None;
    RequestedIs(row.actor, M.Change(target.value, values, Some(row.operation),
      Some(Get(request.fields, "expected_revision").n)), q);
  }

  lemma RequestedIs(actor: M.Principal, c: M.Change, q: M.Request)
    requires M.MembershipRequest(actor, c) == Ok(q) && c.operation.Some?
    ensures q.actor == actor && (q.permissions.Some? <==> c.values.Some?) && M.WellFormed(q)
    ensures M.CanonicalUuid(c.operation.value)
  {
    hide M.CanonicalUuid, M.ValidPrincipal;
  }

  /** The permissions that a list stands for. */
  function Stands(v: Json): Option<M.Permissions> {
    if v == Null || ReadNames(v) == None then None else Some(set name | name in ReadNames(v).value)
  }

  lemma ListStands(v: Json)
    requires PermissionList(v)
    ensures v == PermissionsDocument(Stands(v)) && M.Held(Stands(v)) <= M.OWNER_PERMISSIONS
  {
    hide PermissionsDocument, ReadNames, M.OWNER_PERMISSIONS;
    NullStands();
  }

  lemma NullStands()
    ensures PermissionsDocument(None) == Null && M.Held(None) == {}
  {
  }

  lemma RequestParts(request: Json, q: M.Request)
    requires Distinct(request) && Equal(request, RequestDocument(q))
    ensures request.Obj? && Distinct(Get(request.fields, "target")) && Distinct(Get(request.fields, "permissions"))
    ensures Equal(Get(request.fields, "target"), PrincipalDocument(q.target))
    ensures Equal(Get(request.fields, "permissions"), PermissionsDocument(q.permissions))
  {
    hide *;
    LoadedRequest(request, q);
    ObjectParts(request);
    GetDistinct(request.fields, "permissions");
  }

  lemma ObjectParts(v: Json)
    requires Distinct(v) && v.Obj?
    ensures DistinctKeys(v.fields) && forall k :: 0 <= k < |v.fields| ==> Distinct(v.fields[k].value)
  {
  }

  /** What an accepted result says of its parts. */
  lemma BoundParts(project: string, row: Stored, request: Json, result: Json, q: M.Request, o: M.Outcome)
    requires request.Obj? && row.sequence >= 0 && ResultBound(project, row, request, result)
    requires ActionOf(q) == row.action && q.actor == row.actor
    requires Equal(Get(request.fields, "target"), PrincipalDocument(q.target))
    requires Equal(Get(request.fields, "permissions"), PermissionsDocument(q.permissions))
    requires M.Held(q.permissions) <= M.OWNER_PERMISSIONS
    requires o == M.Outcome(Stands(Get(result.fields, "before")), q.permissions,
      Stands(Get(result.fields, "before")) != q.permissions, row.sequence)
    ensures result.Obj? && Keys(result.fields) == RESULT_KEYS
    ensures Equal(Get(result.fields, "target"), PrincipalDocument(q.target))
    ensures Equal(Get(result.fields, "before"), PermissionsDocument(o.before))
    ensures Equal(Get(result.fields, "after"), PermissionsDocument(o.after))
    ensures Get(result.fields, "changed") == Bool(o.changed) && Get(result.fields, "outcome") == Str("committed")
    ensures Get(result.fields, "project_id") == Str(project) && Get(result.fields, "operation_id") == Str(row.operation)
    ensures Get(result.fields, "action") == Str(ActionOf(q))
    ensures Equal(Get(result.fields, "actor"), PrincipalDocument(q.actor))
    ensures Get(result.fields, "revision") == Int(o.revision) && Get(result.fields, "recorded_at") == Str(row.recorded)
    ensures M.Held(o.before) <= M.OWNER_PERMISSIONS
  {
    ListStands(Get(result.fields, "before"));
    PermissionsInjective(o.before, o.after);
    hide Get, Keys, RESULT_KEYS, PrincipalDocument, PermissionsDocument, Sorted, Stands, PermissionList, ActionOf;
    hide M.OWNER_PERMISSIONS, M.Held;
  }

  lemma SameAt(result: Json, i: nat, f: seq<Field>)
    requires result.Obj? && DistinctKeys(result.fields) && i < |f|
    requires forall k :: 0 <= k < |result.fields| ==> Distinct(result.fields[k].value)
    requires Distinct(f[i].value) && Equal(Get(result.fields, f[i].key), f[i].value)
    ensures Same(Get(result.fields, f[i].key), f[i].value)
  {
    hide Distinct, Same, Equal, Get, DistinctKeys;
    GetDistinct(result.fields, f[i].key);
    EqualIffSame(Get(result.fields, f[i].key), f[i].value);
  }

  lemma ScalarsEqual(v: Json, w: Json)
    requires v == w
    ensures Equal(v, w)
  {
  }

  lemma PartsDistinct(project: string, operation: string, recorded: string, q: M.Request, o: M.Outcome)
    ensures var d := ResultDocument(project, operation, recorded, q, o);
      d.Obj? && Distinct(d) && forall k :: 0 <= k < |d.fields| ==> Distinct(d.fields[k].value)
  {
    hide *;
    ResultDistinct(project, operation, recorded, q, o);
    ResultFieldsAre(project, operation, recorded, q, o);
    ObjectParts(ResultDocument(project, operation, recorded, q, o));
  }

  /** An accepted result is the document of an outcome. */
  lemma ResultAccepted(project: string, row: Stored, request: Json, result: Json, q: M.Request, o: M.Outcome)
    requires Distinct(request) && Distinct(result) && Equal(request, RequestDocument(q)) && M.WellFormed(q)
    requires request.Obj? && row.sequence >= 0 && ResultBound(project, row, request, result)
    requires ActionOf(q) == row.action && q.actor == row.actor && result.Obj?
    requires o == M.Outcome(Stands(Get(result.fields, "before")), q.permissions,
      Stands(Get(result.fields, "before")) != q.permissions, row.sequence)
    ensures Equal(result, ResultDocument(project, row.operation, row.recorded, q, o))
    ensures M.Held(o.before) <= M.OWNER_PERMISSIONS
  {
    hide *;
    RequestParts(request, q);
    GrantedKnown(q);
    BoundParts(project, row, request, result, q, o);
    ObjectParts(result);
    var d := ResultDocument(project, row.operation, row.recorded, q, o);
    ResultFieldsAre(project, row.operation, row.recorded, q, o);
    var f := d.fields;
    ResultKeysDistinct(project, row.operation, row.recorded, q, o);
    PartsDistinct(project, row.operation, row.recorded, q, o);
    ScalarsEqual(Bool(o.changed), Bool(o.changed));
    ScalarsEqual(Str("committed"), Str("committed"));
    ScalarsEqual(Str(project), Str(project));
    ScalarsEqual(Str(row.operation), Str(row.operation));
    ScalarsEqual(Str(ActionOf(q)), Str(ActionOf(q)));
    ScalarsEqual(Int(o.revision), Int(o.revision));
    ScalarsEqual(Str(row.recorded), Str(row.recorded));
    forall i | 0 <= i < |f| ensures Same(Get(result.fields, f[i].key), f[i].value) {
      SameAt(result, i, f);
    }
    ObjectIs(result.fields, f);
    EqualIffSame(result, d);
  }

  lemma GrantedKnown(q: M.Request)
    requires M.WellFormed(q)
    ensures M.Held(q.permissions) <= M.OWNER_PERMISSIONS
  {
    hide M.ValidPrincipal;
  }

  lemma AcceptedParts(load: string -> Option<Json>, zoned: string -> bool, project: string, row: Stored)
    requires DecodeAction(load, zoned, project, row).Some?
    ensures var (request, result) := DecodeAction(load, zoned, project, row).value;
      && load(row.requestText) == Some(request) && load(row.resultText) == Some(result)
      && M.CanonicalUuid(row.operation) && row.version == 1 && 1 <= row.sequence < 0x8000_0000_0000_0000
      && |Encode(row.requestText)| <= 65536 && |Encode(row.resultText)| <= 65536
      && StoredText(request) == row.requestText && StoredText(result) == row.resultText
      && row.action in {"membership.set", "membership.revoke"} && zoned(row.recorded)
      && RequestBound(row, request) && request.Obj? && ResultBound(project, row, request, result)
  {
    hide M.CanonicalUuid, Encode, StoredText, M.ValidPrincipal, ResultBound, Rebuilt;
  }

  /** Whatever row the reader accepts, from a library that builds no object with a repeated key, is what is recorded
      for a receipt of the log, within the limits of the reader. */
  lemma AcceptedIsRecorded(load: string -> Option<Json>, zoned: string -> bool, project: string, row: Stored)
    returns (receipt: M.Row)
    requires DecodeAction(load, zoned, project, row).Some?
    requires forall text :: load(text).Some? ==> Distinct(load(text).value)
    ensures Consistent(receipt) && row == RecordAction(project, row.recorded, receipt) && zoned(row.recorded)
    ensures row.sequence < 0x8000_0000_0000_0000
    ensures |Encode(row.requestText)| <= 65536 && |Encode(row.resultText)| <= 65536
  {
    hide *;
    AcceptedParts(load, zoned, project, row);
    var (request, result) := DecodeAction(load, zoned, project, row).value;
    var q := RequestAccepted(row, request);
    ResultIsObject(project, row, request, result);
    var before := Stands(Get(result.fields, "before"));
    var o := M.Outcome(before, q.permissions, before != q.permissions, row.sequence);
    ResultAccepted(project, row, request, result, q, o);
    receipt := M.Row(row.operation, q, o);
    EqualText(request, RequestDocument(q));
    EqualText(result, ResultDocument(project, row.operation, row.recorded, q, o));
    StoredParts(project, row.recorded, receipt);
    ConsistentFrom(receipt);
  }

  lemma ResultIsObject(project: string, row: Stored, request: Json, result: Json)
    requires request.Obj? && ResultBound(project, row, request, result)
    ensures result.Obj?
  {
  }

  lemma EqualText(v: Json, w: Json)
    requires Equal(v, w)
    ensures StoredText(v) == StoredText(w)
  {
  }

  lemma ConsistentFrom(row: M.Row)
    requires var (q, o) := (row.request, row.outcome);
      && M.WellFormed(q) && M.CanonicalUuid(row.operation) && M.Held(o.before) <= M.OWNER_PERMISSIONS
      && o.after == q.permissions && o.changed == (o.before != o.after) && o.revision == q.expectedRevision + 1
    ensures Consistent(row)
  {
    hide M.WellFormed, M.CanonicalUuid;
  }
}
