/** Stored receipts always fit the reader's limit: in ASCII a document without DEL takes at most three times
    its UTF-8 form, and a membership document holds two bounded principals and little else. */
module ReceiptsSize {
  import opened Wrappers
  import opened Utf8
  import opened CanonicalJson
  import opened CanonicalDocuments
  import opened Receipts
  import M = Membership

  // --- ASCII form against UTF-8 form ----------------------------------------------------

  predicate NoDelete(s: string) {
    forall k :: 0 <= k < |s| ==> s[k] as int != 127
  }

  /** DEL stands in no text and no key of the document. */
  predicate DeleteFree(v: Json)
    decreases v
  {
    match v
    case Str(s) => NoDelete(s)
    case Arr(items) => forall k :: 0 <= k < |items| ==> DeleteFree(items[k])
    case Obj(fields) => forall k :: 0 <= k < |fields| ==> NoDelete(fields[k].key) && DeleteFree(fields[k].value)
    case _ => true
  }

  lemma CharSizeTriples(c: char)
    requires c as int != 127
    ensures |EscapeChar(c, true)| <= 3 * CharSize(c)
  {
  }

  lemma {:induction false} TextTriples(s: string)
    requires NoDelete(s)
    ensures |Escape(s, true)| + 6 <= 3 * TextSize(s)
  {
    if s != [] {
      CharSizeTriples(s[0]);
      TextTriples(s[1..]);
      hide EscapeChar, CharSize;
    }
  }

  lemma {:induction false} WriteTriples(v: Json)
    requires DeleteFree(v)
    ensures ManifestSize(v).Some? && |Write(v, true)| <= 3 * ManifestSize(v).value
    decreases v, 1
  {
    hide TextSize, Escape, ManifestItemsSize, ManifestFieldsSize, WriteItems, WriteFields;
    match v
    case Str(s) => TextTriples(s);
    case Arr(items) => ItemsTriple(items);
    case Obj(fields) => FieldsTriple(fields);
    case _ =>
  }

  lemma {:induction false} ItemsTriple(items: seq<Json>)
    requires forall k :: 0 <= k < |items| ==> DeleteFree(items[k])
    ensures ManifestItemsSize(items).Some?
    ensures |WriteItems(items, true)| <= 3 * (ManifestItemsSize(items).value + if |items| > 1 then |items| - 1 else 0)
    decreases items, 0
  {
    if items != [] {
      hide Write, ManifestSize, DeleteFree;
      WriteTriples(items[0]);
      ItemsTriple(items[1..]);
    }
  }

  lemma {:induction false} FieldsTriple(fields: seq<Field>)
    requires forall k :: 0 <= k < |fields| ==> NoDelete(fields[k].key) && DeleteFree(fields[k].value)
    ensures ManifestFieldsSize(fields).Some?
    ensures |WriteFields(fields,
      true)| <= 3 * (ManifestFieldsSize(fields).value + if |fields| > 1 then |fields| - 1 else 0)
    decreases fields, 0
  {
    if fields != [] {
      hide Write, ManifestSize, DeleteFree, NoDelete, Escape, TextSize;
      TextTriples(fields[0].key);
      WriteTriples(fields[0].value);
      FieldsTriple(fields[1..]);
    }
  }

  lemma {:induction false} SortedDeleteFree(v: Json)
    requires DeleteFree(v)
    ensures DeleteFree(Sorted(v))
    decreases v
  {
    match v
    case Arr(items) =>
      SortedItemsAre(items);
      forall k | 0 <= k < |items| ensures DeleteFree(SortedItems(items)[k]) {
        SortedDeleteFree(items[k]);
      }
    case Obj(fields) =>
      SortedFieldsHold(fields);
      var sorted := SortedFields(fields);
      forall k | 0 <= k < |sorted| ensures NoDelete(sorted[k].key) && DeleteFree(sorted[k].value) {
        assert sorted[k] in multiset(SortedValues(fields));
        var i :| 0 <= i < |fields| && SortedValues(fields)[i] == sorted[k];
        SortedDeleteFree(fields[i].value);
      }
    case _ =>
  }

  // --- The ASCII form is ASCII ----------------------------------------------------------

  lemma DigitAscii(d: nat)
    requires d < 16
    ensures Digit(d) as int < 0x80
  {
  }

  lemma UnitAscii(x: nat)
    requires x < 0x10000
    ensures Ascii(Unit(x))
  {
    DigitAscii(x / 4096);
    DigitAscii(x / 256 % 16);
    DigitAscii(x / 16 % 16);
    DigitAscii(x % 16);
    hide Digit;
  }

  lemma CharAscii(c: char)
    ensures Ascii(EscapeChar(c, true))
  {
    hide Unit;
    var x := c as int;
    if x < 0x10000 {
      UnitAscii(x);
    } else {
      UnitAscii(0xD800 + (x - 0x10000) / 0x400);
      UnitAscii(0xDC00 + (x - 0x10000) % 0x400);
    }
  }

  lemma {:induction false} EscapeAscii(s: string)
    ensures Ascii(Escape(s, true))
  {
    if s != [] {
      CharAscii(s[0]);
      EscapeAscii(s[1..]);
      hide EscapeChar;
    }
  }

  lemma {:induction false} WriteAscii(v: Json)
    ensures Ascii(Write(v, true))
    decreases v, 1
  {
    hide Escape, WriteItems, WriteFields, Decimal;
    match v
    case Int(n) => DecimalAscii(if n < 0 then -n else n);
    case Str(s) => EscapeAscii(s);
    case Arr(items) => ItemsAscii(items);
    case Obj(fields) => FieldsAscii(fields);
    case _ =>
  }

  lemma {:induction false} ItemsAscii(items: seq<Json>)
    ensures Ascii(WriteItems(items, true))
    decreases items, 0
  {
    if items != [] {
      hide Write;
      WriteAscii(items[0]);
      ItemsAscii(items[1..]);
    }
  }

  lemma {:induction false} FieldsAscii(fields: seq<Field>)
    ensures Ascii(WriteFields(fields, true))
    decreases fields, 0
  {
    if fields != [] {
      hide Write, Escape;
      EscapeAscii(fields[0].key);
      WriteAscii(fields[0].value);
      FieldsAscii(fields[1..]);
    }
  }

  /** The stored bytes of a document without DEL are at most three times its canonical UTF-8 bytes. */
  lemma StoredTriples(v: Json)
    requires DeleteFree(v)
    ensures |Encode(StoredText(v))| == |StoredText(v)| <= 3 * |CanonicalBytes(v)|
  {
    hide Encode, Write, Sorted, ManifestSize, CanonicalBytes;
    WriteAscii(Sorted(v));
    AsciiBytes(StoredText(v));
    SortedDeleteFree(v);
    WriteTriples(Sorted(v));
    SortedKeepsSize(v);
    ManifestSizeExact(v);
  }

  // --- How large a membership document gets ---------------------------------------------

  /** At most `size` bytes of canonical UTF-8. */
  predicate AtMost(v: Json, size: nat) {
    ManifestSize(v).Some? && ManifestSize(v).value <= size
  }

  /** At most `size` bytes for the fields themselves, each with a separator. */
  predicate FieldsAtMost(fields: seq<Field>, size: nat) {
    ManifestFieldsSize(fields).Some? && ManifestFieldsSize(fields).value + |fields| <= size
  }

  /** A field, its colon and its separator. */
  predicate FieldFits(f: Field, limit: nat, rest: nat) {
    FieldSize(f).Some? && FieldSize(f).value + 1 + rest <= limit
  }

  lemma OneField(key: string, length: nat, value: Json, size: nat, limit: nat, rest: nat)
    requires |key| <= length && AtMost(value, size) && 6 * length + 4 + size + rest <= limit
    ensures FieldFits(Field(key, value), limit, rest)
  {
    TextAtMost(key);
    hide ManifestSize;
  }

  /** `limits[k]` bounds the fields from `k` on. */
  lemma {:induction false} FieldsWithin(fields: seq<Field>, limits: seq<nat>, k: nat)
    requires |limits| == |fields| + 1 && k <= |fields|
    requires forall i :: 0 <= i < |fields| ==> FieldFits(fields[i], limits[i], limits[i + 1])
    ensures FieldsAtMost(fields[k..], limits[k])
    decreases |fields| - k
  {
    if k < |fields| {
      FieldsWithin(fields, limits, k + 1);
      assert FieldFits(fields[k], limits[k], limits[k + 1]);
      assert fields[k..][1..] == fields[k + 1..];
      hide ManifestSize;
    }
  }

  lemma ObjectWithin(fields: seq<Field>, limits: seq<nat>)
    requires |limits| == |fields| + 1
    requires forall i :: 0 <= i < |fields| ==> FieldFits(fields[i], limits[i], limits[i + 1])
    ensures AtMost(Obj(fields), limits[0] + 2)
  {
    FieldsWithin(fields, limits, 0);
    assert fields[0..] == fields;
    hide FieldFits;
  }

  lemma {:induction false} TextAtMost(s: string)
    ensures 2 <= TextSize(s) <= 6 * |s| + 2
  {
    if s != [] {
      TextAtMost(s[1..]);
    }
  }

  lemma {:induction false} PlainAtMost(s: string)
    requires Plain(s)
    ensures TextSize(s) <= 2 * |Encode(s)| + 2
  {
    if s != [] {
      PlainAtMost(s[1..]);
      assert CharSize(s[0]) <= 2 * |EncodeChar(s[0])|;
      hide CharSize, EncodeChar;
    }
  }

  lemma PrincipalParts(p: M.Principal)
    requires M.ValidPrincipal(p)
    ensures AtMost(Str(p.id), 8194) && AtMost(Str(AuthorityName(p.authority)), 86)
  {
    ShortTextAtMost(AuthorityName(p.authority), 14);
    PlainAtMost(p.id);
  }

  lemma PrincipalFits(p: M.Principal)
    requires AtMost(Str(p.id), 8194) && AtMost(Str(AuthorityName(p.authority)), 86)
    ensures AtMost(PrincipalDocument(p), 8392)
  {
    hide AtMost, FieldFits, AuthorityName;
    OneField("id", 2, Str(p.id), 8194, 8390, 180);
    OneField("authority", 9, Str(AuthorityName(p.authority)), 86, 180, 0);
    ObjectWithin(PrincipalDocument(p).fields, [8390, 180, 0]);
  }

  lemma PrincipalAtMost(p: M.Principal)
    requires M.ValidPrincipal(p)
    ensures AtMost(PrincipalDocument(p), 8392)
  {
    hide *;
    PrincipalParts(p);
    PrincipalFits(p);
  }

  lemma PrincipalDeleteFree(p: M.Principal)
    requires M.ValidPrincipal(p)
    ensures DeleteFree(PrincipalDocument(p))
  {
    hide Encode;
  }

  lemma {:induction false} TextsAtMost(names: seq<string>)
    requires forall k :: 0 <= k < |names| ==> |names[k]| <= 18
    ensures var size := ManifestItemsSize(Texts(names)); size.Some? && size.value <= 110 * |names|
  {
    if names != [] {
      TextsAtMost(names[1..]);
      TextAtMost(names[0]);
      assert Texts(names)[1..] == Texts(names[1..]);
      hide TextSize;
    }
  }

  lemma {:induction false} ListedFrom(names: seq<string>, held: M.Permissions)
    requires forall k :: 0 <= k < |names| ==> |names[k]| <= 18 && NoDelete(names[k])
    ensures |Listed(names, held)| <= |names|
    ensures forall k :: 0 <= k < |Listed(names, held)| ==>
      |Listed(names, held)[k]| <= 18 && NoDelete(Listed(names, held)[k])
  {
    if names != [] {
      ListedFrom(names[1..], held);
    }
  }

  lemma PermissionsAtMost(p: Option<M.Permissions>)
    ensures AtMost(PermissionsDocument(p), 900)
  {
    if p.Some? {
      ListedFrom(SORTED_PERMISSIONS, p.value);
      TextsAtMost(Listed(SORTED_PERMISSIONS, p.value));
      hide Listed, NoDelete;
    }
  }

  lemma PermissionsDeleteFree(p: Option<M.Permissions>)
    ensures DeleteFree(PermissionsDocument(p))
  {
    if p.Some? {
      ListedFrom(SORTED_PERMISSIONS, p.value);
      hide Listed, NoDelete;
    }
  }

  lemma {:induction false} DecimalLength(n: nat, digits: nat)
    requires n < Power10(digits) && digits > 0
    ensures |Decimal(n)| <= digits
  {
    if n >= 10 {
      DecimalLength(n / 10, digits - 1);
    }
  }

  function Power10(digits: nat): nat {
    if digits == 0 then 1 else 10 * Power10(digits - 1)
  }

  /** A 63-bit number takes at most nineteen digits. */
  lemma NumberAtMost(n: nat)
    requires n < INTEGER_LIMIT
    ensures AtMost(Int(n), 19)
  {
    assert Power10(4) == 10000;
    assert Power10(8) == 100000000;
    assert Power10(12) == 1000000000000;
    assert Power10(16) == 10000000000000000;
    assert Power10(19) == 10000000000000000000;
    DecimalLength(n, 19);
  }

  lemma ShortTextAtMost(s: string, length: nat)
    requires |s| <= length
    ensures AtMost(Str(s), 6 * length + 2)
  {
    TextAtMost(s);
  }

  lemma RequestParts(q: M.Request)
    requires M.WellFormed(q)
    ensures AtMost(Str(ActionOf(q)), 104) && AtMost(Int(q.expectedRevision), 19)
    ensures M.ValidPrincipal(q.actor) && M.ValidPrincipal(q.target)
  {
    ShortTextAtMost(ActionOf(q), 17);
    NumberAtMost(q.expectedRevision);
  }

  lemma RequestFits(q: M.Request)
    requires AtMost(Str(ActionOf(q)), 104) && AtMost(Int(q.expectedRevision), 19)
    requires AtMost(PrincipalDocument(q.actor), 8392) && AtMost(PrincipalDocument(q.target), 8392)
    requires AtMost(PermissionsDocument(q.permissions), 900)
    ensures AtMost(RequestDocument(q), 18099)
  {
    hide AtMost, FieldFits, PermissionsDocument, PrincipalDocument, ActionOf;
    OneField("action", 6, Str(ActionOf(q)), 104, 18097, 17953);
    OneField("actor", 5, PrincipalDocument(q.actor), 8392, 17953, 9527);
    OneField("target", 6, PrincipalDocument(q.target), 8392, 9527, 1095);
    OneField("permissions", 11, PermissionsDocument(q.permissions), 900, 1095, 125);
    OneField("expected_revision", 17, Int(q.expectedRevision), 19, 125, 0);
    ObjectWithin(RequestDocument(q).fields, [18097, 17953, 9527, 1095, 125, 0]);
  }

  lemma RequestAtMost(q: M.Request)
    requires M.WellFormed(q)
    ensures AtMost(RequestDocument(q), 18099)
  {
    hide *;
    RequestParts(q);
    PrincipalAtMost(q.actor);
    PrincipalAtMost(q.target);
    PermissionsAtMost(q.permissions);
    RequestFits(q);
  }

  lemma ResultParts(project: string, operation: string, recorded: string, q: M.Request, o: M.Outcome)
    requires M.CanonicalUuid(project) && M.CanonicalUuid(operation) && |recorded| <= 32 && o.revision < INTEGER_LIMIT
    ensures AtMost(Str(project), 218) && AtMost(Str(operation), 218) && AtMost(Str(recorded), 194)
    ensures AtMost(Str("committed"), 56) && AtMost(Bool(o.changed), 5) && AtMost(Int(o.revision), 19)
  {
    assert |project| == |operation| == 36;
    assert AtMost(Bool(o.changed), 5);
    hide AtMost, M.CanonicalUuid;
    ShortTextAtMost(project, 36);
    ShortTextAtMost(operation, 36);
    ShortTextAtMost(recorded, 32);
    ShortTextAtMost("committed", 9);
    NumberAtMost(o.revision);
  }

  lemma ResultFits(project: string, operation: string, recorded: string, q: M.Request, o: M.Outcome)
    requires AtMost(Str(project), 218) && AtMost(Str(operation), 218) && AtMost(Str(recorded), 194)
    requires AtMost(Str("committed"), 56) && AtMost(Bool(o.changed), 5) && AtMost(Int(o.revision), 19)
    requires AtMost(Str(ActionOf(q)), 104)
    requires AtMost(PrincipalDocument(q.actor), 8392) && AtMost(PrincipalDocument(q.target), 8392)
    requires AtMost(PermissionsDocument(o.before), 900) && AtMost(PermissionsDocument(o.after), 900)
    ensures AtMost(ResultDocument(project, operation, recorded, q, o), 19942)
  {
    hide AtMost, FieldFits, PermissionsDocument, PrincipalDocument, ActionOf;
    OneField("target", 6, PrincipalDocument(q.target), 8392, 19940, 11508);
    OneField("before", 6, PermissionsDocument(o.before), 900, 11508, 10568);
    OneField("after", 5, PermissionsDocument(o.after), 900, 10568, 9634);
    OneField("changed", 7, Bool(o.changed), 5, 9634, 9583);
    OneField("outcome", 7, Str("committed"), 56, 9583, 9481);
    OneField("project_id", 10, Str(project), 218, 9481, 9199);
    OneField("operation_id", 12, Str(operation), 218, 9199, 8905);
    OneField("action", 6, Str(ActionOf(q)), 104, 8905, 8761);
    OneField("actor", 5, PrincipalDocument(q.actor), 8392, 8761, 335);
    OneField("revision", 8, Int(o.revision), 19, 335, 264);
    OneField("recorded_at", 11, Str(recorded), 194, 264, 0);
    ObjectWithin(
      ResultDocument(project, operation, recorded, q, o).fields,
      [19940, 11508, 10568, 9634, 9583, 9481, 9199, 8905, 8761, 335, 264, 0]);
  }

  lemma ResultAtMost(project: string, operation: string, recorded: string, q: M.Request, o: M.Outcome)
    requires M.WellFormed(q)
    requires M.CanonicalUuid(project) && M.CanonicalUuid(operation) && |recorded| <= 32 && o.revision < INTEGER_LIMIT
    ensures AtMost(ResultDocument(project, operation, recorded, q, o), 19942)
  {
    hide *;
    ResultParts(project, operation, recorded, q, o);
    RequestParts(q);
    PrincipalAtMost(q.actor);
    PrincipalAtMost(q.target);
    PermissionsAtMost(o.before);
    PermissionsAtMost(o.after);
    ResultFits(project, operation, recorded, q, o);
  }

  predicate Clean(f: Field) {
    NoDelete(f.key) && DeleteFree(f.value)
  }

  lemma CleanObject(fields: seq<Field>)
    requires forall k :: 0 <= k < |fields| ==> Clean(fields[k])
    ensures DeleteFree(Obj(fields))
  {
    hide NoDelete;
    forall k | 0 <= k < |fields| ensures NoDelete(fields[k].key) && DeleteFree(fields[k].value) {
      assert Clean(fields[k]);
    }
  }

  lemma CleanField(key: string, value: Json)
    requires NoDelete(key) && DeleteFree(value)
    ensures Clean(Field(key, value))
  {
  }

  lemma RequestDeleteFree(q: M.Request)
    requires M.WellFormed(q)
    ensures DeleteFree(RequestDocument(q))
  {
    assert NoDelete("action") && NoDelete("actor") && NoDelete("target") && NoDelete("permissions")
      && NoDelete("expected_revision");
    assert DeleteFree(Str(ActionOf(q))) && DeleteFree(Int(q.expectedRevision));
    assert M.ValidPrincipal(q.actor) && M.ValidPrincipal(q.target);
    PrincipalDeleteFree(q.actor);
    PrincipalDeleteFree(q.target);
    PermissionsDeleteFree(q.permissions);
    CleanRequest(q) by {
      hide *;
    }
  }

  lemma CleanRequest(q: M.Request)
    requires NoDelete("action") && NoDelete("actor") && NoDelete("target") && NoDelete("permissions")
    requires NoDelete("expected_revision")
    requires DeleteFree(Str(ActionOf(q))) && DeleteFree(Int(q.expectedRevision))
    requires DeleteFree(PrincipalDocument(q.actor)) && DeleteFree(PrincipalDocument(q.target))
    requires DeleteFree(PermissionsDocument(q.permissions))
    ensures DeleteFree(RequestDocument(q))
  {
    hide NoDelete, DeleteFree, Clean, PrincipalDocument, PermissionsDocument, ActionOf;
    CleanField("action", Str(ActionOf(q)));
    CleanField("actor", PrincipalDocument(q.actor));
    CleanField("target", PrincipalDocument(q.target));
    CleanField("permissions", PermissionsDocument(q.permissions));
    CleanField("expected_revision", Int(q.expectedRevision));
    CleanObject(RequestDocument(q).fields);
  }

  lemma ResultDeleteFree(project: string, operation: string, recorded: string, q: M.Request, o: M.Outcome)
    requires M.WellFormed(q) && M.CanonicalUuid(project) && M.CanonicalUuid(operation) && NoDelete(recorded)
    ensures DeleteFree(ResultDocument(project, operation, recorded, q, o))
  {
    ResultNames();
    assert DeleteFree(Str(project)) && DeleteFree(Str(operation)) && DeleteFree(Str(recorded))
      && DeleteFree(Str(ActionOf(q)));
    assert DeleteFree(Int(o.revision)) && DeleteFree(Bool(o.changed)) && DeleteFree(Str("committed"));
    assert M.ValidPrincipal(q.actor) && M.ValidPrincipal(q.target);
    PrincipalDeleteFree(q.actor);
    PrincipalDeleteFree(q.target);
    PermissionsDeleteFree(o.before);
    PermissionsDeleteFree(o.after);
    CleanResult(project, operation, recorded, q, o) by {
      hide *;
    }
  }

  ghost predicate CleanNames() {
    && NoDelete("target") && NoDelete("before") && NoDelete("after") && NoDelete("changed") && NoDelete("outcome")
    && NoDelete("project_id") && NoDelete("operation_id") && NoDelete("action") && NoDelete("actor")
    && NoDelete("revision") && NoDelete("recorded_at")
  }

  lemma ResultNames()
    ensures CleanNames()
  {
  }

  lemma CleanResult(project: string, operation: string, recorded: string, q: M.Request, o: M.Outcome)
    requires CleanNames() && DeleteFree(Str(project)) && DeleteFree(Str(operation)) && DeleteFree(Str(recorded))
    requires DeleteFree(Str(ActionOf(q))) && DeleteFree(Int(o.revision)) && DeleteFree(Bool(o.changed))
    requires DeleteFree(Str("committed"))
    requires DeleteFree(PrincipalDocument(q.actor)) && DeleteFree(PrincipalDocument(q.target))
    requires DeleteFree(PermissionsDocument(o.before)) && DeleteFree(PermissionsDocument(o.after))
    ensures DeleteFree(ResultDocument(project, operation, recorded, q, o))
  {
    hide NoDelete, DeleteFree, Clean, PrincipalDocument, PermissionsDocument, ActionOf;
    CleanField("target", PrincipalDocument(q.target));
    CleanField("before", PermissionsDocument(o.before));
    CleanField("after", PermissionsDocument(o.after));
    CleanField("changed", Bool(o.changed));
    CleanField("outcome", Str("committed"));
    CleanField("project_id", Str(project));
    CleanField("operation_id", Str(operation));
    CleanField("action", Str(ActionOf(q)));
    CleanField("actor", PrincipalDocument(q.actor));
    CleanField("revision", Int(o.revision));
    CleanField("recorded_at", Str(recorded));
    CleanObject(ResultDocument(project, operation, recorded, q, o).fields);
  }

  lemma StoredAtMost(v: Json, size: nat)
    requires AtMost(v, size) && DeleteFree(v)
    ensures |Encode(StoredText(v))| <= 3 * size
  {
    hide DeleteFree, StoredText, CanonicalBytes;
    StoredTriples(v);
    ManifestSizeExact(v);
  }

  /** Both documents of every well-formed change fit the reader's limit. */
  lemma ReceiptsFit(project: string, recorded: string, row: M.Row)
    requires M.WellFormed(row.request) && row.outcome.revision < INTEGER_LIMIT
    requires M.CanonicalUuid(project) && M.CanonicalUuid(row.operation) && |recorded| <= 32 && NoDelete(recorded)
    ensures |Encode(RecordAction(project, recorded, row).requestText)| <= READ_LIMIT
    ensures |Encode(RecordAction(project, recorded, row).resultText)| <= READ_LIMIT
  {
    hide M.WellFormed, M.CanonicalUuid, NoDelete, Encode, StoredText, RequestDocument, ResultDocument;
    RequestAtMost(row.request);
    RequestDeleteFree(row.request);
    StoredAtMost(RequestDocument(row.request), 18099);
    ResultAtMost(project, row.operation, recorded, row.request, row.outcome);
    ResultDeleteFree(project, row.operation, recorded, row.request, row.outcome);
    StoredAtMost(ResultDocument(project, row.operation, recorded, row.request, row.outcome), 19942);
  }
}
