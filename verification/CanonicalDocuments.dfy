/** Documents as the program sees them: objects without repeated keys, equal when they hold equal values
    under the same keys. The canonical bytes are one name per document, and only that name is accepted
    when a stored document is read back. */
module CanonicalDocuments {
  import opened Wrappers
  import opened Utf8
  import opened CanonicalJson
  import opened TextOrder
  import opened JsonReader
  import CanonicalUnique
  import U = Utf8

  function Keys(fields: seq<Field>): set<string> {
    set k | 0 <= k < |fields| :: fields[k].key
  }

  predicate DistinctKeys(fields: seq<Field>) {
    forall i, j :: 0 <= i < j < |fields| ==> fields[i].key != fields[j].key
  }

  /** No object in the value repeats a key. */
  predicate Distinct(v: Json)
    decreases v
  {
    match v
    case Arr(items) => forall k :: 0 <= k < |items| ==> Distinct(items[k])
    case Obj(fields) => DistinctKeys(fields) && forall k :: 0 <= k < |fields| ==> Distinct(fields[k].value)
    case _ => true
  }

  /** Equality of documents: the order of the fields does not matter, the order of items does. */
  ghost predicate Same(v: Json, w: Json)
    decreases v
  {
    match v
    case Arr(items) => w.Arr? && |items| == |w.items| && forall k :: 0 <= k < |items| ==> Same(items[k], w.items[k])
    case Obj(fields) =>
      && w.Obj? && Keys(fields) == Keys(w.fields)
      && forall i, j :: 0 <= i < |fields| && 0 <= j < |w.fields| && fields[i].key == w.fields[j].key ==>
           Same(fields[i].value, w.fields[j].value)
    case _ => v == w
  }

  // --- The order of keys ----------------------------------------------------------------

  predicate Ordered(fields: seq<Field>) {
    forall i, j :: 0 <= i < j < |fields| ==> Less(fields[i].key, fields[j].key)
  }

  lemma InsertKeepsFields(f: Field, fields: seq<Field>)
    ensures multiset(InsertField(f, fields)) == multiset{f} + multiset(fields)
  {
    if fields != [] && !Less(f.key, fields[0].key) {
      InsertKeepsFields(f, fields[1..]);
      assert fields == [fields[0]] + fields[1..];
    }
  }

  lemma {:induction false} InsertOrdered(f: Field, fields: seq<Field>)
    requires Ordered(fields) && f.key !in Keys(fields)
    ensures Ordered(InsertField(f, fields))
  {
    if fields == [] {
    } else if Less(f.key, fields[0].key) {
      forall j | 1 <= j < |fields| ensures Less(f.key, fields[j].key) {
        LessTransitive(f.key, fields[0].key, fields[j].key);
      }
    } else {
      assert fields[0].key in Keys(fields);
      LessOrder(f.key, fields[0].key);
      forall k | k in Keys(fields[1..]) ensures k in Keys(fields) {
        var j :| 0 <= j < |fields[1..]| && fields[1..][j].key == k;
        assert fields[j + 1].key == k;
      }
      InsertOrdered(f, fields[1..]);
      HeadFirst(f, fields);
    }
  }

  lemma HeadFirst(f: Field, fields: seq<Field>)
    requires fields != [] && Ordered(fields) && Less(fields[0].key, f.key) && Ordered(InsertField(f, fields[1..]))
    ensures Ordered([fields[0]] + InsertField(f, fields[1..]))
  {
    var rest := InsertField(f, fields[1..]);
    InsertKeepsFields(f, fields[1..]);
    forall j | 0 <= j < |rest| ensures Less(fields[0].key, rest[j].key) {
      assert rest[j] in multiset(rest);
      assert rest[j] == f || rest[j] in fields[1..];
    }
  }

  lemma SameHead(a: seq<Field>, b: seq<Field>)
    requires a != [] && b != [] && Ordered(a) && Ordered(b) && a[0] in b && b[0] in a
    ensures a[0] == b[0]
  {
    var i :| 0 <= i < |b| && b[i] == a[0];
    var j :| 0 <= j < |a| && a[j] == b[0];
    if i > 0 && j > 0 {
      LessTransitive(a[0].key, b[0].key, a[0].key);
      LessOrder(a[0].key, a[0].key);
    }
  }

  lemma HeadAndTail(a: seq<Field>)
    requires a != [] && Ordered(a)
    ensures a == [a[0]] + a[1..] && Ordered(a[1..]) && multiset(a) == multiset{a[0]} + multiset(a[1..])
  {
    hide Less;
    assert a == [a[0]] + a[1..];
  }

  lemma SameHeads(a: seq<Field>, b: seq<Field>)
    requires a != [] && Ordered(a) && Ordered(b) && multiset(a) == multiset(b)
    ensures b != [] && a[0] == b[0]
  {
    hide Less, Ordered;
    assert a[0] in multiset(b);
    assert b[0] in multiset(a);
    SameHead(a, b);
  }

  /** An ordered list of fields is determined by what it holds. */
  lemma {:induction false} OrderedUnique(a: seq<Field>, b: seq<Field>)
    requires Ordered(a) && Ordered(b) && multiset(a) == multiset(b)
    ensures a == b
  {
    hide Less, Ordered;
    if a == [] {
      assert |multiset(b)| == 0;
    } else {
      SameHeads(a, b);
      HeadAndTail(a);
      HeadAndTail(b);
      assert multiset(a[1..]) == multiset(a) - multiset{a[0]} && multiset(b[1..]) == multiset(b) - multiset{b[0]};
      OrderedUnique(a[1..], b[1..]);
    }
  }

  // --- Sorted fields --------------------------------------------------------------------

  function SortedValues(fields: seq<Field>): seq<Field> {
    seq(|fields|, k requires 0 <= k < |fields| => Field(fields[k].key, Sorted(fields[k].value)))
  }

  lemma SortedValuesCons(fields: seq<Field>)
    requires fields != []
    ensures SortedValues(fields) == [Field(fields[0].key, Sorted(fields[0].value))] + SortedValues(fields[1..])
  {
    hide Sorted;
  }

  lemma {:induction false} SortedFieldsHold(fields: seq<Field>)
    ensures multiset(SortedFields(fields)) == multiset(SortedValues(fields))
  {
    if fields != [] {
      SortedFieldsHold(fields[1..]);
      hide Sorted, InsertField, SortedValues;
      SortedValuesCons(fields);
      InsertKeepsFields(Field(fields[0].key, Sorted(fields[0].value)), SortedFields(fields[1..]));
    }
  }

  lemma SameMultisetSameKeys(a: seq<Field>, b: seq<Field>, key: string)
    requires multiset(a) == multiset(b) && key in Keys(a)
    ensures key in Keys(b)
  {
    var i :| 0 <= i < |a| && a[i].key == key;
    assert a[i] in multiset(b);
  }

  lemma {:induction false} SortedFieldsOrdered(fields: seq<Field>)
    requires DistinctKeys(fields)
    ensures Ordered(SortedFields(fields))
  {
    if fields != [] {
      SortedFieldsOrdered(fields[1..]);
      SortedFieldsHold(fields[1..]);
      if fields[0].key in Keys(SortedFields(fields[1..])) {
        SameMultisetSameKeys(SortedFields(fields[1..]), SortedValues(fields[1..]), fields[0].key);
        assert false;
      }
      InsertOrdered(Field(fields[0].key, Sorted(fields[0].value)), SortedFields(fields[1..]));
    }
  }

  lemma {:induction false} SortedItemsAre(items: seq<Json>)
    ensures |SortedItems(items)| == |items|
    ensures forall k :: 0 <= k < |items| ==> SortedItems(items)[k] == Sorted(items[k])
  {
    if items != [] {
      SortedItemsAre(items[1..]);
    }
  }

  // --- One name per document ------------------------------------------------------------

  /** Sorting forgets exactly the order of the fields. */
  lemma {:induction false} SortedIffSame(v: Json, w: Json)
    requires Distinct(v) && Distinct(w)
    ensures Sorted(v) == Sorted(w) <==> Same(v, w)
    decreases v
  {
    match v
    case Arr(items) =>
      if w.Arr? {
        SortedItemsAre(items);
        SortedItemsAre(w.items);
        forall k | 0 <= k < |items| && k < |w.items|
          ensures Sorted(items[k]) == Sorted(w.items[k]) <==> Same(items[k], w.items[k]) {
          SortedIffSame(items[k], w.items[k]);
        }
      }
    case Obj(fields) =>
      if w.Obj? {
        forall i, j | 0 <= i < |fields| && 0 <= j < |w.fields| ensures SameValue(fields, w.fields, i, j) {
          SortedIffSame(fields[i].value, w.fields[j].value);
        }
        FieldsIffSame(fields, w.fields);
      }
    case _ =>
  }

  ghost predicate SameValue(a: seq<Field>, b: seq<Field>, i: int, j: int)
    requires 0 <= i < |a| && 0 <= j < |b|
  {
    Sorted(a[i].value) == Sorted(b[j].value) <==> Same(a[i].value, b[j].value)
  }

  lemma FieldsIffSame(a: seq<Field>, b: seq<Field>)
    requires DistinctKeys(a) && DistinctKeys(b)
    requires forall i, j :: 0 <= i < |a| && 0 <= j < |b| ==> SameValue(a, b, i, j)
    ensures SortedFields(a) == SortedFields(b) <==> Same(Obj(a), Obj(b))
  {
    SortedFieldsHold(a);
    SortedFieldsHold(b);
    if SortedFields(a) == SortedFields(b) {
      SameFromSorted(a, b);
    }
    if Same(Obj(a), Obj(b)) {
      SortedFieldsOrdered(a);
      SortedFieldsOrdered(b);
      SameHold(a, b);
      OrderedUnique(SortedFields(a), SortedFields(b));
    }
  }

  lemma SameFromSorted(a: seq<Field>, b: seq<Field>)
    requires DistinctKeys(a) && DistinctKeys(b)
    requires forall i, j :: 0 <= i < |a| && 0 <= j < |b| ==> SameValue(a, b, i, j)
    requires multiset(SortedValues(a)) == multiset(SortedValues(b))
    ensures Same(Obj(a), Obj(b))
  {
    hide Sorted;
    KeysInto(a, b);
    KeysInto(b, a);
    forall i, j | 0 <= i < |a| && 0 <= j < |b| && a[i].key == b[j].key ensures Same(a[i].value, b[j].value) {
      var k := MappedInto(a, b, i);
      assert k == j;
      assert SameValue(a, b, i, j);
    }
  }

  lemma MappedInto(a: seq<Field>, b: seq<Field>, i: nat) returns (k: nat)
    requires multiset(SortedValues(a)) == multiset(SortedValues(b)) && i < |a|
    ensures k < |b| && SortedValues(b)[k] == SortedValues(a)[i]
  {
    hide Sorted;
    assert SortedValues(a)[i] in multiset(SortedValues(b));
    k :| 0 <= k < |SortedValues(b)| && SortedValues(b)[k] == SortedValues(a)[i];
  }

  lemma KeysInto(a: seq<Field>, b: seq<Field>)
    requires multiset(SortedValues(a)) == multiset(SortedValues(b))
    ensures Keys(a) <= Keys(b)
  {
    forall key | key in Keys(a) ensures key in Keys(b) {
      var i :| 0 <= i < |a| && a[i].key == key;
      var k := MappedInto(a, b, i);
      assert b[k].key == key;
    }
  }

  /** Distinct elements: a multiset is a set. */
  lemma {:induction false} OncePerElement(a: seq<Field>, f: Field)
    requires DistinctKeys(a)
    ensures multiset(a)[f] == if f in a then 1 else 0
  {
    if a != [] {
      OncePerElement(a[1..], f);
      assert a == [a[0]] + a[1..];
    }
  }

  lemma SameHold(a: seq<Field>, b: seq<Field>)
    requires DistinctKeys(a) && DistinctKeys(b) && Same(Obj(a), Obj(b))
    requires forall i, j :: 0 <= i < |a| && 0 <= j < |b| ==> SameValue(a, b, i, j)
    ensures multiset(SortedValues(a)) == multiset(SortedValues(b))
  {
    forall f ensures f in SortedValues(a) <==> f in SortedValues(b) {
      if f in SortedValues(a) {
        var i :| 0 <= i < |a| && SortedValues(a)[i] == f;
        assert a[i].key in Keys(b);
        var j :| 0 <= j < |b| && b[j].key == a[i].key;
        assert SameValue(a, b, i, j) && SortedValues(b)[j] == f;
      }
      if f in SortedValues(b) {
        var j :| 0 <= j < |b| && SortedValues(b)[j] == f;
        assert b[j].key in Keys(a);
        var i :| 0 <= i < |a| && a[i].key == b[j].key;
        assert SameValue(a, b, i, j) && SortedValues(a)[i] == f;
      }
    }
    forall f ensures multiset(SortedValues(a))[f] == multiset(SortedValues(b))[f] {
      OncePerElement(SortedValues(a), f);
      OncePerElement(SortedValues(b), f);
    }
  }

  // --- The fields of an object ----------------------------------------------------------

  /** The value under a key, or null. */
  function Get(fields: seq<Field>, key: string): Json {
    if fields == [] then Null else if fields[0].key == key then fields[0].value else Get(fields[1..], key)
  }

  lemma {:induction false} GetIs(fields: seq<Field>, i: nat)
    requires DistinctKeys(fields) && i < |fields|
    ensures Get(fields, fields[i].key) == fields[i].value
  {
    if i > 0 {
      assert fields[0].key != fields[i].key;
      GetIs(fields[1..], i - 1);
    }
  }

  /** Objects are the same if and only if they have the same keys, and the same values under them. */
  lemma SameFields(a: seq<Field>, b: seq<Field>)
    requires DistinctKeys(a) && DistinctKeys(b)
    ensures Same(Obj(a), Obj(b)) <==>
      Keys(a) == Keys(b) && forall key :: key in Keys(a) ==> Same(Get(a, key), Get(b, key))
  {
    forall i, j | 0 <= i < |a| && 0 <= j < |b| && a[i].key == b[j].key
      ensures Same(a[i].value, b[j].value) <==> Same(Get(a, a[i].key), Get(b, a[i].key))
    {
      GetIs(a, i);
      GetIs(b, j);
    }
    hide Get;
    if Same(Obj(a), Obj(b)) {
      forall key | key in Keys(a) ensures Same(Get(a, key), Get(b, key)) {
        var i :| 0 <= i < |a| && a[i].key == key;
        assert key in Keys(b);
        var j :| 0 <= j < |b| && b[j].key == key;
      }
    }
    if Keys(a) == Keys(b) && forall key :: key in Keys(a) ==> Same(Get(a, key), Get(b, key)) {
      forall i, j | 0 <= i < |a| && 0 <= j < |b| && a[i].key == b[j].key ensures Same(a[i].value, b[j].value) {
        assert a[i].key in Keys(a);
      }
    }
  }

  /** A scalar is the same only as itself. */
  lemma ScalarSame(v: Json, w: Json)
    requires w.Null? || w.Int? || w.Str? || w.Bool?
    ensures Same(v, w) <==> v == w
  {
  }

  /** An object is the same as a list of fields if it has these keys with these values. */
  lemma ObjectIs(a: seq<Field>, f: seq<Field>)
    requires DistinctKeys(a) && DistinctKeys(f)
    ensures Same(Obj(a), Obj(f)) <==>
      Keys(a) == Keys(f) && forall i :: 0 <= i < |f| ==> Same(Get(a, f[i].key), f[i].value)
  {
    SameFields(a, f);
    forall i | 0 <= i < |f| ensures Get(f, f[i].key) == f[i].value && f[i].key in Keys(f) {
      GetIs(f, i);
    }
    hide Same, Get;
    if Keys(a) == Keys(f) && forall i :: 0 <= i < |f| ==> Same(Get(a, f[i].key), f[i].value) {
      forall key | key in Keys(a) ensures Same(Get(a, key), Get(f, key)) {
        var i :| 0 <= i < |f| && f[i].key == key;
      }
    }
  }

  lemma NotObject(v: Json, f: seq<Field>)
    requires !v.Obj?
    ensures !Same(v, Obj(f))
  {
  }

  lemma {:induction false} GetDistinct(fields: seq<Field>, key: string)
    requires forall k :: 0 <= k < |fields| ==> Distinct(fields[k].value)
    ensures Distinct(Get(fields, key))
  {
    if fields != [] {
      GetDistinct(fields[1..], key);
    }
  }

  // --- The canonical form ---------------------------------------------------------------

  /** At every level the fields stand in ascending code point order of their keys. */
  ghost predicate Ascends(v: Json)
    decreases v
  {
    match v
    case Arr(items) => forall k :: 0 <= k < |items| ==> Ascends(items[k])
    case Obj(fields) =>
      && (forall i, j :: 0 <= i < j < |fields| ==> Precedes(fields[i].key, fields[j].key))
      && forall k :: 0 <= k < |fields| ==> Ascends(fields[k].value)
    case _ => true
  }

  lemma OrderedIs(fields: seq<Field>)
    ensures Ordered(fields) <==> forall i, j :: 0 <= i < j < |fields| ==> Precedes(fields[i].key, fields[j].key)
    ensures Ordered(fields) ==> DistinctKeys(fields)
  {
    forall i, j | 0 <= i < j < |fields|
      ensures Less(fields[i].key, fields[j].key) <==> Precedes(fields[i].key, fields[j].key)
      ensures Less(fields[i].key, fields[j].key) ==> fields[i].key != fields[j].key
    {
      FirstDifference(fields[i].key, fields[j].key);
      LessOrder(fields[i].key, fields[j].key);
    }
    hide Less, Precedes;
  }

  /** The sorted form of a document is the same document, in ascending order throughout. */
  lemma {:induction false} SortedSame(v: Json)
    requires Distinct(v)
    ensures Distinct(Sorted(v)) && Same(v, Sorted(v)) && Ascends(Sorted(v))
    decreases v
  {
    match v
    case Arr(items) =>
      SortedItemsAre(items);
      forall k | 0 <= k < |items|
        ensures Distinct(Sorted(items[k])) && Same(items[k], Sorted(items[k])) && Ascends(Sorted(items[k]))
      {
        SortedSame(items[k]);
      }
    case Obj(fields) =>
      forall k | 0 <= k < |fields| ensures GoodValue(fields[k].value) {
        SortedSame(fields[k].value);
      }
      SortedFieldsSame(fields);
    case _ =>
  }

  ghost predicate GoodValue(v: Json) {
    Distinct(Sorted(v)) && Same(v, Sorted(v)) && Ascends(Sorted(v))
  }

  /** Every sorted field is one of the fields, with its value sorted. */
  lemma SortedFrom(fields: seq<Field>, j: nat) returns (i: nat)
    requires j < |SortedFields(fields)|
    ensures i < |fields| && SortedFields(fields)[j] == Field(fields[i].key, Sorted(fields[i].value))
  {
    hide Sorted;
    SortedFieldsHold(fields);
    assert SortedFields(fields)[j] in multiset(SortedValues(fields));
    i :| 0 <= i < |fields| && SortedValues(fields)[i] == SortedFields(fields)[j];
  }

  lemma SortedFieldsSame(fields: seq<Field>)
    requires DistinctKeys(fields) && forall k :: 0 <= k < |fields| ==> GoodValue(fields[k].value)
    ensures var w := Obj(SortedFields(fields)); Distinct(w) && Same(Obj(fields), w) && Ascends(w)
  {
    hide *;
    var sorted := SortedFields(fields);
    SortedFieldsOrdered(fields);
    OrderedIs(sorted);
    KeysSorted(fields);
    forall j | 0 <= j < |sorted| ensures Distinct(sorted[j].value) && Ascends(sorted[j].value) {
      var i := SortedFrom(fields, j);
      GoodParts(fields[i].value);
    }
    forall i, j | 0 <= i < |fields| && 0 <= j < |sorted| && fields[i].key == sorted[j].key
      ensures Same(fields[i].value, sorted[j].value)
    {
      var k := SortedFrom(fields, j);
      KeyIsOne(fields, i, k);
      GoodParts(fields[i].value);
    }
    ObjectParts(fields, sorted);
  }

  lemma GoodParts(v: Json)
    requires GoodValue(v)
    ensures Distinct(Sorted(v)) && Same(v, Sorted(v)) && Ascends(Sorted(v))
  {
  }

  lemma KeyIsOne(fields: seq<Field>, i: nat, k: nat)
    requires DistinctKeys(fields) && i < |fields| && k < |fields| && fields[i].key == fields[k].key
    ensures i == k
  {
  }

  lemma KeysSorted(fields: seq<Field>)
    ensures Keys(SortedFields(fields)) == Keys(fields)
  {
    hide Sorted, SortedFields;
    SortedFieldsHold(fields);
    SameKeys(SortedFields(fields), SortedValues(fields));
    assert forall k :: 0 <= k < |fields| ==> SortedValues(fields)[k].key == fields[k].key;
  }

  lemma ObjectParts(fields: seq<Field>, sorted: seq<Field>)
    requires DistinctKeys(sorted) && Keys(sorted) == Keys(fields)
    requires forall i, j :: 0 <= i < j < |sorted| ==> Precedes(sorted[i].key, sorted[j].key)
    requires forall j :: 0 <= j < |sorted| ==> Distinct(sorted[j].value) && Ascends(sorted[j].value)
    requires forall i, j :: 0 <= i < |fields| && 0 <= j < |sorted| && fields[i].key == sorted[j].key ==>
      Same(fields[i].value, sorted[j].value)
    ensures Distinct(Obj(sorted)) && Same(Obj(fields), Obj(sorted)) && Ascends(Obj(sorted))
  {
    hide Precedes, Keys, DistinctKeys;
  }

  lemma SameKeys(a: seq<Field>, b: seq<Field>)
    requires multiset(a) == multiset(b)
    ensures Keys(a) == Keys(b)
  {
    forall key ensures key in Keys(a) <==> key in Keys(b) {
      if key in Keys(a) {
        SameMultisetSameKeys(a, b, key);
      }
      if key in Keys(b) {
        SameMultisetSameKeys(b, a, key);
      }
    }
  }

  /** A value in ascending order is its own sorted form. */
  lemma {:induction false} AscendingIsSorted(v: Json)
    requires Ascends(v)
    ensures Sorted(v) == v
    decreases v, 1
  {
    match v
    case Arr(items) =>
      SortedItemsAre(items);
      forall k | 0 <= k < |items| ensures Sorted(items[k]) == items[k] {
        AscendingIsSorted(items[k]);
      }
      assert SortedItems(items) == items;
    case Obj(fields) =>
      forall k | 0 <= k < |fields| ensures Sorted(fields[k].value) == fields[k].value {
        AscendingIsSorted(fields[k].value);
      }
      OrderedIs(fields);
      SortedAlready(fields);
    case _ =>
  }

  lemma {:induction false} SortedAlready(fields: seq<Field>)
    requires Ordered(fields) && forall k :: 0 <= k < |fields| ==> Sorted(fields[k].value) == fields[k].value
    ensures SortedFields(fields) == fields
  {
    if fields != [] {
      hide Sorted;
      SortedAlready(fields[1..]);
      assert fields == [fields[0]] + fields[1..];
      assert |fields| > 1 ==> Less(fields[0].key, fields[1].key);
    }
  }

  /** The canonical bytes of a document are the compact print of that document with its fields in ascending order, and
      no other print is. */
  lemma CanonicalExactly(v: Json, w: Json)
    requires Distinct(v) && Distinct(w)
    ensures CanonicalBytes(v) == Encode(Write(w, false)) <==> Same(v, w) && Ascends(w)
  {
    hide Distinct, Same, Sorted, Ascends, Write;
    SortedSame(v);
    SortedIffSame(v, w);
    if Ascends(w) {
      AscendingIsSorted(w);
    }
    if CanonicalBytes(v) == Encode(Write(w, false)) {
      DecodeEncode(Write(Sorted(v), false));
      DecodeEncode(Write(w, false));
      CanonicalUnique.WriteInjective(Sorted(v), w, false);
    }
  }

  /** Two documents have the same canonical bytes exactly when they are equal. */
  lemma SameBytesIffSame(v: Json, w: Json)
    requires Distinct(v) && Distinct(w)
    ensures CanonicalBytes(v) == CanonicalBytes(w) <==> Same(v, w)
  {
    CanonicalUnique.CanonicalBytesUnique(v, w);
    SortedIffSame(v, w);
  }

  // --- Reading a stored document back ---------------------------------------------------

  const INTEGER_LIMIT: int := 0x8000_0000_0000_0000

  /** The canonical domain: integers are non-negative and below 2^63. */
  predicate InDomain(v: Json)
    decreases v
  {
    match v
    case Int(n) => 0 <= n < INTEGER_LIMIT
    case Arr(items) => forall k :: 0 <= k < |items| ==> InDomain(items[k])
    case Obj(fields) => forall k :: 0 <= k < |fields| ==> InDomain(fields[k].value)
    case _ => true
  }

  function Canonical(v: Json): Option<Bytes> {
    if InDomain(v) then Some(CanonicalBytes(v)) else None
  }

  /** The integer stands somewhere in the value. */
  ghost predicate Holds(v: Json, n: int)
    decreases v
  {
    match v
    case Int(m) => m == n
    case Arr(items) => exists k :: 0 <= k < |items| && Holds(items[k], n)
    case Obj(fields) => exists k :: 0 <= k < |fields| && Holds(fields[k].value, n)
    case _ => false
  }

  /** All its integers are non-negative and below 2^63. */
  ghost predicate InRange(v: Json) {
    forall n :: Holds(v, n) ==> 0 <= n < 0x8000_0000_0000_0000
  }

  lemma {:induction false} DomainIs(v: Json)
    ensures InDomain(v) <==> InRange(v)
    decreases v
  {
    match v
    case Int(n) => assert Holds(v, n);
    case Arr(items) =>
      forall k | 0 <= k < |items| ensures InDomain(items[k]) <==> InRange(items[k]) {
        DomainIs(items[k]);
      }
      ItemsInRange(items);
    case Obj(fields) =>
      forall k | 0 <= k < |fields| ensures InDomain(fields[k].value) <==> InRange(fields[k].value) {
        DomainIs(fields[k].value);
      }
      FieldsInRange(fields);
    case _ =>
  }

  lemma ItemsInRange(items: seq<Json>)
    ensures InRange(Arr(items)) <==> forall k :: 0 <= k < |items| ==> InRange(items[k])
  {
    if InRange(Arr(items)) {
      forall k, n | 0 <= k < |items| && Holds(items[k], n) ensures 0 <= n < 0x8000_0000_0000_0000 {
        assert Holds(Arr(items), n);
      }
    }
    if forall k :: 0 <= k < |items| ==> InRange(items[k]) {
      forall n | Holds(Arr(items), n) ensures 0 <= n < 0x8000_0000_0000_0000 {
        var k :| 0 <= k < |items| && Holds(items[k], n);
        assert InRange(items[k]);
      }
    }
  }

  lemma FieldsInRange(fields: seq<Field>)
    ensures InRange(Obj(fields)) <==> forall k :: 0 <= k < |fields| ==> InRange(fields[k].value)
  {
    if InRange(Obj(fields)) {
      forall k, n | 0 <= k < |fields| && Holds(fields[k].value, n) ensures 0 <= n < 0x8000_0000_0000_0000 {
        assert Holds(Obj(fields), n);
      }
    }
    if forall k :: 0 <= k < |fields| ==> InRange(fields[k].value) {
      forall n | Holds(Obj(fields), n) ensures 0 <= n < 0x8000_0000_0000_0000 {
        var k :| 0 <= k < |fields| && Holds(fields[k].value, n);
        assert InRange(fields[k].value);
      }
    }
  }

  /** A document has canonical bytes if and only if all its integers are non-negative and below 2^63. */
  lemma DomainExactly(v: Json)
    ensures Canonical(v) == if InRange(v) then Some(CanonicalBytes(v)) else None
  {
    DomainIs(v);
    hide CanonicalBytes, InDomain, InRange;
  }

  /** What is asked of the JSON library: it never builds an object with a repeated key (the hook refuses
      those), and it reads canonical text back. It may accept any other text as well. */
  ghost predicate Loads(load: Bytes -> Option<Json>) {
    && (forall raw :: load(raw).Some? ==> Distinct(load(raw).value))
    && (forall v :: Distinct(v) && InDomain(v) ==>
          load(CanonicalBytes(v)).Some? && Same(v, load(CanonicalBytes(v)).value))
  }

  /** A reader of RFC 8259 on well-formed UTF-8 that refuses repeated keys. */
  function ReadBack(raw: Bytes): Option<Json> {
    if !Valid(raw) then None
    else
      match ReadJson(U.Decode(raw))
      case None => None
      case Some(v) => if Distinct(v) then Some(v) else None
  }

  /** Such a reader is such a library. */
  lemma ReadBackLoads()
    ensures Loads(raw => ReadBack(raw))
  {
    hide Distinct, InDomain, Same, CanonicalBytes;
    forall v | Distinct(v) && InDomain(v)
      ensures ReadBack(CanonicalBytes(v)).Some? && Same(v, ReadBack(CanonicalBytes(v)).value)
    {
      CanonicalReads(v);
    }
  }

  /** Reading canonical bytes gives the same document, with its fields in order. */
  lemma CanonicalReads(v: Json)
    requires Distinct(v)
    ensures ReadBack(CanonicalBytes(v)) == Some(Sorted(v)) && Same(v, Sorted(v)) && Ascends(Sorted(v))
  {
    hide Distinct, Same, Sorted, Ascends, Write, ReadJson;
    SortedSame(v);
    DecodeEncode(Write(Sorted(v), false));
    ReadWritten(Sorted(v), false);
  }

  function Decode(load: Bytes -> Option<Json>, raw: Bytes): Option<Json> {
    var document := load(raw);
    if document.Some? && Canonical(document.value) == Some(raw) then document else None
  }

  lemma {:induction false} SameKeepsDomain(v: Json, w: Json)
    requires Same(v, w) && InDomain(v)
    ensures InDomain(w)
    decreases v
  {
    match v
    case Arr(items) =>
      forall k | 0 <= k < |items| ensures InDomain(w.items[k]) {
        SameKeepsDomain(items[k], w.items[k]);
      }
    case Obj(fields) =>
      forall j | 0 <= j < |w.fields| ensures InDomain(w.fields[j].value) {
        assert w.fields[j].key in Keys(fields);
        var i :| 0 <= i < |fields| && fields[i].key == w.fields[j].key;
        SameKeepsDomain(fields[i].value, w.fields[j].value);
      }
    case _ =>
  }

  /** Whatever else the library would take, a text is accepted exactly when it is the canonical name of
      some document, and it is read as that document. */
  lemma DecodeAcceptsExactly(load: Bytes -> Option<Json>, raw: Bytes, v: Json)
    requires Loads(load) && Distinct(v)
    ensures (Decode(load, raw).Some? && Same(v, Decode(load, raw).value)) <==> Canonical(v) == Some(raw)
  {
    if Canonical(v) == Some(raw) {
      var w := load(raw).value;
      SameKeepsDomain(v, w);
      SameBytesIffSame(v, w);
    }
    if Decode(load, raw).Some? && Same(v, Decode(load, raw).value) {
      var w := Decode(load, raw).value;
      SameBytesIffSame(v, w);
      SortedIffSame(v, w);
      SortedIffSame(w, v);
      SameKeepsDomain(w, v);
    }
  }
}
