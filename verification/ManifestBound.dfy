/** The preflight bound of a source manifest: the exact size of the document in which every file has a
    placeholder digest and the longest encoding name. */
module ManifestBound {
  import opened Wrappers
  import opened Utf8
  import opened CanonicalJson
  import opened Sorting
  import opened SourceManifest

  function Size(v: Json): nat {
    if JsonSize(v).Some? then JsonSize(v).value else 0
  }

  function Total(documents: seq<Json>): nat {
    if documents == [] then 0 else Size(documents[0]) + Total(documents[1..])
  }

  /** The bytes a list adds to an empty one. */
  function GroupSize(documents: seq<Json>): nat {
    Total(documents) + if documents == [] then 0 else |documents| - 1
  }

  predicate Sized(documents: seq<Json>) {
    forall k :: 0 <= k < |documents| ==> JsonSize(documents[k]).Some?
  }

  function Padded(item: Item): Entry {
    Entry(item.layerId, item.path, seq(64, _ => '0'), item.size, WithBom)
  }

  function PaddedEntries(items: seq<Item>): seq<Entry> {
    seq(|items|, k requires 0 <= k < |items| => Padded(items[k]))
  }

  /** The document that is counted but never built. */
  function PaddedSource(project: string, layers: seq<Layer>, exclusions: seq<Exclusion>, items: seq<Item>): Json {
    Source(project, Mapped(LayerDocument, layers), Mapped(ExclusionDocument, exclusions),
      Mapped(EntryDocument, PaddedEntries(items)))
  }

  function Groups(layers: seq<Layer>, exclusions: seq<Exclusion>, items: seq<Item>): (groups: seq<seq<Json>>)
    ensures |groups| == 3
  {
    [Mapped(LayerDocument, layers), Mapped(ExclusionDocument, exclusions), Mapped(EntryDocument, PaddedEntries(items))]
  }

  function GroupsSize(groups: seq<seq<Json>>, count: nat): nat
    requires count <= |groups|
  {
    if count == 0 then 0 else GroupsSize(groups, count - 1) + GroupSize(groups[count - 1])
  }

  // --- The loop -------------------------------------------------------------------------

  lemma {:induction false} TotalAppend(documents: seq<Json>, last: Json)
    ensures Total(documents + [last]) == Total(documents) + Size(last)
  {
    if documents == [] {
      assert [last][1..] == [];
    } else {
      TotalAppend(documents[1..], last);
      assert (documents + [last])[1..] == documents[1..] + [last];
    }
  }

  lemma {:induction false} TotalSplit(documents: seq<Json>, k: nat)
    requires k <= |documents|
    ensures Total(documents[..k]) + Total(documents[k..]) == Total(documents)
  {
    if k == 0 {
      assert documents[0..] == documents;
    } else {
      TotalSplit(documents, k - 1);
      TotalAppend(documents[..k - 1], documents[k - 1]);
      assert documents[..k - 1] + [documents[k - 1]] == documents[..k];
      assert documents[k - 1..][1..] == documents[k..];
    }
  }

  lemma {:induction false} GroupsSizeGrows(groups: seq<seq<Json>>, count: nat)
    requires count <= |groups|
    ensures GroupsSize(groups, count) <= GroupsSize(groups, |groups|)
    decreases |groups| - count
  {
    if count < |groups| {
      GroupsSizeGrows(groups, count + 1);
    }
  }

  method CountGroup(documents: seq<Json>, start: nat, maximum: nat) returns (size: nat, exceeded: bool)
    ensures exceeded <==> documents != [] && start + GroupSize(documents) > maximum
    ensures !exceeded ==> size == start + GroupSize(documents)
    ensures documents == [] ==> size == start
  {
    size, exceeded := start, false;
    var first := true;
    for k := 0 to |documents|
      invariant !exceeded && first == (k == 0)
      invariant size == start + Total(documents[..k]) + if k == 0 then 0 else k - 1
      invariant k > 0 ==> size <= maximum
    {
      TotalAppend(documents[..k], documents[k]);
      assert documents[..k] + [documents[k]] == documents[..k + 1];
      TotalSplit(documents, k + 1);
      size := size + Size(documents[k]) + if first then 0 else 1;
      first := false;
      if size > maximum {
        return size, true;
      }
    }
    assert documents[..|documents|] == documents;
  }

  // --- What the total means -------------------------------------------------------------

  /** Replacing one value changes the size by the difference of the two values. */
  lemma {:induction false} ReplaceField(fields: seq<Field>, k: nat, value: Json)
    requires k < |fields| && JsonFieldsSize(fields).Some? && JsonSize(value).Some?
    ensures JsonSize(fields[k].value).Some?
    ensures JsonFieldsSize(fields[k := Field(fields[k].key, value)]).Some?
    ensures JsonFieldsSize(fields[k := Field(fields[k].key, value)]).value + Size(fields[k].value)
         == JsonFieldsSize(fields).value + Size(value)
  {
    var changed := fields[k := Field(fields[k].key, value)];
    if k == 0 {
      assert changed[1..] == fields[1..];
    } else {
      ReplaceField(fields[1..], k - 1, value);
      assert changed[1..] == fields[1..][k - 1 := Field(fields[k].key, value)];
    }
    hide JsonSize, TextSize;
  }

  lemma ReplaceValue(fields: seq<Field>, k: nat, value: Json)
    requires k < |fields| && JsonSize(Obj(fields)).Some? && JsonSize(value).Some?
    ensures JsonSize(fields[k].value).Some?
    ensures JsonSize(Obj(fields[k := Field(fields[k].key, value)])).Some?
    ensures Size(Obj(fields[k := Field(fields[k].key, value)])) + Size(fields[k].value) ==
      Size(Obj(fields)) + Size(value)
  {
    ReplaceField(fields, k, value);
    hide JsonFieldsSize;
  }

  lemma {:induction false} ItemsTotal(documents: seq<Json>)
    requires Sized(documents)
    ensures JsonItemsSize(documents) == Some(Total(documents))
  {
    if documents != [] {
      assert forall k :: 0 <= k < |documents[1..]| ==> documents[1..][k] == documents[k + 1];
      ItemsTotal(documents[1..]);
    }
  }

  lemma ListSize(documents: seq<Json>)
    requires Sized(documents)
    ensures JsonSize(Arr(documents)) == Some(2 + GroupSize(documents))
  {
    ItemsTotal(documents);
  }

  lemma NoBoolSized(v: Json)
    requires !HasBool(v)
    ensures JsonSize(v).Some?
  {
    JsonSizeAgrees(v);
    ManifestSizeIsLength(v);
    hide JsonSize, ManifestSize, Length, HasBool;
  }

  lemma NoBoolObject(fields: seq<Field>)
    requires forall k :: 0 <= k < |fields| ==> !HasBool(fields[k].value)
    ensures JsonSize(Obj(fields)).Some?
  {
    assert !HasBool(Obj(fields));
    hide HasBool, JsonSize;
    NoBoolSized(Obj(fields));
  }

  lemma EmptySourceSized(project: string)
    ensures JsonSize(Source(project, [], [], [])).Some?
  {
    assert !HasBool(Arr([])) && !HasBool(Str(project)) && !HasBool(Int(1));
    hide HasBool, JsonSize;
    NoBoolObject(Source(project, [], [], []).fields);
  }

  function Replaced(fields: seq<Field>, k: nat, value: Json): seq<Field>
    requires k < |fields|
  {
    fields[k := Field(fields[k].key, value)]
  }

  lemma ReplaceThree(fields: seq<Field>, a: Json, b: Json, c: Json)
    requires |fields| == 5 && JsonSize(Obj(fields)).Some? && JsonSize(a).Some? && JsonSize(b).Some? && JsonSize(c).Some?
    ensures var replaced := Obj(Replaced(Replaced(Replaced(fields, 2, a), 3, b), 4, c));
      JsonSize(replaced).Some? &&
      Size(replaced) + Size(fields[2].value) + Size(fields[3].value) + Size(fields[4].value) ==
        Size(Obj(fields)) + Size(a) + Size(b) + Size(c)
  {
    hide JsonSize, Size;
    ReplaceValue(fields, 2, a);
    var one := Replaced(fields, 2, a);
    ReplaceValue(one, 3, b);
    var two := Replaced(one, 3, b);
    ReplaceValue(two, 4, c);
  }

  lemma SourceReplaced(project: string, layers: seq<Json>, exclusions: seq<Json>, entries: seq<Json>)
    ensures var none := Source(project, [], [], []);
      && none.Obj? && |none.fields| == 5 && none == Obj(none.fields)
      && none.fields[2].value == none.fields[3].value == none.fields[4].value == Arr([])
      && Source(project, layers, exclusions, entries)
         == Obj(Replaced(Replaced(Replaced(none.fields, 2, Arr(layers)), 3, Arr(exclusions)), 4, Arr(entries)))
  {
  }

  lemma SourceSize(project: string, layers: seq<Json>, exclusions: seq<Json>, entries: seq<Json>)
    requires Sized(layers) && Sized(exclusions) && Sized(entries)
    ensures JsonSize(Source(project, layers, exclusions, entries))
         == Some(Size(Source(project, [], [], [])) + GroupSize(layers) + GroupSize(exclusions) + GroupSize(entries))
  {
    hide *;
    EmptySourceSized(project);
    ListsSized(layers, exclusions, entries);
    SourceReplaced(project, layers, exclusions, entries);
    ReplaceThree(Source(project, [], [], []).fields, Arr(layers), Arr(exclusions), Arr(entries));
    SizeIs(Source(project, layers, exclusions, entries));
  }

  lemma SizeIs(v: Json)
    requires JsonSize(v).Some?
    ensures JsonSize(v) == Some(Size(v))
  {
  }

  lemma ListsSized(layers: seq<Json>, exclusions: seq<Json>, entries: seq<Json>)
    requires Sized(layers) && Sized(exclusions) && Sized(entries)
    ensures JsonSize(Arr(layers)).Some? && JsonSize(Arr(exclusions)).Some? && JsonSize(Arr(entries)).Some?
    ensures Size(Arr(layers)) == 2 + GroupSize(layers) && Size(Arr(exclusions)) == 2 + GroupSize(exclusions)
    ensures Size(Arr(entries)) == 2 + GroupSize(entries) && Size(Arr([])) == 2
  {
    ListSize(layers);
    ListSize(exclusions);
    ListSize(entries);
    ListSize([]);
    hide JsonSize;
  }

  lemma LayerSized(l: Layer)
    ensures JsonSize(LayerDocument(l)).Some?
  {
    assert !HasBool(Str(l.layerId)) && !HasBool(Int(l.ordinal)) && !HasBool(Str(l.kind)) && !HasBool(Str(l.root));
    assert !HasBool(Str(l.format)) && !HasBool(Null) && !HasBool(Str("unresolved"));
    hide HasBool, JsonSize;
    NoBoolObject(LayerDocument(l).fields);
  }

  lemma ExclusionSized(e: Exclusion)
    ensures JsonSize(ExclusionDocument(e)).Some?
  {
    assert !HasBool(Str(e.layerId)) && !HasBool(Str(e.path));
    hide HasBool, JsonSize;
    NoBoolObject(ExclusionDocument(e).fields);
  }

  lemma EntrySized(e: Entry)
    ensures JsonSize(EntryDocument(e)).Some?
  {
    assert !HasBool(Str(e.layerId)) && !HasBool(Str(e.path)) && !HasBool(Str(e.hash)) && !HasBool(Int(e.size));
    assert !HasBool(EncodingDocument(e.encoding));
    hide HasBool, JsonSize, EncodingDocument;
    NoBoolObject(EntryDocument(e).fields);
  }

  lemma AllSized(layers: seq<Layer>, exclusions: seq<Exclusion>, entries: seq<Entry>)
    ensures Sized(Mapped(LayerDocument, layers)) && Sized(Mapped(ExclusionDocument, exclusions))
    ensures Sized(Mapped(EntryDocument, entries))
  {
    hide LayerDocument, ExclusionDocument, EntryDocument, JsonSize;
    forall k | 0 <= k < |layers| ensures JsonSize(Mapped(LayerDocument, layers)[k]).Some? { LayerSized(layers[k]); }
    forall k | 0 <= k < |exclusions|
      ensures JsonSize(Mapped(ExclusionDocument, exclusions)[k]).Some? { ExclusionSized(exclusions[k]); }
    forall k | 0 <= k < |entries| ensures JsonSize(Mapped(EntryDocument, entries)[k]).Some? { EntrySized(entries[k]); }
  }

  lemma BoundIsTotal(project: string, layers: seq<Layer>, exclusions: seq<Exclusion>, items: seq<Item>)
    ensures |CanonicalBytes(PaddedSource(project, layers, exclusions, items))|
         == Size(Source(project, [], [], [])) + GroupsSize(Groups(layers, exclusions, items), 3)
  {
    AllSized(layers, exclusions, PaddedEntries(items));
    hide JsonSize, Source, GroupSize, Mapped, CanonicalBytes;
    SourceSize(project, Mapped(LayerDocument, layers), Mapped(ExclusionDocument, exclusions),
      Mapped(EntryDocument, PaddedEntries(items)));
    JsonSizeExact(PaddedSource(project, layers, exclusions, items));
    var groups := Groups(layers, exclusions, items);
    assert GroupsSize(groups, 1) == GroupSize(groups[0])
      && GroupsSize(groups, 2) == GroupsSize(groups, 1) + GroupSize(groups[1]);
  }

  /** Counts fragment after fragment; refuses as soon as the limit is passed. */
  method ComputeBound(project: string, layers: seq<Layer>, exclusions: seq<Exclusion>, items: seq<Item>, maximum: nat)
    returns (r: Option<nat>)
    ensures var bound := |CanonicalBytes(PaddedSource(project, layers, exclusions, items))|;
            r == if (layers == [] && exclusions == [] && items == []) || bound <= maximum then Some(bound) else None
  {
    var groups := Groups(layers, exclusions, items);
    assert |groups[0]| == |layers| && |groups[1]| == |exclusions| && |groups[2]| == |items|;
    var size := Size(Source(project, [], [], []));
    ghost var start := size;
    BoundIsTotal(project, layers, exclusions, items);
    hide CanonicalBytes, PaddedSource, Size, GroupSize, Source, Groups;
    for g := 0 to 3
      invariant size == start + GroupsSize(groups, g)
      invariant size <= maximum || forall i :: 0 <= i < g ==> groups[i] == []
    {
      var exceeded;
      size, exceeded := CountGroup(groups[g], size, maximum);
      GroupsSizeGrows(groups, g + 1);
      if exceeded {
        return None;
      }
    }
    return Some(size);
  }

  // --- The bound against the document ---------------------------------------------------

  /** The entry of a file that was read: the same place and size, with a digest and a detected encoding. */
  predicate ReadFrom(item: Item, e: Entry) {
    e.layerId == item.layerId && e.path == item.path && e.size == item.size && IsHash(e.hash)
  }

  predicate AllRead(items: seq<Item>, entries: seq<Entry>) {
    |items| == |entries| && forall k :: 0 <= k < |items| ==> ReadFrom(items[k], entries[k])
  }

  /** How much shorter the encoding is than the longest one. */
  function Slack(e: Encoding): nat {
    match e
    case WithBom => 0
    case Plain => 4
    case Unknown => 7
  }

  function TotalSlack(entries: seq<Entry>): nat {
    if entries == [] then 0 else Slack(entries[0].encoding) + TotalSlack(entries[1..])
  }

  lemma {:induction false} SimpleTextSize(s: string)
    requires forall k :: 0 <= k < |s| ==> '0' <= s[k] <= '9' || 'a' <= s[k] <= 'z' || s[k] == '-'
    ensures TextSize(s) == |s| + 2
  {
    if s != [] {
      SimpleTextSize(s[1..]);
    }
  }

  lemma EncodingSlack(e: Encoding)
    ensures JsonSize(EncodingDocument(e)).Some? && Size(EncodingDocument(e)) + Slack(e) == 11
  {
    SimpleTextSize("utf-8");
    SimpleTextSize("utf-8-sig");
    assert |"utf-8"| == 5 && |"utf-8-sig"| == 9;
    hide TextSize;
  }

  lemma HashSize(item: Item, e: Entry)
    requires ReadFrom(item, e)
    ensures JsonSize(Str(e.hash)).Some? && Size(Str(e.hash)) == 66
  {
    SimpleTextSize(e.hash);
  }

  lemma PaddedParts(item: Item)
    ensures Size(Str(Padded(item).hash)) == 66 && Size(EncodingDocument(Padded(item).encoding)) == 11
  {
    SimpleTextSize(Padded(item).hash);
    EncodingSlack(WithBom);
  }

  lemma EntryReplaced(item: Item, e: Entry)
    requires ReadFrom(item, e)
    ensures var padded := EntryDocument(Padded(item));
      && padded.Obj? && |padded.fields| == 5
      && padded.fields[2].value == Str(Padded(item).hash)
      && padded.fields[4].value == EncodingDocument(Padded(item).encoding)
      && EntryDocument(e) == Obj(Replaced(Replaced(padded.fields, 2, Str(e.hash)), 4, EncodingDocument(e.encoding)))
  {
    hide EncodingDocument;
  }

  lemma EntrySlack(item: Item, e: Entry)
    requires ReadFrom(item, e)
    ensures Size(EntryDocument(e)) + Slack(e.encoding) == Size(EntryDocument(Padded(item)))
  {
    hide *;
    EntryReplaced(item, e);
    EntrySized(Padded(item));
    HashSize(item, e);
    EncodingSlack(e.encoding);
    PaddedParts(item);
    ReplaceTwo(EntryDocument(Padded(item)).fields, Str(e.hash), EncodingDocument(e.encoding));
  }

  lemma ReplaceTwo(fields: seq<Field>, a: Json, b: Json)
    requires |fields| == 5 && JsonSize(Obj(fields)).Some? && JsonSize(a).Some? && JsonSize(b).Some?
    ensures var replaced := Obj(Replaced(Replaced(fields, 2, a), 4, b));
      Size(replaced) + Size(fields[2].value) + Size(fields[4].value) == Size(Obj(fields)) + Size(a) + Size(b)
  {
    hide JsonSize, Size;
    ReplaceValue(fields, 2, a);
    ReplaceValue(Replaced(fields, 2, a), 4, b);
  }

  lemma {:induction false} EntriesSlack(items: seq<Item>, entries: seq<Entry>)
    requires AllRead(items, entries)
    ensures Total(Mapped(EntryDocument, entries)) + TotalSlack(entries) ==
      Total(Mapped(EntryDocument, PaddedEntries(items)))
  {
    if items != [] {
      EntrySlack(items[0], entries[0]);
      EntriesSlack(items[1..], entries[1..]);
      MappedTail(EntryDocument, entries);
      MappedTail(EntryDocument, PaddedEntries(items));
      assert PaddedEntries(items)[1..] == PaddedEntries(items[1..]);
      hide Size, EntryDocument, ReadFrom, Slack;
    }
  }

  lemma MappedTail<T>(document: T -> Json, values: seq<T>)
    requires values != []
    ensures Mapped(document, values) == [document(values[0])] + Mapped(document, values[1..])
  {
  }

  lemma {:induction false} TotalInserted<T>(document: T -> Json, x: T, sorted: seq<T>, before: (T, T) -> bool)
    ensures |InsertBy(x, sorted, before)| == |sorted| + 1
    ensures Total(Mapped(document, InsertBy(x, sorted, before))) == Size(document(x)) + Total(Mapped(document, sorted))
  {
    hide Size;
    MappedTail(document, InsertBy(x, sorted, before));
    if sorted == [] || !before(sorted[0], x) {
      assert ([x] + sorted)[1..] == sorted;
    } else {
      MappedTail(document, sorted);
      TotalInserted(document, x, sorted[1..], before);
      assert InsertBy(x, sorted, before)[1..] == InsertBy(x, sorted[1..], before);
    }
  }

  /** Sorting does not change how much is written. */
  lemma {:induction false} TotalSorted<T>(document: T -> Json, values: seq<T>, before: (T, T) -> bool)
    ensures |SortBy(values, before)| == |values|
    ensures Total(Mapped(document, SortBy(values, before))) == Total(Mapped(document, values))
  {
    hide Size;
    if values != [] {
      TotalSorted(document, values[1..], before);
      TotalInserted(document, values[0], SortBy(values[1..], before), before);
      MappedTail(document, values);
    }
  }

  lemma GroupSorted<T>(document: T -> Json, values: seq<T>, before: (T, T) -> bool)
    ensures GroupSize(Mapped(document, SortBy(values, before))) == GroupSize(Mapped(document, values))
  {
    TotalSorted(document, values, before);
  }

  lemma GroupSlack(items: seq<Item>, entries: seq<Entry>)
    requires AllRead(items, entries)
    ensures GroupSize(Mapped(EntryDocument, entries)) + TotalSlack(entries) ==
      GroupSize(Mapped(EntryDocument, PaddedEntries(items)))
  {
    EntriesSlack(items, entries);
    assert |Mapped(EntryDocument, entries)| == |entries| && |Mapped(EntryDocument, PaddedEntries(items))| == |items|;
    hide ReadFrom, EntryDocument;
  }

  lemma BuiltSize(project: string, layers: seq<Layer>, exclusions: seq<Exclusion>, entries: seq<Entry>)
    ensures |CanonicalBytes(BuildSource(project, layers, exclusions, entries))|
         == Size(Source(project, [], [], [])) + GroupSize(Mapped(LayerDocument, layers))
            + GroupSize(Mapped(ExclusionDocument, exclusions)) + GroupSize(Mapped(EntryDocument, entries))
  {
    var x, e := SortedExclusions(layers, exclusions), SortedEntries(layers, entries);
    GroupSorted(ExclusionDocument, exclusions, (a, b) => ExclusionBefore(layers, a, b));
    GroupSorted(EntryDocument, entries, (a, b) => EntryBefore(layers, a, b));
    AllSized(layers, x, e);
    hide GroupSize, Mapped, SortBy, Source, CanonicalBytes, JsonSize, Size;
    SourceSize(project, Mapped(LayerDocument, layers), Mapped(ExclusionDocument, x), Mapped(EntryDocument, e));
    JsonSizeExact(BuildSource(project, layers, exclusions, entries));
  }

  /** The bound exceeds the built document by exactly the slack of its encodings, wherever the inventory listed
      the files: the refusal for a document larger than its bound cannot happen. */
  lemma BoundNeverUnderestimates(project: string, layers: seq<Layer>, exclusions: seq<Exclusion>, items: seq<Item>,
                                 entries: seq<Entry>)
    requires AllRead(items, entries)
    ensures |CanonicalBytes(BuildSource(project, layers, exclusions, entries))| + TotalSlack(entries)
         == |CanonicalBytes(PaddedSource(project, layers, exclusions, items))|
  {
    hide *;
    BuiltSize(project, layers, exclusions, entries);
    BoundIsTotal(project, layers, exclusions, items);
    GroupSlack(items, entries);
    GroupsAre(layers, exclusions, items);
  }

  lemma GroupsAre(layers: seq<Layer>, exclusions: seq<Exclusion>, items: seq<Item>)
    ensures GroupsSize(Groups(layers, exclusions, items), 3)
         == GroupSize(Mapped(LayerDocument, layers)) + GroupSize(Mapped(ExclusionDocument, exclusions))
            + GroupSize(Mapped(EntryDocument, PaddedEntries(items)))
  {
    hide GroupSize, Mapped;
    var groups := Groups(layers, exclusions, items);
    assert GroupsSize(groups, 1) == GroupSize(groups[0])
      && GroupsSize(groups, 2) == GroupsSize(groups, 1) + GroupSize(groups[1]);
  }

  /** The bound is tight exactly when every file begins with a byte order mark. */
  lemma {:induction false} NoSlackIffMarked(entries: seq<Entry>)
    ensures TotalSlack(entries) == 0 <==> forall k :: 0 <= k < |entries| ==> entries[k].encoding == WithBom
  {
    if entries != [] {
      NoSlackIffMarked(entries[1..]);
      assert forall k :: 0 <= k < |entries[1..]| ==> entries[1..][k] == entries[k + 1];
    }
  }
}
