/** The readers of source manifests and of sealed manifests: each accepts exactly the documents that its builder
    builds, and reads what they were built from. */
module ManifestReader {
  import opened Wrappers
  import opened Utf8
  import opened CanonicalJson
  import opened CanonicalDocuments
  import opened Sorting
  import opened SourceManifest
  import opened SealedManifest
  import opened MembershipOutcomes

  /** The rules for identifiers, paths and roots. */
  datatype Rules = Rules(
    project: string -> bool, layer: Layer -> bool, roots: seq<string> -> bool, path: string -> bool,
    files: seq<string> -> bool)

  datatype Contents = Contents(project: string, layers: seq<Layer>, exclusions: seq<Exclusion>, entries: seq<Entry>)

  // --- Texts ----------------------------------------------------------------------------

  /** A digest is written in sixty-four lower-case hexadecimal digits. */
  lemma HashExactly(s: string)
    ensures IsHash(s) <==> |s| == 64 && forall k :: 0 <= k < |s| ==> s[k] in "0123456789abcdef"
  {
    forall k | 0 <= k < |s| ensures s[k] in "0123456789abcdef" <==> '0' <= s[k] <= '9' || 'a' <= s[k] <= 'f' {
      HexIs(s[k]);
    }
  }

  // --- The parts of a source document ---------------------------------------------------

  const LAYER_KEYS := {
    "layer_id", "ordinal", "kind", "root_relative_path", "source_format", "configuration_uuid", "identity_status"
  }

  const ENTRY_KEYS := {"layer_id", "relative_path", "raw_sha256", "size_bytes", "encoding"}

  const SOURCE_KEYS := {"format_version", "project_id", "layers", "excluded_state_subtrees", "entries"}

  function ReadLayer(v: Json): Option<Layer> {
    if !v.Obj? || Keys(v.fields) != LAYER_KEYS then None
    else
      var (id, ordinal, kind) := (Get(v.fields, "layer_id"), Get(v.fields, "ordinal"), Get(v.fields, "kind"));
      var (root, format) := (Get(v.fields, "root_relative_path"), Get(v.fields, "source_format"));
      if Get(v.fields, "configuration_uuid") != Null || Get(v.fields, "identity_status") != Str("unresolved") then None
      else if !(id.Str? && ordinal.Int? && ordinal.n >= 0 && kind.Str? && root.Str? && format.Str?) then None
      else Some(Layer(id.s, ordinal.n, kind.s, root.s, format.s))
  }

  function ReadExclusion(v: Json): Option<Exclusion> {
    if !v.Obj? || Keys(v.fields) != {"layer_id", "relative_path"} then None
    else
      var (id, path) := (Get(v.fields, "layer_id"), Get(v.fields, "relative_path"));
      if id.Str? && path.Str? then Some(Exclusion(id.s, path.s)) else None
  }

  function ReadEncoding(v: Json): Option<Encoding> {
    match v
    case Null => Some(Unknown)
    case Str(s) => if s == "utf-8" then Some(Plain) else if s == "utf-8-sig" then Some(WithBom) else None
    case _ => None
  }

  function ReadEntry(v: Json): Option<Entry> {
    if !v.Obj? || Keys(v.fields) != ENTRY_KEYS then None
    else
      var (id, path, hash) := (Get(v.fields, "layer_id"), Get(v.fields, "relative_path"), Get(v.fields, "raw_sha256"));
      var (size, encoding) := (Get(v.fields, "size_bytes"), ReadEncoding(Get(v.fields, "encoding")));
      if id.Str? && path.Str? && hash.Str? && size.Int? && size.n >= 0 && encoding.Some?
        then Some(Entry(id.s, path.s, hash.s, size.n, encoding.value)) else None
  }

  function ReadAll<T>(read: Json -> Option<T>, items: seq<Json>): Option<seq<T>> {
    if items == [] then Some([])
    else
      var (first, rest) := (read(items[0]), ReadAll(read, items[1..]));
      if first == None || rest == None then None else Some([first.value] + rest.value)
  }

  // --- The source document --------------------------------------------------------------

  /** A base layer followed by extensions, with different names and suitable roots. */
  ghost predicate ProperLayers(rules: Rules, layers: seq<Layer>) {
    && |layers| > 0 && (forall l :: l in layers ==> rules.layer(l))
    && (forall k :: 0 <= k < |layers| ==>
         layers[k].ordinal == k < INTEGER_LIMIT && layers[k].kind == if k == 0 then "base" else "extension")
    && (forall i, j :: 0 <= i < j < |layers| ==> layers[i].layerId != layers[j].layerId)
    && rules.roots(Mapped((l: Layer) => l.root, layers))
  }

  ghost predicate Known(layers: seq<Layer>, id: string) {
    exists k :: 0 <= k < |layers| && layers[k].layerId == id
  }

  /** The paths of one layer, as listed. */
  function PathsOf(entries: seq<Entry>, id: string): seq<string> {
    if entries == [] then []
    else (if entries[0].layerId == id then [entries[0].path] else []) + PathsOf(entries[1..], id)
  }

  /** Files of known layers with acceptable paths and digests, in order. */
  ghost predicate ProperEntries(rules: Rules, layers: seq<Layer>, entries: seq<Entry>) {
    && (forall e :: e in entries ==>
         Known(layers, e.layerId) && rules.path(e.path) && IsHash(e.hash) && e.size < INTEGER_LIMIT)
    && (forall l :: l in layers ==> rules.files(PathsOf(entries, l.layerId)))
    && SortedEntries(layers, entries) == entries
  }

  /** At most one subtree for each known layer, with none of its files in it, in order. */
  ghost predicate ProperExclusions(rules: Rules, layers: seq<Layer>, entries: seq<Entry>, exclusions: seq<Exclusion>) {
    && (forall k :: 0 <= k < |exclusions| ==>
         var x := exclusions[k];
         && Known(layers, x.layerId) && rules.path(x.path)
         && (forall j :: 0 <= j < k ==> exclusions[j].layerId != x.layerId)
         && forall e :: e in entries && e.layerId == x.layerId ==> e.path != x.path && !(x.path + "/" <= e.path))
    && SortedExclusions(layers, exclusions) == exclusions
  }

  ghost predicate Proper(rules: Rules, c: Contents) {
    && rules.project(c.project) && ProperLayers(rules, c.layers) && ProperEntries(rules, c.layers, c.entries)
    && ProperExclusions(rules, c.layers, c.entries, c.exclusions)
  }

  /** The parts of a document with the right version, whatever they say. */
  function ReadParts(v: Json): Option<Contents> {
    if !v.Obj? || Keys(v.fields) != SOURCE_KEYS || Get(v.fields, "format_version") != Int(1) then None
    else
      var (project, layers) := (Get(v.fields, "project_id"), Get(v.fields, "layers"));
      var (exclusions, entries) := (Get(v.fields, "excluded_state_subtrees"), Get(v.fields, "entries"));
      if !(project.Str? && layers.Arr? && exclusions.Arr? && entries.Arr?) then None
      else
        var (l, x) := (ReadAll(ReadLayer, layers.items), ReadAll(ReadExclusion, exclusions.items));
        var e := ReadAll(ReadEntry, entries.items);
        if l.Some? && x.Some? && e.Some? then Some(Contents(project.s, l.value, x.value, e.value)) else None
  }

  /** What the reader makes of a document. */
  ghost function ReadSource(rules: Rules, v: Json): Option<Contents> {
    var parts := ReadParts(v);
    if parts.Some? && Proper(rules, parts.value) then parts else None
  }

  function DocumentOf(c: Contents): Json {
    Source(c.project, Mapped(LayerDocument, c.layers), Mapped(ExclusionDocument, c.exclusions),
      Mapped(EntryDocument, c.entries))
  }

  /** What the builder returns: the document is read once more before it is printed. */
  ghost function BuiltSource(rules: Rules, project: string, layers: seq<Layer>, exclusions: seq<Exclusion>,
                             entries: seq<Entry>): Option<Bytes> {
    var v := BuildSource(project, layers, exclusions, entries);
    if ReadSource(rules, v) == None then None else Canonical(v)
  }

  ghost function ParsedSource(rules: Rules, load: Bytes -> Option<Json>, raw: Bytes): Option<Contents> {
    match CanonicalDocuments.Decode(load, raw)
    case None => None
    case Some(v) => ReadSource(rules, v)
  }

  // --- Reading the parts ----------------------------------------------------------------

  /** Different first letters, lengths or letters in between tell the names apart. */
  lemma LayerKeys(l: Layer)
    ensures var fields := LayerDocument(l).fields; DistinctKeys(fields) && Keys(fields) == LAYER_KEYS
  {
    var f := LayerDocument(l).fields;
    assert |"layer_id"| == 8 && |"ordinal"| == 7 && |"kind"| == 4 && |"root_relative_path"| == 18;
    assert |"source_format"| == 13 && |"configuration_uuid"| == 18 && |"identity_status"| == 15;
    assert "root_relative_path"[0] == 'r' && "configuration_uuid"[0] == 'c';
    KeysOfSeven(f);
  }

  lemma KeysOfSeven(f: seq<Field>)
    requires |f| == 7
    ensures Keys(f) == {f[0].key, f[1].key, f[2].key, f[3].key, f[4].key, f[5].key, f[6].key}
  {
    forall i | 0 <= i < 7 ensures f[i].key in Keys(f) {
    }
  }

  lemma KeysOfFive(f: seq<Field>)
    requires |f| == 5
    ensures Keys(f) == {f[0].key, f[1].key, f[2].key, f[3].key, f[4].key}
  {
    forall i | 0 <= i < 5 ensures f[i].key in Keys(f) {
    }
  }

  lemma FieldsDistinct(v: Json)
    requires Distinct(v) && v.Obj?
    ensures forall k :: 0 <= k < |v.fields| ==> Distinct(v.fields[k].value)
  {
  }

  lemma DistinctObject(v: Json)
    requires Distinct(v) && v.Obj?
    ensures DistinctKeys(v.fields) && forall key :: key in Keys(v.fields) ==> Distinct(Get(v.fields, key))
  {
    forall key | key in Keys(v.fields) ensures Distinct(Get(v.fields, key)) {
      var i :| 0 <= i < |v.fields| && v.fields[i].key == key;
      GetIs(v.fields, i);
    }
  }

  ghost predicate Scalars(f: seq<Field>) {
    forall i :: 0 <= i < |f| ==> f[i].value.Null? || f[i].value.Int? || f[i].value.Str? || f[i].value.Bool?
  }

  /** An object of scalars is the same as a list of fields if it has these keys with exactly these values. */
  lemma ScalarsIs(v: Json, f: seq<Field>)
    requires Distinct(v) && DistinctKeys(f) && Scalars(f)
    ensures Same(v, Obj(f)) <==>
      v.Obj? && Keys(v.fields) == Keys(f) && forall i :: 0 <= i < |f| ==> Get(v.fields, f[i].key) == f[i].value
  {
    hide Same, Distinct, DistinctKeys, Keys, Get;
    if v.Obj? {
      DistinctObject(v);
      ObjectIs(v.fields, f);
      forall i | 0 <= i < |f| ensures Same(Get(v.fields, f[i].key), f[i].value) <==>
        Get(v.fields, f[i].key) == f[i].value {
        ScalarSame(Get(v.fields, f[i].key), f[i].value);
      }
    } else {
      NotObject(v, f);
    }
  }

  ghost predicate SaysLayer(a: seq<Field>, l: Layer) {
    && Get(a, "layer_id") == Str(l.layerId) && Get(a, "ordinal") == Int(l.ordinal) && Get(a, "kind") == Str(l.kind)
    && Get(a, "root_relative_path") == Str(l.root) && Get(a, "source_format") == Str(l.format)
    && Get(a, "configuration_uuid") == Null && Get(a, "identity_status") == Str("unresolved")
  }

  lemma LayerSays(a: seq<Field>, l: Layer)
    ensures var f := LayerDocument(l).fields;
      (forall i :: 0 <= i < |f| ==> Get(a, f[i].key) == f[i].value) <==> SaysLayer(a, l)
  {
    hide Get;
    var f := LayerDocument(l).fields;
    assert |f| == 7 && f[0] == Field("layer_id", Str(l.layerId)) && f[1] == Field("ordinal", Int(l.ordinal))
      && f[2] == Field("kind", Str(l.kind)) && f[3] == Field("root_relative_path", Str(l.root))
      && f[4] == Field("source_format", Str(l.format)) && f[5] == Field("configuration_uuid", Null)
      && f[6] == Field("identity_status", Str("unresolved"));
  }

  lemma LayerRead(v: Json, l: Layer)
    ensures ReadLayer(v) == Some(l) <==> v.Obj? && Keys(v.fields) == LAYER_KEYS && SaysLayer(v.fields, l)
  {
    hide Get, Keys, LAYER_KEYS;
  }

  lemma LayerReads(v: Json, l: Layer)
    requires Distinct(v)
    ensures ReadLayer(v) == Some(l) <==> Same(v, LayerDocument(l))
  {
    hide *;
    LayerKeys(l);
    LayerRead(v, l);
    if v.Obj? {
      LayerSays(v.fields, l);
    }
    LayerIsObject(l);
    ScalarsIs(v, LayerDocument(l).fields);
  }

  lemma LayerIsObject(l: Layer)
    ensures LayerDocument(l) == Obj(LayerDocument(l).fields) && Scalars(LayerDocument(l).fields)
  {
  }

  lemma ExclusionReads(v: Json, x: Exclusion)
    requires Distinct(v)
    ensures ReadExclusion(v) == Some(x) <==> Same(v, ExclusionDocument(x))
  {
    var f := ExclusionDocument(x).fields;
    assert |"layer_id"| != |"relative_path"|;
    KeysOfTwo(f);
    hide Same, Distinct, Keys, Get;
    ScalarsIs(v, f);
  }

  lemma KeysOfTwo(f: seq<Field>)
    requires |f| == 2
    ensures Keys(f) == {f[0].key, f[1].key}
  {
    forall i | 0 <= i < 2 ensures f[i].key in Keys(f) {
    }
  }

  lemma EncodingReads(v: Json, e: Encoding)
    ensures ReadEncoding(v) == Some(e) <==> v == EncodingDocument(e)
  {
    assert |"utf-8"| != |"utf-8-sig"|;
  }

  lemma EntryKeys(e: Entry)
    ensures var fields := EntryDocument(e).fields; DistinctKeys(fields) && Keys(fields) == ENTRY_KEYS && Scalars(fields)
  {
    var f := EntryDocument(e).fields;
    assert |"layer_id"| == 8 && |"relative_path"| == 13 && |"raw_sha256"| == 10 && |"size_bytes"| == 10;
    assert "raw_sha256"[0] == 'r' && "size_bytes"[0] == 's' && |"encoding"| == 8 && "encoding"[0] == 'e';
    assert "layer_id"[0] == 'l';
    KeysOfFive(f);
  }

  ghost predicate SaysEntry(a: seq<Field>, e: Entry) {
    && Get(a, "layer_id") == Str(e.layerId) && Get(a, "relative_path") == Str(e.path)
    && Get(a, "raw_sha256") == Str(e.hash) && Get(a, "size_bytes") == Int(e.size)
    && Get(a, "encoding") == EncodingDocument(e.encoding)
  }

  lemma EntrySays(a: seq<Field>, e: Entry)
    ensures var f := EntryDocument(e).fields;
      (forall i :: 0 <= i < |f| ==> Get(a, f[i].key) == f[i].value) <==> SaysEntry(a, e)
  {
    hide Get, EncodingDocument;
    var f := EntryDocument(e).fields;
    assert |f| == 5 && f[0] == Field("layer_id", Str(e.layerId)) && f[1] == Field("relative_path", Str(e.path))
      && f[2] == Field("raw_sha256", Str(e.hash)) && f[3] == Field("size_bytes", Int(e.size))
      && f[4] == Field("encoding", EncodingDocument(e.encoding));
  }

  lemma EntryRead(v: Json, e: Entry)
    ensures ReadEntry(v) == Some(e) <==> v.Obj? && Keys(v.fields) == ENTRY_KEYS && SaysEntry(v.fields, e)
  {
    if v.Obj? {
      EncodingReads(Get(v.fields, "encoding"), e.encoding);
    }
    hide Get, Keys, ENTRY_KEYS, EncodingDocument, ReadEncoding;
  }

  lemma EntryReads(v: Json, e: Entry)
    requires Distinct(v)
    ensures ReadEntry(v) == Some(e) <==> Same(v, EntryDocument(e))
  {
    hide *;
    EntryKeys(e);
    EntryRead(v, e);
    if v.Obj? {
      EntrySays(v.fields, e);
    }
    EntryIsObject(e);
    ScalarsIs(v, EntryDocument(e).fields);
  }

  lemma EntryIsObject(e: Entry)
    ensures EntryDocument(e) == Obj(EntryDocument(e).fields)
  {
  }

  /** A list is the same as the documents of some values if its items are, one by one. */
  lemma ListIs(v: Json, items: seq<Json>)
    ensures Same(v, Arr(items)) <==>
      v.Arr? && |v.items| == |items| && forall k :: 0 <= k < |items| ==> Same(v.items[k], items[k])
  {
  }

  lemma {:induction false} AllReads<T>(read: Json -> Option<T>, document: T -> Json, items: seq<Json>, values: seq<T>)
    requires forall k, x :: 0 <= k < |items| ==> (read(items[k]) == Some(x) <==> Same(items[k], document(x)))
    ensures ReadAll(read, items) == Some(values) <==>
      |items| == |values| && forall k :: 0 <= k < |items| ==> Same(items[k], document(values[k]))
  {
    hide Same;
    if items != [] && values != [] {
      AllReads(read, document, items[1..], values[1..]);
      assert values == [values[0]] + values[1..];
      var all := ReadAll(read, items);
      if all == Some(values) {
        assert read(items[0]) == Some(values[0]) && ReadAll(read, items[1..]) == Some(values[1..]);
        forall k | 0 <= k < |items| ensures Same(items[k], document(values[k])) {
          if k > 0 {
            assert items[1..][k - 1] == items[k] && values[1..][k - 1] == values[k];
          }
        }
      }
      if |items| == |values| && forall k :: 0 <= k < |items| ==> Same(items[k], document(values[k])) {
        assert forall k :: 0 <= k < |items| - 1 ==> items[1..][k] == items[k + 1] && values[1..][k] == values[k + 1];
        assert read(items[0]) == Some(values[0]);
      }
    }
  }

  // --- The source document as a whole ---------------------------------------------------

  lemma SourceKeys(c: Contents)
    ensures var fields := DocumentOf(c).fields; DistinctKeys(fields) && Keys(fields) == SOURCE_KEYS
  {
    hide Mapped;
    var f := DocumentOf(c).fields;
    assert |"format_version"| == 14 && |"project_id"| == 10 && |"layers"| == 6;
    assert |"excluded_state_subtrees"| == 23 && |"entries"| == 7;
    KeysOfFive(f);
  }

  ghost predicate SaysSource(a: seq<Field>, c: Contents) {
    && Same(Get(a, "format_version"), Int(1)) && Same(Get(a, "project_id"), Str(c.project))
    && Same(Get(a, "layers"), Arr(Mapped(LayerDocument, c.layers)))
    && Same(Get(a, "excluded_state_subtrees"), Arr(Mapped(ExclusionDocument, c.exclusions)))
    && Same(Get(a, "entries"), Arr(Mapped(EntryDocument, c.entries)))
  }

  lemma SourceSays(a: seq<Field>, c: Contents)
    ensures DocumentOf(c).Obj?
    ensures var f := DocumentOf(c).fields;
      (forall i :: 0 <= i < |f| ==> Same(Get(a, f[i].key), f[i].value)) <==> SaysSource(a, c)
  {
    hide Get, Mapped, Same;
    var f := DocumentOf(c).fields;
    assert |f| == 5 && f[0] == Field("format_version", Int(1)) && f[1] == Field("project_id", Str(c.project))
      && f[2] == Field("layers", Arr(Mapped(LayerDocument, c.layers)))
      && f[3] == Field("excluded_state_subtrees", Arr(Mapped(ExclusionDocument, c.exclusions)))
      && f[4] == Field("entries", Arr(Mapped(EntryDocument, c.entries)));
  }

  ghost predicate ListReads<T>(read: Json -> Option<T>, document: T -> Json, v: Json, values: seq<T>) {
    Same(v, Arr(Mapped(document, values))) <==> v.Arr? && ReadAll(read, v.items) == Some(values)
  }

  lemma ListReadsFrom<T>(read: Json -> Option<T>, document: T -> Json, v: Json, values: seq<T>)
    requires v.Arr? ==> forall k, x :: 0 <= k < |v.items| ==>
      (read(v.items[k]) == Some(x) <==> Same(v.items[k], document(x)))
    ensures ListReads(read, document, v, values)
  {
    ListIs(v, Mapped(document, values));
    hide Same;
    if v.Arr? {
      AllReads(read, document, v.items, values);
    }
  }

  lemma DistinctItems(v: Json)
    requires Distinct(v) && v.Arr?
    ensures forall k :: 0 <= k < |v.items| ==> Distinct(v.items[k])
  {
  }

  lemma LayersRead(v: Json, layers: seq<Layer>)
    requires Distinct(v)
    ensures ListReads(ReadLayer, LayerDocument, v, layers)
  {
    hide *;
    if v.Arr? {
      DistinctItems(v);
      forall k, x | 0 <= k < |v.items|
        ensures ReadLayer(v.items[k]) == Some(x) <==> Same(v.items[k], LayerDocument(x)) {
        LayerReads(v.items[k], x);
      }
    }
    ListReadsFrom(ReadLayer, LayerDocument, v, layers);
  }

  lemma ExclusionsRead(v: Json, exclusions: seq<Exclusion>)
    requires Distinct(v)
    ensures ListReads(ReadExclusion, ExclusionDocument, v, exclusions)
  {
    hide *;
    if v.Arr? {
      DistinctItems(v);
      forall k, x | 0 <= k < |v.items|
        ensures ReadExclusion(v.items[k]) == Some(x) <==> Same(v.items[k], ExclusionDocument(x)) {
        ExclusionReads(v.items[k], x);
      }
    }
    ListReadsFrom(ReadExclusion, ExclusionDocument, v, exclusions);
  }

  lemma EntriesRead(v: Json, entries: seq<Entry>)
    requires Distinct(v)
    ensures ListReads(ReadEntry, EntryDocument, v, entries)
  {
    hide *;
    if v.Arr? {
      DistinctItems(v);
      forall k, x | 0 <= k < |v.items|
        ensures ReadEntry(v.items[k]) == Some(x) <==> Same(v.items[k], EntryDocument(x)) {
        EntryReads(v.items[k], x);
      }
    }
    ListReadsFrom(ReadEntry, EntryDocument, v, entries);
  }

  lemma PartsRead(v: Json, c: Contents)
    requires v.Obj? ==>
      && ListReads(ReadLayer, LayerDocument, Get(v.fields, "layers"), c.layers)
      && ListReads(ReadExclusion, ExclusionDocument, Get(v.fields, "excluded_state_subtrees"), c.exclusions)
      && ListReads(ReadEntry, EntryDocument, Get(v.fields, "entries"), c.entries)
      && (Same(Get(v.fields, "format_version"), Int(1)) <==> Get(v.fields, "format_version") == Int(1))
      && (Same(Get(v.fields, "project_id"), Str(c.project)) <==> Get(v.fields, "project_id") == Str(c.project))
    ensures ReadParts(v) == Some(c) <==> v.Obj? && Keys(v.fields) == SOURCE_KEYS && SaysSource(v.fields, c)
  {
    hide Get, Keys, SOURCE_KEYS, Same, Mapped, ReadAll, ReadLayer, ReadExclusion, ReadEntry;
    hide LayerDocument, ExclusionDocument, EntryDocument;
  }

  /** The parts of a document are read if and only if it is the document of these parts. */
  lemma PartsExactly(v: Json, c: Contents)
    requires Distinct(v)
    ensures ReadParts(v) == Some(c) <==> Same(v, DocumentOf(c))
  {
    hide *;
    SourceKeys(c);
    SourceSays([], c);
    if v.Obj? {
      DistinctObject(v);
      FieldsDistinct(v);
      GetDistinct(v.fields, "layers");
      GetDistinct(v.fields, "excluded_state_subtrees");
      GetDistinct(v.fields, "entries");
      LayersRead(Get(v.fields, "layers"), c.layers);
      ExclusionsRead(Get(v.fields, "excluded_state_subtrees"), c.exclusions);
      EntriesRead(Get(v.fields, "entries"), c.entries);
      ScalarSame(Get(v.fields, "format_version"), Int(1));
      ScalarSame(Get(v.fields, "project_id"), Str(c.project));
      SourceSays(v.fields, c);
      ObjectIs(v.fields, DocumentOf(c).fields);
    } else {
      NotObject(v, DocumentOf(c).fields);
    }
    PartsRead(v, c);
  }

  // --- Readers and builders -------------------------------------------------------------

  /** The reader accepts a document if and only if it is the document of proper contents, and reads these. */
  lemma SourceExactly(rules: Rules, v: Json, c: Contents)
    requires Distinct(v)
    ensures ReadSource(rules, v) == Some(c) <==> Same(v, DocumentOf(c)) && Proper(rules, c)
  {
    PartsExactly(v, c);
    hide ReadParts, Same, Proper, DocumentOf, Distinct;
  }

  /** What is built from these, in the order in which it is built. */
  function InOrder(project: string, layers: seq<Layer>, exclusions: seq<Exclusion>, entries: seq<Entry>): Contents {
    Contents(project, layers, SortedExclusions(layers, exclusions), SortedEntries(layers, entries))
  }

  lemma BuiltIs(project: string, layers: seq<Layer>, exclusions: seq<Exclusion>, entries: seq<Entry>)
    ensures BuildSource(project, layers, exclusions, entries) ==
      DocumentOf(InOrder(project, layers, exclusions, entries))
  {
  }

  lemma ScalarsDistinct(f: seq<Field>)
    requires DistinctKeys(f) && Scalars(f)
    ensures Distinct(Obj(f))
  {
  }

  lemma ItemsDistinct(c: Contents)
    ensures Distinct(Arr(Mapped(LayerDocument, c.layers))) && Distinct(Arr(Mapped(ExclusionDocument, c.exclusions)))
    ensures Distinct(Arr(Mapped(EntryDocument, c.entries)))
  {
    hide LayerDocument, ExclusionDocument, EntryDocument;
    forall l: Layer ensures Distinct(LayerDocument(l)) {
      LayerKeys(l);
      LayerIsObject(l);
      ScalarsDistinct(LayerDocument(l).fields);
    }
    forall x: Exclusion ensures Distinct(ExclusionDocument(x)) {
      ExclusionDistinct(x);
    }
    forall e: Entry ensures Distinct(EntryDocument(e)) {
      EntryKeys(e);
      EntryIsObject(e);
      ScalarsDistinct(EntryDocument(e).fields);
    }
  }

  lemma ExclusionDistinct(x: Exclusion)
    ensures Distinct(ExclusionDocument(x))
  {
    assert |"layer_id"| != |"relative_path"|;
  }

  lemma DocumentDistinct(c: Contents)
    ensures Distinct(DocumentOf(c))
  {
    SourceKeys(c);
    ItemsDistinct(c);
    hide Mapped, DistinctKeys, Keys;
  }

  /** Proper contents have canonical bytes. */
  lemma ProperInDomain(rules: Rules, c: Contents)
    requires Proper(rules, c)
    ensures InDomain(DocumentOf(c))
  {
    hide Known, SortedEntries, SortedExclusions, PathsOf;
    forall k | 0 <= k < |c.layers| ensures InDomain(LayerDocument(c.layers[k])) {
      LayerInDomain(c.layers[k]);
    }
    forall k | 0 <= k < |c.exclusions| ensures InDomain(ExclusionDocument(c.exclusions[k])) {
      ExclusionInDomain(c.exclusions[k]);
    }
    forall k | 0 <= k < |c.entries| ensures InDomain(EntryDocument(c.entries[k])) {
      EntryInDomain(c.entries[k]);
    }
    hide LayerDocument, ExclusionDocument, EntryDocument;
    assert InDomain(Arr(Mapped(LayerDocument, c.layers))) && InDomain(Arr(Mapped(ExclusionDocument, c.exclusions)));
    assert InDomain(Arr(Mapped(EntryDocument, c.entries)));
    hide Mapped;
  }

  lemma LayerInDomain(l: Layer)
    requires l.ordinal < INTEGER_LIMIT
    ensures InDomain(LayerDocument(l))
  {
  }

  lemma ExclusionInDomain(x: Exclusion)
    ensures InDomain(ExclusionDocument(x))
  {
  }

  lemma EntryInDomain(e: Entry)
    requires e.size < INTEGER_LIMIT
    ensures InDomain(EntryDocument(e))
  {
  }

  /** Bytes are read if and only if they are the canonical bytes of a document of proper contents, and these are
      read. */
  lemma ParsedExactly(rules: Rules, load: Bytes -> Option<Json>, raw: Bytes, c: Contents)
    requires Loads(load)
    ensures ParsedSource(rules, load, raw) == Some(c) <==> Proper(rules, c) && raw == CanonicalBytes(DocumentOf(c))
  {
    hide Proper, Same, DocumentOf, Distinct, ReadSource, CanonicalBytes, InDomain;
    DocumentDistinct(c);
    DecodeAcceptsExactly(load, raw, DocumentOf(c));
    if Proper(rules, c) {
      ProperInDomain(rules, c);
    }
    var v := CanonicalDocuments.Decode(load, raw);
    if v.Some? {
      SourceExactly(rules, v.value, c);
      SortedIffSame(v.value, DocumentOf(c));
      SortedIffSame(DocumentOf(c), v.value);
    }
  }

  /** What is built is built from proper contents, and is read as these contents in order; and whatever is read is
      what would be built from it. */
  lemma SourceRoundTrip(rules: Rules, load: Bytes -> Option<Json>, project: string, layers: seq<Layer>,
                        exclusions: seq<Exclusion>, entries: seq<Entry>, raw: Bytes)
    requires Loads(load)
    ensures var c := InOrder(project, layers, exclusions, entries);
      && (BuiltSource(rules, project, layers, exclusions, entries).Some? <==> Proper(rules, c))
      && (BuiltSource(rules, project, layers, exclusions, entries) == Some(raw) <==>
           ParsedSource(rules, load, raw) == Some(c))
  {
    hide *;
    BuiltExactly(rules, project, layers, exclusions, entries);
    ParsedExactly(rules, load, raw, InOrder(project, layers, exclusions, entries));
  }

  lemma BuiltExactly(rules: Rules, project: string, layers: seq<Layer>, exclusions: seq<Exclusion>,
                     entries: seq<Entry>)
    ensures var c := InOrder(project, layers, exclusions, entries);
      BuiltSource(rules, project, layers, exclusions, entries) ==
        if Proper(rules, c) then Some(CanonicalBytes(DocumentOf(c))) else None
  {
    var c := InOrder(project, layers, exclusions, entries);
    BuiltIs(project, layers, exclusions, entries);
    DocumentDistinct(c);
    SortedIffSame(DocumentOf(c), DocumentOf(c));
    PartsExactly(DocumentOf(c), c);
    if Proper(rules, c) {
      ProperInDomain(rules, c);
    }
    hide Proper, Same, DocumentOf, Distinct, ReadParts, InDomain, CanonicalBytes, BuildSource, InOrder;
  }

  // --- The manifest of a sealed generation ----------------------------------------------

  datatype Manifest = Manifest(source: Contents, graph: Json, derived: seq<Derived>)

  const MANIFEST_KEYS := {
    "format_version", "canonicalization", "project_id", "source", "source_digest", "capture", "graph", "derived_inputs"
  }

  const GRAPH_KEYS := {
    "relative_path", "raw_sha256", "schema_version", "identity_version", "source_digest", "input_binding_hash",
    "adapter_version", "scanner_version", "builder_version", "sqlite_version", "options_hash", "semantic_scope",
      "quality"
  }

  predicate GraphHash(graph: seq<Field>, key: string) {
    Get(graph, key).Str? && IsHash(Get(graph, key).s)
  }

  /** The provenance of a graph that was built from the source of this digest. */
  predicate GraphFits(graph: Json, digest: string) {
    && graph.Obj? && Keys(graph.fields) == GRAPH_KEYS
    && (forall key :: key in GRAPH_KEYS ==> Get(graph.fields, key).Str? && Get(graph.fields, key).s != "")
    && GraphHash(graph.fields, "raw_sha256") && GraphHash(graph.fields, "source_digest")
    && GraphHash(graph.fields, "input_binding_hash") && GraphHash(graph.fields, "options_hash")
    && Get(graph.fields, "relative_path") == Str("graph.sqlite3") && Get(graph.fields, "schema_version") == Str("2")
    && Get(graph.fields, "identity_version") == Str("source-path-v1")
    && Get(graph.fields, "source_digest") == Str(digest) && Get(graph.fields, "quality") == Str("unavailable")
    && Get(graph.fields, "semantic_scope") ==
         Str("bounded_static_calls; preprocessing and dynamic types unresolved")
    && Get(graph.fields, "adapter_version") in {
         Str("rentgen-captured-go-v1"), Str("rentgen-captured-owned-go-v1")}
  }

  /** The guarantee of every capture. */
  predicate CaptureFits(v: Json) {
    && v.Obj? && Keys(v.fields) == {"bytes_immutable", "method", "temporal_atomicity"}
    && Get(v.fields, "bytes_immutable") == Bool(true)
    && Get(v.fields, "method") == Str("working_tree_verified_passes_v1")
    && Get(v.fields, "temporal_atomicity") == Str("not_proven")
  }

  lemma CaptureReads(v: Json)
    requires Distinct(v)
    ensures CaptureFits(v) <==> Same(v, CaptureDocument())
  {
    var f := CaptureDocument().fields;
    CaptureKeys(f);
    hide Same, Distinct, DistinctKeys, Keys, Get, Scalars;
    ScalarsIs(v, f);
    assert |f| == 3 && f[0] == Field("bytes_immutable", Bool(true))
      && f[1] == Field("method", Str("working_tree_verified_passes_v1"))
      && f[2] == Field("temporal_atomicity", Str("not_proven"));
  }

  lemma CaptureKeys(f: seq<Field>)
    requires f == CaptureDocument().fields
    ensures DistinctKeys(f) && Scalars(f) && Keys(f) == {"bytes_immutable", "method", "temporal_atomicity"}
  {
    assert |"bytes_immutable"| == 15 && |"method"| == 6 && |"temporal_atomicity"| == 18;
    KeysOfThree(f);
  }

  function ReadDerived(v: Json): Option<Derived> {
    if !v.Obj? || Keys(v.fields) != {"relative_path", "raw_sha256", "size_bytes"} then None
    else
      var (path, hash) := (Get(v.fields, "relative_path"), Get(v.fields, "raw_sha256"));
      var size := Get(v.fields, "size_bytes");
      if path.Str? && hash.Str? && size.Int? && size.n >= 0 then Some(Derived(path.s, hash.s, size.n)) else None
  }

  /** The two derived inputs, in order. */
  predicate DerivedFit(derived: seq<Derived>) {
    && |derived| == 2 && derived[0].path == "inputs/callgraph.ndjson"
    && derived[1].path == "inputs/scanner-coverage.json"
    && forall k :: 0 <= k < 2 ==> IsHash(derived[k].hash) && derived[k].size < INTEGER_LIMIT
  }

  /** What the reader makes of a manifest; `digest` is that of bytes. */
  ghost function ReadManifest(rules: Rules, digest: Bytes -> string, v: Json): Option<Manifest> {
    if !v.Obj? || Keys(v.fields) != MANIFEST_KEYS then None
    else if Get(v.fields, "format_version") != Int(1) || Get(v.fields, "canonicalization") != Str("rentgen-json-v1")
      then None
    else
      var (document, graph) := (Get(v.fields, "source"), Get(v.fields, "graph"));
      var (source, items) := (ReadSource(rules, document), Get(v.fields, "derived_inputs"));
      if source == None || Get(v.fields, "project_id") != Str(source.value.project) then None
      else if Get(v.fields, "source_digest") != Str(digest(CanonicalBytes(document))) then None
      else if !CaptureFits(Get(v.fields, "capture")) then None
      else if !GraphFits(graph, digest(CanonicalBytes(document))) || !items.Arr? then None
      else
        var derived := ReadAll(ReadDerived, items.items);
        if derived.Some? && DerivedFit(derived.value) then Some(Manifest(source.value, graph, derived.value)) else None
  }

  function DigestOf(digest: Bytes -> string, c: Contents): string {
    digest(CanonicalBytes(DocumentOf(c)))
  }

  function ManifestOf(digest: Bytes -> string, m: Manifest): Json {
    ManifestDocument(m.source.project, DocumentOf(m.source), DigestOf(digest, m.source), m.graph, m.derived)
  }

  ghost predicate ManifestFits(rules: Rules, digest: Bytes -> string, m: Manifest) {
    Proper(rules, m.source) && GraphFits(m.graph, DigestOf(digest, m.source)) && DerivedFit(m.derived)
  }

  lemma DerivedKeys(d: Derived)
    ensures var f := DerivedDocument(d).fields;
      DistinctKeys(f) && Scalars(f) && Keys(f) == {"relative_path", "raw_sha256", "size_bytes"}
    ensures DerivedDocument(d) == Obj(DerivedDocument(d).fields)
  {
    var f := DerivedDocument(d).fields;
    assert |"relative_path"| == 13 && |"raw_sha256"| == 10 && |"size_bytes"| == 10;
    assert "raw_sha256"[0] == 'r' && "size_bytes"[0] == 's';
    KeysOfThree(f);
  }

  lemma KeysOfThree(f: seq<Field>)
    requires |f| == 3
    ensures Keys(f) == {f[0].key, f[1].key, f[2].key}
  {
    forall i | 0 <= i < 3 ensures f[i].key in Keys(f) {
    }
  }

  lemma DerivedReads(v: Json, d: Derived)
    requires Distinct(v)
    ensures ReadDerived(v) == Some(d) <==> Same(v, DerivedDocument(d))
  {
    var f := DerivedDocument(d).fields;
    DerivedKeys(d);
    hide Same, Distinct, DistinctKeys, Keys, Get, Scalars;
    ScalarsIs(v, f);
    assert |f| == 3 && f[0] == Field("relative_path", Str(d.path)) && f[1] == Field("raw_sha256", Str(d.hash))
      && f[2] == Field("size_bytes", Int(d.size));
  }

  lemma {:induction false} DerivedAre(derived: seq<Derived>)
    ensures DerivedDocuments(derived) == Mapped(DerivedDocument, derived)
  {
    hide DerivedDocument;
    if derived != [] {
      DerivedAre(derived[1..]);
    }
  }

  lemma DerivedListReads(v: Json, derived: seq<Derived>)
    requires Distinct(v)
    ensures Same(v, Arr(DerivedDocuments(derived))) <==> v.Arr? && ReadAll(ReadDerived, v.items) == Some(derived)
  {
    hide *;
    DerivedAre(derived);
    if v.Arr? {
      DistinctItems(v);
      forall k, x | 0 <= k < |v.items|
        ensures ReadDerived(v.items[k]) == Some(x) <==> Same(v.items[k], DerivedDocument(x)) {
        DerivedReads(v.items[k], x);
      }
    }
    ListReadsFrom(ReadDerived, DerivedDocument, v, derived);
    ListReadsMeans(ReadDerived, DerivedDocument, v, derived);
  }

  lemma ListReadsMeans<T>(read: Json -> Option<T>, document: T -> Json, v: Json, values: seq<T>)
    requires ListReads(read, document, v, values)
    ensures Same(v, Arr(Mapped(document, values))) <==> v.Arr? && ReadAll(read, v.items) == Some(values)
  {
  }

  ghost predicate SaysManifest(a: seq<Field>, digest: string, m: Manifest) {
    && Get(a, "format_version") == Int(1) && Get(a, "canonicalization") == Str("rentgen-json-v1")
    && Get(a, "project_id") == Str(m.source.project) && Same(Get(a, "source"), DocumentOf(m.source))
    && Get(a, "source_digest") == Str(digest) && Same(Get(a, "capture"), CaptureDocument())
    && Same(Get(a, "graph"), m.graph) && Same(Get(a, "derived_inputs"), Arr(DerivedDocuments(m.derived)))
  }

  function ManifestAt(digest: string, m: Manifest, k: nat): Field
    requires k < 8
  {
    match k
    case 0 => Field("format_version", Int(1))
    case 1 => Field("canonicalization", Str("rentgen-json-v1"))
    case 2 => Field("project_id", Str(m.source.project))
    case 3 => Field("source", DocumentOf(m.source))
    case 4 => Field("source_digest", Str(digest))
    case 5 => Field("capture", CaptureDocument())
    case 6 => Field("graph", m.graph)
    case _ => Field("derived_inputs", Arr(DerivedDocuments(m.derived)))
  }

  lemma ManifestIs(digest: string, m: Manifest)
    ensures var v := ManifestDocument(m.source.project, DocumentOf(m.source), digest, m.graph, m.derived);
      v.Obj? && |v.fields| == 8 && forall k :: 0 <= k < 8 ==> v.fields[k] == ManifestAt(digest, m, k)
  {
    hide DocumentOf, CaptureDocument, DerivedDocuments;
  }

  lemma ManifestKeys(digest: string, m: Manifest, f: seq<Field>)
    requires |f| == 8 && forall k :: 0 <= k < 8 ==> f[k] == ManifestAt(digest, m, k)
    ensures DistinctKeys(f) && Keys(f) == MANIFEST_KEYS
  {
    hide DocumentOf, CaptureDocument, DerivedDocuments;
    assert |"format_version"| == 14 && |"canonicalization"| == 16 && |"project_id"| == 10 && |"source"| == 6;
    assert |"source_digest"| == 13 && |"capture"| == 7 && |"graph"| == 5;
    assert |"derived_inputs"| == 14 && "derived_inputs"[0] == 'd' && "format_version"[0] == 'f';
    forall i | 0 <= i < 8 ensures f[i].key in Keys(f) {
    }
    assert f[0].key == "format_version" && f[1].key == "canonicalization" && f[2].key == "project_id"
      && f[3].key == "source" && f[4].key == "source_digest" && f[5].key == "capture" && f[6].key == "graph"
      && f[7].key == "derived_inputs";
  }

  lemma ManifestSays(a: seq<Field>, digest: string, m: Manifest, f: seq<Field>)
    requires |f| == 8 && forall k :: 0 <= k < 8 ==> f[k] == ManifestAt(digest, m, k)
    ensures (forall i :: 0 <= i < 8 ==> Same(Get(a, f[i].key), f[i].value)) <==> SaysManifest(a, digest, m)
  {
    ScalarSame(Get(a, "format_version"), Int(1));
    ScalarSame(Get(a, "canonicalization"), Str("rentgen-json-v1"));
    ScalarSame(Get(a, "project_id"), Str(m.source.project));
    ScalarSame(Get(a, "source_digest"), Str(digest));
    hide Same, Get, DocumentOf, CaptureDocument, DerivedDocuments;
    assert f[0].key == "format_version" && f[1].key == "canonicalization" && f[2].key == "project_id"
      && f[3].key == "source" && f[4].key == "source_digest" && f[5].key == "capture" && f[6].key == "graph"
      && f[7].key == "derived_inputs";
  }

  /** A document is the same as the manifest of these parts if it says so under each key. */
  lemma ManifestSame(digest: Bytes -> string, v: Json, m: Manifest)
    requires Distinct(v)
    ensures Same(v, ManifestOf(digest, m)) <==>
      v.Obj? && Keys(v.fields) == MANIFEST_KEYS && SaysManifest(v.fields, DigestOf(digest, m.source), m)
  {
    var d := DigestOf(digest, m.source);
    hide *;
    var w := ManifestDocument(m.source.project, DocumentOf(m.source), d, m.graph, m.derived);
    ManifestOfIs(digest, m);
    ManifestIs(d, m);
    ManifestKeys(d, m, w.fields);
    if v.Obj? {
      DistinctObject(v);
      ManifestSays(v.fields, d, m, w.fields);
      ObjectIs(v.fields, w.fields);
    } else {
      NotObject(v, w.fields);
    }
  }

  lemma ManifestOfIs(digest: Bytes -> string, m: Manifest)
    ensures ManifestOf(digest, m) ==
      ManifestDocument(m.source.project, DocumentOf(m.source), DigestOf(digest, m.source), m.graph, m.derived)
  {
  }

  lemma GraphSame(graph: Json, other: Json, digest: string)
    requires Distinct(graph) && Distinct(other) && Same(other, graph) && GraphFits(graph, digest)
    ensures GraphFits(other, digest)
  {
    hide Distinct, Same, GRAPH_KEYS, GraphHash;
    if !other.Obj? {
      NotObject(other, graph.fields);
      assert false;
    } else {
      DistinctObject(graph);
      DistinctObject(other);
      SameFields(other.fields, graph.fields);
      forall key | key in GRAPH_KEYS ensures Get(other.fields, key) == Get(graph.fields, key) {
        ScalarSame(Get(other.fields, key), Get(graph.fields, key));
      }
      SameGraph(graph.fields, other.fields, digest);
    }
  }

  lemma SameGraph(graph: seq<Field>, other: seq<Field>, digest: string)
    requires GraphFits(Obj(graph), digest) && Keys(other) == GRAPH_KEYS
    requires forall key :: key in GRAPH_KEYS ==> Get(other, key) == Get(graph, key)
    ensures GraphFits(Obj(other), digest)
  {
    hide Get, Keys;
  }

  lemma SameDigest(rules: Rules, digest: Bytes -> string, v: Json, c: Contents)
    requires Distinct(v) && Same(v, DocumentOf(c))
    ensures digest(CanonicalBytes(v)) == DigestOf(digest, c)
  {
    hide Same, Distinct, CanonicalBytes, DocumentOf;
    DocumentDistinct(c);
    SameBytesIffSame(v, DocumentOf(c));
  }

  /** What the reader asks of a document that it reads as these parts. */
  ghost predicate Accepts(rules: Rules, digest: Bytes -> string, v: Json, m: Manifest) {
    && v.Obj? && Keys(v.fields) == MANIFEST_KEYS
    && var (document, graph) := (Get(v.fields, "source"), Get(v.fields, "graph"));
       var (items, d) := (Get(v.fields, "derived_inputs"), digest(CanonicalBytes(document)));
       && Get(v.fields, "format_version") == Int(1) && Get(v.fields, "canonicalization") == Str("rentgen-json-v1")
       && ReadSource(rules, document) == Some(m.source) && Get(v.fields, "project_id") == Str(m.source.project)
       && Get(v.fields, "source_digest") == Str(d) && CaptureFits(Get(v.fields, "capture"))
       && graph == m.graph && GraphFits(graph, d)
       && items.Arr? && ReadAll(ReadDerived, items.items) == Some(m.derived) && DerivedFit(m.derived)
  }

  lemma ReadManifestIs(rules: Rules, digest: Bytes -> string, v: Json, m: Manifest)
    ensures ReadManifest(rules, digest, v) == Some(m) <==> Accepts(rules, digest, v, m)
  {
    hide Keys, Get, MANIFEST_KEYS, ReadSource, CanonicalBytes, Same, CaptureDocument, CaptureFits, GraphFits, ReadAll,
      DerivedFit;
    hide ReadDerived;
  }

  lemma AcceptsFitting(rules: Rules, digest: Bytes -> string, v: Json, m: Manifest)
    requires Distinct(v) && Accepts(rules, digest, v, m)
    ensures ManifestFits(rules, digest, m) && Same(v, ManifestOf(digest, m))
  {
    ValuesDistinct(v);
    var (document, graph) := (Get(v.fields, "source"), Get(v.fields, "graph"));
    hide Keys, Get, MANIFEST_KEYS, ReadSource, CanonicalBytes, Same, CaptureDocument, CaptureFits, GraphFits,
      DerivedFit, Distinct;
    hide ReadAll, ReadDerived, DigestOf, DocumentOf, DerivedDocuments, ManifestOf, Proper;
    SourceExactly(rules, document, m.source);
    SameDigest(rules, digest, document, m.source);
    SortedIffSame(graph, graph);
    DerivedListReads(Get(v.fields, "derived_inputs"), m.derived);
    CaptureReads(Get(v.fields, "capture"));
    ManifestSame(digest, v, m);
  }

  lemma FittingAccepts(rules: Rules, digest: Bytes -> string, v: Json, m: Manifest)
    requires Distinct(v) && Distinct(m.graph) && ManifestFits(rules, digest, m) && Same(v, ManifestOf(digest, m))
    ensures v.Obj? && Same(Get(v.fields, "graph"), m.graph)
    ensures Accepts(rules, digest, v, m.(graph := Get(v.fields, "graph")))
  {
    hide Keys, Get, MANIFEST_KEYS, ReadSource, CanonicalBytes, Same, CaptureDocument, CaptureFits, GraphFits,
      DerivedFit, Distinct;
    hide ReadAll, ReadDerived, DigestOf, DocumentOf, DerivedDocuments, ManifestOf, Proper;
    ManifestSame(digest, v, m);
    ValuesDistinct(v);
    var (document, graph) := (Get(v.fields, "source"), Get(v.fields, "graph"));
    SourceExactly(rules, document, m.source);
    SameDigest(rules, digest, document, m.source);
    GraphSame(m.graph, graph, DigestOf(digest, m.source));
    DerivedListReads(Get(v.fields, "derived_inputs"), m.derived);
    CaptureReads(Get(v.fields, "capture"));
  }

  /** Whatever the reader accepts is the manifest of what it reads, and fits together; and it accepts every manifest of
      parts that fit together, and reads them. */
  lemma ManifestExactly(rules: Rules, digest: Bytes -> string, v: Json, m: Manifest)
    requires Distinct(v) && Distinct(m.graph)
    ensures ReadManifest(rules, digest, v) == Some(m) ==>
      ManifestFits(rules, digest, m) && Same(v, ManifestOf(digest, m))
    ensures ManifestFits(rules, digest, m) && Same(v, ManifestOf(digest, m)) ==>
      var r := ReadManifest(rules, digest, v);
      r.Some? && r.value.source == m.source && r.value.derived == m.derived && Same(r.value.graph, m.graph)
  {
    hide *;
    ReadManifestIs(rules, digest, v, m);
    if Accepts(rules, digest, v, m) {
      AcceptsFitting(rules, digest, v, m);
    }
    if ManifestFits(rules, digest, m) && Same(v, ManifestOf(digest, m)) {
      FittingAccepts(rules, digest, v, m);
      ReadManifestIs(rules, digest, v, m.(graph := Get(v.fields, "graph")));
    }
  }

  lemma ValuesDistinct(v: Json)
    requires Distinct(v) && v.Obj?
    ensures Distinct(Get(v.fields, "source")) && Distinct(Get(v.fields, "graph"))
    ensures Distinct(Get(v.fields, "derived_inputs")) && Distinct(Get(v.fields, "capture"))
  {
    FieldsDistinct(v);
    hide Distinct, Get;
    GetDistinct(v.fields, "capture");
    GetDistinct(v.fields, "source");
    GetDistinct(v.fields, "graph");
    GetDistinct(v.fields, "derived_inputs");
  }

  lemma ManifestDistinct(digest: string, m: Manifest, source: Json)
    requires Distinct(m.graph) && Distinct(source)
    ensures Distinct(ManifestDocument(m.source.project, source, digest, m.graph, m.derived))
  {
    hide *;
    var v := ManifestDocument(m.source.project, source, digest, m.graph, m.derived);
    var w := ManifestDocument(m.source.project, DocumentOf(m.source), digest, m.graph, m.derived);
    ManifestIs(digest, m);
    ManifestKeys(digest, m, w.fields);
    SourceIn(digest, m, source);
    SameKeys(v.fields, w.fields);
    CaptureDistinct();
    DerivedDistinct(m.derived);
    ObjectDistinct(v);
  }

  lemma ObjectDistinct(v: Json)
    requires v.Obj? && DistinctKeys(v.fields) && forall k :: 0 <= k < |v.fields| ==> Distinct(v.fields[k].value)
    ensures Distinct(v)
  {
  }

  lemma ScalarDistinct(v: Json)
    requires v.Null? || v.Int? || v.Str? || v.Bool?
    ensures Distinct(v)
  {
  }

  /** The manifest around another form of its source. */
  lemma SourceIn(digest: string, m: Manifest, source: Json)
    requires Distinct(m.graph) && Distinct(source)
    ensures var v := ManifestDocument(m.source.project, source, digest, m.graph, m.derived);
      var w := ManifestDocument(m.source.project, DocumentOf(m.source), digest, m.graph, m.derived);
      && v.Obj? && w.Obj? && |v.fields| == |w.fields| == 8
      && (forall k :: 0 <= k < 8 ==> v.fields[k].key == w.fields[k].key)
      && (forall k :: 0 <= k < 8 ==> Distinct(v.fields[k].value))
  {
    CaptureDistinct();
    DerivedDistinct(m.derived);
    ScalarDistinct(Int(1));
    ScalarDistinct(Str("rentgen-json-v1"));
    ScalarDistinct(Str(m.source.project));
    ScalarDistinct(Str(digest));
    hide CaptureDocument, DerivedDocuments, DocumentOf, Distinct;
  }

  lemma SameKeys(a: seq<Field>, b: seq<Field>)
    requires |a| == |b| && DistinctKeys(b) && forall k :: 0 <= k < |a| ==> a[k].key == b[k].key
    ensures DistinctKeys(a) && Keys(a) == Keys(b)
  {
    forall k | 0 <= k < |a| ensures a[k].key in Keys(b) && b[k].key in Keys(a) {
    }
  }

  lemma CaptureDistinct()
    ensures Distinct(CaptureDocument()) && InDomain(CaptureDocument())
  {
    assert |"bytes_immutable"| == 15 && |"method"| == 6 && |"temporal_atomicity"| == 18;
  }

  lemma {:induction false} DerivedDistinct(derived: seq<Derived>)
    ensures Distinct(Arr(DerivedDocuments(derived)))
  {
    DerivedAre(derived);
    forall k | 0 <= k < |derived| ensures Distinct(DerivedDocument(derived[k])) {
      DerivedKeys(derived[k]);
      ScalarsDistinct(DerivedDocument(derived[k]).fields);
    }
    hide DerivedDocument;
  }

  /** The manifest says the same around any form of its source. */
  lemma SameManifest(digest: Bytes -> string, m: Manifest, source: Json)
    requires Distinct(m.graph) && Distinct(source) && Same(source, DocumentOf(m.source))
    ensures var d := DigestOf(digest, m.source);
      Same(ManifestDocument(m.source.project, source, d, m.graph, m.derived), ManifestOf(digest, m))
  {
    hide *;
    var d := DigestOf(digest, m.source);
    var v := ManifestDocument(m.source.project, source, d, m.graph, m.derived);
    ManifestDistinct(d, m, source);
    SourceIn(d, m, source);
    ManifestIs(d, m);
    ManifestKeys(d, m, ManifestDocument(m.source.project, DocumentOf(m.source), d, m.graph, m.derived).fields);
    SameKeys(v.fields, ManifestDocument(m.source.project, DocumentOf(m.source), d, m.graph, m.derived).fields);
    SaysItself(d, m, source);
    ManifestSame(digest, v, m);
  }

  lemma SaysItself(digest: string, m: Manifest, source: Json)
    requires Distinct(m.graph) && Distinct(source) && Same(source, DocumentOf(m.source))
    requires DistinctKeys(ManifestDocument(m.source.project, source, digest, m.graph, m.derived).fields)
    ensures SaysManifest(ManifestDocument(m.source.project, source, digest, m.graph, m.derived).fields, digest, m)
  {
    hide *;
    CaptureDistinct();
    DerivedDistinct(m.derived);
    SortedIffSame(CaptureDocument(), CaptureDocument());
    SortedIffSame(m.graph, m.graph);
    SortedIffSame(Arr(DerivedDocuments(m.derived)), Arr(DerivedDocuments(m.derived)));
    SourceIn(digest, m, source);
    var f := ManifestDocument(m.source.project, source, digest, m.graph, m.derived).fields;
    FieldsAre(digest, m, source);
    forall k | 0 <= k < 8 ensures Get(f, f[k].key) == f[k].value {
      GetIs(f, k);
    }
    SaysFields(f, digest, m, source);
  }

  lemma FieldsAre(digest: string, m: Manifest, source: Json)
    ensures var f := ManifestDocument(m.source.project, source, digest, m.graph, m.derived).fields;
      |f| == 8 && forall k :: 0 <= k < 8 ==>
        f[k] == if k == 3 then Field("source", source) else ManifestAt(digest, m, k)
  {
    hide DocumentOf, CaptureDocument, DerivedDocuments;
  }

  lemma SaysFields(f: seq<Field>, digest: string, m: Manifest, source: Json)
    requires |f| == 8 && forall k :: 0 <= k < 8 ==> f[k] == if k == 3 then Field("source", source)
      else ManifestAt(digest, m, k)
    requires forall k :: 0 <= k < 8 ==> Get(f, f[k].key) == f[k].value
    requires Same(source, DocumentOf(m.source)) && Same(CaptureDocument(), CaptureDocument())
    requires Same(m.graph, m.graph) && Same(Arr(DerivedDocuments(m.derived)), Arr(DerivedDocuments(m.derived)))
    ensures SaysManifest(f, digest, m)
  {
    hide Same, Get, CaptureDocument, DerivedDocuments, DocumentOf;
    assert f[0].key == "format_version" && f[1].key == "canonicalization" && f[2].key == "project_id"
      && f[3].key == "source" && f[4].key == "source_digest" && f[5].key == "capture" && f[6].key == "graph"
      && f[7].key == "derived_inputs";
  }

  lemma GraphInDomain(graph: Json, digest: string)
    requires Distinct(graph) && GraphFits(graph, digest)
    ensures InDomain(graph)
  {
    hide Get, GRAPH_KEYS, GraphHash, Distinct;
    DistinctObject(graph);
    forall k | 0 <= k < |graph.fields| ensures InDomain(graph.fields[k].value) {
      assert graph.fields[k].key in Keys(graph.fields);
      GetIs(graph.fields, k);
    }
  }

  lemma DerivedInDomain(derived: seq<Derived>)
    requires DerivedFit(derived)
    ensures InDomain(Arr(DerivedDocuments(derived)))
  {
    DerivedAre(derived);
    forall k | 0 <= k < |derived| ensures InDomain(DerivedDocument(derived[k])) {
      EachInDomain(derived[k]);
    }
    hide DerivedDocument;
  }

  lemma EachInDomain(d: Derived)
    requires d.size < INTEGER_LIMIT
    ensures InDomain(DerivedDocument(d))
  {
  }

  lemma ManifestInDomain(rules: Rules, digest: Bytes -> string, m: Manifest)
    requires Distinct(m.graph) && ManifestFits(rules, digest, m)
    ensures InDomain(ManifestOf(digest, m))
  {
    var d := DigestOf(digest, m.source);
    hide *;
    ManifestOfIs(digest, m);
    ManifestIs(d, m);
    FitsInDomain(rules, digest, m);
    ObjectInDomain(ManifestOf(digest, m));
  }

  lemma ObjectInDomain(v: Json)
    requires v.Obj? && forall k :: 0 <= k < |v.fields| ==> InDomain(v.fields[k].value)
    ensures InDomain(v)
  {
  }

  lemma ScalarInDomain(v: Json)
    requires v.Str? || v == Int(1)
    ensures InDomain(v)
  {
  }

  lemma FitsInDomain(rules: Rules, digest: Bytes -> string, m: Manifest)
    requires Distinct(m.graph) && ManifestFits(rules, digest, m)
    ensures forall k :: 0 <= k < 8 ==> InDomain(ManifestAt(DigestOf(digest, m.source), m, k).value)
  {
    hide *;
    var d := DigestOf(digest, m.source);
    FitsInto(rules, digest, m);
    ProperInDomain(rules, m.source);
    GraphInDomain(m.graph, d);
    DerivedInDomain(m.derived);
    CaptureDistinct();
    ScalarInDomain(Int(1));
    ScalarInDomain(Str("rentgen-json-v1"));
    ScalarInDomain(Str(m.source.project));
    ScalarInDomain(Str(d));
    forall k | 0 <= k < 8 ensures InDomain(ManifestAt(d, m, k).value) {
      AtInDomain(d, m, k);
    }
  }

  lemma FitsInto(rules: Rules, digest: Bytes -> string, m: Manifest)
    requires ManifestFits(rules, digest, m)
    ensures Proper(rules, m.source) && GraphFits(m.graph, DigestOf(digest, m.source)) && DerivedFit(m.derived)
  {
    hide Proper, GraphFits, DerivedFit, DigestOf;
  }

  lemma AtInDomain(digest: string, m: Manifest, k: nat)
    requires k < 8 && InDomain(DocumentOf(m.source)) && InDomain(CaptureDocument()) && InDomain(m.graph)
    requires InDomain(Arr(DerivedDocuments(m.derived))) && InDomain(Int(1)) && InDomain(Str("rentgen-json-v1"))
    requires InDomain(Str(m.source.project)) && InDomain(Str(digest))
    ensures InDomain(ManifestAt(digest, m, k).value)
  {
    hide InDomain, DocumentOf, CaptureDocument, DerivedDocuments;
  }

  /** A manifest that is built from an accepted source is accepted, and read as that source, with its provenance and its
      derived inputs. */
  lemma ManifestRoundTrip(rules: Rules, load: Bytes -> Option<Json>, projectOf: Json -> string, digest: Bytes -> string,
                          raw: Bytes, m: Manifest)
    requires Loads(load) && ParsedSource(rules, load, raw) == Some(m.source) && Distinct(m.graph)
    requires GraphFits(m.graph, digest(raw)) && DerivedFit(m.derived)
    requires forall v :: ReadSource(rules, v) == Some(m.source) ==> projectOf(v) == m.source.project
    ensures var built := BuildManifest(load, projectOf, digest, raw, m.graph, m.derived);
      && built == Some(CanonicalBytes(ManifestOf(digest, m)))
      && var v := CanonicalDocuments.Decode(load, built.value);
         v.Some? && var r := ReadManifest(rules, digest, v.value);
         r.Some? && r.value.source == m.source && r.value.derived == m.derived && Same(r.value.graph, m.graph)
  {
    hide *;
    ParsedExactly(rules, load, raw, m.source);
    var source := ParsedFrom(rules, load, raw, m.source);
    SourceExactly(rules, source, m.source);
    SameManifest(digest, m, source);
    DigestIs(digest, raw, m.source);
    FitsFrom(rules, digest, m);
    ManifestInDomain(rules, digest, m);
    DocumentDistinct(m.source);
    ManifestDistinct(DigestOf(digest, m.source), m, source);
    ManifestDistinct(DigestOf(digest, m.source), m, DocumentOf(m.source));
    ManifestOfIs(digest, m);
    BuiltManifest(load, projectOf, digest, raw, m, source);
    var w := ManifestOf(digest, m);
    SameBytesIffSame(ManifestDocument(m.source.project, source, digest(raw), m.graph, m.derived), w);
    CanonicalIs(w);
    DecodeAcceptsExactly(load, CanonicalBytes(w), w);
    var v := CanonicalDocuments.Decode(load, CanonicalBytes(w)).value;
    DecodedDistinct(load, CanonicalBytes(w));
    SortedIffSame(w, v);
    SortedIffSame(v, w);
    ManifestExactly(rules, digest, v, m);
  }

  lemma ParsedFrom(rules: Rules, load: Bytes -> Option<Json>, raw: Bytes, c: Contents) returns (source: Json)
    requires Loads(load) && ParsedSource(rules, load, raw) == Some(c)
    ensures CanonicalDocuments.Decode(load, raw) == Some(source) && Distinct(source)
    ensures ReadSource(rules, source) == Some(c)
  {
    hide ReadSource, Distinct, Canonical, InDomain, Same;
    source := CanonicalDocuments.Decode(load, raw).value;
  }

  lemma DecodedDistinct(load: Bytes -> Option<Json>, raw: Bytes)
    requires Loads(load) && CanonicalDocuments.Decode(load, raw).Some?
    ensures Distinct(CanonicalDocuments.Decode(load, raw).value)
  {
    hide Distinct, Canonical, InDomain, Same;
  }

  lemma DigestIs(digest: Bytes -> string, raw: Bytes, c: Contents)
    requires raw == CanonicalBytes(DocumentOf(c))
    ensures digest(raw) == DigestOf(digest, c)
  {
    hide CanonicalBytes, DocumentOf;
  }

  lemma FitsFrom(rules: Rules, digest: Bytes -> string, m: Manifest)
    requires Proper(rules, m.source) && GraphFits(m.graph, DigestOf(digest, m.source)) && DerivedFit(m.derived)
    ensures ManifestFits(rules, digest, m)
  {
    hide Proper, GraphFits, DerivedFit, DigestOf;
  }

  lemma BuiltManifest(load: Bytes -> Option<Json>, projectOf: Json -> string, digest: Bytes -> string, raw: Bytes,
                      m: Manifest, source: Json)
    requires CanonicalDocuments.Decode(load, raw) == Some(source) && projectOf(source) == m.source.project
    ensures BuildManifest(load, projectOf, digest, raw, m.graph, m.derived) ==
      Some(CanonicalBytes(ManifestDocument(m.source.project, source, digest(raw), m.graph, m.derived)))
  {
    hide CanonicalBytes, ManifestDocument, CanonicalDocuments.Decode;
  }

  lemma CanonicalIs(v: Json)
    requires InDomain(v)
    ensures Canonical(v) == Some(CanonicalBytes(v))
  {
    hide CanonicalBytes;
  }
}
