/** The source manifest: layers, exclusions and entries as documents, in the order in which they are built and in
    which the reader demands them. */
module SourceManifest {
  import opened Utf8
  import opened CanonicalJson
  import opened Sorting

  datatype Layer = Layer(layerId: string, ordinal: nat, kind: string, root: string, format: string)

  datatype Exclusion = Exclusion(layerId: string, path: string)

  /** A file of the inventory, before it is read. */
  datatype Item = Item(layerId: string, path: string, size: nat)

  datatype Encoding = Unknown | Plain | WithBom

  datatype Entry = Entry(layerId: string, path: string, hash: string, size: nat, encoding: Encoding)

  predicate IsHash(s: string) {
    |s| == 64 && forall k :: 0 <= k < 64 ==> '0' <= s[k] <= '9' || 'a' <= s[k] <= 'f'
  }

  // --- Documents ------------------------------------------------------------------------

  function EncodingDocument(e: Encoding): Json {
    match e
    case Unknown => Null
    case Plain => Str("utf-8")
    case WithBom => Str("utf-8-sig")
  }

  function LayerDocument(l: Layer): Json {
    Obj([
      Field("layer_id", Str(l.layerId)), Field("ordinal", Int(l.ordinal)), Field("kind", Str(l.kind)),
      Field("root_relative_path", Str(l.root)), Field("source_format", Str(l.format)),
      Field("configuration_uuid", Null), Field("identity_status", Str("unresolved"))
    ])
  }

  function ExclusionDocument(e: Exclusion): Json {
    Obj([Field("layer_id", Str(e.layerId)), Field("relative_path", Str(e.path))])
  }

  function EntryDocument(e: Entry): Json {
    Obj([
      Field("layer_id", Str(e.layerId)), Field("relative_path", Str(e.path)), Field("raw_sha256", Str(e.hash)),
      Field("size_bytes", Int(e.size)), Field("encoding", EncodingDocument(e.encoding))
    ])
  }

  function Source(project: string, layers: seq<Json>, exclusions: seq<Json>, entries: seq<Json>): Json {
    Obj([
      Field("format_version", Int(1)), Field("project_id", Str(project)), Field("layers", Arr(layers)),
      Field("excluded_state_subtrees", Arr(exclusions)), Field("entries", Arr(entries))
    ])
  }

  // --- Building -------------------------------------------------------------------------

  predicate BytesBefore(a: Bytes, b: Bytes) {
    b != [] && (a == [] || a[0] < b[0] || (a[0] == b[0] && BytesBefore(a[1..], b[1..])))
  }

  function Rank(layers: seq<Layer>, layerId: string): nat {
    if layers == [] then 0 else if layers[0].layerId == layerId then layers[0].ordinal else Rank(layers[1..], layerId)
  }

  predicate ExclusionBefore(layers: seq<Layer>, a: Exclusion, b: Exclusion) {
    Rank(layers, a.layerId) < Rank(layers, b.layerId)
  }

  /** By the ordinal of the layer, then by the bytes of the path. */
  predicate EntryBefore(layers: seq<Layer>, a: Entry, b: Entry) {
    var (ra, rb) := (Rank(layers, a.layerId), Rank(layers, b.layerId));
    ra < rb || (ra == rb && BytesBefore(Encode(a.path), Encode(b.path)))
  }

  function SortedExclusions(layers: seq<Layer>, exclusions: seq<Exclusion>): seq<Exclusion> {
    SortBy(exclusions, (a, b) => ExclusionBefore(layers, a, b))
  }

  function SortedEntries(layers: seq<Layer>, entries: seq<Entry>): seq<Entry> {
    SortBy(entries, (a, b) => EntryBefore(layers, a, b))
  }

  function BuildSource(project: string, layers: seq<Layer>, exclusions: seq<Exclusion>, entries: seq<Entry>): Json {
    Source(
      project, Mapped(LayerDocument, layers), Mapped(ExclusionDocument, SortedExclusions(layers, exclusions)),
      Mapped(EntryDocument, SortedEntries(layers, entries)))
  }

  lemma {:induction false} BytesBeforeStrict(a: Bytes, b: Bytes)
    ensures BytesBefore(a, b) ==> !BytesBefore(b, a)
  {
    if a != [] && b != [] {
      BytesBeforeStrict(a[1..], b[1..]);
    }
  }

  lemma {:induction false} BytesNotBefore(a: Bytes, b: Bytes, c: Bytes)
    requires !BytesBefore(a, b) && !BytesBefore(b, c)
    ensures !BytesBefore(a, c)
  {
    if a != [] && b != [] && c != [] && a[0] == b[0] == c[0] {
      BytesNotBefore(a[1..], b[1..], c[1..]);
    }
  }

  lemma EntryOrderStrict(layers: seq<Layer>)
    ensures StrictOrder((a, b) => EntryBefore(layers, a, b)) && StrictOrder((a, b) => ExclusionBefore(layers, a, b))
  {
    hide BytesBefore, Rank, Encode;
    forall x: Entry, y: Entry ensures EntryBefore(layers, x, y) ==> !EntryBefore(layers, y, x) {
      BytesBeforeStrict(Encode(x.path), Encode(y.path));
    }
    forall x: Entry, y: Entry, z: Entry | !EntryBefore(layers, x, y) && !EntryBefore(layers, y, z)
      ensures !EntryBefore(layers, x, z) {
      if Rank(layers, x.layerId) == Rank(layers, y.layerId) == Rank(layers, z.layerId) {
        BytesNotBefore(Encode(x.path), Encode(y.path), Encode(z.path));
      }
    }
  }

  /** The reader's order check passes on everything that is built, and no entry is lost or invented. */
  lemma BuiltInOrder(layers: seq<Layer>, entries: seq<Entry>, exclusions: seq<Exclusion>)
    ensures SortedEntries(layers, SortedEntries(layers, entries)) == SortedEntries(layers, entries)
    ensures SortedExclusions(layers, SortedExclusions(layers, exclusions)) == SortedExclusions(layers, exclusions)
    ensures multiset(SortedEntries(layers, entries)) == multiset(entries)
    ensures multiset(SortedExclusions(layers, exclusions)) == multiset(exclusions)
  {
    EntryOrderStrict(layers);
    hide EntryBefore, ExclusionBefore, StrictOrder, OrderedBy;
    SortOrders(entries, (a, b) => EntryBefore(layers, a, b));
    SortOrders(exclusions, (a, b) => ExclusionBefore(layers, a, b));
    SortKeepsOrdered(SortedEntries(layers, entries), (a, b) => EntryBefore(layers, a, b));
    SortKeepsOrdered(SortedExclusions(layers, exclusions), (a, b) => ExclusionBefore(layers, a, b));
  }

  // --- The order, told from bytes and numbers -------------------------------------------

  /** `a` ends before `b` does, or has the smaller byte where they differ first. */
  ghost predicate BytesPrecede(a: Bytes, b: Bytes) {
    exists k: nat :: k <= |a| && k < |b| && a[..k] == b[..k] && (k == |a| || a[k] < b[k])
  }

  lemma {:induction false} FirstByte(a: Bytes, b: Bytes)
    ensures BytesBefore(a, b) <==> BytesPrecede(a, b)
  {
    if a != [] && b != [] && a[0] == b[0] {
      FirstByte(a[1..], b[1..]);
      if BytesPrecede(a[1..], b[1..]) {
        var k: nat :| k <= |a[1..]| && k < |b[1..]| && a[1..][..k] == b[1..][..k]
          && (k == |a[1..]| || a[1..][k] < b[1..][k]);
        assert a[..k + 1] == [a[0]] + a[1..][..k] && b[..k + 1] == [b[0]] + b[1..][..k];
      }
      if k: nat :| k <= |a| && k < |b| && a[..k] == b[..k] && (k == |a| || a[k] < b[k]) {
        assert k > 0;
        assert a[1..][..k - 1] == a[..k][1..] && b[1..][..k - 1] == b[..k][1..];
        assert BytesPrecede(a[1..], b[1..]);
      }
    } else if b != [] {
      assert a[..0] == b[..0];
      if k: nat :| k <= |a| && k < |b| && a[..k] == b[..k] && (k == |a| || a[k] < b[k]) {
        assert k > 0 ==> a[..k][0] == b[..k][0];
      }
    }
  }

  ghost predicate NamesOnce(layers: seq<Layer>) {
    forall i, j :: 0 <= i < j < |layers| ==> layers[i].layerId != layers[j].layerId
  }

  lemma {:induction false} RankIs(layers: seq<Layer>, k: nat)
    requires NamesOnce(layers) && k < |layers|
    ensures Rank(layers, layers[k].layerId) == layers[k].ordinal
  {
    if k > 0 {
      assert layers[0].layerId != layers[k].layerId;
      RankIs(layers[1..], k - 1);
    }
  }

  /** What is built stands in the order of the ordinals of its layers, and the files of one layer in the order of the
      bytes of their paths. */
  lemma BuiltAscends(layers: seq<Layer>, entries: seq<Entry>, exclusions: seq<Exclusion>, a: nat, b: nat)
    requires NamesOnce(layers) && a < |layers| && b < |layers|
    ensures var s := SortedEntries(layers, entries);
      forall i, j :: 0 <= i < j < |s| && s[i].layerId == layers[a].layerId && s[j].layerId == layers[b].layerId ==>
        layers[a].ordinal <= layers[b].ordinal && (a == b ==> !BytesPrecede(Encode(s[j].path), Encode(s[i].path)))
    ensures var s := SortedExclusions(layers, exclusions);
      forall i, j :: 0 <= i < j < |s| && s[i].layerId == layers[a].layerId && s[j].layerId == layers[b].layerId ==>
        layers[a].ordinal <= layers[b].ordinal
  {
    EntryOrderStrict(layers);
    SortOrders(entries, (a, b) => EntryBefore(layers, a, b));
    SortOrders(exclusions, (a, b) => ExclusionBefore(layers, a, b));
    RankIs(layers, a);
    RankIs(layers, b);
    hide SortBy, StrictOrder, Rank, BytesBefore, BytesPrecede, Encode;
    var s := SortedEntries(layers, entries);
    forall i, j | 0 <= i < j < |s| && s[i].layerId == layers[a].layerId && s[j].layerId == layers[b].layerId
      ensures layers[a].ordinal <= layers[b].ordinal
      ensures a == b ==> !BytesPrecede(Encode(s[j].path), Encode(s[i].path))
    {
      assert !EntryBefore(layers, s[j], s[i]);
      FirstByte(Encode(s[j].path), Encode(s[i].path));
    }
  }
}
