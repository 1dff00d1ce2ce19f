/** The manifest of a sealed generation. Its size is counted before it is built, from a document that is put
    together separately, and then compared with what was built. */
module SealedManifest {
  import opened Wrappers
  import opened Utf8
  import opened CanonicalJson
  import opened CanonicalDocuments
  import M = Membership
  import ManifestBound
  import opened SourceManifest

  datatype Derived = Derived(path: string, hash: string, size: nat)

  function DerivedDocument(d: Derived): Json {
    Obj([Field("relative_path", Str(d.path)), Field("raw_sha256", Str(d.hash)), Field("size_bytes", Int(d.size))])
  }

  function DerivedDocuments(derived: seq<Derived>): seq<Json> {
    if derived == [] then [] else [DerivedDocument(derived[0])] + DerivedDocuments(derived[1..])
  }

  function CaptureDocument(): Json {
    Obj([
      Field("bytes_immutable", Bool(true)), Field("method", Str("working_tree_verified_passes_v1")),
      Field("temporal_atomicity", Str("not_proven"))
    ])
  }

  /** The manifest of a source document under a project and a digest, with the provenance of its graph. */
  function ManifestDocument(project: string, source: Json, digest: string, graph: Json, derived: seq<Derived>): Json {
    Obj([
      Field("format_version", Int(1)), Field("canonicalization", Str("rentgen-json-v1")),
        Field("project_id", Str(project)),
      Field("source", source), Field("source_digest", Str(digest)), Field("capture", CaptureDocument()),
      Field("graph", graph), Field("derived_inputs", Arr(DerivedDocuments(derived)))
    ])
  }

  /** What is built: the source is parsed once more, and brings its own project; its digest is taken anew. */
  function BuildManifest(load: Bytes -> Option<Json>, projectOf: Json -> string, digestOf: Bytes -> string,
                         raw: Bytes, graph: Json, derived: seq<Derived>): Option<Bytes> {
    match CanonicalDocuments.Decode(load, raw)
    case None => None
    case Some(source) => Some(CanonicalBytes(ManifestDocument(projectOf(source), source, digestOf(raw), graph,
      derived)))
  }

  /** What is counted: with the project and the digest that the generation keeps itself. */
  function SealBound(load: Bytes -> Option<Json>, project: string, digest: string, raw: Bytes, graph: Json,
                     derived: seq<Derived>): Option<nat> {
    match CanonicalDocuments.Decode(load, raw)
    case None => None
    case Some(source) => ManifestSize(ManifestDocument(project, source, digest, graph, derived))
  }

  /** Project and digest stand in two of the fields. */
  lemma ManifestFields(own: string, project: string, source: Json, digest: string, digest': string, graph: Json,
                       derived: seq<Derived>)
    ensures var (a, b) :=
      (ManifestDocument(own, source, digest, graph, derived),
        ManifestDocument(project, source, digest', graph, derived));
      && a.Obj? && b.Obj? && |a.fields| == |b.fields| == 8
      && a.fields[2] == Field("project_id", Str(own)) && b.fields[2] == Field("project_id", Str(project))
      && a.fields[4] == Field("source_digest", Str(digest)) && b.fields[4] == Field("source_digest", Str(digest'))
      && forall i :: 0 <= i < 8 && i != 2 && i != 4 ==> a.fields[i] == b.fields[i]
  {
    hide DerivedDocuments, CaptureDocument, TextSize, ManifestSize;
  }

  lemma ObjectSize(a: seq<Field>, b: seq<Field>)
    requires |a| == |b| && ManifestFieldsSize(a) == ManifestFieldsSize(b)
    ensures ManifestSize(Obj(a)) == ManifestSize(Obj(b))
  {
    hide ManifestFieldsSize;
  }

  lemma TextValueSize(s: string)
    ensures ManifestSize(Str(s)) == Some(TextSize(s))
  {
    hide TextSize;
  }

  /** Only the sizes of project and digest matter to the size of the manifest. */
  lemma SameSize(own: string, project: string, source: Json, digest: string, digest': string, graph: Json,
                 derived: seq<Derived>)
    requires TextSize(own) == TextSize(project) && TextSize(digest) == TextSize(digest')
    ensures ManifestSize(ManifestDocument(own, source, digest, graph, derived)) ==
      ManifestSize(ManifestDocument(project, source, digest', graph, derived))
  {
    hide *;
    ManifestFields(own, project, source, digest, digest', graph, derived);
    var (a, b) :=
      (ManifestDocument(own, source, digest, graph, derived).fields,
        ManifestDocument(project, source, digest', graph, derived).fields);
    TextValueSize(own);
    TextValueSize(project);
    TextValueSize(digest);
    TextValueSize(digest');
    FieldSizes(a, b, 0);
    assert a[0..] == a && b[0..] == b;
    ObjectSize(a, b);
  }

  lemma {:induction false} FieldSizes(a: seq<Field>, b: seq<Field>, k: nat)
    requires |a| == |b| && k <= |a|
    requires forall i :: 0 <= i < |a| ==> a[i].key == b[i].key && ManifestSize(a[i].value) == ManifestSize(b[i].value)
    ensures ManifestFieldsSize(a[k..]) == ManifestFieldsSize(b[k..])
    decreases |a| - k
  {
    hide ManifestSize, TextSize;
    if k < |a| {
      FieldSizes(a, b, k + 1);
      assert a[k..][1..] == a[k + 1..] && b[k..][1..] == b[k + 1..] && a[k..][0] == a[k] && b[k..][0] == b[k];
    }
  }

  /** The manifest that is built has exactly the counted size, whatever its source and its provenance say: the
      comparison at the seal cannot fail. */
  lemma SealBoundExact(load: Bytes -> Option<Json>, projectOf: Json -> string, digestOf: Bytes -> string,
                       own: string, digest: string, raw: Bytes, graph: Json, derived: seq<Derived>)
    requires M.CanonicalUuid(own) && IsHash(digest) && IsHash(digestOf(raw))
    requires CanonicalDocuments.Decode(load, raw).Some? ==>
      M.CanonicalUuid(projectOf(CanonicalDocuments.Decode(load, raw).value))
    ensures var built := BuildManifest(load, projectOf, digestOf, raw, graph, derived);
      SealBound(load, own, digest, raw, graph, derived) == if built.Some? then Some(|built.value|) else None
  {
    if CanonicalDocuments.Decode(load, raw).Some? {
      var source := CanonicalDocuments.Decode(load, raw).value;
      var project := projectOf(source);
      ManifestBound.SimpleTextSize(own);
      ManifestBound.SimpleTextSize(project);
      ManifestBound.SimpleTextSize(digest);
      ManifestBound.SimpleTextSize(digestOf(raw));
      hide ManifestDocument, ManifestSize, CanonicalDocuments.Decode;
      SameSize(own, project, source, digest, digestOf(raw), graph, derived);
      ManifestSizeExact(ManifestDocument(project, source, digestOf(raw), graph, derived));
    }
  }
}
