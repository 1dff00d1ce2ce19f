/** What publishing and configuring come to, told from the rows: when each refusal is given, and which rows a success
    leaves. */
module PublicationOutcomes {
  import opened Wrappers
  import opened Publication
  import opened PublicationRuns

  // --- Layers ---------------------------------------------------------------------------

  /** A base layer followed by extensions, numbered from zero, with different names. */
  ghost predicate InSequence(layers: seq<Layer>) {
    && |layers| > 0
    && (forall k :: 0 <= k < |layers| ==> layers[k].ordinal == k)
    && (forall k :: 0 <= k < |layers| ==> layers[k].base == (k == 0))
    && (forall i, j :: 0 <= i < |layers| && 0 <= j < |layers| && layers[i].id == layers[j].id ==> i == j)
  }

  /** The directory `a` is `b` or lies below it. */
  ghost predicate Below(a: string, b: string) {
    a == b || b == "." || exists rest :: a == b + "/" + rest
  }

  /** No root of a layer is that of another one or lies below it. */
  ghost predicate NoneBelow(layers: seq<SourceLayer>) {
    forall i, j :: 0 <= i < |layers| && 0 <= j < |layers| && i != j ==> !Below(layers[i].folded, layers[j].folded)
  }

  /** The same names, numbers, kinds and formats. */
  ghost predicate Corresponds(layers: seq<Layer>, configured: seq<SourceLayer>) {
    && |layers| == |configured|
    && forall k :: 0 <= k < |layers| ==>
         && layers[k].id == configured[k].layer.id && layers[k].ordinal == configured[k].layer.ordinal
         && layers[k].base == configured[k].layer.base && layers[k].format == configured[k].layer.format
  }

  lemma LayersAre(layers: seq<Layer>, configured: seq<SourceLayer>)
    ensures LayersValid(layers) <==> InSequence(layers)
    ensures LayersMatch(layers, configured) <==> Corresponds(layers, configured)
  {
  }

  lemma BelowIsPrefix(a: string, b: string)
    ensures Below(a, b) <==> a == b || b == "." || b + "/" <= a
  {
    if b + "/" <= a {
      assert a == b + "/" + a[|b| + 1..];
    }
  }

  lemma RootsAre(layers: seq<SourceLayer>)
    ensures RootsApart(layers) <==> NoneBelow(layers)
  {
    forall i, j | 0 <= i < |layers| && 0 <= j < |layers|
      ensures Overlap(layers[i].folded, layers[j].folded)
        <==> Below(layers[i].folded, layers[j].folded) || Below(layers[j].folded, layers[i].folded)
    {
      BelowIsPrefix(layers[i].folded, layers[j].folded);
      BelowIsPrefix(layers[j].folded, layers[i].folded);
    }
    hide Overlap, Below;
    if NoneBelow(layers) {
      assert forall i, j :: 0 <= i < j < |layers| ==> !Overlap(layers[i].folded, layers[j].folded);
    }
    if RootsApart(layers) {
      forall i, j | 0 <= i < |layers| && 0 <= j < |layers| && i != j
        ensures !Below(layers[i].folded, layers[j].folded)
      {
        var (x, y) := if i < j then (i, j) else (j, i);
        assert !Overlap(layers[x].folded, layers[y].folded);
      }
    }
  }

  // --- Configuring ----------------------------------------------------------------------

  /** A configuration is stored if and only if an administrator writes, at the current revision, layers in sequence with
      roots apart that suit the directories on disk; it is then exactly these layers under the next revision, and
      nothing else changes. Each refusal is given for its own reason, in this order. */
  lemma ConfiguredExactly(t: Tables, permissions: set<string>, write: bool, layers: seq<SourceLayer>, expected: nat,
                          disk: Option<Error>)
    ensures var (r, t') := Configure(t, permissions, write, layers, expected, disk);
      var fits := expected < 0x7FFF_FFFF_FFFF_FFFF && InSequence(Bare(layers)) && NoneBelow(layers);
      if "project:admin" !in permissions then r == Err(Forbidden) && t' == t
      else if !write then r == Err(ReadOnlyTransaction) && t' == t
      else if t.configuration.revision != expected then r == Err(SourceConfigurationConflict) && t' == t
      else if !fits then r == Err(SourceLayerInvalid) && t' == t
      else if disk.Some? then r == Err(disk.value) && t' == t
      else
        && r.Ok? && r.value.revision == expected + 1 && r.value.layers == layers
        && t'.configuration.revision == expected + 1 && t'.configuration.layers == layers
        && t' == t.(configuration := t'.configuration)
  {
    hide LayersValid, RootsApart, InSequence, NoneBelow;
    LayersAre(Bare(layers), layers);
    RootsAre(layers);
  }

  /** After a configuration has been stored, a new publication at its revision is compared with exactly its layers. */
  lemma ConfiguredLayersDecide(t: Tables, permissions: set<string>, layers: seq<SourceLayer>, expected: nat,
                               permissions': set<string>, q: Request)
    requires Configure(t, permissions, true, layers, expected, None).0.Ok?
    requires var t' := Configure(t, permissions, true, layers, expected, None).1;
      && "analysis:run" in permissions' && InSequence(q.layers) && q.operation !in t'.receipts
      && q.expected == Head(t.revision, t.snapshot, expected + 1) && t.revision < 0x7FFF_FFFF_FFFF_FFFF
    ensures var t' := Configure(t, permissions, true, layers, expected, None).1;
      Commit(t', permissions', true, q).0 == Err(SourceConfigurationConflict) <==> !Corresponds(q.layers, layers)
  {
    LayersAre(q.layers, layers);
    ConfiguredExactly(t, permissions, true, layers, expected, None);
    hide Configure, LayersMatch, LayersValid, InSequence, Corresponds;
    var t' := Configure(t, permissions, true, layers, expected, None).1;
    CommittedExactly(t', permissions', true, q);
    LayersAre(q.layers, t'.configuration.layers);
  }

  // --- Publishing -----------------------------------------------------------------------

  /** The catalog has this content, whatever the time of publication. */
  ghost predicate SameRow(t: Tables, c: Catalog, layers: seq<Layer>) {
    && c.snapshot in t.snapshots
    && var row := t.snapshots[c.snapshot];
       && row.snapshot == c.snapshot && row.sourceDigest == c.sourceDigest && row.graphHash == c.graphHash
       && row.relpath == c.relpath
       && layers == if c.snapshot in t.layers then t.layers[c.snapshot] else []
  }

  ghost predicate LocatorFree(t: Tables, relpath: string) {
    forall s :: s in t.snapshots ==> t.snapshots[s].relpath != relpath
  }

  lemma InsertedExactly(t: Tables, c: Catalog, layers: seq<Layer>)
    ensures var r := InsertCatalog(t, c, layers);
      if c.snapshot in t.snapshots then r == if SameRow(t, c, layers) then Ok(t) else Err(SnapshotCorrupt)
      else if !LocatorFree(t, c.relpath) then r == Err(StateUnavailable)
      else r == Ok(t.(snapshots := t.snapshots[c.snapshot := c], layers := t.layers[c.snapshot := layers]))
  {
  }

  /** The rows of a new publication. */
  ghost predicate Adds(t: Tables, q: Request, t': Tables) {
    var s := q.catalog.snapshot;
    && t'.revision == t.revision + 1 && t'.snapshot == Some(s) && t'.configuration == t.configuration
    && t'.snapshots == (if s in t.snapshots then t.snapshots else t.snapshots[s := q.catalog])
    && t'.layers == (if s in t.snapshots then t.layers else t.layers[s := q.layers])
    && t'.receipts == t.receipts[q.operation := Receipt(s, q.expected, t.revision + 1)]
    && t'.events == t.events[q.operation :=
         PublishResult(q.operation, s, Head(t.revision + 1, Some(s), q.expected.sourceRevision))]
  }

  /** A new operation is published if and only if the caller runs analyses and writes, its layers are in sequence and
      those configured, its expected head is the current one and may advance, and its content agrees with the catalog
      or has a free locator. Each refusal is given for its own reason, in this order, and changes nothing. */
  lemma CommittedExactly(t: Tables, permissions: set<string>, write: bool, q: Request)
    requires q.operation !in t.receipts
    ensures var (r, t') := Commit(t, permissions, write, q);
      && (r.Err? ==> t' == t)
      && (r.Ok? ==> Adds(t, q, t') && r.value == t'.events[q.operation])
      && r == if "analysis:run" !in permissions then Err(Forbidden)
        else if !write then Err(ReadOnlyTransaction)
        else if !InSequence(q.layers) then Err(SourceLayerInvalid)
        else if t.configuration.revision != q.expected.sourceRevision then Err(SourceConfigurationConflict)
        else if !(t.revision == q.expected.revision < 0x7FFF_FFFF_FFFF_FFFF && t.snapshot == q.expected.snapshot)
          then Err(HeadConflict)
        else if !Corresponds(q.layers, t.configuration.layers) then Err(SourceConfigurationConflict)
        else if q.catalog.snapshot in t.snapshots && !SameRow(t, q.catalog, q.layers) then Err(SnapshotCorrupt)
        else if q.catalog.snapshot !in t.snapshots && !LocatorFree(t, q.catalog.relpath) then Err(StateUnavailable)
        else Ok(PublishResult(q.operation, q.catalog.snapshot,
          Head(t.revision + 1, Some(q.catalog.snapshot), q.expected.sourceRevision)))
  {
    hide LayersValid, LayersMatch, InSequence, Corresponds, SameRow, LocatorFree, InsertCatalog;
    LayersAre(q.layers, t.configuration.layers);
    InsertedExactly(t, q.catalog, q.layers);
  }

  /** A repeated operation returns its stored result if and only if head, snapshot and content are those of its first
      publication; otherwise it conflicts. A missing row is reported, but is never missing on a chain. */
  lemma ReplayedExactly(t: Tables, permissions: set<string>, q: Request)
    requires q.operation in t.receipts && "analysis:run" in permissions && InSequence(q.layers)
    ensures var (r, t') := Commit(t, permissions, true, q);
      var stored := t.receipts[q.operation];
      && t' == t
      && r == if !(stored.expected == q.expected && stored.snapshot == q.catalog.snapshot) then Err(OperationConflict)
        else if q.catalog.snapshot !in t.snapshots then Err(SnapshotNotFound)
        else if !SameRow(t, q.catalog, q.layers) then Err(OperationConflict)
        else Ok(PublishResult(q.operation, stored.snapshot,
          Head(stored.committed, Some(stored.snapshot), stored.expected.sourceRevision)))
    ensures Chain(t) ==> Commit(t, permissions, true, q).0 != Err(SnapshotNotFound)
  {
    LayersAre(q.layers, []);
    hide InSequence, LayersValid, LayersMatch;
    if Chain(t) {
      RowsStand(t, q.operation);
    }
    hide Chain;
  }

  lemma RowsStand(t: Tables, operation: string)
    requires Chain(t) && operation in t.receipts
    ensures t.receipts[operation].snapshot in t.snapshots
  {
    assert Linked(t, operation);
    hide GapFree, AllLinked, CatalogPublished;
  }
}
