/** The publication tables of one project, and the operations that change them: compare-and-swap
    publication of the head with its catalog row, receipt and event, and reconfiguration of the layers. */
module Publication {
  import opened Wrappers

  type Result<T> = Fallible<T, Error>

  datatype Error =
    | Forbidden
    | ReadOnlyTransaction
    | SourceLayerInvalid
    | OperationConflict
    | SourceConfigurationConflict
    | HeadConflict
    | SnapshotNotFound
    | SnapshotCorrupt
    | StateCorrupt
    | StateUnavailable
    | OutcomeUnknown   // the durable receipt could not be read
    | Interrupted      // deadline, cancellation, revoked authorization or any failure outside the tables
    | Struck           // an interrupt that no handler of ordinary exceptions catches
    | SessionInvalid
    | LocatorDiffers   // the verified generation is not the catalogued one
    | CatalogChanged   // a catalog row changed without a head transition

  const MAX_REVISION: nat := 0x7FFF_FFFF_FFFF_FFFF

  datatype Head = Head(revision: nat, snapshot: Option<string>, sourceRevision: nat)

  datatype Catalog = Catalog(snapshot: string, sourceDigest: string, graphHash: string, relpath: string,
    publishedAt: string)

  datatype Layer = Layer(id: string, ordinal: nat, base: bool, format: string)

  /** `folded` is the root in the normalized form in which roots are compared. */
  datatype SourceLayer = SourceLayer(layer: Layer, root: string, folded: string)

  datatype Configuration = Configuration(revision: nat, layers: seq<SourceLayer>)

  datatype Receipt = Receipt(snapshot: string, expected: Head, committed: nat)

  datatype PublishResult = PublishResult(operation: string, snapshot: string, head: Head)

  datatype Request = Request(expected: Head, catalog: Catalog, layers: seq<Layer>, operation: string)

  /** Rows of one project. A receipt row keeps the expected head; events and outbox rows are keyed by operation. */
  datatype Tables = Tables(
    revision: nat,
    snapshot: Option<string>,
    configuration: Configuration,
    snapshots: map<string, Catalog>,
    layers: map<string, seq<Layer>>,
    receipts: map<string, Receipt>,
    events: map<string, PublishResult>)
  {
    function ProjectHead(): Head {
      Head(revision, snapshot, configuration.revision)
    }

    function Find(operation: string): Option<(PublishResult, Head)> {
      if operation in receipts then
        var r := receipts[operation];
        Some((ResultOf(operation, r), r.expected))
      else None
    }

    function LayersOf(id: string): seq<Layer> {
      if id in layers then layers[id] else []
    }

    function Lookup(id: string): Option<Catalog> {
      if id in snapshots then Some(snapshots[id]) else None
    }
  }

  function ResultOf(operation: string, r: Receipt): PublishResult {
    PublishResult(operation, r.snapshot, Head(r.committed, Some(r.snapshot), r.expected.sourceRevision))
  }

  predicate LayersValid(layers: seq<Layer>) {
    && layers != []
    && (forall k :: 0 <= k < |layers| ==> layers[k].ordinal == k && (layers[k].base <==> k == 0))
    && (forall i, j :: 0 <= i < j < |layers| ==> layers[i].id != layers[j].id)
  }

  /** One root is the other, or contains it. */
  predicate Overlap(a: string, b: string) {
    a == b || a == "." || b == "." || a + "/" <= b || b + "/" <= a
  }

  predicate RootsApart(layers: seq<SourceLayer>) {
    forall i, j :: 0 <= i < j < |layers| ==> !Overlap(layers[i].folded, layers[j].folded)
  }

  predicate LayersMatch(layers: seq<Layer>, configured: seq<SourceLayer>) {
    |layers| == |configured| && forall k :: 0 <= k < |layers| ==> layers[k] == configured[k].layer
  }

  /** Equal but for the time of publication. */
  predicate SameContent(a: Catalog, b: Catalog) {
    a.(publishedAt := b.publishedAt) == b
  }

  function Bootstrap(layers: seq<SourceLayer>): Tables {
    Tables(0, None, Configuration(1, layers), map[], map[], map[], map[])
  }

  // --- Specification of the operations --------------------------------------------------

  /** The catalog row is reused when its content agrees, and inserted otherwise. */
  function InsertCatalog(t: Tables, catalog: Catalog, layers: seq<Layer>): Result<Tables> {
    if catalog.snapshot in t.snapshots then
      if SameContent(catalog, t.snapshots[catalog.snapshot]) && t.LayersOf(catalog.snapshot) == layers then Ok(t)
      else Err(SnapshotCorrupt)
    else if exists s :: s in t.snapshots && t.snapshots[s].relpath == catalog.relpath then Err(StateUnavailable)
    else Ok(t.(snapshots := t.snapshots[catalog.snapshot := catalog], layers := t.layers[catalog.snapshot := layers]))
  }

  /** What a publication returns, and the tables after it. */
  function Commit(t: Tables, permissions: set<string>, write: bool, q: Request): (Result<PublishResult>, Tables) {
    if "analysis:run" !in permissions then (Err(Forbidden), t)
    else if !write then (Err(ReadOnlyTransaction), t)
    else if !LayersValid(q.layers) then (Err(SourceLayerInvalid), t)
    else if q.operation in t.receipts then (Replay(t, q), t)
    else if t.configuration.revision != q.expected.sourceRevision then (Err(SourceConfigurationConflict), t)
    else if t.ProjectHead() != q.expected || t.revision >= MAX_REVISION then (Err(HeadConflict), t)
    else if !LayersMatch(q.layers, t.configuration.layers) then (Err(SourceConfigurationConflict), t)
    else Written(t, q)
  }

  /** The rows of a publication that passed every check. */
  function Written(t: Tables, q: Request): (Result<PublishResult>, Tables) {
    match InsertCatalog(t, q.catalog, q.layers)
    case Err(e) => (Err(e), t)
    case Ok(t') =>
      var r := Receipt(q.catalog.snapshot, q.expected, t.revision + 1);
      (Ok(ResultOf(q.operation, r)),
       t'.(revision := t.revision + 1, snapshot := Some(q.catalog.snapshot),
           receipts := t.receipts[q.operation := r],
           events := t.events[q.operation := ResultOf(q.operation, r)]))
  }

  /** The stored result of an operation that repeats its inputs exactly. */
  function Replay(t: Tables, q: Request): Result<PublishResult>
    requires q.operation in t.receipts
  {
    var r := t.receipts[q.operation];
    if r.expected != q.expected || r.snapshot != q.catalog.snapshot then Err(OperationConflict)
    else if q.catalog.snapshot !in t.snapshots then Err(SnapshotNotFound)
    else if !SameContent(q.catalog, t.snapshots[q.catalog.snapshot]) || t.LayersOf(q.catalog.snapshot) != q.layers then
      Err(OperationConflict)
    else Ok(ResultOf(q.operation, r))
  }

  /** `disk` is what the directories on disk have against the roots. */
  function Configure(t: Tables, permissions: set<string>, write: bool, layers: seq<SourceLayer>, expected: nat,
                     disk: Option<Error>): (Result<Configuration>, Tables) {
    if "project:admin" !in permissions then (Err(Forbidden), t)
    else if !write then (Err(ReadOnlyTransaction), t)
    else if t.configuration.revision != expected then (Err(SourceConfigurationConflict), t)
    else if expected >= MAX_REVISION || !LayersValid(Bare(layers)) || !RootsApart(layers)
      then (Err(SourceLayerInvalid), t)
    else if disk.Some? then (Err(disk.value), t)
    else
      var c := Configuration(expected + 1, layers);
      (Ok(c), t.(configuration := c))
  }

  function Bare(layers: seq<SourceLayer>): (bare: seq<Layer>)
    ensures |bare| == |layers| && forall k :: 0 <= k < |layers| ==> bare[k] == layers[k].layer
  {
    seq(|layers|, k requires 0 <= k < |layers| => layers[k].layer)
  }

  // --- The unit of work -----------------------------------------------------------------

  /** One transaction over the tables; a refused operation rolls back to its savepoint. */
  class StateTransaction {
    var tables: Tables
    const permissions: set<string>
    const write: bool

    constructor (tables: Tables, permissions: set<string>, write: bool)
      ensures this.tables == tables && this.permissions == permissions && this.write == write
    {
      this.tables, this.permissions, this.write := tables, permissions, write;
    }

    /** Writes no row until every check has passed; rows written before a failure are rolled back. */
    method CommitPublication(q: Request) returns (r: Result<PublishResult>)
      requires Chain(tables)
      modifies this`tables
      ensures r == Commit(old(tables), permissions, write, q).0
      ensures tables == Commit(old(tables), permissions, write, q).1
      ensures Chain(tables)
    {
      hide Chain, Written, LayersValid, LayersMatch, Replay;
      assert Chain(Commit(tables, permissions, write, q).1) by { CommitKeepsChain(tables, permissions, write, q); }
      var current := tables.ProjectHead();
      if "analysis:run" !in permissions {
        r := Err(Forbidden);
      } else if !write {
        r := Err(ReadOnlyTransaction);
      } else if !LayersValid(q.layers) {
        r := Err(SourceLayerInvalid);
      } else if q.operation in tables.receipts {
        r := Replay(tables, q);
      } else if current.sourceRevision != q.expected.sourceRevision {
        r := Err(SourceConfigurationConflict);
      } else if current != q.expected || current.revision >= MAX_REVISION {
        r := Err(HeadConflict);
      } else if !LayersMatch(q.layers, tables.configuration.layers) {
        r := Err(SourceConfigurationConflict);
      } else {
        r := WritePublication(q);
      }
    }

    /** The rows of one publication; a failure rolls back to the savepoint. */
    method WritePublication(q: Request) returns (r: Result<PublishResult>)
      requires tables.ProjectHead() == q.expected && tables.revision < MAX_REVISION
      modifies this`tables
      ensures r == Written(old(tables), q).0 && tables == Written(old(tables), q).1
    {
      var savepoint := tables;
      var inserted := InsertRow(q.catalog, q.layers);
      if inserted.Err? {
        tables := savepoint;
        return Err(inserted.error);
      }
      if tables.revision == q.expected.revision && tables.snapshot == q.expected.snapshot {
        tables := tables.(snapshot := Some(q.catalog.snapshot), revision := tables.revision + 1);
      } else {
        assert false;
      }
      var result := PublishResult(q.operation, q.catalog.snapshot, tables.ProjectHead());
      tables := tables.(receipts := tables.receipts[q.operation := Receipt(q.catalog.snapshot, q.expected,
        result.head.revision)]);
      tables := tables.(events := tables.events[q.operation := result]);
      return Ok(result);
    }

    method InsertRow(catalog: Catalog, layers: seq<Layer>) returns (r: Result<()>)
      modifies this`tables
      ensures r.Err? <==> InsertCatalog(old(tables), catalog, layers).Err?
      ensures r.Err? ==> r.error == InsertCatalog(old(tables), catalog, layers).error && tables == old(tables)
      ensures r.Ok? ==> tables == InsertCatalog(old(tables), catalog, layers).value
    {
      if catalog.snapshot in tables.snapshots {
        if !SameContent(catalog, tables.snapshots[catalog.snapshot]) || tables.LayersOf(catalog.snapshot) != layers {
          return Err(SnapshotCorrupt);
        }
        return Ok(());
      }
      if exists s :: s in tables.snapshots && tables.snapshots[s].relpath == catalog.relpath {
        return Err(StateUnavailable);
      }
      tables := tables.(snapshots := tables.snapshots[catalog.snapshot := catalog]);
      tables := tables.(layers := tables.layers[catalog.snapshot := layers]);
      return Ok(());
    }

    method ConfigureSourceLayers(layers: seq<SourceLayer>, expected: nat, disk: Option<Error>)
      returns (r: Result<Configuration>)
      requires Chain(tables)
      modifies this`tables
      ensures r == Configure(old(tables), permissions, write, layers, expected, disk).0
      ensures tables == Configure(old(tables), permissions, write, layers, expected, disk).1
      ensures Chain(tables)
    {
      hide Chain, LayersValid, Overlap;
      assert Chain(Configure(tables, permissions, write, layers, expected, disk).1) by {
        ConfigureKeepsChain(tables, permissions, write, layers, expected, disk);
      }
      if "project:admin" !in permissions {
        r := Err(Forbidden);
      } else if !write {
        r := Err(ReadOnlyTransaction);
      } else if tables.configuration.revision != expected {
        r := Err(SourceConfigurationConflict);
      } else if expected >= MAX_REVISION || !LayersValid(Bare(layers)) || !RootsApart(layers) {
        r := Err(SourceLayerInvalid);
      } else if disk.Some? {
        r := Err(disk.value);
      } else {
        tables := tables.(configuration := Configuration(tables.configuration.revision + 1, layers));
        r := Ok(tables.configuration);
      }
    }
  }

  // --- The invariant --------------------------------------------------------------------

  ghost predicate HasLink(t: Tables, k: nat) {
    exists op :: op in t.receipts && t.receipts[op].committed == k
  }

  /** Every revision up to the head was committed by a receipt, and by only one. */
  ghost predicate GapFree(t: Tables) {
    && |t.receipts| == t.revision
    && (forall k: nat :: 1 <= k <= t.revision ==> HasLink(t, k))
    && (forall p, q :: p in t.receipts && q in t.receipts && t.receipts[p].committed == t.receipts[q].committed ==>
      p == q)
  }

  /** One receipt: it advanced the head by one from the head that the previous receipt committed. */
  ghost predicate Linked(t: Tables, op: string)
    requires op in t.receipts
  {
    var r := t.receipts[op];
    && 1 <= r.committed <= t.revision && r.expected.revision == r.committed - 1
    && r.snapshot in t.snapshots
    && 1 <= r.expected.sourceRevision <= t.configuration.revision
    && (r.committed == t.revision ==> t.snapshot == Some(r.snapshot))
    && (r.committed == 1 ==> r.expected.snapshot == None)
    && forall p :: p in t.receipts && t.receipts[p].committed == r.committed - 1 ==>
         r.expected.snapshot == Some(t.receipts[p].snapshot)
           && t.receipts[p].expected.sourceRevision <= r.expected.sourceRevision
  }

  ghost predicate AllLinked(t: Tables) {
    forall op {:trigger Linked(t, op)} :: op in t.receipts ==> Linked(t, op)
  }

  ghost predicate Published(t: Tables, s: string) {
    exists op :: op in t.receipts && t.receipts[op].snapshot == s
  }

  /** Every catalog row stands under its own id and was published, and no two share a locator. */
  ghost predicate CatalogPublished(t: Tables) {
    && (forall s :: s in t.snapshots ==> t.snapshots[s].snapshot == s && Published(t, s))
    && (forall s, s' :: s in t.snapshots && s' in t.snapshots && t.snapshots[s].relpath == t.snapshots[s'].relpath ==>
      s == s')
  }

  /** Layers accompany catalog rows, events accompany receipts and repeat their result. */
  ghost predicate Accompanied(t: Tables) {
    && t.layers.Keys == t.snapshots.Keys && t.events.Keys == t.receipts.Keys
    && forall op :: op in t.receipts ==> t.events[op] == ResultOf(op, t.receipts[op])
  }

  /** The receipts form one gap-free chain from the empty head to the current one. */
  ghost predicate Chain(t: Tables) {
    && t.revision <= MAX_REVISION && t.configuration.revision >= 1
    && (t.revision == 0 <==> t.snapshot == None)
    && GapFree(t) && AllLinked(t) && CatalogPublished(t) && Accompanied(t)
  }

  /** `t'` may come after `t`: rows are only added, and nothing is added without advancing the head. */
  ghost predicate Extends(t: Tables, t': Tables) {
    && t.revision <= t'.revision && t.configuration.revision <= t'.configuration.revision
    && (forall s :: s in t.snapshots ==> s in t'.snapshots && t'.snapshots[s] == t.snapshots[s])
    && (forall s :: s in t.layers ==> s in t'.layers && t'.layers[s] == t.layers[s])
    && (forall op :: op in t.receipts ==> op in t'.receipts && t'.receipts[op] == t.receipts[op])
    && (t.revision == t'.revision ==>
          t'.snapshot == t.snapshot && t'.snapshots == t.snapshots && t'.layers == t.layers
            && t'.receipts == t.receipts)
    && (t.configuration.revision == t'.configuration.revision ==> t'.configuration == t.configuration)
  }

  lemma ExtendsTransitive(t: Tables, u: Tables, v: Tables)
    requires Extends(t, u) && Extends(u, v)
    ensures Extends(t, v)
  {
  }

  /** `t'` is `t` after one new link of the chain. */
  ghost predicate NewLink(t: Tables, t': Tables, q: Request) {
    var r := Receipt(q.catalog.snapshot, q.expected, t.revision + 1);
    && q.operation !in t.receipts && t.ProjectHead() == q.expected && t.revision < MAX_REVISION
    && InsertCatalog(t, q.catalog, q.layers).Ok?
    && t' == InsertCatalog(t, q.catalog, q.layers).value.(revision := t.revision + 1,
      snapshot := Some(q.catalog.snapshot),
               receipts := t.receipts[q.operation := r], events := t.events[q.operation := ResultOf(q.operation, r)])
  }

  /** A publication adds exactly one link to the chain or changes nothing; its result names the receipt. */
  lemma CommitKeepsChain(t: Tables, permissions: set<string>, write: bool, q: Request)
    requires Chain(t)
    ensures var (r, t') := Commit(t, permissions, write, q);
      && Chain(t') && Extends(t, t')
      && (r.Err? ==> t' == t)
      && (r.Ok? ==> q.operation in t'.receipts && r.value == ResultOf(q.operation, t'.receipts[q.operation])
                    && t'.receipts[q.operation].expected == q.expected && r.value.snapshot == q.catalog.snapshot)
      && t'.revision == t.revision + (if r.Ok? && q.operation !in t.receipts then 1 else 0)
      && (r.Ok? && q.operation !in t.receipts ==> t'.ProjectHead() == r.value.head)
  {
    CommitCases(t, permissions, write, q);
    hide Commit, Chain, Extends;
    var (r, t') := Commit(t, permissions, write, q);
    if r.Ok? && q.operation !in t.receipts {
      NewLinkKeepsChain(t, t', q);
    } else {
      ExtendsItself(t);
    }
  }

  lemma ExtendsItself(t: Tables)
    ensures Extends(t, t)
  {
  }

  /** A publication is refused, repeats a stored result, or adds a link; only the last changes the tables. */
  lemma CommitCases(t: Tables, permissions: set<string>, write: bool, q: Request)
    ensures var (r, t') := Commit(t, permissions, write, q);
      && (r.Err? ==> t' == t)
      && (r.Ok? && q.operation in t.receipts ==>
            t' == t && r.value == ResultOf(q.operation, t.receipts[q.operation])
            && t.receipts[q.operation].expected == q.expected && t.receipts[q.operation].snapshot == q.catalog.snapshot)
      && (r.Ok? && q.operation !in t.receipts ==>
            NewLink(t, t', q)
              && r.value == ResultOf(q.operation, Receipt(q.catalog.snapshot, q.expected, t.revision + 1)))
  {
  }

  lemma NewLinkKeepsChain(t: Tables, t': Tables, q: Request)
    requires Chain(t) && NewLink(t, t', q)
    ensures Chain(t') && Extends(t, t')
  {
    hide GapFree, AllLinked, CatalogPublished, Accompanied;
    LinkExtends(t, t', q);
    LinkKeepsGapFree(t, t', q);
    LinkKeepsLinked(t, t', q);
    LinkKeepsCatalog(t, t', q);
    LinkKeepsCompany(t, t', q);
  }

  lemma LinkExtends(t: Tables, t': Tables, q: Request)
    requires Accompanied(t) && NewLink(t, t', q)
    ensures Extends(t, t')
  {
  }

  lemma CommittedBelow(t: Tables)
    requires AllLinked(t)
    ensures forall op :: op in t.receipts ==> 1 <= t.receipts[op].committed <= t.revision
  {
    forall op | op in t.receipts ensures 1 <= t.receipts[op].committed <= t.revision {
      assert Linked(t, op);
    }
  }

  lemma LinkKeepsGapFree(t: Tables, t': Tables, q: Request)
    requires GapFree(t) && AllLinked(t) && NewLink(t, t', q)
    ensures GapFree(t')
  {
    assert t'.receipts[q.operation].committed == t.revision + 1;
    CommittedBelow(t);
    forall k: nat | 1 <= k <= t'.revision ensures HasLink(t', k) {
      if k <= t.revision {
        assert HasLink(t, k);
        var op :| op in t.receipts && t.receipts[op].committed == k;
        assert op in t'.receipts && t'.receipts[op].committed == k;
      }
    }
  }

  lemma LinkKeepsLinked(t: Tables, t': Tables, q: Request)
    requires AllLinked(t) && NewLink(t, t', q) && t.configuration.revision >= 1
    requires t.revision == 0 <==> t.snapshot == None
    ensures AllLinked(t')
  {
    CommittedBelow(t);
    forall op | op in t'.receipts ensures Linked(t', op) {
      if op != q.operation {
        assert Linked(t, op);
      } else {
        forall p | p in t.receipts && t.receipts[p].committed == t.revision
          ensures t.snapshot == Some(t.receipts[p].snapshot)
          ensures t.receipts[p].expected.sourceRevision <= t.configuration.revision
        {
          assert Linked(t, p);
        }
      }
    }
  }

  lemma LinkKeepsCatalog(t: Tables, t': Tables, q: Request)
    requires CatalogPublished(t) && NewLink(t, t', q)
    ensures CatalogPublished(t')
  {
    forall s | s in t'.snapshots ensures Published(t', s) {
      if s in t.snapshots {
        assert Published(t, s);
        var op :| op in t.receipts && t.receipts[op].snapshot == s;
        assert op in t'.receipts && t'.receipts[op].snapshot == s;
      } else {
        assert t'.receipts[q.operation].snapshot == s;
      }
    }
  }

  lemma LinkKeepsCompany(t: Tables, t': Tables, q: Request)
    requires Accompanied(t) && NewLink(t, t', q)
    ensures Accompanied(t')
  {
  }

  lemma ConfigureKeepsChain(t: Tables, permissions: set<string>, write: bool, layers: seq<SourceLayer>, expected: nat,
                            disk: Option<Error>)
    requires Chain(t)
    ensures var (r, t') := Configure(t, permissions, write, layers, expected, disk);
      && Chain(t') && Extends(t, t') && (r.Err? ==> t' == t)
      && t' == t.(configuration := t'.configuration)
  {
    hide Chain, Extends;
    var (r, t') := Configure(t, permissions, write, layers, expected, disk);
    ReconfiguredKeepsChain(t, t'.configuration);
  }

  lemma ReconfiguredKeepsChain(t: Tables, c: Configuration)
    requires Chain(t) && (c == t.configuration || c.revision > t.configuration.revision)
    ensures Chain(t.(configuration := c)) && Extends(t, t.(configuration := c))
  {
    var t' := t.(configuration := c);
    hide GapFree, AllLinked, CatalogPublished, Accompanied;
    SameReceiptsGapFree(t, t');
    SameReceiptsLinked(t, t');
    SameReceiptsCatalog(t, t');
    SameReceiptsCompany(t, t');
  }

  lemma SameReceiptsGapFree(t: Tables, t': Tables)
    requires GapFree(t) && t'.receipts == t.receipts && t'.revision == t.revision
    ensures GapFree(t')
  {
    forall k: nat | 1 <= k <= t'.revision ensures HasLink(t', k) {
      assert HasLink(t, k);
    }
  }

  lemma SameReceiptsLinked(t: Tables, t': Tables)
    requires AllLinked(t) && t' == t.(configuration := t'.configuration)
    requires t'.configuration.revision >= t.configuration.revision
    ensures AllLinked(t')
  {
    CommittedBelow(t);
    forall op | op in t'.receipts ensures Linked(t', op) {
      assert Linked(t, op);
    }
  }

  lemma SameReceiptsCatalog(t: Tables, t': Tables)
    requires CatalogPublished(t) && t'.receipts == t.receipts && t'.snapshots == t.snapshots
    ensures CatalogPublished(t')
  {
    forall s | s in t'.snapshots ensures Published(t', s) {
      assert Published(t, s);
    }
  }

  lemma SameReceiptsCompany(t: Tables, t': Tables)
    requires Accompanied(t) && t' == t.(configuration := t'.configuration)
    ensures Accompanied(t')
  {
  }
}
