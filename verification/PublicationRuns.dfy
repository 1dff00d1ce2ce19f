/** Whole runs of the publication tables: what every reachable state keeps, replay of an operation after
    later changes, and the attribution of a stored generation. */
module PublicationRuns {
  import opened Wrappers
  import opened Publication

  datatype Action =
    | Publish(permissions: set<string>, write: bool, request: Request)
    | Reconfigure(permissions: set<string>, write: bool, layers: seq<SourceLayer>, expected: nat, disk: Option<Error>)

  function Step(t: Tables, a: Action): Tables {
    match a
    case Publish(permissions, write, request) => Commit(t, permissions, write, request).1
    case Reconfigure(permissions, write, layers, expected, disk) =>
      Configure(t, permissions, write, layers, expected, disk).1
  }

  function Run(t: Tables, actions: seq<Action>): Tables
    decreases |actions|
  {
    if actions == [] then t else Run(Step(t, actions[0]), actions[1..])
  }

  lemma StepKeepsChain(t: Tables, a: Action)
    requires Chain(t)
    ensures Chain(Step(t, a)) && Extends(t, Step(t, a))
  {
    hide Chain, Extends, Commit, Configure;
    match a
    case Publish(permissions, write, request) => CommitKeepsChain(t, permissions, write, request);
    case Reconfigure(permissions, write, layers, expected, disk) => ConfigureKeepsChain(t, permissions, write, layers,
      expected, disk);
  }

  /** Along any run the receipts stay one gap-free chain, and no row ever changes or disappears. */
  lemma {:induction false} RunKeepsChain(t: Tables, actions: seq<Action>)
    requires Chain(t)
    ensures Chain(Run(t, actions)) && Extends(t, Run(t, actions))
    decreases |actions|
  {
    hide Chain, Extends, Step;
    if actions == [] {
      ExtendsItself(t);
    } else {
      StepKeepsChain(t, actions[0]);
      RunKeepsChain(Step(t, actions[0]), actions[1..]);
      ExtendsTransitive(t, Step(t, actions[0]), Run(t, actions));
    }
  }

  /** Every state reachable from a new project satisfies the chain; its head revision counts its
      operations, so no operation advanced the head twice. */
  lemma ReachableChain(layers: seq<SourceLayer>, actions: seq<Action>)
    ensures var t := Run(Bootstrap(layers), actions); Chain(t) && |t.receipts| == t.revision
  {
    RunKeepsChain(Bootstrap(layers), actions);
  }

  // --- Replay ---------------------------------------------------------------------------

  /** A stored operation with its content. */
  ghost predicate Recorded(t: Tables, q: Request) {
    && q.operation in t.receipts && t.receipts[q.operation].expected == q.expected
    && t.receipts[q.operation].snapshot == q.catalog.snapshot
    && q.catalog.snapshot in t.snapshots && SameContent(q.catalog, t.snapshots[q.catalog.snapshot])
    && q.catalog.snapshot in t.layers && t.layers[q.catalog.snapshot] == q.layers
  }

  lemma CommitRecords(t: Tables, permissions: set<string>, write: bool, q: Request)
    requires Chain(t) && Commit(t, permissions, write, q).0.Ok?
    ensures var (r, t') := Commit(t, permissions, write, q);
      Recorded(t', q) && LayersValid(q.layers) && r.value == ResultOf(q.operation, t'.receipts[q.operation])
  {
    hide GapFree, AllLinked, CatalogPublished;
    assert Accompanied(t);
  }

  /** Whatever publications and layer changes happen in between, repeating an operation with its original
      inputs reads back its original result and changes nothing. */
  lemma ReplayReturnsOriginal(t: Tables, permissions: set<string>, write: bool, q: Request, later: seq<Action>,
                              permissions': set<string>)
    requires Chain(t) && Commit(t, permissions, write, q).0.Ok? && "analysis:run" in permissions'
    ensures var (r, t') := Commit(t, permissions, write, q);
      var t'' := Run(t', later);
      Commit(t'', permissions', true, q) == (r, t'')
  {
    var t' := Commit(t, permissions, write, q).1;
    CommitRecords(t, permissions, write, q);
    CommitKeepsChain(t, permissions, write, q);
    RunKeepsChain(t', later);
    hide Chain;
    var t'' := Run(t', later);
    RecordedLater(t', t'', q);
    RecordedReplays(t'', permissions', q);
  }

  lemma RecordedLater(t: Tables, t': Tables, q: Request)
    requires Extends(t, t') && Recorded(t, q)
    ensures Recorded(t', q) && t'.receipts[q.operation] == t.receipts[q.operation]
  {
  }

  lemma RecordedReplays(t: Tables, permissions: set<string>, q: Request)
    requires Recorded(t, q) && LayersValid(q.layers) && "analysis:run" in permissions
    ensures Commit(t, permissions, true, q) == (Ok(ResultOf(q.operation, t.receipts[q.operation])), t)
  {
  }

  /** A reused snapshot keeps the catalog row, and with it the locator, of its first publication. */
  lemma ReusedSnapshotKeepsLocator(t: Tables, permissions: set<string>, write: bool, q: Request, later: seq<Action>)
    requires Chain(t) && q.catalog.snapshot in t.snapshots
    ensures var t' := Run(Commit(t, permissions, write, q).1, later);
      q.catalog.snapshot in t'.snapshots && t'.snapshots[q.catalog.snapshot] == t.snapshots[q.catalog.snapshot]
    ensures Commit(t, permissions, write, q).0.Ok? ==> q.catalog.relpath == t.snapshots[q.catalog.snapshot].relpath
  {
    hide Chain, Commit;
    CommitKeepsChain(t, permissions, write, q);
    var t' := Commit(t, permissions, write, q).1;
    RunKeepsChain(t', later);
    ExtendsTransitive(t, t', Run(t', later));
    if Commit(t, permissions, write, q).0.Ok? {
      CommitRecords(t, permissions, write, q);
      assert SameContent(q.catalog, t.snapshots[q.catalog.snapshot]);
    }
  }

  // --- Attribution of a generation ------------------------------------------------------

  datatype Attribution =
    | Unreferenced(head: Head)
    | Referenced(head: Head, catalog: Catalog, publication: PublishResult)

  /** The receipt of `s` with the greatest committed revision. */
  ghost predicate IsLatest(t: Tables, s: string, op: string) {
    && op in t.receipts && t.receipts[op].snapshot == s
    && forall p :: p in t.receipts && t.receipts[p].snapshot == s ==>
      t.receipts[p].committed <= t.receipts[op].committed
  }

  lemma {:induction false} LatestExists(t: Tables, s: string, op: string)
    requires GapFree(t) && AllLinked(t) && op in t.receipts && t.receipts[op].snapshot == s
    ensures exists latest :: IsLatest(t, s, latest)
    decreases t.revision - t.receipts[op].committed
  {
    assert Linked(t, op);
    if p :| p in t.receipts && t.receipts[p].snapshot == s && t.receipts[p].committed > t.receipts[op].committed {
      assert Linked(t, p);
      LatestExists(t, s, p);
    } else {
      assert IsLatest(t, s, op);
    }
  }

  /** The stored receipt contradicts the head. */
  ghost predicate Contradicts(t: Tables, s: string, receipt: PublishResult, expected: Head) {
    var head := t.ProjectHead();
    || receipt.head.revision != expected.revision + 1
    || receipt.head.revision > head.revision
    || receipt.head.sourceRevision > head.sourceRevision
    || (head.snapshot == Some(s) && receipt.head.revision != head.revision)
    || (receipt.head.revision == head.revision && Some(receipt.snapshot) != head.snapshot)
  }

  ghost function LatestOperation(t: Tables, s: string): (op: Option<string>)
    ensures op.Some? ==> IsLatest(t, s, op.value)
  {
    if op :| IsLatest(t, s, op) then Some(op) else None
  }

  /** The attribution of one catalog row. */
  ghost function RowAttribution(t: Tables, s: string): Result<Attribution>
    requires s in t.snapshots
  {
    match LatestOperation(t, s)
    case None => Err(StateCorrupt)
    case Some(op) =>
      var receipt := ResultOf(op, t.receipts[op]);
      if Contradicts(t, s, receipt, t.receipts[op].expected) then Err(StateCorrupt)
      else Ok(Referenced(t.ProjectHead(), t.snapshots[s], receipt))
  }

  ghost function GetAttribution(t: Tables, relpath: string): Result<Attribution> {
    if s :| s in t.snapshots && t.snapshots[s].relpath == relpath then RowAttribution(t, s)
    else Ok(Unreferenced(t.ProjectHead()))
  }

  /** The answer is row `s` with the receipt of `op`, the latest publication of that snapshot. */
  ghost predicate AttributedTo(t: Tables, s: string, op: string, a: Result<Attribution>)
    requires s in t.snapshots
  {
    IsLatest(t, s, op) && a == Ok(Referenced(t.ProjectHead(), t.snapshots[s], ResultOf(op, t.receipts[op])))
  }

  lemma RowNeverCorrupt(t: Tables, s: string)
    requires Chain(t) && s in t.snapshots
    ensures exists op :: AttributedTo(t, s, op, RowAttribution(t, s))
  {
    hide Chain, Contradicts;
    LatestOfPublished(t, s);
    var op := LatestOperation(t, s).value;
    LatestAgrees(t, s, op);
    assert AttributedTo(t, s, op, RowAttribution(t, s));
  }

  /** The attribution never finds corruption in a chain: a locator is unreferenced exactly when no catalog
      row has it, and otherwise it comes with its row and the latest publication of that snapshot. */
  lemma AttributionNeverCorrupt(t: Tables, relpath: string)
    requires Chain(t)
    ensures (forall s :: s in t.snapshots ==> t.snapshots[s].relpath != relpath) ==>
      GetAttribution(t, relpath) == Ok(Unreferenced(t.ProjectHead()))
    ensures forall s :: s in t.snapshots && t.snapshots[s].relpath == relpath ==>
      exists op :: AttributedTo(t, s, op, GetAttribution(t, relpath))
  {
    hide Chain, IsLatest, RowAttribution, AttributedTo;
    forall s | s in t.snapshots && t.snapshots[s].relpath == relpath
      ensures exists op :: AttributedTo(t, s, op, GetAttribution(t, relpath))
    {
      OneOwner(t, s);
      RowNeverCorrupt(t, s);
      assert GetAttribution(t, relpath) == RowAttribution(t, s);
    }
  }

  lemma OneOwner(t: Tables, s: string)
    requires Chain(t) && s in t.snapshots
    ensures t.snapshots[s].snapshot == s
    ensures forall s' :: s' in t.snapshots && t.snapshots[s'].relpath == t.snapshots[s].relpath ==> s' == s
  {
    hide GapFree, AllLinked, Accompanied;
  }

  lemma LatestOfPublished(t: Tables, s: string)
    requires Chain(t) && s in t.snapshots
    ensures exists op :: IsLatest(t, s, op)
  {
    hide Accompanied;
    assert Published(t, s);
    var first :| first in t.receipts && t.receipts[first].snapshot == s;
    LatestExists(t, s, first);
  }

  lemma LatestAgrees(t: Tables, s: string, op: string)
    requires Chain(t) && IsLatest(t, s, op)
    ensures !Contradicts(t, s, ResultOf(op, t.receipts[op]), t.receipts[op].expected)
  {
    assert Linked(t, op);
    if t.snapshot == Some(s) {
      assert HasLink(t, t.revision);
      var last :| last in t.receipts && t.receipts[last].committed == t.revision;
      assert Linked(t, last);
    }
  }
}
