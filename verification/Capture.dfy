/** The capture orchestrator as a protocol: many captures, other publishers and layer changes interleave
    between its transactions, every boundary may fail or be interrupted, and a commit acknowledgement may be
    lost. */
module Capture {
  import opened Wrappers
  import opened Publication
  import opened PublicationRuns

  // --- The gate -------------------------------------------------------------------------

  /** The comparison of the current head and configuration with those the capture started from. */
  function GateResult(t: Tables, head: Head, configuration: Option<Configuration>): Result<()> {
    if t.configuration.revision != head.sourceRevision then Err(SourceConfigurationConflict)
    else if t.ProjectHead() != head then Err(HeadConflict)
    else if configuration.Some? && t.configuration != configuration.value then Err(SourceConfigurationConflict)
    else Ok(())
  }

  /** Authorization shared by all stages; nonreentrant, and bound to the configuration it first saw. */
  class CaptureGate {
    const head: Head
    var configuration: Option<Configuration>
    var busy: bool

    constructor (head: Head)
      ensures this.head == head && configuration == None && !busy
    {
      this.head, configuration, busy := head, None, false;
    }

    /** `early` and `late` are failures of the deadline, cancellation and authorization callbacks before
        and after the tables are read. */
    method Check(t: Tables, early: Option<Error>, late: Option<Error>) returns (r: Result<()>)
      modifies this
      ensures old(busy) ==> r == Err(SessionInvalid) && busy && configuration == old(configuration)
      ensures !old(busy) ==> !busy
      ensures !old(busy) && r.Ok? ==>
        GateResult(t, head, old(configuration)).Ok? && configuration == Some(t.configuration)
      ensures !old(busy) && early == late == None ==> r == GateResult(t, head, old(configuration))
      ensures configuration == old(configuration)
        || (old(configuration) == None && configuration == Some(t.configuration))
    {
      if busy {
        return Err(SessionInvalid);
      }
      busy := true;
      if early.Some? {
        r := Err(early.value);
      } else {
        r := GateResult(t, head, configuration);
        if r.Ok? {
          configuration := Some(t.configuration);
          if late.Some? {
            r := Err(late.value);
          }
        }
      }
      busy := false;
    }
  }

  // --- One capture ----------------------------------------------------------------------

  /** A successfully closed generation, not yet published. */
  datatype Complete = Complete(catalog: Catalog, layers: seq<Layer>)

  datatype Phase =
    | Entered
    | Fresh                                        // no receipt for the operation
    | Gated                                        // first gate check passed
    | Generated(captured: Configuration, complete: Complete)
    | Rechecked(captured: Configuration, complete: Complete)
    | Looked(captured: Configuration, complete: Complete, existing: Option<Catalog>)
    | Bound(captured: Configuration, complete: Complete, existing: Option<Catalog>, catalog: Catalog)
    | Armed(captured: Configuration, complete: Complete, existing: Option<Catalog>, catalog: Catalog)
    | Unacknowledged(complete: Complete, durable: bool)   // commit attempted, then an exception
    | Returned(result: PublishResult)
    | Failed(error: Error, durable: bool)

  /** `gate` is the configuration that the gate remembers. `durable` is history only: whether this
      capture's own transaction became durable before it failed. */
  datatype Process = Process(operation: string, head: Head, gate: Option<Configuration>, phase: Phase) {
    function Fail(e: Error): Process {
      this.(phase := Failed(e, false))
    }
  }

  /** A gate check leads to `next` or fails. */
  function PassGate(t: Tables, p: Process, next: Phase): Process {
    match GateResult(t, p.head, p.gate)
    case Ok(_) => p.(gate := Some(t.configuration), phase := next)
    case Err(e) => p.Fail(e)
  }

  /** The body of the write transaction: replay, exact comparisons, then the publication. */
  function WriteBody(t: Tables, p: Process): (Result<PublishResult>, Tables)
    requires p.phase.Armed?
  {
    var Armed(captured, complete, existing, catalog) := p.phase;
    match t.Find(p.operation)
    case Some(found) =>
      var same := found.1 == p.head && found.0.snapshot == complete.catalog.snapshot;
      (if same then Ok(found.0) else Err(OperationConflict), t)
    case None =>
      if t.configuration.revision != p.head.sourceRevision || t.configuration != captured
        then (Err(SourceConfigurationConflict), t)
      else if t.ProjectHead() != p.head then (Err(HeadConflict), t)
      else if t.Lookup(complete.catalog.snapshot) != existing then (Err(CatalogChanged), t)
      else Commit(t, {"analysis:run"}, true, Request(p.head, catalog, complete.layers, p.operation))
  }

  /** What reading the durable receipt says after a failed acknowledgement. */
  function Reconciled(t: Tables, p: Process): Phase
    requires p.phase.Unacknowledged?
  {
    match t.Find(p.operation)
    case Some(found) =>
      if found.1 != p.head || found.0.snapshot != p.phase.complete.catalog.snapshot
        then Failed(OperationConflict, p.phase.durable)
      else Returned(found.0)
    case None => Failed(Interrupted, p.phase.durable)
  }

  /** The catalog row that will be published: fresh content under the locator that is already known. */
  function WithKnownLocator(complete: Complete, existing: Option<Catalog>): Catalog {
    match existing
    case Some(row) => complete.catalog.(relpath := row.relpath)
    case None => complete.catalog
  }

  /** The write transaction: refused or replayed it changes nothing; a new publication is committed and
      acknowledged, committed without acknowledgement, or rolled back in the attempt. */
  ghost predicate CommitStep(t: Tables, p: Process, r: Result<PublishResult>, written: Tables, t': Tables, p': Process)
    requires p.phase.Armed?
  {
    if r.Err? then t' == t && p' == p.Fail(r.error)
    else if p.operation in t.receipts then t' == t && p' == p.(phase := Returned(r.value))
    else
      || (t' == written && p' == p.(phase := Returned(r.value)))
      || (t' == written && p' == p.(phase := Unacknowledged(p.phase.complete, true)))
      || (t' == t && p' == p.(phase := Unacknowledged(p.phase.complete, false)))
  }

  /** One transaction or stage of a capture. */
  ghost predicate Advances(t: Tables, p: Process, t': Tables, p': Process) {
    match p.phase
    case Entered =>
      t' == t && p' == (match t.Find(p.operation)
        case Some(found) => if found.1 != p.head then p.Fail(OperationConflict) else p.(phase := Returned(found.0))
        case None => p.(phase := Fresh))
    case Fresh => t' == t && p' == PassGate(t, p, Gated)
    case Gated => t' == t && exists captured, complete :: p' == PassGate(t, p, Generated(captured, complete))
    case Generated(captured, complete) =>
      t' == t && p' == (var q := PassGate(t, p, Rechecked(captured, complete));
                        if q.phase.Rechecked? && q.gate != Some(captured) then p.Fail(SourceConfigurationConflict)
                          else q)
    case Rechecked(captured, complete) =>
      t' == t && p' == p.(phase := Looked(captured, complete, t.Lookup(complete.catalog.snapshot)))
    case Looked(captured, complete, existing) =>
      t' == t && p' == (if existing.Some? && t.Lookup(complete.catalog.snapshot) != existing then p.Fail(LocatorDiffers)
                        else p.(phase := Bound(captured, complete, existing, WithKnownLocator(complete, existing))))
    case Bound(captured, complete, existing, catalog) =>
      t' == t && p' == PassGate(t, p, Armed(captured, complete, existing, catalog))
    case Armed(captured, complete, existing, catalog) =>
      CommitStep(t, p, WriteBody(t, p).0, WriteBody(t, p).1, t', p')
    case Unacknowledged(complete, durable) =>
      t' == t && (p' == p.(phase := Reconciled(t, p)) || p' == p.(phase := Failed(OutcomeUnknown, durable)))
    case Returned(_) => false
    case Failed(_, _) => false
  }

  /** A deadline, cancellation, refusal, crash or interrupt of a stage: possible at every boundary before the
      commit is attempted, inside the write transaction included. */
  ghost predicate Aborts(t: Tables, p: Process, t': Tables, p': Process) {
    && !p.phase.Unacknowledged? && !p.phase.Returned? && !p.phase.Failed?
    && t' == t && (p' == p.Fail(Interrupted) || p' == p.Fail(Struck))
  }

  /** An interrupt after the commit was attempted: before or after the commit became durable, or while its
      receipt is read back. Only ordinary exceptions are reconciled, so this one leaves the capture as it is. */
  ghost predicate Interrupts(t: Tables, p: Process, t': Tables, p': Process) {
    match p.phase
    case Armed(_, _, _, _) =>
      && WriteBody(t, p).0.Ok? && p.operation !in t.receipts
      && ((t' == WriteBody(t, p).1 && p' == p.(phase := Failed(Struck, true)))
        || (t' == t && p' == p.(phase := Failed(Struck, false))))
    case Unacknowledged(_, durable) => t' == t && p' == p.(phase := Failed(Struck, durable))
    case _ => false
  }

  // --- All captures of a project --------------------------------------------------------

  datatype World = World(tables: Tables, processes: map<nat, Process>)

  ghost predicate ProcessStep(w: World, w': World, id: nat) {
    && id in w.processes && id in w'.processes && w'.processes == w.processes[id := w'.processes[id]]
    && (|| Advances(w.tables, w.processes[id], w'.tables, w'.processes[id])
        || Aborts(w.tables, w.processes[id], w'.tables, w'.processes[id])
        || Interrupts(w.tables, w.processes[id], w'.tables, w'.processes[id]))
  }

  /** In this step the capture is interrupted after its commit was attempted. */
  ghost predicate InterruptStep(w: World, w': World, id: nat) {
    && id in w.processes && id in w'.processes && w'.processes == w.processes[id := w'.processes[id]]
    && Interrupts(w.tables, w.processes[id], w'.tables, w'.processes[id])
  }

  ghost predicate OtherStep(w: World, w': World, a: Action) {
    w' == w.(tables := Step(w.tables, a))
  }

  ghost predicate EnterStep(w: World, w': World, id: nat) {
    && id !in w.processes && id in w'.processes && w' == w.(processes := w.processes[id := w'.processes[id]])
    && w'.processes[id].phase == Entered && w'.processes[id].gate == None
  }

  ghost predicate Next(w: World, w': World) {
    (exists id :: ProcessStep(w, w', id)) || (exists a :: OtherStep(w, w', a)) || (exists id :: EnterStep(w, w', id))
  }

  ghost predicate Initial(w: World) {
    w.processes == map[] && exists layers :: w.tables == Bootstrap(layers)
  }

  ghost predicate Behaviour(trace: seq<World>) {
    trace != [] && Initial(trace[0]) && forall k :: 0 <= k < |trace| - 1 ==> Next(trace[k], trace[k + 1])
  }

  // --- The invariant --------------------------------------------------------------------

  /** A durable receipt stands for this operation and head. */
  ghost predicate Confirms(t: Tables, p: Process, snapshot: string) {
    && p.operation in t.receipts && t.receipts[p.operation].expected == p.head
    && t.receipts[p.operation].snapshot == snapshot
  }

  /** The tables are at or past the head that the capture started from. */
  ghost predicate Past(t: Tables, p: Process) {
    p.head.revision <= t.revision && p.head.sourceRevision <= t.configuration.revision
  }

  /** As long as the head has not moved, the catalog row read earlier is still the current one. */
  ghost predicate StillCurrent(t: Tables, p: Process, complete: Complete, existing: Option<Catalog>) {
    Past(t, p) && (t.revision == p.head.revision ==> t.Lookup(complete.catalog.snapshot) == existing)
    && (existing.Some? ==> t.Lookup(complete.catalog.snapshot) == existing)
  }

  ghost predicate ProcessOk(t: Tables, p: Process) {
    match p.phase
    case Entered => true
    case Fresh => true
    case Gated => Past(t, p)
    case Generated(_, _) => Past(t, p)
    case Rechecked(_, _) => Past(t, p)
    case Looked(_, complete, existing) => StillCurrent(t, p, complete, existing)
    case Bound(_, complete, existing, catalog) =>
      StillCurrent(t, p, complete, existing) && catalog == WithKnownLocator(complete, existing)
    case Armed(_, complete, existing, catalog) =>
      StillCurrent(t, p, complete, existing) && catalog == WithKnownLocator(complete, existing)
    case Unacknowledged(complete, durable) => durable ==> Confirms(t, p, complete.catalog.snapshot)
    case Returned(result) => Confirms(t, p, result.snapshot) && result == ResultOf(p.operation, t.receipts[p.operation])
    case Failed(e, durable) =>
      e != LocatorDiffers && e != CatalogChanged && (durable ==> e == OutcomeUnknown || e == Struck)
  }

  ghost predicate WorldOk(w: World) {
    Chain(w.tables) && forall id :: id in w.processes ==> ProcessOk(w.tables, w.processes[id])
  }

  /** Whatever others do, a capture keeps what it knows. */
  lemma OthersKeepProcess(t: Tables, t': Tables, p: Process)
    requires Extends(t, t') && ProcessOk(t, p)
    ensures ProcessOk(t', p)
  {
  }

  /** What the write transaction of an armed capture achieves: a success leaves a receipt for exactly this
      operation, head and snapshot; a refusal changes nothing, and is never a changed catalog. */
  ghost predicate WriteConfirms(t: Tables, p: Process, r: Result<PublishResult>, t': Tables)
    requires p.phase.Armed?
  {
    && Chain(t') && Extends(t, t')
    && (r.Ok? ==>
      Confirms(t', p, p.phase.complete.catalog.snapshot) && r.value == ResultOf(p.operation, t'.receipts[p.operation]))
    && (r.Err? ==> t' == t && r.error != LocatorDiffers && r.error != CatalogChanged)
    && (r.Ok? && p.operation in t.receipts ==> t' == t)
    && (r.Ok? && p.operation !in t.receipts ==> t'.revision == t.revision + 1)
  }

  lemma WriteBodyConfirms(t: Tables, p: Process)
    requires Chain(t) && p.phase.Armed? && ProcessOk(t, p)
    ensures WriteConfirms(t, p, WriteBody(t, p).0, WriteBody(t, p).1)
  {
    hide *;
    var q := Request(p.head, p.phase.catalog, p.phase.complete.layers, p.operation);
    WriteBodyCases(t, p, q);
    CatalogOfArmed(t, p);
    ExtendsItself(t);
    if p.operation !in t.receipts {
      CommitConfirms(t, p, q);
    }
    UnchangedConfirms(t, p, WriteBody(t, p).0);
  }

  /** A refusal, or the replay of a confirmed receipt, leaves the tables alone. */
  lemma UnchangedConfirms(t: Tables, p: Process, r: Result<PublishResult>)
    requires Chain(t) && Extends(t, t) && p.phase.Armed?
    ensures r == Err(OperationConflict) || r == Err(SourceConfigurationConflict) || r == Err(HeadConflict) ==>
      WriteConfirms(t, p, r, t)
    ensures
      (p.operation in t.receipts && r == Ok(ResultOf(p.operation, t.receipts[p.operation]))
        && Confirms(t, p, p.phase.complete.catalog.snapshot)) ==> WriteConfirms(t, p, r, t)
  {
    hide Chain, Extends;
  }

  lemma CatalogOfArmed(t: Tables, p: Process)
    requires p.phase.Armed? && ProcessOk(t, p)
    ensures p.phase.catalog.snapshot == p.phase.complete.catalog.snapshot
  {
  }

  /** A stored operation is confirmed or refused; a new one is refused by a comparison or published. The
      comparison with the earlier catalog row cannot fail: an unmoved head means an unchanged catalog. */
  lemma WriteBodyCases(t: Tables, p: Process, q: Request)
    requires p.phase.Armed? && ProcessOk(t, p)
    requires q == Request(p.head, p.phase.catalog, p.phase.complete.layers, p.operation)
    ensures p.operation in t.receipts ==>
      WriteBody(t, p).1 == t &&
      (WriteBody(t, p).0 == Err(OperationConflict) ||
       (WriteBody(t, p).0 == Ok(ResultOf(p.operation, t.receipts[p.operation]))
         && Confirms(t, p, p.phase.complete.catalog.snapshot)))
    ensures p.operation !in t.receipts ==>
      WriteBody(t, p) == (Err(SourceConfigurationConflict), t) || WriteBody(t, p) == (Err(HeadConflict), t)
      || WriteBody(t, p) == Commit(t, {"analysis:run"}, true, q)
  {
    hide Commit;
  }

  lemma CommitConfirms(t: Tables, p: Process, q: Request)
    requires Chain(t) && p.phase.Armed? && q.expected == p.head && q.operation == p.operation
    requires p.operation !in t.receipts
    requires q.catalog.snapshot == p.phase.complete.catalog.snapshot
    ensures var c := Commit(t, {"analysis:run"}, true, q); WriteConfirms(t, p, c.0, c.1)
  {
    CommitErrors(t, {"analysis:run"}, true, q);
    hide Chain, Extends, Commit;
    CommitKeepsChain(t, {"analysis:run"}, true, q);
  }

  lemma CommitErrors(t: Tables, permissions: set<string>, write: bool, q: Request)
    ensures var r := Commit(t, permissions, write, q).0;
      r.Err? ==> r.error != LocatorDiffers && r.error != CatalogChanged
  {
  }

  lemma AdvanceKeepsWorld(t: Tables, p: Process, t': Tables, p': Process)
    requires Chain(t) && ProcessOk(t, p) && (Advances(t, p, t', p') || Aborts(t, p, t', p') || Interrupts(t, p, t', p'))
    ensures Chain(t') && Extends(t, t') && ProcessOk(t', p')
  {
    hide Chain, Extends, WriteBody;
    ExtendsItself(t);
    if p.phase.Armed? && !Aborts(t, p, t', p') {
      WriteBodyConfirms(t, p);
      if Advances(t, p, t', p') {
        CommitStepKeepsWorld(t, p, WriteBody(t, p).0, WriteBody(t, p).1, t', p');
      }
    } else if !p.phase.Armed? && Advances(t, p, t', p') {
      ReadingKeepsWorld(t, p, t', p');
    }
  }

  lemma CommitStepKeepsWorld(t: Tables, p: Process, r: Result<PublishResult>, written: Tables, t': Tables, p': Process)
    requires Chain(t) && p.phase.Armed? && WriteConfirms(t, p, r, written) && CommitStep(t, p, r, written, t', p')
    ensures Chain(t') && Extends(t, t') && ProcessOk(t', p')
  {
    hide Chain, Extends;
    ExtendsItself(t);
  }

  lemma ReadingKeepsWorld(t: Tables, p: Process, t': Tables, p': Process)
    requires ProcessOk(t, p) && !p.phase.Armed? && Advances(t, p, t', p')
    ensures t' == t && ProcessOk(t', p')
  {
  }

  lemma StepKeepsWorld(w: World, w': World)
    requires WorldOk(w) && Next(w, w')
    ensures WorldOk(w') && Extends(w.tables, w'.tables)
  {
    hide Chain, Extends, ProcessOk, Advances, Aborts, Interrupts, Step;
    if id :| ProcessStep(w, w', id) {
      AdvanceKeepsWorld(w.tables, w.processes[id], w'.tables, w'.processes[id]);
    } else if a :| OtherStep(w, w', a) {
      StepKeepsChain(w.tables, a);
    } else {
      ExtendsItself(w.tables);
      var id :| EnterStep(w, w', id);
      assert ProcessOk(w'.tables, w'.processes[id]) by { EnteredIsOk(w'.processes[id], w'.tables); }
    }
    forall id | id in w'.processes ensures ProcessOk(w'.tables, w'.processes[id]) {
      if id in w.processes && w'.processes[id] == w.processes[id] {
        OthersKeepProcess(w.tables, w'.tables, w.processes[id]);
      }
    }
  }

  lemma EnteredIsOk(p: Process, t: Tables)
    requires p.phase == Entered
    ensures ProcessOk(t, p)
  {
  }

  // --- Safety of whole behaviours -------------------------------------------------------

  /** Every state of every behaviour satisfies the invariant, and later tables extend earlier ones. */
  lemma {:induction false} BehaviourKeepsWorld(trace: seq<World>, i: nat, j: nat)
    requires Behaviour(trace) && i <= j < |trace|
    ensures WorldOk(trace[j]) && Extends(trace[i].tables, trace[j].tables)
    decreases j
  {
    hide WorldOk, Extends, Next;
    if j == 0 {
      InitialOk(trace[0]);
      ExtendsItself(trace[0].tables);
    } else {
      BehaviourKeepsWorld(trace, if i == j then j - 1 else i, j - 1);
      assert Next(trace[j - 1], trace[j - 1 + 1]);
      StepKeepsWorld(trace[j - 1], trace[j]);
      ExtendsItself(trace[j].tables);
      if i < j {
        ExtendsTransitive(trace[i].tables, trace[j - 1].tables, trace[j].tables);
      }
    }
  }

  lemma InitialOk(w: World)
    requires Initial(w)
    ensures WorldOk(w)
  {
  }

  /** Every result that a capture returns names a durable receipt of its own operation, its expected head
      and its snapshot, in the state that returns it and in every later one. */
  lemma ReturnedIsDurable(trace: seq<World>, i: nat, j: nat, id: nat)
    requires Behaviour(trace) && i <= j < |trace|
    requires id in trace[i].processes && trace[i].processes[id].phase.Returned?
    ensures var p := trace[i].processes[id];
      && Confirms(trace[j].tables, p, p.phase.result.snapshot)
      && p.phase.result == ResultOf(p.operation, trace[j].tables.receipts[p.operation])
      && p.phase.result.head.revision == p.head.revision + 1
  {
    hide Behaviour, ProcessOk;
    ProcessInTrace(trace, i, id);
    BehaviourKeepsWorld(trace, i, j);
    ReturnedConfirms(trace[i].tables, trace[j].tables, trace[i].processes[id]);
  }

  lemma ProcessInTrace(trace: seq<World>, k: nat, id: nat)
    requires Behaviour(trace) && k < |trace| && id in trace[k].processes
    ensures Chain(trace[k].tables) && ProcessOk(trace[k].tables, trace[k].processes[id])
  {
    hide Behaviour, ProcessOk, Chain;
    BehaviourKeepsWorld(trace, 0, k);
  }

  lemma ReturnedConfirms(t: Tables, t': Tables, p: Process)
    requires Chain(t) && ProcessOk(t, p) && Extends(t, t') && p.phase.Returned?
    ensures Confirms(t', p, p.phase.result.snapshot)
    ensures p.phase.result == ResultOf(p.operation, t'.receipts[p.operation])
    ensures p.phase.result.head.revision == p.head.revision + 1
  {
    assert AllLinked(t);
    hide GapFree, CatalogPublished, Accompanied;
    assert Linked(t, p.operation);
  }

  /** The capture was interrupted after its commit was attempted, at some step before `k`. */
  ghost predicate StruckBefore(trace: seq<World>, k: nat, id: nat)
    requires k < |trace|
  {
    exists j :: 0 <= j < k && InterruptStep(trace[j], trace[j + 1], id)
  }

  /** A capture that fails never denies its own durable commit. Such a failure reports that the outcome is unknown
      exactly when no interrupt struck after the commit was attempted; otherwise it is that interrupt. The two
      corruption reports of the orchestrator cannot occur. */
  lemma FailureIsHonest(trace: seq<World>, k: nat, id: nat)
    requires Behaviour(trace) && k < |trace| && id in trace[k].processes && trace[k].processes[id].phase.Failed?
    ensures var f := trace[k].processes[id].phase;
      && f.error != LocatorDiffers && f.error != CatalogChanged
      && (f.durable ==>
        (f.error == OutcomeUnknown <==> !StruckBefore(trace, k, id))
          && (f.error == Struck <==> StruckBefore(trace, k, id)))
  {
    hide Behaviour, Chain, StruckBefore;
    ProcessInTrace(trace, k, id);
    var f := trace[k].processes[id].phase;
    if f.durable {
      DurableFailures(trace, k, id);
    }
  }

  /** A failed capture stays as it is. */
  lemma FailedStays(w: World, w': World, id: nat)
    requires Next(w, w') && id in w.processes && w.processes[id].phase.Failed?
    ensures id in w'.processes && w'.processes[id] == w.processes[id] && !InterruptStep(w, w', id)
  {
    hide WriteBody, PassGate, Reconciled, CommitStep, Step;
  }

  lemma {:induction false} FailedForGood(trace: seq<World>, i: nat, j: nat, id: nat)
    requires Behaviour(trace) && i <= j < |trace| && id in trace[i].processes && trace[i].processes[id].phase.Failed?
    ensures id in trace[j].processes && trace[j].processes[id] == trace[i].processes[id]
    decreases j - i
  {
    hide Next, Initial;
    if i < j {
      FailedForGood(trace, i, j - 1, id);
      assert Next(trace[j - 1], trace[j - 1 + 1]);
      FailedStays(trace[j - 1], trace[j], id);
    }
  }

  /** The step in which a capture fails although its commit is durable: the outcome is unknown, or it was struck. */
  lemma DurableFailure(w: World, w': World, id: nat)
    requires Next(w, w') && id in w'.processes && w'.processes[id].phase.Failed? && w'.processes[id].phase.durable
    requires id in w.processes ==> ProcessOk(w.tables, w.processes[id]) && Chain(w.tables)
    requires id in w.processes ==> !w.processes[id].phase.Failed?
    ensures w'.processes[id].phase.error == Struck <==> InterruptStep(w, w', id)
    ensures w'.processes[id].phase.error == OutcomeUnknown <==> !InterruptStep(w, w', id)
  {
    hide Chain, Step, WriteBody, ProcessOk, Advances, Aborts, Interrupts;
    assert ProcessStep(w, w', id) by {
      if i :| ProcessStep(w, w', i) {
        assert i == id;
      }
    }
    DurableStep(w.tables, w.processes[id], w'.tables, w'.processes[id]);
  }

  lemma DurableStep(t: Tables, p: Process, t': Tables, p': Process)
    requires ProcessOk(t, p) && p'.phase.Failed? && p'.phase.durable
    requires Advances(t, p, t', p') || Aborts(t, p, t', p') || Interrupts(t, p, t', p')
    ensures p'.phase.error == Struck <==> Interrupts(t, p, t', p')
    ensures p'.phase.error == OutcomeUnknown <==> !Interrupts(t, p, t', p')
  {
    hide WriteBody;
  }

  lemma {:induction false} DurableFailures(trace: seq<World>, k: nat, id: nat)
    requires Behaviour(trace) && k < |trace| && id in trace[k].processes
    requires trace[k].processes[id].phase.Failed? && trace[k].processes[id].phase.durable
    ensures trace[k].processes[id].phase.error == Struck <==> StruckBefore(trace, k, id)
    ensures trace[k].processes[id].phase.error == OutcomeUnknown <==> !StruckBefore(trace, k, id)
    decreases k
  {
    hide Next, InterruptStep, ProcessOk, Chain;
    if k > 0 {
      assert Next(trace[k - 1], trace[k - 1 + 1]);
      var (w, w') := (trace[k - 1], trace[k]);
      if id in w.processes && w.processes[id].phase.Failed? {
        FailedStays(w, w', id);
        DurableFailures(trace, k - 1, id);
      } else {
        if id in w.processes {
          ProcessInTrace(trace, k - 1, id);
        }
        DurableFailure(w, w', id);
        forall j | 0 <= j < k - 1 ensures !InterruptStep(trace[j], trace[j + 1], id) {
          NotStruckYet(trace, j, k - 1, id);
        }
      }
    }
  }

  /** A capture that has not failed was not struck. */
  lemma NotStruckYet(trace: seq<World>, j: nat, k: nat, id: nat)
    requires Behaviour(trace) && j < k < |trace| && (id in trace[k].processes ==> !trace[k].processes[id].phase.Failed?)
    ensures !InterruptStep(trace[j], trace[j + 1], id)
  {
    hide Behaviour, WriteBody;
    if InterruptStep(trace[j], trace[j + 1], id) {
      FailedForGood(trace, j + 1, k, id);
      assert false;
    }
  }

  // --- A run that is struck -------------------------------------------------------------

  /** A world with one capture. */
  function Alone(t: Tables, p: Process): World {
    World(t, map[0 := p])
  }

  lemma Longer(trace: seq<World>, w: World)
    requires Behaviour(trace) && Next(trace[|trace| - 1], w)
    ensures Behaviour(trace + [w])
  {
    hide Initial, Next;
    var longer := trace + [w];
    forall k | 0 <= k < |longer| - 1 ensures Next(longer[k], longer[k + 1]) {
      if k < |trace| - 1 {
        assert longer[k] == trace[k] && longer[k + 1] == trace[k + 1] && Next(trace[k], trace[k + 1]);
      }
    }
  }

  lemma StepsAlone(trace: seq<World>, t: Tables, p: Process, t': Tables, p': Process) returns (longer: seq<World>)
    requires Behaviour(trace) && trace[|trace| - 1] == Alone(t, p)
    requires Advances(t, p, t', p') || Interrupts(t, p, t', p')
    ensures Behaviour(longer) && longer[|longer| - 1] == Alone(t', p')
  {
    hide Behaviour, Advances, Interrupts;
    assert Alone(t, p).processes[0 := p'] == Alone(t', p').processes;
    assert ProcessStep(Alone(t, p), Alone(t', p'), 0);
    longer := trace + [Alone(t', p')];
    Longer(trace, Alone(t', p'));
  }

  /** From a new project a capture is led through all its stages up to the write transaction. */
  lemma ArmedRun(layers: seq<SourceLayer>, operation: string, complete: Complete)
    returns (trace: seq<World>, armed: Process)
    ensures var t := Bootstrap(layers);
      && Behaviour(trace) && trace[|trace| - 1] == Alone(t, armed)
      && armed.operation == operation && armed.head == t.ProjectHead()
      && armed.phase == Armed(t.configuration, complete, None, complete.catalog)
  {
    var t := Bootstrap(layers);
    var c := t.configuration;
    var p := Process(operation, t.ProjectHead(), None, Entered);
    var empty := World(t, map[]);
    assert Initial(empty);
    assert EnterStep(empty, Alone(t, p), 0);
    trace := [empty];
    Longer(trace, Alone(t, p));
    trace := trace + [Alone(t, p)];
    var gated := p.(gate := Some(c), phase := Gated);
    armed := gated.(phase := Armed(c, complete, None, complete.catalog));
    StagesAdvance(t, p, complete);
    hide Advances, Behaviour, Bootstrap;
    trace := StepsAlone(trace, t, p, t, p.(phase := Fresh));
    trace := StepsAlone(trace, t, p.(phase := Fresh), t, gated);
    trace := StepsAlone(trace, t, gated, t, gated.(phase := Generated(c, complete)));
    trace := StepsAlone(trace, t, gated.(phase := Generated(c, complete)), t, gated.(phase := Rechecked(c, complete)));
    trace := StepsAlone(trace, t, gated.(phase := Rechecked(c, complete)), t,
      gated.(phase := Looked(c, complete, None)));
    trace := StepsAlone(trace, t, gated.(phase := Looked(c, complete, None)), t,
      gated.(phase := Bound(c, complete, None, complete.catalog)));
    trace := StepsAlone(trace, t, gated.(phase := Bound(c, complete, None, complete.catalog)), t, armed);
  }

  lemma StagesAdvance(t: Tables, p: Process, complete: Complete)
    requires t.receipts == map[] && t.snapshots == map[] && p.gate == None && p.phase == Entered
    requires p.head == t.ProjectHead() && p.head.sourceRevision == t.configuration.revision
    ensures var c := t.configuration;
      var gated := p.(gate := Some(c), phase := Gated);
      && Advances(t, p, t, p.(phase := Fresh)) && Advances(t, p.(phase := Fresh), t, gated)
      && Advances(t, gated, t, gated.(phase := Generated(c, complete)))
      && Advances(t, gated.(phase := Generated(c, complete)), t, gated.(phase := Rechecked(c, complete)))
      && Advances(t, gated.(phase := Rechecked(c, complete)), t, gated.(phase := Looked(c, complete, None)))
      && Advances(t, gated.(phase := Looked(c, complete, None)), t,
        gated.(phase := Bound(c, complete, None, complete.catalog)))
      && Advances(t, gated.(phase := Bound(c, complete, None, complete.catalog)), t,
        gated.(phase := Armed(c, complete, None, complete.catalog)))
  {
    var c := t.configuration;
    var gated := p.(gate := Some(c), phase := Gated);
    var generated := gated.(phase := Generated(c, complete));
    assert generated == PassGate(t, gated, Generated(c, complete));
    assert Advances(t, gated, t, generated);
  }

  /** A run from a new project in which the commit is durable, the capture is interrupted before it can return, and
      it ends with the bare interrupt: its receipt is there, and nobody has been told that the outcome is unknown. */
  lemma StruckRun(layers: seq<SourceLayer>, operation: string, complete: Complete) returns (trace: seq<World>)
    requires LayersValid(complete.layers) && LayersMatch(complete.layers, layers)
    ensures Behaviour(trace)
    ensures var last := trace[|trace| - 1];
      && 0 in last.processes && last.processes[0].phase == Failed(Struck, true)
      && operation in last.tables.receipts && Confirms(last.tables, last.processes[0], complete.catalog.snapshot)
  {
    var t := Bootstrap(layers);
    var armed;
    trace, armed := ArmedRun(layers, operation, complete);
    NewProjectIsOk(layers);
    UndisturbedCapturePublishes(t, armed);
    WriteBodyConfirms(t, armed);
    var t' := WriteBody(t, armed).1;
    hide WriteBody, Behaviour, Chain, ProcessOk;
    var struck := armed.(phase := Failed(Struck, true));
    assert Interrupts(t, armed, t', struck);
    trace := StepsAlone(trace, t, armed, t', struck);
  }

  lemma NewProjectIsOk(layers: seq<SourceLayer>)
    ensures Chain(Bootstrap(layers))
  {
  }

  /** A capture changes the tables in one step only: its durable commit, which advances the head once for
      an operation that had no receipt before. Every failing step leaves head, catalog and receipts alone. */
  lemma OnlyCommitsChangeTables(w: World, w': World, id: nat)
    requires WorldOk(w) && ProcessStep(w, w', id) && w'.tables != w.tables
    ensures var p, p' := w.processes[id], w'.processes[id];
      && p.phase.Armed? && p.operation !in w.tables.receipts
      && w'.tables.revision == w.tables.revision + 1
      && Confirms(w'.tables, p, p.phase.complete.catalog.snapshot)
      && (p'.phase.Returned? || p'.phase == Unacknowledged(p.phase.complete, true) || p'.phase == Failed(Struck, true))
  {
    var t, p := w.tables, w.processes[id];
    ProcessIsOk(w, id);
    ChangeIsCommit(w, w', id);
    hide *;
    WriteBodyConfirms(t, p);
    CommitIsCounted(t, p, w'.tables, w'.processes[id]);
  }

  lemma ProcessIsOk(w: World, id: nat)
    requires WorldOk(w) && id in w.processes
    ensures Chain(w.tables) && ProcessOk(w.tables, w.processes[id])
  {
    hide Chain, ProcessOk;
  }

  lemma ChangeIsCommit(w: World, w': World, id: nat)
    requires ProcessStep(w, w', id) && w'.tables != w.tables
    ensures var (t, p) := (w.tables, w.processes[id]);
      p.phase.Armed? &&
      (CommitStep(t, p, WriteBody(t, p).0, WriteBody(t, p).1, w'.tables, w'.processes[id])
        || Interrupts(t, p, w'.tables, w'.processes[id]))
  {
    hide WriteBody, PassGate, Reconciled, CommitStep;
  }

  lemma CommitIsCounted(t: Tables, p: Process, t': Tables, p': Process)
    requires p.phase.Armed? && WriteConfirms(t, p, WriteBody(t, p).0, WriteBody(t, p).1)
    requires CommitStep(t, p, WriteBody(t, p).0, WriteBody(t, p).1, t', p') || Interrupts(t, p, t', p')
    requires t' != t
    ensures p.operation !in t.receipts && t'.revision == t.revision + 1
    ensures Confirms(t', p, p.phase.complete.catalog.snapshot)
    ensures p'.phase.Returned? || p'.phase == Unacknowledged(p.phase.complete, true) || p'.phase == Failed(Struck, true)
  {
    hide WriteBody, Chain, Extends;
  }

  /** Between any two states of a behaviour the head advances exactly once per new operation. */
  lemma HeadCountsOperations(trace: seq<World>, i: nat, j: nat)
    requires Behaviour(trace) && i <= j < |trace|
    ensures trace[j].tables.revision - trace[i].tables.revision ==
      |trace[j].tables.receipts.Keys - trace[i].tables.receipts.Keys|
  {
    hide Behaviour, Chain;
    BehaviourKeepsWorld(trace, 0, i);
    BehaviourKeepsWorld(trace, i, j);
    ReceiptsCount(trace[i].tables);
    ReceiptsCount(trace[j].tables);
    var before, after := trace[i].tables.receipts.Keys, trace[j].tables.receipts.Keys;
    assert before <= after;
    assert after == before + (after - before);
  }

  lemma ReceiptsCount(t: Tables)
    requires Chain(t)
    ensures |t.receipts.Keys| == t.revision
  {
    hide AllLinked, CatalogPublished, Accompanied;
    assert |t.receipts| == |t.receipts.Keys|;
  }

  /** Undisturbed, an armed capture publishes: nothing but the stated comparisons can refuse it. */
  lemma UndisturbedCapturePublishes(t: Tables, p: Process)
    requires Accompanied(t) && p.phase.Armed? && ProcessOk(t, p)
    requires p.operation !in t.receipts && t.ProjectHead() == p.head && t.configuration == p.phase.captured
    requires t.revision < MAX_REVISION && LayersValid(p.phase.complete.layers)
    requires LayersMatch(p.phase.complete.layers, t.configuration.layers)
    requires var c := p.phase.complete.catalog;
      if c.snapshot in t.snapshots
      then SameContent(c.(relpath := t.snapshots[c.snapshot].relpath), t.snapshots[c.snapshot])
        && t.LayersOf(c.snapshot) == p.phase.complete.layers
      else forall s :: s in t.snapshots ==> t.snapshots[s].relpath != c.relpath
    ensures var (r, t') := WriteBody(t, p);
      r.Ok? && t'.ProjectHead() == r.value.head ==
        Head(p.head.revision + 1, Some(p.phase.complete.catalog.snapshot), p.head.sourceRevision)
  {
    var catalog, complete := p.phase.catalog, p.phase.complete;
    assert t.Lookup(complete.catalog.snapshot) == p.phase.existing
      && catalog == WithKnownLocator(complete, p.phase.existing);
    var q := Request(p.head, catalog, complete.layers, p.operation);
    hide ProcessOk;
    assert InsertCatalog(t, catalog, complete.layers).Ok?;
    assert Commit(t, {"analysis:run"}, true, q) == Written(t, q);
  }
}
