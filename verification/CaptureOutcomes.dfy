/** Every step of a capture told from the tables it reads: what a gate compares, what the write transaction comes to,
    and that each fault can strike where it may. */
module CaptureOutcomes {
  import opened Wrappers
  import opened Publication
  import opened PublicationRuns
  import opened PublicationOutcomes
  import opened Capture

  // --- Gates ----------------------------------------------------------------------------

  /** The project is where the capture started from, and configured as the gate remembers. */
  ghost predicate AtHead(t: Tables, head: Head, configuration: Option<Configuration>) {
    && t.revision == head.revision && t.snapshot == head.snapshot && t.configuration.revision == head.sourceRevision
    && (configuration.Some? ==>
         && t.configuration.revision == configuration.value.revision
         && t.configuration.layers == configuration.value.layers)
  }

  predicate Moved(t: Tables, head: Head) {
    t.revision != head.revision || t.snapshot != head.snapshot
  }

  lemma GateExactly(t: Tables, head: Head, configuration: Option<Configuration>)
    ensures var r := GateResult(t, head, configuration);
      && (r.Ok? <==> AtHead(t, head, configuration))
      && (r.Err? ==>
           (r.error == HeadConflict <==> t.configuration.revision == head.sourceRevision && Moved(t, head)))
      && (r.Err? ==> r.error == HeadConflict || r.error == SourceConfigurationConflict)
  {
  }

  /** The phases that end in a gate. */
  predicate Gates(phase: Phase) {
    phase.Fresh? || phase.Gated? || phase.Generated? || phase.Bound?
  }

  /** What follows a phase when its gate is passed; a generation in between brings what it likes. */
  ghost predicate Follows(phase: Phase, next: Phase) {
    match phase
    case Fresh => next == Gated
    case Gated => next.Generated?
    case Generated(captured, complete) => next == Rechecked(captured, complete)
    case Bound(captured, complete, existing, catalog) => next == Armed(captured, complete, existing, catalog)
    case _ => false
  }

  /** At a gate a capture goes on if and only if the project is at its head, configured as the gate remembers, and, once
      something has been generated, as that was captured;
        it then remembers the configuration. Otherwise it is refused. */
  lemma GateStepExactly(t: Tables, p: Process, t': Tables, p': Process)
    requires Gates(p.phase)
    ensures Advances(t, p, t', p') <==>
      && t' == t && p'.operation == p.operation && p'.head == p.head
      && if !AtHead(t, p.head, p.gate) then
           p'.gate == p.gate && p'.phase == Failed(GateResult(t, p.head, p.gate).error, false)
         else if p.phase.Generated? && p.phase.captured != t.configuration then
           p'.gate == p.gate && p'.phase == Failed(SourceConfigurationConflict, false)
         else p'.gate == Some(t.configuration) && Follows(p.phase, p'.phase)
  {
    GateExactly(t, p.head, p.gate);
    hide GateResult;
    if p.phase.Gated? {
      var complete := Complete(Catalog("", "", "", "", ""), []);
      assert p' == PassGate(t, p, Generated(t.configuration, complete)) || AtHead(t, p.head, p.gate)
        || p' != p.Fail(GateResult(t, p.head, p.gate).error);
      if p'.phase.Generated? {
        assert p' == PassGate(t, p, Generated(p'.phase.captured, p'.phase.complete)) <==>
          AtHead(t, p.head, p.gate) && p' == p.(gate := Some(t.configuration), phase := p'.phase);
      }
    }
  }

  // --- Receipts and rows ----------------------------------------------------------------

  /** A repeated operation ends at once: with its stored result if it expected the same head, and in conflict
      otherwise. */
  lemma EntryExactly(t: Tables, p: Process, t': Tables, p': Process)
    requires p.phase == Entered
    ensures Advances(t, p, t', p') <==> t' == t && p' == p.(phase :=
      if p.operation !in t.receipts then Fresh
      else
        var r := t.receipts[p.operation];
        if r.expected == p.head then
          Returned(PublishResult(p.operation, r.snapshot,
            Head(r.committed, Some(r.snapshot), r.expected.sourceRevision)))
        else Failed(OperationConflict, false))
  {
  }

  /** The row of the snapshot, if there is one. */
  ghost function RowOf(t: Tables, snapshot: string): Option<Catalog> {
    if snapshot in t.snapshots then Some(t.snapshots[snapshot]) else None
  }

  /** The row of the generated snapshot is looked up, and kept only if it still stands after its generation has been
      verified; what is published has its locator. */
  lemma LookExactly(t: Tables, p: Process, t': Tables, p': Process)
    requires p.phase.Rechecked? || p.phase.Looked?
    ensures Advances(t, p, t', p') <==> t' == t && p' == p.(phase :=
      match p.phase
      case Rechecked(captured, complete) => Looked(captured, complete, RowOf(t, complete.catalog.snapshot))
      case Looked(captured, complete, existing) =>
        var c := complete.catalog;
        if existing == None then Bound(captured, complete, None, c)
        else if RowOf(t, c.snapshot) != existing then Failed(LocatorDiffers, false)
        else Bound(captured, complete, existing,
          Catalog(c.snapshot, c.sourceDigest, c.graphHash, existing.value.relpath, c.publishedAt)))
  {
  }

  // --- The write transaction ------------------------------------------------------------

  ghost predicate Stands(t: Tables, p: Process)
    requires p.phase.Armed? && p.operation in t.receipts
  {
    t.receipts[p.operation].expected == p.head && t.receipts[p.operation].snapshot == p.phase.complete.catalog.snapshot
  }

  /** What an armed capture publishes. */
  ghost function Publishes(p: Process): Request
    requires p.phase.Armed?
  {
    Request(p.head, p.phase.catalog, p.phase.complete.layers, p.operation)
  }

  /** What the write transaction of an armed capture comes to. A stored operation is confirmed if it has this head and
      snapshot. A new one is published if and only if the project is at the head and configured as captured, its layers
      are in sequence and those configured, the head may advance, and its content agrees with the catalog or has a free
      locator. */
  lemma WriteExactly(t: Tables, p: Process)
    requires p.phase.Armed? && ProcessOk(t, p)
    ensures var (r, t') := WriteBody(t, p);
      var (q, c) := (Publishes(p), p.phase.catalog);
      && (r.Err? ==> t' == t)
      && if p.operation in t.receipts then
           && t' == t
           && r == if Stands(t, p) then Ok(ResultOf(p.operation, t.receipts[p.operation])) else Err(OperationConflict)
         else
           && (r.Ok? ==> Adds(t, q, t') && r.value == t'.events[p.operation])
           && r == if !AtHead(t, p.head, Some(p.phase.captured)) then
                Err(GateOrder(t, p))
              else if !InSequence(q.layers) then Err(SourceLayerInvalid)
              else if t.revision >= 0x7FFF_FFFF_FFFF_FFFF then Err(HeadConflict)
              else if !Corresponds(q.layers, t.configuration.layers) then Err(SourceConfigurationConflict)
              else if c.snapshot in t.snapshots && !SameRow(t, c, q.layers) then Err(SnapshotCorrupt)
              else if c.snapshot !in t.snapshots && !LocatorFree(t, c.relpath) then Err(StateUnavailable)
              else Ok(PublishResult(p.operation, c.snapshot,
                Head(t.revision + 1, Some(c.snapshot), p.head.sourceRevision)))
  {
    WriteOf(t, p);
    hide WriteBody, ProcessOk, InSequence, Corresponds, SameRow, LocatorFree, Commit, Adds;
    if p.operation !in t.receipts {
      CommittedExactly(t, {"analysis:run"}, true, Publishes(p));
    }
  }

  /** A changed configuration is reported before a moved head. */
  ghost function GateOrder(t: Tables, p: Process): Error
    requires p.phase.Armed?
  {
    if t.configuration.revision == p.head.sourceRevision && t.configuration == p.phase.captured then HeadConflict
    else SourceConfigurationConflict
  }

  lemma WriteOf(t: Tables, p: Process)
    requires p.phase.Armed? && ProcessOk(t, p)
    ensures WriteBody(t, p) ==
      if p.operation in t.receipts then
        (if Stands(t, p) then Ok(ResultOf(p.operation, t.receipts[p.operation])) else Err(OperationConflict), t)
      else if !AtHead(t, p.head, Some(p.phase.captured)) then (Err(GateOrder(t, p)), t)
      else Commit(t, {"analysis:run"}, true, Publishes(p))
  {
    hide Commit;
  }

  /** The steps of an armed capture: the transaction is refused, or repeats its receipt, and nothing changes; or it is
      published and acknowledged, published without acknowledgement or rolled back in the attempt,
        or an interrupt strikes
      it before or after it is durable; or it fails or is interrupted before. Each of these occurs. */
  lemma ArmedStepExactly(t: Tables, p: Process, t': Tables, p': Process)
    requires p.phase.Armed?
    ensures var (r, written) := WriteBody(t, p);
      var complete := p.phase.complete;
      Advances(t, p, t', p') || Aborts(t, p, t', p') || Interrupts(t, p, t', p') <==>
        p' == p.(phase := p'.phase) &&
        if t' == t && p'.phase in {Failed(Interrupted, false), Failed(Struck, false)} then true
        else if r.Err? then t' == t && p'.phase == Failed(r.error, false)
        else if p.operation in t.receipts then t' == t && p'.phase == Returned(r.value)
        else
          || (t' == written && p'.phase in {Returned(r.value), Unacknowledged(complete, true), Failed(Struck, true)})
          || (t' == t && p'.phase == Unacknowledged(complete, false))
  {
    hide WriteBody;
  }

  /** Without an acknowledgement the receipt decides, if it can be read: a receipt of this head and snapshot is
      returned, another one conflicts, and without one the first failure stands. If it cannot be read the outcome is
      unknown, and an interrupt may strike meanwhile. Each of these occurs. */
  lemma UnacknowledgedStepExactly(t: Tables, p: Process, t': Tables, p': Process)
    requires p.phase.Unacknowledged?
    ensures Advances(t, p, t', p') || Aborts(t, p, t', p') || Interrupts(t, p, t', p') <==>
      && t' == t && p' == p.(phase := p'.phase)
      && var durable := p.phase.durable;
         || p'.phase == Failed(OutcomeUnknown, durable) || p'.phase == Failed(Struck, durable)
         || (p.operation !in t.receipts && p'.phase == Failed(Interrupted, durable))
         || (p.operation in t.receipts
              && var r := t.receipts[p.operation];
                 var same := r.expected == p.head && r.snapshot == p.phase.complete.catalog.snapshot;
                 p'.phase == if same
                   then Returned(PublishResult(p.operation, r.snapshot,
                     Head(r.committed, Some(r.snapshot), r.expected.sourceRevision)))
                   else Failed(OperationConflict, durable))
  {
  }

  /** Before its commit is attempted a capture may fail or be interrupted in every phase, which changes nothing;
      afterwards it may not. */
  lemma AbortExactly(t: Tables, p: Process, t': Tables, p': Process)
    ensures Aborts(t, p, t', p') <==>
      && t' == t && p'.operation == p.operation && p'.head == p.head && p'.gate == p.gate
      && (p'.phase == Failed(Interrupted, false) || p'.phase == Failed(Struck, false))
      && !p.phase.Unacknowledged? && !p.phase.Returned? && !p.phase.Failed?
  {
  }

  /** In every state that can be reached, each capture that has not attempted its commit can fail or be struck, and
      nothing else changes. */
  lemma CanBeBrokenOff(trace: seq<World>, id: nat, error: Error)
    requires Behaviour(trace) && id in trace[|trace| - 1].processes && (error == Interrupted || error == Struck)
    requires var phase := trace[|trace| - 1].processes[id].phase;
      !phase.Unacknowledged? && !phase.Returned? && !phase.Failed?
    ensures var w := trace[|trace| - 1];
      Behaviour(trace + [With(w, w.tables, id, w.processes[id].(phase := Failed(error, false)))])
  {
    var w := trace[|trace| - 1];
    var p := w.processes[id].(phase := Failed(error, false));
    AbortExactly(w.tables, w.processes[id], w.tables, p);
    hide Behaviour, Advances, Aborts, Interrupts;
    assert ProcessStep(w, With(w, w.tables, id, p), id);
    Longer(trace, With(w, w.tables, id, p));
  }

  // --- Whole runs -----------------------------------------------------------------------

  /** The world with one process more, or with this process changed. */
  function With(w: World, t: Tables, id: nat, p: Process): World {
    World(t, w.processes[id := p])
  }

  /** A capture enters as a new process, with its operation and head, and with a gate that remembers nothing. */
  lemma EnterExactly(w: World, w': World, id: nat)
    ensures EnterStep(w, w', id) <==>
      id !in w.processes
      && exists operation, head :: w' == With(w, w.tables, id, Process(operation, head, None, Entered))
  {
    if EnterStep(w, w', id) {
      var p := w'.processes[id];
      assert w' == With(w, w.tables, id, Process(p.operation, p.head, None, Entered));
    }
  }

  lemma Enters(trace: seq<World>, id: nat, p: Process)
    requires Behaviour(trace) && id !in trace[|trace| - 1].processes && p.phase == Entered && p.gate == None
    ensures var w := trace[|trace| - 1]; Behaviour(trace + [With(w, w.tables, id, p)])
  {
    var w := trace[|trace| - 1];
    hide Behaviour;
    assert EnterStep(w, With(w, w.tables, id, p), id);
    Longer(trace, With(w, w.tables, id, p));
  }

  lemma Steps(trace: seq<World>, w: World, t: Tables, id: nat, p: Process, t': Tables, p': Process)
    returns (longer: seq<World>)
    requires Behaviour(trace) && trace[|trace| - 1] == With(w, t, id, p) && Advances(t, p, t', p')
    ensures Behaviour(longer) && longer[|longer| - 1] == With(w, t', id, p')
  {
    hide Behaviour, Advances;
    assert With(w, t, id, p).processes[id := p'] == With(w, t', id, p').processes;
    assert ProcessStep(With(w, t, id, p), With(w, t', id, p'), id);
    longer := trace + [With(w, t', id, p')];
    Longer(trace, With(w, t', id, p'));
  }

  /** From every state that can be reached a capture of the current head is led, undisturbed, to its write
      transaction. */
  lemma ArmedFrom(trace: seq<World>, id: nat, operation: string, complete: Complete)
    returns (longer: seq<World>, armed: Process)
    requires Behaviour(trace) && id !in trace[|trace| - 1].processes
    requires operation !in trace[|trace| - 1].tables.receipts
    ensures var w := trace[|trace| - 1];
      var row := RowOf(w.tables, complete.catalog.snapshot);
      && Behaviour(longer) && longer[|longer| - 1] == With(w, w.tables, id, armed)
      && armed.operation == operation && armed.head == w.tables.ProjectHead()
      && armed.phase == Armed(w.tables.configuration, complete, row, WithKnownLocator(complete, row))
  {
    var w := trace[|trace| - 1];
    var (t, c) := (w.tables, w.tables.configuration);
    var row := RowOf(t, complete.catalog.snapshot);
    var catalog := WithKnownLocator(complete, row);
    var p := Process(operation, t.ProjectHead(), None, Entered);
    var gated := p.(gate := Some(c), phase := Gated);
    armed := gated.(phase := Armed(c, complete, row, catalog));
    StagesLead(t, p, complete);
    Enters(trace, id, p);
    hide Advances, Behaviour, RowOf, WithKnownLocator;
    longer := trace + [With(w, t, id, p)];
    longer := Steps(longer, w, t, id, p, t, p.(phase := Fresh));
    longer := Steps(longer, w, t, id, p.(phase := Fresh), t, gated);
    longer := Steps(longer, w, t, id, gated, t, gated.(phase := Generated(c, complete)));
    longer := Steps(longer, w, t, id, gated.(phase := Generated(c, complete)), t,
      gated.(phase := Rechecked(c, complete)));
    longer := Steps(longer, w, t, id, gated.(phase := Rechecked(c, complete)), t,
      gated.(phase := Looked(c, complete, row)));
    longer := Steps(longer, w, t, id, gated.(phase := Looked(c, complete, row)), t,
      gated.(phase := Bound(c, complete, row, catalog)));
    longer := Steps(longer, w, t, id, gated.(phase := Bound(c, complete, row, catalog)), t, armed);
  }

  lemma StagesLead(t: Tables, p: Process, complete: Complete)
    requires p.operation !in t.receipts && p.gate == None && p.phase == Entered && p.head == t.ProjectHead()
    ensures var c := t.configuration;
      var row := RowOf(t, complete.catalog.snapshot);
      var gated := p.(gate := Some(c), phase := Gated);
      && Advances(t, p, t, p.(phase := Fresh)) && Advances(t, p.(phase := Fresh), t, gated)
      && Advances(t, gated, t, gated.(phase := Generated(c, complete)))
      && Advances(t, gated.(phase := Generated(c, complete)), t, gated.(phase := Rechecked(c, complete)))
      && Advances(t, gated.(phase := Rechecked(c, complete)), t, gated.(phase := Looked(c, complete, row)))
      && Advances(t, gated.(phase := Looked(c, complete, row)), t,
        gated.(phase := Bound(c, complete, row, WithKnownLocator(complete, row))))
      && Advances(t, gated.(phase := Bound(c, complete, row, WithKnownLocator(complete, row))), t,
        gated.(phase := Armed(c, complete, row, WithKnownLocator(complete, row))))
  {
    var c := t.configuration;
    var gated := p.(gate := Some(c), phase := Gated);
    var generated := gated.(phase := Generated(c, complete));
    assert generated == PassGate(t, gated, Generated(c, complete));
    assert Advances(t, gated, t, generated);
  }

  /** The content may be published: its layers are in sequence and those configured, and it agrees with the catalog
      or has a free locator. */
  ghost predicate Publishable(t: Tables, complete: Complete) {
    var c := complete.catalog;
    && t.revision < 0x7FFF_FFFF_FFFF_FFFF && InSequence(complete.layers)
    && Corresponds(complete.layers, t.configuration.layers)
    && if c.snapshot in t.snapshots then SameRow(t, c.(relpath := t.snapshots[c.snapshot].relpath), complete.layers)
       else LocatorFree(t, c.relpath)
  }

  /** From every state that can be reached, a capture of the current head that is not disturbed publishes what it
      generated if that may be published, and returns the receipt. */
  lemma CaptureCanPublish(trace: seq<World>, id: nat, operation: string, complete: Complete)
    returns (longer: seq<World>)
    requires Behaviour(trace) && id !in trace[|trace| - 1].processes
    requires var t := trace[|trace| - 1].tables; operation !in t.receipts && Publishable(t, complete)
    ensures Behaviour(longer)
    ensures var (t, last) := (trace[|trace| - 1].tables, longer[|longer| - 1]);
      var snapshot := complete.catalog.snapshot;
      && id in last.processes
      && last.processes[id].phase == Returned(PublishResult(operation, snapshot,
           Head(t.revision + 1, Some(snapshot), t.configuration.revision)))
      && operation in last.tables.receipts && last.tables.receipts[operation].snapshot == snapshot
  {
    var w := trace[|trace| - 1];
    var t, armed := w.tables, Process("", w.tables.ProjectHead(), None, Entered);
    longer, armed := ArmedFrom(trace, id, operation, complete);
    ArmedIsOk(t, armed, complete);
    WriteExactly(t, armed);
    PublishableArmed(t, armed, complete);
    var (r, t') := WriteBody(t, armed);
    hide WriteBody, Behaviour, ProcessOk, InSequence, Corresponds, SameRow, LocatorFree, Publishable, Adds;
    var done := armed.(phase := Returned(r.value));
    assert Advances(t, armed, t', done);
    longer := Steps(longer, w, t, id, armed, t', done);
  }

  lemma ArmedIsOk(t: Tables, p: Process, complete: Complete)
    requires p.head == t.ProjectHead()
    requires var row := RowOf(t, complete.catalog.snapshot);
      p.phase == Armed(t.configuration, complete, row, WithKnownLocator(complete, row))
    ensures ProcessOk(t, p) && AtHead(t, p.head, Some(p.phase.captured))
  {
  }

  lemma PublishableArmed(t: Tables, p: Process, complete: Complete)
    requires p.head == t.ProjectHead() && p.operation !in t.receipts && Publishable(t, complete)
    requires var row := RowOf(t, complete.catalog.snapshot);
      p.phase == Armed(t.configuration, complete, row, WithKnownLocator(complete, row))
    ensures var (q, c) := (Publishes(p), p.phase.catalog);
      && InSequence(q.layers) && t.revision < 0x7FFF_FFFF_FFFF_FFFF && Corresponds(q.layers, t.configuration.layers)
      && c.snapshot == complete.catalog.snapshot
      && (c.snapshot in t.snapshots ==> SameRow(t, c, q.layers))
      && (c.snapshot !in t.snapshots ==> LocatorFree(t, c.relpath))
  {
    hide InSequence, Corresponds, LocatorFree;
  }
}
