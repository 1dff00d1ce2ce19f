/** Saving, archiving and restoring drafts with a lost acknowledgement. */
module DraftAcknowledgement {
  import opened Wrappers
  import opened Acknowledgement
  import D = Drafts
  import H = DraftHistory

  /** What reading back finds for a request: the recorded receipt, when its inputs are the same. */
  ghost function ReadBack(rules: D.Rules, s: D.State, c: D.Command): D.Result<Option<D.Outcome>> {
    match D.FindOperation(rules, s, c.operation)
    case Err(e) => Err(e)
    case Ok(None) => Ok(None)
    case Ok(Some((q, o))) =>
      if !D.WellFormed(rules, c) || q != D.RequestOf(rules, c) then Err(D.OperationConflict)
      else if !D.StoredProposal(rules, s, o) then Err(D.Corrupt)
      else Ok(Some(o))
  }

  ghost predicate Published(rules: D.Rules, s: D.State, t: D.State) {
    exists snapshot, layers :: t == H.After(rules, s, H.Publish(snapshot, layers))
  }

  /** All refusals of a commit are passed on; a busy or unavailable store is not among them. A missing permission, a
      conflict and a corruption are also passed on when reading back. */
  ghost function DraftService(rules: D.Rules): Service<D.State, D.Command, D.Outcome, D.Error> {
    Service(
      (s, c) => D.Committed(rules, s, c), (s, c) => ReadBack(rules, s, c),
      (c: D.Command) => c.operation, (s: D.State, n) => n in s.receipts, (s, t) => Published(rules, s, t),
        s => H.History(rules, s),
      e => true, e => e in {D.Forbidden, D.Corrupt, D.OperationConflict}, D.Forbidden)
  }

  /** A receipt that reads back still does when the tables have grown. */
  lemma ReadBackStable(rules: D.Rules, s: D.State, t: D.State, c: D.Command)
    requires H.History(rules, s) && H.History(rules, t) && H.Grows(s, t)
    requires ReadBack(rules, s, c).Ok? && ReadBack(rules, s, c).value.Some?
    ensures ReadBack(rules, t, c) == ReadBack(rules, s, c)
  {
    hide *;
    ReadBackFound(rules, s, c);
    var k := H.FoundStands(rules, s, c.operation);
    H.ReadStable(rules, s, t, k);
    H.KeepsRevision(s, t, k);
    H.FindReads(rules, t, k);
    H.FindNeverCorrupt(rules, t, c.operation);
    ReadBackIs(rules, t, c);
  }

  lemma ReadBackFound(rules: D.Rules, s: D.State, c: D.Command)
    requires ReadBack(rules, s, c).Ok? && ReadBack(rules, s, c).value.Some?
    ensures D.WellFormed(rules, c)
    ensures D.FindOperation(rules, s, c.operation) ==
      Ok(Some((D.RequestOf(rules, c), ReadBack(rules, s, c).value.value)))
  {
    hide D.FindOperation, D.StoredProposal, D.WellFormed, D.RequestOf;
  }

  lemma ReadBackIs(rules: D.Rules, s: D.State, c: D.Command)
    requires D.WellFormed(rules, c)
    requires D.FindOperation(rules, s, c.operation).Ok? && D.FindOperation(rules, s, c.operation).value.Some?
    requires D.FindOperation(rules, s, c.operation).value.value.0 == D.RequestOf(rules, c)
    requires D.StoredProposal(rules, s, D.FindOperation(rules, s, c.operation).value.value.1)
    ensures ReadBack(rules, s, c) == Ok(Some(D.FindOperation(rules, s, c.operation).value.value.1))
  {
    hide D.FindOperation, D.StoredProposal, D.WellFormed, D.RequestOf;
  }

  /** A committed revision reads back as what was returned. */
  lemma CommittedReadsBack(rules: D.Rules, s: D.State, c: D.Command)
    requires H.History(rules, s) && D.Committed(rules, s, c).0.Ok?
    ensures ReadBack(rules, D.Committed(rules, s, c).1, c) == Ok(Some(D.Committed(rules, s, c).0.value))
  {
    hide *;
    var (r, t) := D.Committed(rules, s, c);
    var k := H.SuccessStands(rules, s, c);
    H.CommitKeepsHistory(rules, s, c);
    H.FindReads(rules, t, k);
    H.FindNeverCorrupt(rules, t, c.operation);
    ReadBackIs(rules, t, c);
  }

  /** Tables change only for an operation without a receipt, which then has one. */
  lemma ChangeIsNew(rules: D.Rules, s: D.State, c: D.Command)
    requires H.History(rules, s) && D.Committed(rules, s, c).1 != s
    ensures c.operation !in s.receipts && c.operation in D.Committed(rules, s, c).1.receipts
  {
    hide *;
    if c.operation in s.receipts {
      H.ReplayNeverCorrupt(rules, s, c);
      assert false;
    }
    H.CommitKeepsHistory(rules, s, c);
    var k := H.SuccessStands(rules, s, c);
    H.ReadableRow(rules, D.Committed(rules, s, c).1, k);
  }

  lemma DraftAttemptKeeps(rules: D.Rules, s: D.State, c: D.Command)
    requires H.History(rules, s)
    ensures AttemptKeeps(DraftService(rules), s, c)
  {
    hide H.History, D.Committed, ReadBack, H.Grows;
    var v, t := DraftService(rules), D.Committed(rules, s, c).1;
    H.CommitKeepsHistory(rules, s, c);
    GrowthPreserves(rules, s, t);
    if D.Committed(rules, s, c).0.Ok? {
      CommittedReadsBack(rules, s, c);
    }
    if t != s {
      ChangeIsNew(rules, s, c);
    }
  }

  lemma GrowthPreserves(rules: D.Rules, s: D.State, t: D.State)
    requires H.History(rules, s) && H.History(rules, t) && H.Grows(s, t)
    ensures Preserves(DraftService(rules), s, t)
  {
    hide H.History, ReadBack;
    var v := DraftService(rules);
    forall c | Receipt(v, s, c) ensures v.find(t, c) == v.find(s, c) {
      ReadBackStable(rules, s, t, c);
    }
  }

  lemma DraftsAreLawful(rules: D.Rules)
    ensures Lawful(DraftService(rules))
  {
    hide H.History, AttemptKeeps, Preserves, H.After, H.Grows;
    var v := DraftService(rules);
    forall s, c | v.sound(s) ensures AttemptKeeps(v, s, c) {
      DraftAttemptKeeps(rules, s, c);
    }
    forall s, t | v.sound(s) && v.drifts(s, t) ensures v.sound(t) && Preserves(v, s, t) {
      var snapshot, layers :| t == H.After(rules, s, H.Publish(snapshot, layers));
      H.StepKeepsHistory(rules, s, H.Publish(snapshot, layers));
      GrowthPreserves(rules, s, t);
    }
  }

  /** A save that has committed but fails is never reported as unconfirmed: it was broken off, or its outcome is
      unknown, or the permission was missing when its receipt was read back. */
  lemma SaveIsNotDenied(rules: D.Rules, trace: seq<World<D.State, D.Command, D.Outcome, D.Error>>, k: nat, id: nat)
    requires Behaviour(DraftService(rules), trace) && k < |trace| && id in trace[k].processes
    requires trace[k].processes[id].phase.Failed? && trace[k].processes[id].phase.durable
    ensures trace[k].processes[id].request.operation in trace[k].store.receipts
    ensures var f := trace[k].processes[id].phase.failure;
      if BrokenBefore(DraftService(rules), trace, k, id) then f == Struck else f == Unknown || f == Refused(D.Forbidden)
  {
    hide Behaviour, BrokenBefore, D.FindOperation;
    CommittedIsNotDenied(DraftService(rules), trace, k, k, id);
    H.NotFound(rules, trace[k].store, trace[k].processes[id].request.operation);
  }

  /** Whatever would be saved can also be saved and then be refused for a missing permission. */
  lemma SavedYetForbidden(rules: D.Rules, s: D.State, c: D.Command)
    returns (trace: seq<World<D.State, D.Command, D.Outcome, D.Error>>)
    requires H.History(rules, s) && D.Committed(rules, s, c).1 != s
    ensures Behaviour(DraftService(rules), trace)
    ensures trace[|trace| - 1] == Alone(D.Committed(rules, s, c).1, c, Failed(Refused(D.Forbidden), true))
  {
    hide H.History, D.Committed, Behaviour, Lawful;
    DraftsAreLawful(rules);
    trace := CommittedFails(DraftService(rules), s, c, Refused(D.Forbidden), false);
  }
}
