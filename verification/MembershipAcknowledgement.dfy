/** Changes of membership with a lost acknowledgement. */
module MembershipAcknowledgement {
  import opened Wrappers
  import opened Acknowledgement
  import M = Membership

  datatype Change = Change(actor: M.Principal, change: M.Change)

  ghost function Attempted(s: M.State, c: Change): (M.Result<M.Outcome>, M.State) {
    M.Changed(s, c.actor, true, c.change)
  }

  function Name(c: Change): string {
    if c.change.operation.Some? then c.change.operation.value else []
  }

  /** What reading back finds for a request: the logged receipt, when its inputs are the same. */
  ghost function ReadBack(s: M.State, c: Change): M.Result<Option<M.Outcome>> {
    var request := M.MembershipRequest(c.actor, c.change);
    if request.Err? || !M.Logged(s.receipts, Name(c)) then Ok(None)
    else
      var row := M.RowOf(s.receipts, Name(c));
      if row.request == request.value then Ok(Some(row.outcome)) else Err(M.OperationConflict)
  }

  /** All refusals of a change are passed on, apart from one that a writing transaction does not meet. Of those met
      while reading back only a conflict is: a missing permission ends as an unknown outcome like every exception. */
  ghost function MembershipService(founders: M.Members): Service<M.State, Change, M.Outcome, M.Error> {
    Service(
      (s, c) => Attempted(s, c), (s, c) => ReadBack(s, c), (c: Change) => Name(c),
      (s: M.State, n) => M.Logged(s.receipts, n), (s: M.State, t: M.State) => false, s => M.Audited(s, founders),
      e => e != M.ReadOnlyTransaction, e => e == M.OperationConflict, M.Forbidden)
  }

  /** The row of a logged operation is the only one with its name. */
  lemma RowIs(receipts: map<nat, M.Row>, k: nat)
    requires M.Distinct(receipts) && k in receipts
    ensures M.Logged(receipts, receipts[k].operation) && M.RowOf(receipts, receipts[k].operation) == receipts[k]
  {
  }

  lemma KeptRows(s: M.State, t: M.State, n: string)
    requires M.RowsKept(s.receipts, t.receipts) && M.Distinct(t.receipts) && M.Logged(s.receipts, n)
    ensures M.Logged(t.receipts, n) && M.RowOf(t.receipts, n) == M.RowOf(s.receipts, n)
  {
    var k :| k in s.receipts && s.receipts[k].operation == n && s.receipts[k] == M.RowOf(s.receipts, n);
    RowIs(t.receipts, k);
  }

  lemma KeptReadsBack(s: M.State, t: M.State, c: Change)
    requires M.RowsKept(s.receipts, t.receipts) && M.Distinct(t.receipts)
    requires ReadBack(s, c).Ok? && ReadBack(s, c).value.Some?
    ensures ReadBack(t, c) == ReadBack(s, c)
  {
    hide M.MembershipRequest, M.Distinct, M.RowsKept;
    KeptRows(s, t, Name(c));
  }

  lemma GrowthPreserves(founders: M.Members, s: M.State, t: M.State)
    requires M.RowsKept(s.receipts, t.receipts) && M.Distinct(t.receipts)
    ensures Preserves(MembershipService(founders), s, t)
  {
    hide ReadBack, M.Distinct, M.RowsKept, M.Logged;
    var v := MembershipService(founders);
    forall c | Receipt(v, s, c) ensures v.find(t, c) == v.find(s, c) {
      KeptReadsBack(s, t, c);
    }
    forall n | v.taken(s, n) ensures v.taken(t, n) {
      KeptRows(s, t, n);
    }
  }

  lemma ChangedReadsBack(founders: M.Members, s: M.State, c: Change)
    requires M.Audited(s, founders) && Attempted(s, c).0.Ok?
    ensures ReadBack(Attempted(s, c).1, c) == Ok(Some(Attempted(s, c).0.value))
    ensures M.Logged(Attempted(s, c).1.receipts, Name(c))
  {
    hide M.Audited, M.Changed, M.MembershipRequest, M.Distinct;
    var a := M.Attempt(c.actor, true, c.change);
    var t := Attempted(s, c).1;
    var k := M.RowOfSuccess(s, a);
    M.ChangeKeepsAudit(s, founders, c.actor, true, c.change);
    M.AuditedParts(t, founders);
    RowIs(t.receipts, k);
  }

  lemma ChangeIsNew(s: M.State, c: Change)
    requires Attempted(s, c).1 != s
    ensures Attempted(s, c).0.Ok? && !M.Logged(s.receipts, Name(c))
  {
    M.ChangedRecords(s, c.actor, true, c.change);
    hide M.Changed, M.Records, M.Logged, M.MembershipRequest;
  }

  lemma ChangeAttemptKeeps(founders: M.Members, s: M.State, c: Change)
    requires M.Audited(s, founders)
    ensures AttemptKeeps(MembershipService(founders), s, c)
  {
    hide M.Audited, Attempted, ReadBack, M.Logged, M.Distinct, M.RowsKept, M.Changed, Name;
    var t := Attempted(s, c).1;
    AttemptGrows(founders, s, c);
    GrowthPreserves(founders, s, t);
    if Attempted(s, c).0.Ok? {
      ChangedReadsBack(founders, s, c);
    }
    if t != s {
      ChangeIsNew(s, c);
    }
  }

  lemma AttemptGrows(founders: M.Members, s: M.State, c: Change)
    requires M.Audited(s, founders)
    ensures var (r, t) := Attempted(s, c);
      M.Audited(t, founders) && M.Distinct(t.receipts) && M.RowsKept(s.receipts, t.receipts) && (r.Err? ==> t == s)
  {
    hide M.Audited, M.Changed, M.Records, M.MembershipRequest, M.Distinct;
    M.ChangeKeepsAudit(s, founders, c.actor, true, c.change);
    M.ChangeKeepsRows(s, founders, c.actor, true, c.change);
    M.ChangedRecords(s, c.actor, true, c.change);
    M.AuditedParts(Attempted(s, c).1, founders);
  }

  lemma ChangesAreLawful(founders: M.Members)
    ensures Lawful(MembershipService(founders))
  {
    hide M.Audited, AttemptKeeps, Preserves;
    var v := MembershipService(founders);
    forall s, c | v.sound(s) ensures AttemptKeeps(v, s, c) {
      ChangeAttemptKeeps(founders, s, c);
    }
  }

  /** A membership change that has committed but fails is never reported as unconfirmed, and never refused: its
      outcome is unknown exactly when it was not broken off. */
  lemma ChangeIsNotDenied(founders: M.Members, trace: seq<World<M.State, Change, M.Outcome, M.Error>>, k: nat, id: nat)
    requires Behaviour(MembershipService(founders), trace) && k < |trace| && id in trace[k].processes
    requires trace[k].processes[id].phase.Failed? && trace[k].processes[id].phase.durable
    ensures M.Logged(trace[k].store.receipts, Name(trace[k].processes[id].request))
    ensures trace[k].processes[id].phase.failure ==
      if BrokenBefore(MembershipService(founders), trace, k, id) then Struck else Unknown
  {
    hide Behaviour, BrokenBefore, M.Logged, M.MembershipRequest;
    CommittedIsNotDenied(MembershipService(founders), trace, k, k, id);
  }
}
