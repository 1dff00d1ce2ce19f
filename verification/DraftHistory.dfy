/** What every run of the draft store keeps: contiguous revisions with one receipt each, a fixed source,
    alternating archive and restore, and receipts that can always be read back. */
module DraftHistory {
  import opened Wrappers
  import M = Membership
  import opened Drafts

  // --- The invariant --------------------------------------------------------------------

  /** The revisions of every draft are numbered from one to its head, without gaps. */
  ghost predicate Contiguous(s: State) {
    && (forall d :: d in s.heads ==> s.heads[d] >= 1)
    && forall k :: k in s.revisions <==> k.draft in s.heads && 1 <= k.revision <= s.heads[k.draft]
  }

  /** Every draft receipt belongs to a revision. */
  ghost predicate AllOwned(s: State) {
    forall op :: op in s.receipts && s.receipts[op].action != Upgraded ==> Owned(s, op)
  }

  ghost predicate Owned(s: State, op: string) {
    exists k :: Owns(s, k, op)
  }

  ghost predicate Readable(rules: Rules, s: State, k: Key) {
    && ReadRevision(rules, s, k).Some?
    && StoredProposal(rules, s, ReadRevision(rules, s, k).value.1)
  }

  ghost function OutcomeAt(rules: Rules, s: State, k: Key): Outcome
    requires Readable(rules, s, k)
  {
    ReadRevision(rules, s, k).value.1
  }

  /** How a revision may follow the previous one. */
  ghost predicate Follows(o: Outcome, previous: Option<Outcome>) {
    match previous
    case None => o.action == Saved
    case Some(p) =>
      && o.source == p.source
      && (match o.action
          case Saved => p.status == Active
          case Archived => p.status == Active && o.title == p.title && o.content == p.content
          case Restored => p.status == InArchive && o.title == p.title && o.content == p.content
          case Upgraded => false)
  }

  ghost predicate Chained(rules: Rules, s: State, k: Key) {
    && Readable(rules, s, k)
    && (k.revision == 1 ==> Follows(OutcomeAt(rules, s, k), None))
    && (k.revision > 1 ==>
          var before := Key(k.draft, k.revision - 1);
          Readable(rules, s, before) && Follows(OutcomeAt(rules, s, k), Some(OutcomeAt(rules, s, before))))
  }

  ghost predicate AllChained(rules: Rules, s: State) {
    forall k {:trigger Chained(rules, s, k)} :: k in s.revisions ==> Chained(rules, s, k)
  }

  ghost predicate History(rules: Rules, s: State) {
    Contiguous(s) && Unique(s) && AllOwned(s) && AllChained(rules, s)
  }

  function Empty(layers: map<string, set<string>>): State {
    State(map[], map[], map[], map[], layers)
  }

  lemma EmptyHistory(rules: Rules, layers: map<string, set<string>>)
    ensures History(rules, Empty(layers))
  {
  }

  // --- One commit -----------------------------------------------------------------------

  /** Rows only get added. */
  ghost predicate Grows(s: State, t: State) {
    && (forall op :: op in s.receipts ==> op in t.receipts && t.receipts[op] == s.receipts[op])
    && (forall k :: k in s.revisions ==> k in t.revisions && t.revisions[k] == s.revisions[k])
    && (forall id :: id in s.proposals ==> id in t.proposals && t.proposals[id] == s.proposals[id])
    && (forall x :: x in s.layers ==> x in t.layers)
  }

  lemma ReadStable(rules: Rules, s: State, t: State, k: Key)
    requires Grows(s, t) && Readable(rules, s, k)
    ensures Readable(rules, t, k) && ReadRevision(rules, t, k) == ReadRevision(rules, s, k)
  {
    hide M.CanonicalUuid;
  }

  lemma ChainedStable(rules: Rules, s: State, t: State, k: Key)
    requires Grows(s, t) && Chained(rules, s, k)
    ensures Chained(rules, t, k)
  {
    hide ReadRevision, StoredProposal, Grows, Follows;
    ReadStable(rules, s, t, k);
    if k.revision > 1 {
      ReadStable(rules, s, t, Key(k.draft, k.revision - 1));
    }
  }

  /** One new revision at the head, with its receipt. */
  ghost predicate Appended(rules: Rules, s: State, t: State, q: Request, o: Outcome, previous: Option<Outcome>) {
    && o.operation !in s.receipts && q.action != Upgraded && o.draft == q.draft && o.revision == q.expected + 1
    && (previous == None <==> o.draft !in s.heads)
    && (previous == None ==> q.expected == 0)
    && (previous.Some? ==>
          && s.heads[o.draft] == q.expected >= 1
          && Readable(rules, s, Key(o.draft, q.expected))
          && previous.value == OutcomeAt(rules, s, Key(o.draft, q.expected)))
    && Follows(o, previous)
    && Grows(s.(proposals := t.proposals), t)
    && (forall id :: id in s.proposals ==> id in t.proposals && t.proposals[id] == s.proposals[id])
    && t == Insert(s.(proposals := t.proposals), q, o)
    && Readable(rules, t, Key(o.draft, o.revision)) && OutcomeAt(rules, t, Key(o.draft, o.revision)) == o
  }

  lemma AppendedContiguous(rules: Rules, s: State, t: State, q: Request, o: Outcome, previous: Option<Outcome>)
    requires Contiguous(s) && Appended(rules, s, t, q, o, previous)
    ensures Contiguous(t) && Grows(s, t) && Key(o.draft, o.revision) !in s.revisions
  {
    hide Readable, Follows, OutcomeAt;
  }

  /** The new operation is no revision's yet. */
  lemma OperationIsNew(rules: Rules, s: State, t: State, q: Request, o: Outcome, previous: Option<Outcome>)
    requires AllChained(rules, s) && Appended(rules, s, t, q, o, previous)
    ensures forall k :: k in s.revisions ==> s.revisions[k].operation != o.operation
  {
    assert o.operation !in s.receipts;
    hide Appended, StoredProposal, Follows;
    forall k | k in s.revisions ensures s.revisions[k].operation != o.operation {
      assert Chained(rules, s, k);
    }
  }

  lemma AppendedRows(rules: Rules, s: State, t: State, q: Request, o: Outcome, previous: Option<Outcome>)
    requires Appended(rules, s, t, q, o, previous)
    ensures t.receipts == s.receipts[o.operation := Row(q.action, q.actor, o.recorded, q, o)]
    ensures t.revisions == s.revisions[Key(o.draft, o.revision) := Revision(o.content, o.title, o.status, o.operation)]
  {
    hide Readable, Follows, Grows, OutcomeAt;
  }

  lemma AppendedUnique(rules: Rules, s: State, t: State, q: Request, o: Outcome, previous: Option<Outcome>)
    requires Unique(s) && AllOwned(s) && Appended(rules, s, t, q, o, previous) && AllChained(rules, s)
    requires Key(o.draft, o.revision) !in s.revisions
    ensures Unique(t) && AllOwned(t)
  {
    hide Appended, AllChained;
    OperationIsNew(rules, s, t, q, o, previous);
    AppendedRows(rules, s, t, q, o, previous);
    forall op | op in t.receipts && t.receipts[op].action != Upgraded ensures Owned(t, op) {
      if op == o.operation {
        assert Owns(t, Key(o.draft, o.revision), op);
      } else {
        assert op in s.receipts && Owned(s, op);
        var k :| Owns(s, k, op);
        assert Owns(t, k, op);
      }
    }
  }

  lemma LastChained(rules: Rules, s: State, t: State, q: Request, o: Outcome, previous: Option<Outcome>)
    requires Appended(rules, s, t, q, o, previous) && Grows(s, t)
    ensures Chained(rules, t, Key(o.draft, o.revision))
  {
    hide ReadRevision, StoredProposal, Follows, Grows, Insert;
    if previous.Some? {
      ReadStable(rules, s, t, Key(o.draft, q.expected));
    }
  }

  lemma OldRevisions(rules: Rules, s: State, t: State, q: Request, o: Outcome, previous: Option<Outcome>)
    requires Appended(rules, s, t, q, o, previous)
    ensures forall k :: k in t.revisions ==> k == Key(o.draft, o.revision) || k in s.revisions
  {
    hide Readable, Follows, Grows, OutcomeAt;
  }

  lemma AppendedChained(rules: Rules, s: State, t: State, q: Request, o: Outcome, previous: Option<Outcome>)
    requires AllChained(rules, s) && Appended(rules, s, t, q, o, previous) && Grows(s, t)
    ensures AllChained(rules, t)
  {
    hide Chained, Grows, Appended;
    LastChained(rules, s, t, q, o, previous);
    OldRevisions(rules, s, t, q, o, previous);
    forall k | k in t.revisions ensures Chained(rules, t, k) {
      if k != Key(o.draft, o.revision) {
        ChainedStable(rules, s, t, k);
      }
    }
  }

  lemma AppendedKeepsHistory(rules: Rules, s: State, t: State, q: Request, o: Outcome, previous: Option<Outcome>)
    requires History(rules, s) && Appended(rules, s, t, q, o, previous)
    ensures History(rules, t) && Grows(s, t)
  {
    hide Appended, Contiguous, Unique, AllOwned, AllChained, Grows;
    AppendedContiguous(rules, s, t, q, o, previous);
    AppendedUnique(rules, s, t, q, o, previous);
    AppendedChained(rules, s, t, q, o, previous);
  }

  // --- What a commit does ---------------------------------------------------------------

  /** The content identity of a saved proposal is not already that of another one. */
  ghost predicate NoCollision(rules: Rules, s: State, c: Command) {
    c.action == Saved && rules.digest(c.proposal) in s.proposals ==> s.proposals[rules.digest(c.proposal)] == c.proposal
  }

  lemma WriteExactly(rules: Rules, s: State, c: Command, q: Request, o: Outcome)
    ensures var (r, t) := Write(rules, s, c, q, o);
      && (r.Err? ==> t == s)
      && (r.Ok? ==>
            && r.value == o && t == Insert(s.(proposals := t.proposals), q, o)
            && (forall id :: id in s.proposals ==> id in t.proposals && t.proposals[id] == s.proposals[id])
            && Readable(rules, t, Key(o.draft, o.revision)) && OutcomeAt(rules, t, Key(o.draft, o.revision)) == o)
  {
    hide M.CanonicalUuid;
    var inserted := if c.action == Saved then InsertProposal(rules, s, c.proposal) else Ok(s);
    if inserted.Ok? {
      var t := Insert(inserted.value, q, o);
      InsertedReads(rules, inserted.value, q, o);
      hide ReadRevision, StoredProposal;
    }
  }

  lemma InsertedReads(rules: Rules, s: State, q: Request, o: Outcome)
    ensures var t := Insert(s, q, o);
      ReadRevision(rules, t, Key(o.draft, o.revision)).Some? ==>
        ReadRevision(rules, t, Key(o.draft, o.revision)) == Some((q, o))
  {
    hide M.CanonicalUuid;
  }

  lemma CarriedFollows(rules: Rules, c: Command, previous: Option<Outcome>, q: Request)
    requires WellFormed(rules, c) && q == RequestOf(rules, c)
    ensures Carried(rules, c, previous).Ok? ==>
      var v := Carried(rules, c, previous).value;
      Follows(ResultFor(c.operation, c.recorded, q, v.0, v.1, v.2), previous)
  {
    hide M.CanonicalUuid;
  }

  /** The previous revision of a draft whose head has been read. */
  ghost predicate Previous(rules: Rules, s: State, q: Request, previous: Option<Outcome>) {
    && (previous == None <==> q.draft !in s.heads)
    && (previous == None ==> q.expected == 0)
    && (previous.Some? ==>
          && s.heads[q.draft] == q.expected >= 1
          && Readable(rules, s, Key(q.draft, q.expected))
          && previous.value == OutcomeAt(rules, s, Key(q.draft, q.expected)))
  }

  lemma AppendExactly(rules: Rules, s: State, c: Command, q: Request, previous: Option<Outcome>)
    requires Contiguous(s) && WellFormed(rules, c) && q == RequestOf(rules, c) && c.operation !in s.receipts
    requires Previous(rules, s, q, previous)
    ensures var (r, t) := Append(rules, s, c, q, previous);
      && (r.Err? ==> t == s)
      && (r.Ok? ==> Appended(rules, s, t, q, r.value, previous) && r.value.operation == c.operation)
  {
    var carried := Carried(rules, c, previous);
    if carried.Ok? {
      var o := ResultFor(c.operation, c.recorded, q, carried.value.0, carried.value.1, carried.value.2);
      CarriedFollows(rules, c, previous, q);
      assert q.draft == c.draft && q.action == c.action && q.action != Upgraded;
      hide Carried, Follows, WellFormed, RequestOf, Write, Readable, OutcomeAt;
      if rules.fits(q, o) {
        WriteExactly(rules, s, c, q, o);
        var (r, t) := Write(rules, s, c, q, o);
        if r.Ok? {
          InsertGrows(s.(proposals := t.proposals), q, o);
        }
      }
    }
  }

  lemma InsertGrows(s: State, q: Request, o: Outcome)
    requires Contiguous(s) && o.operation !in s.receipts && o.revision == q.expected + 1
    requires if o.draft in s.heads then s.heads[o.draft] == q.expected else q.expected == 0
    ensures Grows(s, Insert(s, q, o))
  {
  }

  lemma AdvanceExactly(rules: Rules, s: State, c: Command, q: Request)
    requires Contiguous(s) && WellFormed(rules, c) && q == RequestOf(rules, c) && c.operation !in s.receipts
    ensures var (r, t) := Advance(rules, s, c, q);
      && (r.Err? ==> t == s)
      && (r.Ok? ==> r.value.operation == c.operation && exists previous :: Appended(rules, s, t, q, r.value, previous))
  {
    assert q.draft == c.draft;
    hide WellFormed, RequestOf, ReadRevision, StoredProposal, Appended, Append;
    var (r, t) := Advance(rules, s, c, q);
    if c.draft !in s.heads {
      if q.expected == 0 {
        AppendExactly(rules, s, c, q, None);
      }
    } else if IsHead(s, c.draft, s.heads[c.draft]) && s.heads[c.draft] == q.expected {
      var read := ReadRevision(rules, s, Key(c.draft, s.heads[c.draft]));
      if read.Some? && StoredProposal(rules, s, read.value.1) {
        AppendExactly(rules, s, c, q, Some(read.value.1));
      }
    }
  }

  /** Every attempt keeps the history, and never removes or rewrites a row. */
  lemma CommitKeepsHistory(rules: Rules, s: State, c: Command)
    requires History(rules, s)
    ensures History(rules, Committed(rules, s, c).1) && Grows(s, Committed(rules, s, c).1)
    ensures Committed(rules, s, c).0.Err? ==> Committed(rules, s, c).1 == s
  {
    hide Advance, History, WellFormed, RequestOf, Appended, StoredProposal, FindOperation;
    if c.allowed && WellFormed(rules, c) {
      var q := RequestOf(rules, c);
      if FindOperation(rules, s, c.operation) == Ok(None) {
        NotFound(rules, s, c.operation);
        HistoryParts(rules, s);
        AdvanceExactly(rules, s, c, q);
        var (r, t) := Advance(rules, s, c, q);
        if r.Ok? {
          var previous :| Appended(rules, s, t, q, r.value, previous);
          AppendedKeepsHistory(rules, s, t, q, r.value, previous);
        }
      }
    }
  }

  lemma NotFound(rules: Rules, s: State, operation: string)
    ensures FindOperation(rules, s, operation) == Ok(None) <==> operation !in s.receipts
  {
  }

  lemma HistoryParts(rules: Rules, s: State)
    requires History(rules, s)
    ensures Contiguous(s) && Unique(s) && AllOwned(s) && AllChained(rules, s)
  {
  }

  // --- Runs -----------------------------------------------------------------------------

  /** Besides attempts, snapshots get published. */
  datatype Step = Attempt(c: Command) | Publish(snapshot: string, layers: set<string>)

  ghost function After(rules: Rules, s: State, step: Step): State {
    match step
    case Attempt(c) => Committed(rules, s, c).1
    case Publish(x, layers) => if x in s.layers then s else s.(layers := s.layers[x := layers])
  }

  ghost function Run(rules: Rules, s: State, steps: seq<Step>): State
    decreases |steps|
  {
    if steps == [] then s else Run(rules, After(rules, s, steps[0]), steps[1..])
  }

  lemma StepKeepsHistory(rules: Rules, s: State, step: Step)
    requires History(rules, s)
    ensures History(rules, After(rules, s, step)) && Grows(s, After(rules, s, step))
  {
    hide History, Committed, Grows;
    match step
    case Attempt(c) => CommitKeepsHistory(rules, s, c);
    case Publish(x, layers) => MoreLayers(rules, s, After(rules, s, step));
  }

  lemma MoreLayers(rules: Rules, s: State, t: State)
    requires History(rules, s) && t == s.(layers := t.layers) && forall x :: x in s.layers ==> x in t.layers
    ensures History(rules, t) && Grows(s, t)
  {
    assert Grows(s, t);
    assert Contiguous(t) && Unique(t) && AllOwned(t) by {
      hide AllChained;
      forall op | op in t.receipts && t.receipts[op].action != Upgraded ensures Owned(t, op) {
        assert Owned(s, op);
        var k :| Owns(s, k, op);
        assert Owns(t, k, op);
      }
    }
    hide Chained, Contiguous, Unique, AllOwned, Grows;
    forall k | k in t.revisions ensures Chained(rules, t, k) {
      ChainedStable(rules, s, t, k);
    }
  }

  /** Every run keeps the history. */
  lemma {:induction false} RunKeepsHistory(rules: Rules, s: State, steps: seq<Step>)
    requires History(rules, s)
    ensures History(rules, Run(rules, s, steps)) && Grows(s, Run(rules, s, steps))
    decreases |steps|
  {
    hide History, Grows, After;
    if steps == [] {
      GrowsSelf(s);
    } else {
      StepKeepsHistory(rules, s, steps[0]);
      RunKeepsHistory(rules, After(rules, s, steps[0]), steps[1..]);
      GrowsOn(s, After(rules, s, steps[0]), Run(rules, s, steps));
    }
  }

  /** Every state that can be reached from empty tables has a kept history. */
  lemma ReachableHistory(rules: Rules, layers: map<string, set<string>>, steps: seq<Step>)
    ensures History(rules, Run(rules, Empty(layers), steps))
  {
    hide History, Run;
    EmptyHistory(rules, layers);
    RunKeepsHistory(rules, Empty(layers), steps);
  }

  lemma GrowsSelf(s: State)
    ensures Grows(s, s)
  {
  }

  lemma GrowsOn(s: State, t: State, u: State)
    requires Grows(s, t) && Grows(t, u)
    ensures Grows(s, u)
  {
  }

  // --- What the history says ------------------------------------------------------------

  lemma AllReadable(rules: Rules, s: State, k: Key)
    requires History(rules, s) && k.draft in s.heads && 1 <= k.revision <= s.heads[k.draft]
    ensures Readable(rules, s, k) && IsHead(s, k.draft, s.heads[k.draft])
  {
    assert Chained(rules, s, k);
    hide Readable, Follows, OutcomeAt;
  }

  lemma FollowsAt(rules: Rules, s: State, draft: string, j: nat)
    requires History(rules, s) && draft in s.heads && 1 < j <= s.heads[draft]
    ensures Readable(rules, s, Key(draft, j - 1)) && Readable(rules, s, Key(draft, j))
    ensures Follows(OutcomeAt(rules, s, Key(draft, j)), Some(OutcomeAt(rules, s, Key(draft, j - 1))))
  {
    assert Chained(rules, s, Key(draft, j));
    hide History, Readable, ReadRevision, StoredProposal, Follows;
  }

  lemma FirstAt(rules: Rules, s: State, draft: string)
    requires History(rules, s) && draft in s.heads
    ensures Readable(rules, s, Key(draft, 1)) && OutcomeAt(rules, s, Key(draft, 1)).action == Saved
  {
    assert Chained(rules, s, Key(draft, 1));
    hide History, Readable, ReadRevision, StoredProposal;
  }

  /** No draft ever changes its source. */
  lemma {:induction false} SourceIsFixed(rules: Rules, s: State, draft: string, i: nat, j: nat)
    requires History(rules, s) && draft in s.heads && 1 <= i <= j <= s.heads[draft]
    ensures Readable(rules, s, Key(draft, i)) && Readable(rules, s, Key(draft, j))
    ensures OutcomeAt(rules, s, Key(draft, i)).source == OutcomeAt(rules, s, Key(draft, j)).source
    decreases j
  {
    hide *;
    if i == j {
      AllReadable(rules, s, Key(draft, i));
    } else {
      FollowsAt(rules, s, draft, j);
      SameSource(OutcomeAt(rules, s, Key(draft, j)), OutcomeAt(rules, s, Key(draft, j - 1)));
      SourceIsFixed(rules, s, draft, i, j - 1);
    }
  }

  lemma SameSource(o: Outcome, p: Outcome)
    requires Follows(o, Some(p))
    ensures o.source == p.source
  {
  }

  lemma RestoreIff(o: Outcome, p: Outcome)
    requires Follows(o, Some(p)) && p.status == StatusAfter(p.action)
    ensures o.action == Restored <==> p.action == Archived
  {
  }

  /** A revision restores exactly when the one before it archived: nothing is saved into the archive, nothing
      is archived twice, and the first revision of a draft is a save. */
  lemma ArchiveThenRestore(rules: Rules, s: State, draft: string, i: nat)
    requires History(rules, s) && draft in s.heads && 1 <= i <= s.heads[draft]
    ensures Readable(rules, s, Key(draft, i)) && (i == 1 ==> OutcomeAt(rules, s, Key(draft, i)).action == Saved)
    ensures i > 1 ==> Readable(rules, s, Key(draft, i - 1))
    ensures i > 1 ==>
      (OutcomeAt(rules, s, Key(draft, i)).action == Restored <==>
        OutcomeAt(rules, s, Key(draft, i - 1)).action == Archived)
  {
    hide *;
    if i == 1 {
      FirstAt(rules, s, draft);
    } else {
      FollowsAt(rules, s, draft, i);
      StatusIs(rules, s, Key(draft, i - 1));
      RestoreIff(OutcomeAt(rules, s, Key(draft, i)), OutcomeAt(rules, s, Key(draft, i - 1)));
    }
  }

  lemma StatusIs(rules: Rules, s: State, k: Key)
    requires Readable(rules, s, k)
    ensures OutcomeAt(rules, s, k).status == StatusAfter(OutcomeAt(rules, s, k).action)
    ensures OutcomeAt(rules, s, k).action != Upgraded
  {
    hide M.CanonicalUuid;
  }

  /** In a kept history the lookup of an operation finds the receipt of its revision, or knows of none. */
  lemma FindReads(rules: Rules, s: State, k: Key)
    requires History(rules, s) && k in s.revisions
    ensures Readable(rules, s, k) && FindOperation(rules, s, s.revisions[k].operation) == Ok(ReadRevision(rules, s, k))
  {
    AllReadable(rules, s, k);
    var op := s.revisions[k].operation;
    assert Owns(s, k, op);
    ReadableRow(rules, s, k);
    assert forall j :: Owns(s, j, op) ==> j == k;
    hide Readable, ReadRevision, StoredProposal, History, IsHead;
  }

  lemma ReadableRow(rules: Rules, s: State, k: Key)
    requires Readable(rules, s, k)
    ensures k in s.revisions && s.revisions[k].operation in s.receipts
    ensures s.receipts[s.revisions[k].operation].action != Upgraded
  {
    hide M.CanonicalUuid;
  }

  lemma FindNeverCorrupt(rules: Rules, s: State, op: string)
    requires History(rules, s)
    ensures FindOperation(rules, s, op) != Err(Corrupt)
    ensures FindOperation(rules, s, op).Ok? && FindOperation(rules, s, op).value.Some? ==>
      StoredProposal(rules, s, FindOperation(rules, s, op).value.value.1)
  {
    if op in s.receipts && s.receipts[op].action != Upgraded {
      assert Owned(s, op);
      var k :| Owns(s, k, op);
      hide History, ReadRevision, StoredProposal;
      FindReads(rules, s, k);
    }
  }

  // --- When a commit succeeds -----------------------------------------------------------

  /** The new revision can be read back: the rows agree, the title and the receipt are acceptable, and the
      revision is below the last one. */
  lemma NewRevisionReads(rules: Rules, s: State, q: Request, o: Outcome)
    requires o.content in s.proposals && s.proposals[o.content].source == o.source
    requires rules.digest(s.proposals[o.content]) == o.content
    requires o.source.snapshot in s.layers && rules.validTitle(o.title) && rules.fits(q, o)
    requires M.CanonicalUuid(o.operation) && M.CanonicalUuid(o.draft) && q.action != Upgraded
    requires o.revision >= 1 && q == RequestFor(q.action, q.actor, o.draft, o.revision - 1, o.title, o.content)
    requires o == ResultFor(o.operation, o.recorded, q, o.title, o.content, o.source)
    ensures Readable(rules, Insert(s, q, o), Key(o.draft, o.revision)) <==> o.revision < MAX_REVISION
  {
    hide M.CanonicalUuid;
  }

  ghost predicate LayerKnown(s: State, c: Command) {
    c.action == Saved ==>
      c.proposal.source.snapshot in s.layers && c.proposal.source.layer in s.layers[c.proposal.source.snapshot]
  }

  /** The corrupt-state refusal of a write means that the numbers have run out, or that two proposals share their
      content identity. */
  lemma WriteSucceedsExactly(rules: Rules, s: State, c: Command, q: Request, o: Outcome)
    requires WellFormed(rules, c) && q == RequestOf(rules, c) && rules.fits(q, o)
    requires o == ResultFor(c.operation, c.recorded, q, o.title, o.content, o.source) && rules.validTitle(o.title)
    requires if c.action == Saved
      then o.content == rules.digest(c.proposal) && o.source == c.proposal.source && o.title == c.title
             else o.content in s.proposals && s.proposals[o.content].source == o.source
                  && rules.digest(s.proposals[o.content]) == o.content && o.source.snapshot in s.layers
    ensures Write(rules, s, c, q, o).0.Ok? <==>
      LayerKnown(s, c) && NoCollision(rules, s, c) && c.expected + 1 < MAX_REVISION
    ensures Write(rules, s, c, q, o).0 == Err(Corrupt) <==>
      LayerKnown(s, c) && (!NoCollision(rules, s, c) || c.expected + 1 == MAX_REVISION)
  {
    var inserted := if c.action == Saved then InsertProposal(rules, s, c.proposal) else Ok(s);
    if inserted.Ok? {
      NewRevisionReads(rules, inserted.value, q, o);
      var t := Insert(inserted.value, q, o);
      InsertedReads(rules, inserted.value, q, o);
      hide ReadRevision, M.CanonicalUuid;
    }
  }

  /** The head of a draft that can be read, and what it carries. */
  ghost function HeadOutcome(rules: Rules, s: State, draft: string): Option<Outcome>
    requires History(rules, s)
  {
    if draft !in s.heads then None
    else
      AllReadable(rules, s, Key(draft, s.heads[draft]));
      Some(OutcomeAt(rules, s, Key(draft, s.heads[draft])))
  }

  /** The rules for the next revision, given the previous one. */
  ghost predicate MayFollow(rules: Rules, s: State, c: Command, previous: Option<Outcome>) {
    match c.action
    case Saved =>
      && (previous.Some? ==> previous.value.status == Active && previous.value.source == c.proposal.source)
      && LayerKnown(s, c)
    case Archived => previous.Some? && previous.value.status == Active
    case Restored => previous.Some? && previous.value.status == InArchive
    case Upgraded => false
  }

  /** The receipt of a new revision is within its size limit. */
  ghost predicate ReceiptFits(rules: Rules, c: Command, previous: Option<Outcome>)
    requires WellFormed(rules, c)
  {
    var carried := Carried(rules, c, previous);
    carried.Ok? ==>
      rules.fits(RequestOf(rules, c),
        ResultFor(c.operation, c.recorded, RequestOf(rules, c), carried.value.0, carried.value.1, carried.value.2))
  }

  /** What an acceptable previous revision guarantees for the write. */
  ghost predicate Usable(rules: Rules, s: State, p: Outcome) {
    && rules.validTitle(p.title) && p.content in s.proposals && s.proposals[p.content].source == p.source
    && rules.digest(s.proposals[p.content]) == p.content && p.source.snapshot in s.layers
  }

  lemma ReadableUsable(rules: Rules, s: State, k: Key)
    requires Readable(rules, s, k)
    ensures Usable(rules, s, OutcomeAt(rules, s, k))
  {
    hide M.CanonicalUuid;
  }

  lemma AppendSucceedsExactly(rules: Rules, s: State, c: Command, q: Request, previous: Option<Outcome>)
    requires WellFormed(rules, c) && q == RequestOf(rules, c)
    requires previous.Some? ==> Usable(rules, s, previous.value)
    ensures Append(rules, s, c, q, previous).0.Ok? <==>
      MayFollow(rules, s, c, previous) && ReceiptFits(rules, c, previous) && NoCollision(rules, s, c)
        && c.expected + 1 < MAX_REVISION
    ensures Append(rules, s, c, q, previous).0 == Err(Corrupt) <==>
      MayFollow(rules, s, c, previous) && ReceiptFits(rules, c, previous)
        && (!NoCollision(rules, s, c) || c.expected + 1 == MAX_REVISION)
  {
    var carried := Carried(rules, c, previous);
    if carried.Ok? {
      var o := ResultFor(c.operation, c.recorded, q, carried.value.0, carried.value.1, carried.value.2);
      hide M.CanonicalUuid, Write;
      if rules.fits(q, o) {
        WriteSucceedsExactly(rules, s, c, q, o);
      }
    }
  }

  /** A new attempt that expects the current head, follows the rules of its action and fits the limits. */
  ghost predicate Acceptable(rules: Rules, s: State, c: Command)
    requires History(rules, s) && WellFormed(rules, c)
  {
    var previous := HeadOutcome(rules, s, c.draft);
    && c.expected == (if c.draft in s.heads then s.heads[c.draft] else 0)
    && MayFollow(rules, s, c, previous) && ReceiptFits(rules, c, previous)
  }

  /** An acceptable attempt commits, unless its content identity is taken or the numbers have run out: these two
      are reported as corruption, and nothing else ever is. */
  lemma CommittedExactly(rules: Rules, s: State, c: Command)
    requires History(rules, s) && c.allowed && WellFormed(rules, c) && c.operation !in s.receipts
    ensures Committed(rules, s, c).0.Ok? <==>
      Acceptable(rules, s, c) && NoCollision(rules, s, c) && c.expected + 1 < MAX_REVISION
    ensures Committed(rules, s, c).0 == Err(Corrupt) <==>
      Acceptable(rules, s, c) && (!NoCollision(rules, s, c) || c.expected + 1 == MAX_REVISION)
  {
    hide History, MayFollow, ReceiptFits, ReadRevision, StoredProposal, Append, FindOperation, IsHead, Usable;
    hide NoCollision, M.CanonicalUuid, Readable, OutcomeAt;
    var q := RequestOf(rules, c);
    NotFound(rules, s, c.operation);
    if c.draft in s.heads {
      var k := Key(c.draft, s.heads[c.draft]);
      HeadReads(rules, s, c.draft);
      ReadableUsable(rules, s, k);
      AppendSucceedsExactly(rules, s, c, q, Some(OutcomeAt(rules, s, k)));
    } else {
      AppendSucceedsExactly(rules, s, c, q, None);
    }
  }

  lemma HeadReads(rules: Rules, s: State, draft: string)
    requires History(rules, s) && draft in s.heads
    ensures var k := Key(draft, s.heads[draft]);
      && Readable(rules, s, k) && IsHead(s, draft, s.heads[draft])
      && ReadRevision(rules, s, k).Some? && ReadRevision(rules, s, k).value.1 == OutcomeAt(rules, s, k)
      && StoredProposal(rules, s, OutcomeAt(rules, s, k))
  {
    HistoryParts(rules, s);
    assert s.heads[draft] >= 1;
    AllReadable(rules, s, Key(draft, s.heads[draft]));
    hide History, ReadRevision, StoredProposal, IsHead, Contiguous;
  }

  /** A replay never reports corruption either, and changes nothing. */
  lemma ReplayNeverCorrupt(rules: Rules, s: State, c: Command)
    requires History(rules, s) && c.operation in s.receipts
    ensures Committed(rules, s, c).0 != Err(Corrupt) && Committed(rules, s, c).1 == s
  {
    FindNeverCorrupt(rules, s, c.operation);
    NotFound(rules, s, c.operation);
    hide WellFormed, History, FindOperation, StoredProposal, RequestOf, Advance;
  }

  /** A success, new or repeated, stands at a revision. */
  lemma SuccessStands(rules: Rules, s: State, c: Command) returns (k: Key)
    requires History(rules, s) && Committed(rules, s, c).0.Ok?
    ensures c.allowed && WellFormed(rules, c)
    ensures var (r, t) := Committed(rules, s, c);
      && k in t.revisions && t.revisions[k].operation == c.operation && Readable(rules, t, k)
      && ReadRevision(rules, t, k) == Some((RequestOf(rules, c), r.value))
  {
    var q := RequestOf(rules, c);
    NotFound(rules, s, c.operation);
    if c.operation in s.receipts {
      k := FoundStands(rules, s, c.operation);
    } else {
      HistoryParts(rules, s);
      AdvanceExactly(rules, s, c, q);
      var (r, t) := Advance(rules, s, c, q);
      var previous :| Appended(rules, s, t, q, r.value, previous);
      k := Key(r.value.draft, r.value.revision);
      AppendedStands(rules, s, t, q, r.value, previous);
    }
    hide WellFormed, RequestOf, History, Appended, ReadRevision, StoredProposal, FindOperation, Advance;
  }

  lemma AppendedStands(rules: Rules, s: State, t: State, q: Request, o: Outcome, previous: Option<Outcome>)
    requires Appended(rules, s, t, q, o, previous)
    ensures var k := Key(o.draft, o.revision);
      k in t.revisions && t.revisions[k].operation == o.operation && Readable(rules, t, k)
        && ReadRevision(rules, t, k) == Some((q, o))
  {
    hide M.CanonicalUuid, Grows, Follows;
  }

  lemma FoundStands(rules: Rules, s: State, op: string) returns (k: Key)
    requires History(rules, s) && FindOperation(rules, s, op).Ok? && FindOperation(rules, s, op).value.Some?
    ensures k in s.revisions && s.revisions[k].operation == op && Readable(rules, s, k)
    ensures ReadRevision(rules, s, k) == FindOperation(rules, s, op).value
  {
    k :| Owns(s, k, op);
    hide History, ReadRevision, StoredProposal, FindOperation;
    FindReads(rules, s, k);
  }

  /** Repeating an attempt after any later steps returns its original receipt and changes nothing. */
  lemma ReplayReturnsOriginal(rules: Rules, s: State, c: Command, later: seq<Step>, recorded: string)
    requires History(rules, s) && Committed(rules, s, c).0.Ok?
    ensures var (r, t) := Committed(rules, s, c);
      var u := Run(rules, t, later);
      Committed(rules, u, c.(recorded := recorded)) == (r, u)
  {
    hide *;
    var (r, t) := Committed(rules, s, c);
    var k := SuccessStands(rules, s, c);
    CommitKeepsHistory(rules, s, c);
    RunKeepsHistory(rules, t, later);
    var u := Run(rules, t, later);
    ReadStable(rules, t, u, k);
    KeepsRevision(t, u, k);
    FindReads(rules, u, k);
    ReplayFound(rules, u, c, recorded, k, r);
  }

  lemma KeepsRevision(t: State, u: State, k: Key)
    requires Grows(t, u) && k in t.revisions
    ensures k in u.revisions && u.revisions[k] == t.revisions[k]
  {
  }

  lemma ReplayFound(rules: Rules, u: State, c: Command, recorded: string, k: Key, r: Result<Outcome>)
    requires c.allowed && WellFormed(rules, c) && r.Ok? && Readable(rules, u, k)
    requires ReadRevision(rules, u, k) == Some((RequestOf(rules, c), r.value))
    requires FindOperation(rules, u, c.operation) == Ok(ReadRevision(rules, u, k))
    ensures Committed(rules, u, c.(recorded := recorded)) == (r, u)
  {
    hide FindOperation, ReadRevision, StoredProposal, M.CanonicalUuid;
  }
}
