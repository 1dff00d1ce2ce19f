/** What one attempt at a draft comes to, told from the rows of the tables: which attempts repeat an operation, what a
    new revision holds and writes, and when each refusal is given. */
module DraftOutcomes {
  import opened Wrappers
  import M = Membership
  import opened MembershipOutcomes
  import opened Drafts
  import opened DraftHistory

  // --- Rows -----------------------------------------------------------------------------

  /** What the tables say of the current revision of a draft. */
  datatype Current = Current(status: Status, title: string, content: string, source: Source)

  ghost predicate HasRows(s: State, k: Key) {
    k in s.revisions && s.revisions[k].operation in s.receipts && s.revisions[k].content in s.proposals
  }

  ghost function CurrentAt(s: State, k: Key): Current
    requires HasRows(s, k)
  {
    var v := s.revisions[k];
    Current(v.status, v.title, v.content, s.proposals[v.content].source)
  }

  ghost function CurrentOf(s: State, draft: string): Option<Current> {
    if draft in s.heads && HasRows(s, Key(draft, s.heads[draft]))
      then Some(CurrentAt(s, Key(draft, s.heads[draft]))) else None
  }

  /** The outcome of a revision, column by column. */
  lemma OutcomeIs(rules: Rules, s: State, k: Key)
    requires Readable(rules, s, k)
    ensures HasRows(s, k)
    ensures var (v, a) := (s.revisions[k], s.receipts[s.revisions[k].operation]);
      OutcomeAt(rules, s, k) == a.outcome ==
        Outcome(v.operation, a.action, a.actor, a.recorded, k.draft, k.revision, v.status, v.title, v.content,
          s.proposals[v.content].source)
  {
    hide M.CanonicalUuid;
  }

  /** The recorded request of a revision, column by column. */
  lemma RequestIs(rules: Rules, s: State, k: Key)
    requires Readable(rules, s, k)
    ensures HasRows(s, k) && k.revision >= 1
    ensures var (v, a) := (s.revisions[k], s.receipts[s.revisions[k].operation]);
      ReadRevision(rules, s, k).value.0 == a.request ==
        if a.action == Saved then Request(Saved, a.actor, k.draft, k.revision - 1, Some(v.title), Some(v.content))
        else Request(a.action, a.actor, k.draft, k.revision - 1, None, None)
  {
    hide M.CanonicalUuid;
  }

  // --- Repeated operations --------------------------------------------------------------

  /** The attempt asks for what revision `k` recorded: the same action by the same actor on the same revision of the
      same draft, and for a save the same title and content. */
  ghost predicate Repeats(rules: Rules, s: State, c: Command, k: Key)
    requires HasRows(s, k)
  {
    var (v, a) := (s.revisions[k], s.receipts[s.revisions[k].operation]);
    && c.action == a.action && c.actor == a.actor && c.draft == k.draft && c.expected == k.revision - 1
    && (c.action == Saved ==> c.title == v.title && rules.digest(c.proposal) == v.content)
  }

  lemma RepeatsIff(rules: Rules, s: State, c: Command, k: Key)
    requires Readable(rules, s, k) && WellFormed(rules, c)
    ensures HasRows(s, k)
    ensures RequestOf(rules, c) == ReadRevision(rules, s, k).value.0 <==> Repeats(rules, s, c, k)
  {
    RequestIs(rules, s, k);
    hide ReadRevision, Readable, M.CanonicalUuid;
  }

  /** A repeated operation returns its recorded outcome if it asks for the same as before, and is a conflict
      otherwise; either way nothing changes. */
  lemma RepeatExactly(rules: Rules, s: State, c: Command, k: Key)
    requires History(rules, s) && c.allowed && WellFormed(rules, c)
    requires k in s.revisions && s.revisions[k].operation == c.operation
    ensures HasRows(s, k)
    ensures Committed(rules, s, c) ==
      (if Repeats(rules, s, c, k) then Ok(s.receipts[c.operation].outcome) else Err(OperationConflict), s)
  {
    hide *;
    FindReads(rules, s, k);
    OutcomeIs(rules, s, k);
    RepeatsIff(rules, s, c, k);
    FoundIs(rules, s, c, k);
  }

  lemma FoundIs(rules: Rules, s: State, c: Command, k: Key)
    requires c.allowed && WellFormed(rules, c) && Readable(rules, s, k)
    requires FindOperation(rules, s, c.operation) == Ok(ReadRevision(rules, s, k))
    ensures Committed(rules, s, c) ==
      (if RequestOf(rules, c) == ReadRevision(rules, s, k).value.0 then Ok(OutcomeAt(rules, s, k))
       else Err(OperationConflict), s)
  {
    hide FindOperation, ReadRevision, StoredProposal, WellFormed, RequestOf;
  }

  /** An operation that upgraded a draft of an older format is never an attempt's own. */
  lemma UpgradeIsConflict(rules: Rules, s: State, c: Command)
    requires c.allowed && WellFormed(rules, c) && c.operation in s.receipts
    requires s.receipts[c.operation].action == Upgraded
    ensures Committed(rules, s, c) == (Err(OperationConflict), s)
  {
    hide WellFormed, RequestOf;
  }

  /** Every other recorded operation stands at one revision. */
  lemma RecordedStands(rules: Rules, s: State, operation: string)
    requires History(rules, s) && operation in s.receipts && s.receipts[operation].action != Upgraded
    ensures exists k :: Owns(s, k, operation)
  {
    assert Owned(s, operation);
  }

  // --- New operations -------------------------------------------------------------------

  /** The request, column by column. */
  ghost function Asked(rules: Rules, c: Command): Request
    requires c.expected >= 0
  {
    if c.action == Saved
      then Request(Saved, c.actor, c.draft, c.expected, Some(c.title), Some(rules.digest(c.proposal)))
    else Request(c.action, c.actor, c.draft, c.expected, None, None)
  }

  /** The columns of the next revision: a save brings its own title, content and source, and makes the draft active;
      a change of status takes them from the current revision. */
  ghost function Next(rules: Rules, c: Command, now: Option<Current>): Outcome
    requires c.expected >= 0 && (c.action != Saved ==> now.Some?)
  {
    var v := if c.action == Saved then Current(Active, c.title, rules.digest(c.proposal), c.proposal.source)
      else now.value.(status := if c.action == Archived then InArchive else Active);
    Outcome(c.operation, c.action, c.actor, c.recorded, c.draft, c.expected + 1, v.status, v.title, v.content, v.source)
  }

  /** The tables with the rows of the next revision. */
  ghost function Written(rules: Rules, s: State, c: Command, o: Outcome): State
    requires c.expected >= 0
  {
    State(
      s.heads[c.draft := c.expected + 1],
      s.revisions[Key(c.draft, c.expected + 1) := Revision(o.content, o.title, o.status, c.operation)],
      if c.action == Saved then s.proposals[rules.digest(c.proposal) := c.proposal] else s.proposals,
      s.receipts[c.operation := Row(c.action, c.actor, c.recorded, Asked(rules, c), o)],
      s.layers)
  }

  /** Why the action cannot follow the current revision, if it cannot. */
  ghost function Blocked(c: Command, now: Option<Current>): Option<Error> {
    match now
    case None => if c.action == Saved then None else Some(DraftNotFound)
    case Some(v) =>
      if c.action == Saved && v.status == InArchive then Some(DraftArchived)
      else if c.action == Saved && v.source != c.proposal.source then Some(SourceMismatch)
      else if (c.action == Archived && v.status == InArchive) || (c.action == Restored && v.status == Active)
        then Some(StatusConflict)
      else None
  }

  /** A save of a source whose layer is not published in its snapshot. */
  ghost predicate Unpublished(s: State, c: Command) {
    var source := c.proposal.source;
    c.action == Saved && !(source.snapshot in s.layers && source.layer in s.layers[source.snapshot])
  }

  /** The digest of the saved proposal belongs to another one. */
  ghost predicate Collides(rules: Rules, s: State, c: Command) {
    c.action == Saved && rules.digest(c.proposal) in s.proposals
      && s.proposals[rules.digest(c.proposal)] != c.proposal
  }

  /** What a new attempt on the current revision comes to. */
  ghost function Attempted(rules: Rules, s: State, c: Command, now: Option<Current>): (Result<Outcome>, State)
    requires c.expected >= 0
  {
    if Blocked(c, now).Some? then (Err(Blocked(c, now).value), s)
    else
      var o := Next(rules, c, now);
      if !rules.fits(Asked(rules, c), o) then (Err(LimitExceeded), s)
      else if Unpublished(s, c) then (Err(SourceRefMismatch), s)
      else if Collides(rules, s, c) || c.expected + 1 == 0x7FFF_FFFF_FFFF_FFFF then (Err(Corrupt), s)
      else (Ok(o), Written(rules, s, c, o))
  }

  /** Identifiers of the operation and the draft, the revision within range, an attempt's action, and for a save an
      acceptable title. */
  lemma WellFormedIff(rules: Rules, c: Command)
    ensures WellFormed(rules, c) <==>
      && Uuid(c.operation) && Uuid(c.draft) && 0 <= c.expected < 0x7FFF_FFFF_FFFF_FFFF
      && c.action != Upgraded && (c.action == Saved ==> rules.validTitle(c.title))
  {
    UuidIs(c.operation);
    UuidIs(c.draft);
    hide M.CanonicalUuid, Uuid;
  }

  lemma AskedIs(rules: Rules, c: Command)
    requires WellFormed(rules, c)
    ensures c.expected >= 0 && c.action != Upgraded && RequestOf(rules, c) == Asked(rules, c)
  {
    hide M.CanonicalUuid;
  }

  ghost predicate Tells(now: Option<Current>, previous: Option<Outcome>) {
    now == if previous == None then None
      else Some(Current(previous.value.status, previous.value.title, previous.value.content, previous.value.source))
  }

  lemma CarriedIs(rules: Rules, c: Command, previous: Option<Outcome>, now: Option<Current>)
    requires WellFormed(rules, c) && Tells(now, previous)
    ensures c.expected >= 0
    ensures var carried := Carried(rules, c, previous);
      && (Blocked(c, now).Some? ==> carried == Err(Blocked(c, now).value))
      && (Blocked(c, now) == None ==>
            && carried.Ok?
            && ResultFor(c.operation, c.recorded, Asked(rules, c), carried.value.0, carried.value.1, carried.value.2)
                 == Next(rules, c, now))
  {
    hide M.CanonicalUuid;
  }

  lemma WriteIs(rules: Rules, s: State, c: Command, o: Outcome)
    requires WellFormed(rules, c) && RequestOf(rules, c) == Asked(rules, c)
    requires o.operation == c.operation && o.draft == c.draft && o.revision == c.expected + 1
    requires o.recorded == c.recorded
    requires var (r, _) := Write(rules, s, c, Asked(rules, c), o);
      r.Ok? <==> LayerKnown(s, c) && NoCollision(rules, s, c) && c.expected + 1 < MAX_REVISION
    requires Write(rules, s, c, Asked(rules, c), o).0 == Err(Corrupt) <==>
      LayerKnown(s, c) && (!NoCollision(rules, s, c) || c.expected + 1 == MAX_REVISION)
    ensures Write(rules, s, c, Asked(rules, c), o) ==
      if Unpublished(s, c) then (Err(SourceRefMismatch), s)
      else if Collides(rules, s, c) || c.expected + 1 == 0x7FFF_FFFF_FFFF_FFFF then (Err(Corrupt), s)
      else (Ok(o), Written(rules, s, c, o))
  {
    hide M.CanonicalUuid, ReadRevision, StoredProposal;
  }

  lemma NextIsWritten(rules: Rules, s: State, c: Command, previous: Option<Outcome>, now: Option<Current>)
    requires WellFormed(rules, c) && Tells(now, previous) && (previous.Some? ==> Usable(rules, s, previous.value))
    requires c.expected >= 0 && Blocked(c, now) == None && rules.fits(Asked(rules, c), Next(rules, c, now))
    ensures var o := Next(rules, c, now);
      Write(rules, s, c, Asked(rules, c), o) ==
        if Unpublished(s, c) then (Err(SourceRefMismatch), s)
        else if Collides(rules, s, c) || c.expected + 1 == 0x7FFF_FFFF_FFFF_FFFF then (Err(Corrupt), s)
        else (Ok(o), Written(rules, s, c, o))
  {
    var o := Next(rules, c, now);
    AskedIs(rules, c);
    NextIsResult(rules, s, c, previous, now);
    hide *;
    WriteSucceedsExactly(rules, s, c, Asked(rules, c), o);
    NextIsNumbered(rules, c, now);
    WriteIs(rules, s, c, o);
  }

  lemma NextIsNumbered(rules: Rules, c: Command, now: Option<Current>)
    requires c.expected >= 0 && (c.action != Saved ==> now.Some?)
    ensures var o := Next(rules, c, now);
      o.operation == c.operation && o.draft == c.draft && o.revision == c.expected + 1 && o.recorded == c.recorded
  {
  }

  lemma NextIsResult(rules: Rules, s: State, c: Command, previous: Option<Outcome>, now: Option<Current>)
    requires WellFormed(rules, c) && Tells(now, previous) && (previous.Some? ==> Usable(rules, s, previous.value))
    requires c.expected >= 0 && Blocked(c, now) == None
    ensures c.action != Saved ==> now.Some?
    ensures var o := Next(rules, c, now);
      && o == ResultFor(c.operation, c.recorded, Asked(rules, c), o.title, o.content, o.source)
      && rules.validTitle(o.title)
      && (c.action == Saved ==>
            o.content == rules.digest(c.proposal) && o.source == c.proposal.source && o.title == c.title)
      && (c.action != Saved ==>
            && o.content in s.proposals && s.proposals[o.content].source == o.source
            && rules.digest(s.proposals[o.content]) == o.content && o.source.snapshot in s.layers)
  {
    hide M.CanonicalUuid;
  }

  lemma AppendIs(rules: Rules, s: State, c: Command, previous: Option<Outcome>, now: Option<Current>)
    requires WellFormed(rules, c) && Tells(now, previous) && (previous.Some? ==> Usable(rules, s, previous.value))
    ensures c.expected >= 0 && Append(rules, s, c, RequestOf(rules, c), previous) == Attempted(rules, s, c, now)
  {
    AskedIs(rules, c);
    CarriedIs(rules, c, previous, now);
    if Blocked(c, now) == None && rules.fits(Asked(rules, c), Next(rules, c, now)) {
      NextIsWritten(rules, s, c, previous, now);
    }
    hide WellFormed, RequestOf, Carried, Write, Usable, Tells, Unpublished, Collides, Written, ResultFor;
  }

  lemma CurrentTells(rules: Rules, s: State, draft: string)
    requires History(rules, s) && draft in s.heads
    ensures Readable(rules, s, Key(draft, s.heads[draft]))
    ensures var o := OutcomeAt(rules, s, Key(draft, s.heads[draft]));
      Tells(CurrentOf(s, draft), Some(o)) && Usable(rules, s, o)
  {
    hide *;
    var k := Key(draft, s.heads[draft]);
    HeadReads(rules, s, draft);
    OutcomeIs(rules, s, k);
    ReadableUsable(rules, s, k);
    TellsFrom(s, draft, OutcomeAt(rules, s, k));
  }

  lemma TellsFrom(s: State, draft: string, o: Outcome)
    requires draft in s.heads && HasRows(s, Key(draft, s.heads[draft]))
    requires var v := s.revisions[Key(draft, s.heads[draft])];
      o.status == v.status && o.title == v.title && o.content == v.content && o.source == s.proposals[v.content].source
    ensures Tells(CurrentOf(s, draft), Some(o))
  {
  }

  lemma AdvanceIs(rules: Rules, s: State, c: Command)
    requires History(rules, s) && WellFormed(rules, c)
    ensures c.expected >= 0 && Advance(rules, s, c, RequestOf(rules, c)) ==
      if c.expected != (if c.draft in s.heads then s.heads[c.draft] else 0) then (Err(DraftConflict), s)
      else Attempted(rules, s, c, CurrentOf(s, c.draft))
  {
    AskedIs(rules, c);
    if c.draft in s.heads {
      var k := Key(c.draft, s.heads[c.draft]);
      HeadReads(rules, s, c.draft);
      CurrentTells(rules, s, c.draft);
      AppendIs(rules, s, c, Some(OutcomeAt(rules, s, k)), CurrentOf(s, c.draft));
    } else {
      AppendIs(rules, s, c, None, None);
    }
    hide History, WellFormed, RequestOf, Attempted, Append, Readable, OutcomeAt, ReadRevision, StoredProposal, IsHead;
    hide Tells, Usable, HasRows;
  }

  /** Every outcome of an attempt at a kept history. */
  lemma AttemptExactly(rules: Rules, s: State, c: Command)
    requires History(rules, s)
    ensures Committed(rules, s, c) ==
      if !c.allowed then (Err(Forbidden), s)
      else if !WellFormed(rules, c) then (Err(Invalid), s)
      else if c.operation in s.receipts then (Answer(rules, s, c), s)
      else if c.expected != (if c.draft in s.heads then s.heads[c.draft] else 0) then (Err(DraftConflict), s)
      else Attempted(rules, s, c, CurrentOf(s, c.draft))
  {
    hide History, WellFormed, RequestOf, Attempted, Advance, HasRows, Repeats, CurrentOf, ReadRevision, StoredProposal;
    if c.allowed && WellFormed(rules, c) {
      if c.operation !in s.receipts {
        AdvanceIs(rules, s, c);
        NotFound(rules, s, c.operation);
      } else if s.receipts[c.operation].action == Upgraded {
        UpgradeIsConflict(rules, s, c);
        UpgradeIsNoAnswer(rules, s, c);
      } else {
        RecordedStands(rules, s, c.operation);
        var k :| Owns(s, k, c.operation);
        RepeatExactly(rules, s, c, k);
        OwnedOnce(rules, s, k);
      }
    }
  }

  /** What a recorded operation is answered. */
  ghost function Answer(rules: Rules, s: State, c: Command): Result<Outcome>
    requires c.operation in s.receipts
  {
    if exists k :: Owns(s, k, c.operation) && HasRows(s, k) && Repeats(rules, s, c, k)
      then Ok(s.receipts[c.operation].outcome) else Err(OperationConflict)
  }

  lemma UpgradeIsNoAnswer(rules: Rules, s: State, c: Command)
    requires WellFormed(rules, c) && c.operation in s.receipts && s.receipts[c.operation].action == Upgraded
    ensures Answer(rules, s, c) == Err(OperationConflict)
  {
    hide M.CanonicalUuid;
  }

  lemma OwnedOnce(rules: Rules, s: State, k: Key)
    requires History(rules, s) && k in s.revisions
    ensures forall j :: j in s.revisions && s.revisions[j].operation == s.revisions[k].operation ==> j == k
  {
    HistoryParts(rules, s);
  }

  // --- Tables that contradict themselves ------------------------------------------------

  /** The head is the greatest of the draft's revisions. */
  ghost predicate AtTop(s: State, draft: string) {
    && draft in s.heads && s.heads[draft] >= 1 && Key(draft, s.heads[draft]) in s.revisions
    && forall n: nat :: Key(draft, n) in s.revisions ==> n <= s.heads[draft]
  }

  lemma TopIs(s: State, draft: string)
    requires draft in s.heads
    ensures IsHead(s, draft, s.heads[draft]) <==> AtTop(s, draft)
  {
    forall k | k in s.revisions && k.draft == draft ensures Key(draft, k.revision) == k {
    }
  }

  /** Whatever the tables hold, a new attempt on a head that is not the greatest revision, or cannot be read, is
      refused as corruption, and changes nothing. */
  lemma HeadIsChecked(rules: Rules, s: State, c: Command)
    requires c.allowed && WellFormed(rules, c) && c.operation !in s.receipts && c.draft in s.heads
    ensures !AtTop(s, c.draft) ==> Committed(rules, s, c) == (Err(Corrupt), s)
    ensures AtTop(s, c.draft) && s.heads[c.draft] == c.expected && !Readable(rules, s, Key(c.draft, c.expected)) ==>
      Committed(rules, s, c) == (Err(Corrupt), s)
  {
    TopIs(s, c.draft);
    AskedIs(rules, c);
    NotFound(rules, s, c.operation);
    hide WellFormed, RequestOf, ReadRevision, StoredProposal, IsHead, AtTop, Append, FindOperation;
  }

  /** Whatever the tables hold, a recorded operation without a revision, or with one that cannot be read or whose
      draft's head is not the greatest revision, is refused as corruption, and changes nothing. */
  lemma OperationIsChecked(rules: Rules, s: State, c: Command)
    requires c.allowed && WellFormed(rules, c) && c.operation in s.receipts
    requires s.receipts[c.operation].action != Upgraded && Unique(s)
    ensures (forall k :: k in s.revisions ==> s.revisions[k].operation != c.operation) ==>
      Committed(rules, s, c) == (Err(Corrupt), s)
    ensures forall k ::
      (k in s.revisions && s.revisions[k].operation == c.operation
        && (!AtTop(s, k.draft) || ReadRevision(rules, s, k) == None)) ==> Committed(rules, s, c) == (Err(Corrupt), s)
  {
    forall k | k in s.revisions && s.revisions[k].operation == c.operation
      && (!AtTop(s, k.draft) || ReadRevision(rules, s, k) == None)
      ensures FindOperation(rules, s, c.operation) == Err(Corrupt) {
      OwnerIsChecked(rules, s, k, c.operation);
    }
    NoOwner(rules, s, c.operation);
    hide WellFormed, RequestOf, ReadRevision, StoredProposal, AtTop, FindOperation, Unique;
  }

  lemma NoOwner(rules: Rules, s: State, operation: string)
    requires operation in s.receipts && s.receipts[operation].action != Upgraded
    ensures (forall k :: k in s.revisions ==> s.revisions[k].operation != operation) ==>
      FindOperation(rules, s, operation) == Err(Corrupt)
  {
    hide ReadRevision, IsHead;
  }

  lemma OwnerIsChecked(rules: Rules, s: State, k: Key, operation: string)
    requires operation in s.receipts && s.receipts[operation].action != Upgraded && Unique(s)
    requires k in s.revisions && s.revisions[k].operation == operation
    requires !AtTop(s, k.draft) || ReadRevision(rules, s, k) == None
    ensures FindOperation(rules, s, operation) == Err(Corrupt)
  {
    assert Owns(s, k, operation);
    assert forall j :: Owns(s, j, operation) ==> j == k;
    if k.draft in s.heads {
      TopIs(s, k.draft);
    }
    if !AtTop(s, k.draft) {
      NoHead(s, k.draft);
    }
    hide ReadRevision, IsHead, Unique;
  }
}
