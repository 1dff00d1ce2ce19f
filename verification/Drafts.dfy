/** The draft tables of one project: versioned drafts with archive and restore, one receipt per revision,
    compare-and-swap on the head, and replay of operations. */
module Drafts {
  import opened Wrappers
  import M = Membership

  type Result<T> = Fallible<T, Error>

  datatype Error =
    | Forbidden
    | Invalid
    | OperationConflict
    | DraftConflict
    | DraftArchived
    | SourceMismatch
    | DraftNotFound
    | StatusConflict
    | LimitExceeded
    | SourceRefMismatch
    | Corrupt

  datatype Action = Saved | Archived | Restored | Upgraded

  datatype Status = Active | InArchive

  datatype Source = Source(snapshot: string, layer: string, path: string, hash: string)

  /** A proposal stands for its canonical document, which includes its source. */
  datatype Proposal = Proposal(source: Source, candidate: string)

  /** Title and content belong to saves only. */
  datatype Request = Request(action: Action, actor: string, draft: string, expected: nat, title: Option<string>,
    content: Option<string>)

  datatype Outcome = Outcome(
    operation: string, action: Action, actor: string, recorded: string, draft: string, revision: nat,
    status: Status, title: string, content: string, source: Source)

  datatype Row = Row(action: Action, actor: string, recorded: string, request: Request, outcome: Outcome)

  datatype Key = Key(draft: string, revision: nat)

  datatype Revision = Revision(content: string, title: string, status: Status, operation: string)

  /** `layers` are the published layers of every snapshot. */
  datatype State = State(
    heads: map<string, nat>, revisions: map<Key, Revision>, proposals: map<string, Proposal>,
    receipts: map<string, Row>, layers: map<string, set<string>>)

  const MAX_REVISION: nat := 0x7FFF_FFFF_FFFF_FFFF

  /** What is decided outside these tables: content digests, title rules and the size of a receipt. */
  datatype Rules = Rules(digest: Proposal -> string, validTitle: string -> bool, fits: (Request, Outcome) -> bool)

  /** One attempt; `title` and `proposal` only matter for a save. */
  datatype Command = Command(
    allowed: bool, action: Action, actor: string, draft: string, expected: int, title: string, proposal: Proposal,
    operation: string, recorded: string)

  // --- Requests and results -------------------------------------------------------------

  predicate WellFormed(rules: Rules, c: Command) {
    && M.CanonicalUuid(c.operation) && M.CanonicalUuid(c.draft) && 0 <= c.expected < MAX_REVISION
    && c.action in {Saved, Archived, Restored} && (c.action == Saved ==> rules.validTitle(c.title))
  }

  function RequestFor(action: Action, actor: string, draft: string, expected: nat, title: string,
                      content: string): Request {
    if action == Saved then Request(action, actor, draft, expected, Some(title), Some(content))
    else Request(action, actor, draft, expected, None, None)
  }

  function RequestOf(rules: Rules, c: Command): Request
    requires WellFormed(rules, c)
  {
    RequestFor(c.action, c.actor, c.draft, c.expected, c.title, rules.digest(c.proposal))
  }

  function StatusAfter(action: Action): Status {
    if action == Archived then InArchive else Active
  }

  function ResultFor(operation: string, recorded: string, q: Request, title: string, content: string,
                     source: Source): Outcome {
    Outcome(operation, q.action, q.actor, recorded, q.draft, q.expected + 1, StatusAfter(q.action), title, content,
      source)
  }

  // --- Reading --------------------------------------------------------------------------

  /** A revision as its columns say it, or nothing when they contradict the receipt. */
  function ReadRevision(rules: Rules, s: State, k: Key): Option<(Request, Outcome)> {
    if k !in s.revisions || s.revisions[k].operation !in s.receipts || s.revisions[k].content !in s.proposals then None
    else
      var v := s.revisions[k];
      var (a, p) := (s.receipts[v.operation], s.proposals[v.content]);
      if a.action == Upgraded || !(1 <= k.revision < MAX_REVISION) || !rules.validTitle(v.title) then None
      else if !M.CanonicalUuid(v.operation) || !M.CanonicalUuid(k.draft) then None
      else
        var q := RequestFor(a.action, a.actor, k.draft, k.revision - 1, v.title, v.content);
        var o := ResultFor(v.operation, a.recorded, q, v.title, v.content, p.source);
        if v.status == o.status && rules.fits(q, o) && a.request == q && a.outcome == o && p.source.snapshot in s.layers
          then Some((q, o))
        else None
  }

  /** The retained document behind a receipt. */
  predicate StoredProposal(rules: Rules, s: State, o: Outcome) {
    o.content in s.proposals && rules.digest(s.proposals[o.content]) == o.content
      && s.proposals[o.content].source == o.source
  }

  ghost predicate IsHead(s: State, draft: string, head: nat) {
    && draft in s.heads && s.heads[draft] == head >= 1
    && Key(draft, head) in s.revisions && forall k :: k in s.revisions && k.draft == draft ==> k.revision <= head
  }

  ghost predicate Owns(s: State, k: Key, operation: string) {
    k in s.revisions && s.revisions[k].operation == operation
  }

  /** The unique index on the operations of revisions. */
  ghost predicate Unique(s: State) {
    forall k, j :: k in s.revisions && j in s.revisions && s.revisions[k].operation == s.revisions[j].operation ==>
      k == j
  }

  /** Nothing, the recorded request and result, or a refusal. */
  ghost function FindOperation(rules: Rules, s: State, operation: string): Result<Option<(Request, Outcome)>> {
    if operation !in s.receipts then Ok(None)
    else if s.receipts[operation].action == Upgraded then Err(OperationConflict)
    else if !exists k :: Owns(s, k, operation) then Err(Corrupt)
    else
      var k :| Owns(s, k, operation);
      if !IsHead(s, k.draft, if k.draft in s.heads then s.heads[k.draft] else 0) then Err(Corrupt)
      else
        var read := ReadRevision(rules, s, k);
        if read == None then Err(Corrupt) else Ok(Some(read.value))
  }

  // --- Writing --------------------------------------------------------------------------

  /** What a new revision carries: a save brings its own, a status change keeps the previous. */
  function Carried(rules: Rules, c: Command, previous: Option<Outcome>): Result<(string, string, Source)> {
    if c.action == Saved then
      if previous.Some? && previous.value.status == InArchive then Err(DraftArchived)
      else if previous.Some? && previous.value.source != c.proposal.source then Err(SourceMismatch)
      else Ok((c.title, rules.digest(c.proposal), c.proposal.source))
    else if previous == None then Err(DraftNotFound)
    else if previous.value.status != (if c.action == Archived then Active else InArchive) then Err(StatusConflict)
    else Ok((previous.value.title, previous.value.content, previous.value.source))
  }

  function InsertProposal(rules: Rules, s: State, p: Proposal): Result<State> {
    var id := rules.digest(p);
    if p.source.snapshot !in s.layers || p.source.layer !in s.layers[p.source.snapshot] then Err(SourceRefMismatch)
    else if id in s.proposals && s.proposals[id] != p then Err(Corrupt)
    else Ok(s.(proposals := s.proposals[id := p]))
  }

  /** The rows of a committed revision. */
  function Insert(s: State, q: Request, o: Outcome): State {
    s.(
      receipts := s.receipts[o.operation := Row(q.action, q.actor, o.recorded, q, o)],
      heads := s.heads[o.draft := o.revision],
      revisions := s.revisions[Key(o.draft, o.revision) := Revision(o.content, o.title, o.status, o.operation)])
  }

  /** The atomic part: rows are inserted and read back, or nothing happens. */
  function Write(rules: Rules, s: State, c: Command, q: Request, o: Outcome): (Result<Outcome>, State) {
    var inserted := if c.action == Saved then InsertProposal(rules, s, c.proposal) else Ok(s);
    if inserted.Err? then (Err(inserted.error), s)
    else
      var s' := Insert(inserted.value, q, o);
      var read := ReadRevision(rules, s', Key(o.draft, o.revision));
      if read == None || !StoredProposal(rules, s', read.value.1) then (Err(Corrupt), s) else (Ok(o), s')
  }

  function Append(rules: Rules, s: State, c: Command, q: Request, previous: Option<Outcome>): (Result<Outcome>, State) {
    var carried := Carried(rules, c, previous);
    if carried.Err? then (Err(carried.error), s)
    else
      var o := ResultFor(c.operation, c.recorded, q, carried.value.0, carried.value.1, carried.value.2);
      if !rules.fits(q, o) then (Err(LimitExceeded), s) else Write(rules, s, c, q, o)
  }

  ghost function Advance(rules: Rules, s: State, c: Command, q: Request): (Result<Outcome>, State) {
    if c.draft !in s.heads then
      if q.expected != 0 then (Err(DraftConflict), s) else Append(rules, s, c, q, None)
    else if !IsHead(s, c.draft, s.heads[c.draft]) then (Err(Corrupt), s)
    else if s.heads[c.draft] != q.expected then (Err(DraftConflict), s)
    else
      var read := ReadRevision(rules, s, Key(c.draft, s.heads[c.draft]));
      if read == None || !StoredProposal(rules, s, read.value.1) then (Err(Corrupt), s)
      else Append(rules, s, c, q, Some(read.value.1))
  }

  /** What an attempt returns, and the tables after it. */
  ghost function Committed(rules: Rules, s: State, c: Command): (Result<Outcome>, State) {
    if !c.allowed then (Err(Forbidden), s)
    else if !WellFormed(rules, c) then (Err(Invalid), s)
    else
      var q := RequestOf(rules, c);
      var found := FindOperation(rules, s, c.operation);
      if found.Err? then (Err(found.error), s)
      else if found.value.Some? then
        var (q', o) := found.value.value;
        (if q' != q then Err(OperationConflict) else if !StoredProposal(rules, s, o) then Err(Corrupt) else Ok(o), s)
      else Advance(rules, s, c, q)
  }

  // --- The store ------------------------------------------------------------------------

  class Store {
    const rules: Rules
    var heads: map<string, nat>
    var revisions: map<Key, Revision>
    var proposals: map<string, Proposal>
    var receipts: map<string, Row>
    var layers: map<string, set<string>>

    function Contents(): State
      reads this
    {
      State(heads, revisions, proposals, receipts, layers)
    }

    method Load(s: State)
      modifies this
      ensures Contents() == s
    {
      heads, revisions, proposals, receipts, layers := s.heads, s.revisions, s.proposals, s.receipts, s.layers;
    }

    /** The head of a draft, checked against the greatest revision. */
    method ReadHead(draft: string) returns (r: Result<Option<nat>>)
      ensures r == if draft !in heads then Ok(None) else if IsHead(Contents(), draft, heads[draft])
        then Ok(Some(heads[draft])) else Err(Corrupt)
    {
      if draft !in heads {
        return Ok(None);
      }
      var greatest: int := 0;
      var left := revisions.Keys;
      while left != {}
        invariant left <= revisions.Keys
        invariant forall k :: k in revisions && k !in left && k.draft == draft ==> k.revision <= greatest
        invariant greatest > 0 ==> Key(draft, greatest) in revisions
        invariant 0 <= greatest
        decreases |left|
      {
        var k :| k in left;
        if k.draft == draft && k.revision > greatest {
          greatest := k.revision;
        }
        left := left - {k};
      }
      if heads[draft] != greatest || heads[draft] < 1 {
        return Err(Corrupt);
      }
      return Ok(Some(heads[draft]));
    }

    /** The revision that an operation wrote. */
    method OwnerOf(operation: string) returns (k: Option<Key>)
      ensures k.Some? ==> Owns(Contents(), k.value, operation)
      ensures k == None ==> forall j :: !Owns(Contents(), j, operation)
    {
      var left := revisions.Keys;
      while left != {}
        invariant left <= revisions.Keys
        invariant forall j :: j in revisions && j !in left ==> revisions[j].operation != operation
        decreases |left|
      {
        var j :| j in left;
        if revisions[j].operation == operation {
          return Some(j);
        }
        left := left - {j};
      }
      return None;
    }

    method Find(operation: string) returns (r: Result<Option<(Request, Outcome)>>)
      requires Unique(Contents())
      ensures r == FindOperation(rules, Contents(), operation)
    {
      if operation !in receipts {
        return Ok(None);
      }
      if receipts[operation].action == Upgraded {
        return Err(OperationConflict);
      }
      hide ReadRevision, IsHead;
      var owner := OwnerOf(operation);
      if owner == None {
        return Err(Corrupt);
      }
      assert Owns(Contents(), owner.value, operation);
      assert forall j :: Owns(Contents(), j, operation) ==> j == owner.value;
      var head := ReadHead(owner.value.draft);
      if head.Err? || head.value == None {
        NoHead(Contents(), owner.value.draft);
        return Err(Corrupt);
      }
      var read := ReadRevision(rules, Contents(), owner.value);
      return if read == None then Err(Corrupt) else Ok(Some(read.value));
    }

    method AdvanceHead(c: Command, q: Request) returns (r: Result<Outcome>)
      modifies this
      ensures r == Advance(rules, old(Contents()), c, q).0
      ensures Contents() == Advance(rules, old(Contents()), c, q).1
    {
      hide ReadRevision, IsHead, Append, StoredProposal;
      var s := Contents();
      var head := ReadHead(c.draft);
      if head.Err? {
        return Err(Corrupt);
      }
      if q.expected != (if head.value.Some? then head.value.value else 0) {
        return Err(DraftConflict);
      }
      var previous := None;
      if head.value.Some? {
        var read := ReadRevision(rules, s, Key(c.draft, head.value.value));
        if read == None || !StoredProposal(rules, s, read.value.1) {
          return Err(Corrupt);
        }
        previous := Some(read.value.1);
      }
      var (result, after) := Append(rules, s, c, q, previous);
      Load(after);
      return result;
    }

    /** One attempt of a principal, inside a transaction. */
    method Commit(c: Command) returns (r: Result<Outcome>)
      requires Unique(Contents())
      modifies this
      ensures r == Committed(rules, old(Contents()), c).0
      ensures Contents() == Committed(rules, old(Contents()), c).1
    {
      hide FindOperation, StoredProposal, Advance;
      if !c.allowed {
        return Err(Forbidden);
      }
      if !WellFormed(rules, c) {
        return Err(Invalid);
      }
      var q := RequestOf(rules, c);
      hide WellFormed, RequestOf;
      var found := Find(c.operation);
      if found.Err? {
        return Err(found.error);
      }
      if found.value.Some? {
        var (q', o) := found.value.value;
        return if q' != q then Err(OperationConflict) else if !StoredProposal(rules, Contents(), o) then Err(Corrupt)
          else Ok(o);
      }
      r := AdvanceHead(c, q);
    }
  }

  lemma NoHead(s: State, draft: string)
    requires draft !in s.heads || !IsHead(s, draft, s.heads[draft])
    ensures !IsHead(s, draft, if draft in s.heads then s.heads[draft] else 0)
  {
  }
}
