/** Audited membership of one project: every change is a compare-and-swap on the receipt log, recorded with
    what it replaced, and may not leave the project without administrators. */
module Membership {
  import opened Wrappers
  import Utf8

  type Result<T> = Fallible<T, Error>

  datatype Error =
    | Forbidden
    | ReadOnlyTransaction
    | OperationRequired
    | Invalid
    | OperationConflict
    | RevisionConflict
    | SelfLockout
    | LastAdmin
    | LastLocalAdmin

  datatype Authority = LocalOs | VerifiedToken | LocalService

  datatype Principal = Principal(id: string, authority: Authority)

  type Permissions = set<string>

  const OWNER_PERMISSIONS: Permissions := {
    "project:read", "project:admin", "analysis:run", "source:edit",
    "artifacts:export", "approvals:decide", "operations:execute", "policies:decide"
  }

  const EFFECTIVE: Permissions := {"project:read", "project:admin"}

  const MAX_SEQUENCE: nat := 0x7FFF_FFFF_FFFF_FFFF

  /** `permissions` is absent for a revocation. */
  datatype Request = Request(actor: Principal, target: Principal, permissions: Option<Permissions>,
    expectedRevision: nat)

  datatype Outcome = Outcome(before: Option<Permissions>, after: Option<Permissions>, changed: bool, revision: nat)

  datatype Row = Row(operation: string, request: Request, outcome: Outcome)

  type Members = map<Principal, Permissions>

  /** The membership rows, and the receipt rows by sequence. */
  datatype State = State(members: Members, receipts: map<nat, Row>)

  function PermissionsOf(members: Members, p: Principal): Option<Permissions> {
    if p in members then Some(members[p]) else None
  }

  function Held(permissions: Option<Permissions>): Permissions {
    if permissions.Some? then permissions.value else {}
  }

  function Admins(members: Members): set<Principal> {
    set p | p in members && EFFECTIVE <= members[p]
  }

  function LocalAdmins(members: Members): set<Principal> {
    set p | p in members && EFFECTIVE <= members[p] && p.authority == LocalOs
  }

  /** The canonical form of an operation: 8-4-4-4-12 lower-case hexadecimal digits. */
  predicate CanonicalUuid(s: string) {
    && |s| == 36
    && forall k :: 0 <= k < 36 ==>
         if k == 8 || k == 13 || k == 18 || k == 23 then s[k] == '-' else '0' <= s[k] <= '9' || 'a' <= s[k] <= 'f'
  }

  const MAX_PRINCIPAL_BYTES: nat := 4096

  /** Bounded in UTF-8, and free of control characters. */
  predicate ValidPrincipal(p: Principal) {
    && |Utf8.Encode(p.id)| <= MAX_PRINCIPAL_BYTES
    && forall k :: 0 <= k < |p.id| ==> p.id[k] as int >= 32 && p.id[k] as int != 127
  }

  /** Distinct known permissions that include reading. */
  function PermissionValues(values: seq<string>): Result<Permissions> {
    var distinct := set v | v in values;
    if |values| != |distinct| || !(distinct <= OWNER_PERMISSIONS) || "project:read" !in distinct then Err(Invalid)
    else Ok(distinct)
  }

  /** What the caller asks for; the operation and the revision must have been given. */
  datatype Change = Change(target: Principal, values: Option<seq<string>>, operation: Option<string>,
    expectedRevision: Option<int>)

  function MembershipRequest(actor: Principal, c: Change): Result<Request> {
    if c.operation == None || c.expectedRevision == None then Err(OperationRequired)
    else if !CanonicalUuid(c.operation.value) then Err(OperationConflict)
    else if !ValidPrincipal(actor) || !ValidPrincipal(c.target) then Err(Invalid)
    else if !(0 <= c.expectedRevision.value < MAX_SEQUENCE) then Err(Invalid)
    else
      match c.values
      case None => Ok(Request(actor, c.target, None, c.expectedRevision.value))
      case Some(values) =>
        match PermissionValues(values)
        case Err(e) => Err(e)
        case Ok(permissions) => Ok(Request(actor, c.target, Some(permissions), c.expectedRevision.value))
  }

  ghost predicate WellFormed(q: Request) {
    && ValidPrincipal(q.actor) && ValidPrincipal(q.target) && q.expectedRevision < MAX_SEQUENCE
    && (q.permissions.Some? ==> "project:read" in q.permissions.value && q.permissions.value <= OWNER_PERMISSIONS)
  }

  /** The greatest sequence, or zero: sequences start at one and are unique. */
  ghost predicate IsRevision(receipts: map<nat, Row>, r: nat) {
    && (r == 0 || r in receipts) && forall s :: s in receipts ==> s <= r
  }

  function Protect(members: Members, actor: Principal, target: Principal, before: Option<Permissions>,
                   after: Option<Permissions>): Result<()> {
    var loses := EFFECTIVE <= Held(before) && !(EFFECTIVE <= Held(after));
    if target == actor && loses then Err(SelfLockout)
    else if !loses then Ok(())
    else if |Admins(members)| <= 1 then Err(LastAdmin)
    else if target.authority == LocalOs && |LocalAdmins(members)| <= 1 then Err(LastLocalAdmin)
    else Ok(())
  }

  function Assign(members: Members, target: Principal, after: Option<Permissions>): Members {
    if after.Some? then members[target := after.value] else members - {target}
  }

  // --- The store ------------------------------------------------------------------------

  class Store {
    var members: Members
    var receipts: map<nat, Row>

    ghost function Contents(): State
      reads this
    {
      State(members, receipts)
    }

    /** The project's founder holds every permission; nothing is logged yet. */
    constructor (owner: Principal)
      ensures Contents() == Bootstrap(owner) && Audited(Bootstrap(owner), Bootstrap(owner).members)
    {
      members := map[owner := OWNER_PERMISSIONS];
      receipts := map[];
      new;
      BootstrapAudited(owner);
    }

    method Revision() returns (r: nat)
      ensures IsRevision(receipts, r)
    {
      r := 0;
      var left := receipts.Keys;
      while left != {}
        invariant left <= receipts.Keys && (r == 0 || r in receipts)
        invariant forall s :: s in receipts && s !in left ==> s <= r
      {
        var s :| s in left;
        if s > r { r := s; }
        left := left - {s};
      }
    }

    method FindAction(operation: string) returns (found: Option<nat>)
      ensures found.Some? ==> found.value in receipts && receipts[found.value].operation == operation
      ensures found == None ==> forall s :: s in receipts ==> receipts[s].operation != operation
    {
      found := None;
      var left := receipts.Keys;
      while left != {}
        invariant left <= receipts.Keys
        invariant found == None
        invariant forall s :: s in receipts && s !in left ==> receipts[s].operation != operation
      {
        var s :| s in left;
        if receipts[s].operation == operation { return Some(s); }
        left := left - {s};
      }
    }

    /** One audited change by `actor`, inside a transaction of that principal. */
    method ChangeMembership(actor: Principal, write: bool, c: Change, ghost founders: Members)
      returns (r: Result<Outcome>)
      requires Audited(Contents(), founders)
      modifies this
      ensures r == Changed(old(Contents()), actor, write, c).0
      ensures Contents() == Changed(old(Contents()), actor, write, c).1
      ensures Audited(Contents(), founders)
    {
      ghost var s := Contents();
      AuditedParts(s, founders);
      ChangeKeepsAudit(s, founders, actor, write, c);
      hide Audited, MembershipRequest, Settled, Distinct, Records;
      var request := MembershipRequest(actor, c);
      if !(EFFECTIVE <= Held(PermissionsOf(members, actor))) {
        r := Err(Forbidden);
      } else if !write {
        r := Err(ReadOnlyTransaction);
      } else if request.Err? {
        r := Err(request.error);
      } else {
        RequestNamesOperation(actor, c);
        r := Settle(c.operation.value, request.value);
      }
    }

    /** The original outcome of a logged operation, or a new change. */
    method Settle(operation: string, q: Request) returns (r: Result<Outcome>)
      requires Distinct(receipts)
      modifies this
      ensures r == Settled(old(Contents()), operation, q).0
      ensures Contents() == Settled(old(Contents()), operation, q).1
    {
      hide Written, Audited, Records, WellFormed;
      var found := FindAction(operation);
      if found.Some? {
        assert RowOf(receipts, operation) == receipts[found.value];
        r := if receipts[found.value].request == q then Ok(receipts[found.value].outcome) else Err(OperationConflict);
      } else {
        r := ApplyChange(operation, q);
      }
    }

    /** The comparison with the log, the protections, and the rows of a new change. */
    method ApplyChange(operation: string, q: Request) returns (r: Result<Outcome>)
      modifies this
      ensures r == Written(old(Contents()), operation, q).0
      ensures Contents() == Written(old(Contents()), operation, q).1
    {
      var revision := Revision();
      if revision != q.expectedRevision {
        return Err(RevisionConflict);
      }
      var before, after := PermissionsOf(members, q.target), q.permissions;
      var protection := Protect(members, q.actor, q.target, before, after);
      if protection.Err? {
        return Err(protection.error);
      }
      members := Assign(members, q.target, after);
      var outcome := Outcome(before, after, before != after, revision + 1);
      receipts := receipts[revision + 1 := Row(operation, q, outcome)];
      return Ok(outcome);
    }
  }

  // --- What a change does ---------------------------------------------------------------

  function Bootstrap(owner: Principal): State {
    State(map[owner := OWNER_PERMISSIONS], map[])
  }

  /** A new receipt, at the next sequence, for an assignment that respects the protections. */
  ghost predicate Records(s: State, operation: string, q: Request, o: Outcome, s': State) {
    && (forall k :: k in s.receipts ==> s.receipts[k].operation != operation)
    && IsRevision(s.receipts, q.expectedRevision)
    && EFFECTIVE <= Held(PermissionsOf(s.members, q.actor))
    && Protect(s.members, q.actor, q.target, PermissionsOf(s.members, q.target), q.permissions).Ok?
    && WellFormed(q) && CanonicalUuid(operation)
    && o == Outcome(PermissionsOf(s.members, q.target), q.permissions,
      PermissionsOf(s.members, q.target) != q.permissions, q.expectedRevision + 1)
    && s' == State(Assign(s.members, q.target, q.permissions),
      s.receipts[q.expectedRevision + 1 := Row(operation, q, o)])
  }

  ghost predicate Logged(receipts: map<nat, Row>, operation: string) {
    exists k :: k in receipts && receipts[k].operation == operation
  }

  ghost function RowOf(receipts: map<nat, Row>, operation: string): (row: Row)
    requires Logged(receipts, operation)
    ensures exists k :: k in receipts && receipts[k] == row && row.operation == operation
  {
    var k :| k in receipts && receipts[k].operation == operation;
    receipts[k]
  }

  /** What a change returns, and the state after it. */
  ghost function Changed(s: State, actor: Principal, write: bool, c: Change): (Result<Outcome>, State) {
    var request := MembershipRequest(actor, c);
    if !(EFFECTIVE <= Held(PermissionsOf(s.members, actor))) then (Err(Forbidden), s)
    else if !write then (Err(ReadOnlyTransaction), s)
    else if request.Err? then (Err(request.error), s)
    else Settled(s, c.operation.value, request.value)
  }

  ghost function Settled(s: State, operation: string, q: Request): (Result<Outcome>, State) {
    if Logged(s.receipts, operation) then
      var row := RowOf(s.receipts, operation);
      (if row.request == q then Ok(row.outcome) else Err(OperationConflict), s)
    else Written(s, operation, q)
  }

  ghost function Written(s: State, operation: string, q: Request): (Result<Outcome>, State) {
    var before := PermissionsOf(s.members, q.target);
    var protection := Protect(s.members, q.actor, q.target, before, q.permissions);
    if !IsRevision(s.receipts, q.expectedRevision) then (Err(RevisionConflict), s)
    else if protection.Err? then (Err(protection.error), s)
    else
      var o := Outcome(before, q.permissions, before != q.permissions, q.expectedRevision + 1);
      (Ok(o), State(Assign(s.members, q.target, q.permissions),
        s.receipts[q.expectedRevision + 1 := Row(operation, q, o)]))
  }

  lemma RequestNamesOperation(actor: Principal, c: Change)
    requires MembershipRequest(actor, c).Ok?
    ensures c.operation.Some? && c.expectedRevision == Some(MembershipRequest(actor, c).value.expectedRevision as int)
    ensures MembershipRequest(actor, c).value.actor == actor && MembershipRequest(actor, c).value.target == c.target
  {
  }

  /** Every new success is a record; everything else leaves the state alone. */
  lemma ChangedRecords(s: State, actor: Principal, write: bool, c: Change)
    ensures var (r, s') := Changed(s, actor, write, c);
      && (r.Err? ==> s' == s)
      && (r.Ok? ==> MembershipRequest(actor, c).Ok? && c.operation.Some?)
      && (r.Ok? && Logged(s.receipts, c.operation.value) ==> s' == s)
      && (r.Ok? && !Logged(s.receipts, c.operation.value) ==>
            Records(s, c.operation.value, MembershipRequest(actor, c).value, r.value, s'))
  {
  }

  // --- The audit invariant --------------------------------------------------------------

  /** The members after the first `n` receipts. */
  ghost function Fold(founders: Members, receipts: map<nat, Row>, n: nat): Members {
    if n == 0 then founders
    else
      var m := Fold(founders, receipts, n - 1);
      if n in receipts then Assign(m, receipts[n].request.target, receipts[n].request.permissions) else m
  }

  /** Receipt `k` was written at revision `k - 1`, by an effective administrator, and states truly what it
      replaced and whether that changed anything. */
  ghost predicate Truthful(founders: Members, receipts: map<nat, Row>, k: nat)
    requires k in receipts && k > 0
  {
    var row := receipts[k];
    var m := Fold(founders, receipts, k - 1);
    && row.request.expectedRevision + 1 == k == row.outcome.revision
    && row.outcome.before == PermissionsOf(m, row.request.target) && row.outcome.after == row.request.permissions
    && row.outcome.changed == (row.outcome.before != row.outcome.after)
    && row.request.actor in Admins(m)
    && WellFormed(row.request) && CanonicalUuid(row.operation)
  }

  ghost predicate Contiguous(receipts: map<nat, Row>) {
    forall k :: k in receipts <==> 1 <= k <= |receipts|
  }

  ghost predicate Distinct(receipts: map<nat, Row>) {
    forall k, l :: k in receipts && l in receipts && receipts[k].operation == receipts[l].operation ==> k == l
  }

  ghost predicate Audited(s: State, founders: Members) {
    && Contiguous(s.receipts)
    && Distinct(s.receipts)
    && (forall k {:trigger Truthful(founders, s.receipts, k)} :: k in s.receipts ==>
      k > 0 && Truthful(founders, s.receipts, k))
    && s.members == Fold(founders, s.receipts, |s.receipts|)
    && Admins(s.members) != {}
  }

  lemma BootstrapAudited(owner: Principal)
    ensures Audited(Bootstrap(owner), Bootstrap(owner).members)
  {
    assert owner in Admins(Bootstrap(owner).members);
  }

  /** The fold only looks at the receipts it covers. */
  lemma {:induction false} FoldIgnoresLater(founders: Members, receipts: map<nat, Row>, n: nat, k: nat, row: Row)
    requires n < k
    ensures Fold(founders, receipts[k := row], n) == Fold(founders, receipts, n)
  {
    if n > 0 {
      FoldIgnoresLater(founders, receipts, n - 1, k, row);
    }
  }

  /** The actor of a recorded change is still an administrator after it: the self-lockout rule. */
  lemma ActorRemains(s: State, operation: string, q: Request, o: Outcome, s': State)
    requires Records(s, operation, q, o, s')
    ensures q.actor in Admins(s.members) && q.actor in Admins(s'.members)
  {
  }

  lemma RevisionIsCount(receipts: map<nat, Row>, r: nat)
    requires Contiguous(receipts) && IsRevision(receipts, r)
    ensures r == |receipts|
  {
    if |receipts| > 0 { assert |receipts| in receipts; }
  }

  lemma NextIsContiguous(receipts: map<nat, Row>, row: Row)
    requires Contiguous(receipts)
    ensures |receipts| + 1 !in receipts && |receipts[|receipts| + 1 := row]| == |receipts| + 1
    ensures Contiguous(receipts[|receipts| + 1 := row])
  {
    assert |receipts| + 1 !in receipts;
  }

  lemma NextIsTruthful(s: State, founders: Members, operation: string, q: Request, o: Outcome, s': State, k: nat)
    requires Audited(s, founders) && Records(s, operation, q, o, s') && k in s'.receipts
    ensures k > 0 && Truthful(founders, s'.receipts, k)
  {
    RevisionIsCount(s.receipts, q.expectedRevision);
    NextIsContiguous(s.receipts, Row(operation, q, o));
    FoldIgnoresLater(founders, s.receipts, k - 1, |s.receipts| + 1, Row(operation, q, o));
    if k in s.receipts {
      assert Truthful(founders, s.receipts, k);
    } else {
      ActorRemains(s, operation, q, o, s');
    }
  }

  /** Every recorded change keeps the whole audit. */
  lemma RecordKeepsAudit(s: State, founders: Members, operation: string, q: Request, o: Outcome, s': State)
    requires Audited(s, founders) && Records(s, operation, q, o, s')
    ensures Audited(s', founders)
  {
    hide Truthful, Fold, Distinct, Contiguous, Records, Admins;
    NextIsDistinct(s, operation, q, o, s');
    FoldOfNext(s, founders, operation, q, o, s');
    ActorRemains(s, operation, q, o, s');
    AllTruthful(s, founders, operation, q, o, s');
    assert Admins(s'.members) != {};
  }

  lemma AllTruthful(s: State, founders: Members, operation: string, q: Request, o: Outcome, s': State)
    requires Audited(s, founders) && Records(s, operation, q, o, s')
    ensures forall k :: k in s'.receipts ==> k > 0 && Truthful(founders, s'.receipts, k)
  {
    hide *;
    forall k | k in s'.receipts ensures k > 0 && Truthful(founders, s'.receipts, k) {
      NextIsTruthful(s, founders, operation, q, o, s', k);
    }
  }

  lemma NextIsDistinct(s: State, operation: string, q: Request, o: Outcome, s': State)
    requires Contiguous(s.receipts) && Distinct(s.receipts) && Records(s, operation, q, o, s')
    ensures Contiguous(s'.receipts) && Distinct(s'.receipts)
  {
    RevisionIsCount(s.receipts, q.expectedRevision);
    NextIsContiguous(s.receipts, Row(operation, q, o));
  }

  lemma FoldOfNext(s: State, founders: Members, operation: string, q: Request, o: Outcome, s': State)
    requires Contiguous(s.receipts) && s.members == Fold(founders, s.receipts, |s.receipts|)
    requires Records(s, operation, q, o, s')
    ensures s'.members == Fold(founders, s'.receipts, |s'.receipts|)
  {
    RevisionIsCount(s.receipts, q.expectedRevision);
    NextIsContiguous(s.receipts, Row(operation, q, o));
    FoldIgnoresLater(founders, s.receipts, |s.receipts|, |s.receipts| + 1, Row(operation, q, o));
  }

  lemma ChangeKeepsAudit(s: State, founders: Members, actor: Principal, write: bool, c: Change)
    requires Audited(s, founders)
    ensures Audited(Changed(s, actor, write, c).1, founders)
  {
    ChangedRecords(s, actor, write, c);
    hide Audited, Changed, Records;
    var (r, s') := Changed(s, actor, write, c);
    if r.Ok? && !Logged(s.receipts, c.operation.value) {
      RecordKeepsAudit(s, founders, c.operation.value, MembershipRequest(actor, c).value, r.value, s');
    }
  }

  /** An effective administrator can never be refused as the last one: someone else's loss leaves the actor. */
  lemma LastAdminImpliedBySelfLockout(members: Members, actor: Principal, target: Principal, after: Option<Permissions>)
    requires actor in Admins(members)
    ensures Protect(members, actor, target, PermissionsOf(members, target), after) != Err(LastAdmin)
  {
    if target != actor && target in Admins(members) {
      assert {actor, target} <= Admins(members);
      CardinalityMonotone({actor, target}, Admins(members));
    }
  }

  lemma {:induction false} CardinalityMonotone<T>(a: set<T>, b: set<T>)
    requires a <= b
    ensures |a| <= |b|
    decreases a
  {
    if x :| x in a {
      CardinalityMonotone(a - {x}, b - {x});
    }
  }

  /** A recorded change never takes the last local administrator away. */
  lemma LocalAdminsRemain(s: State, operation: string, q: Request, o: Outcome, s': State)
    requires Records(s, operation, q, o, s') && LocalAdmins(s.members) != {}
    ensures LocalAdmins(s'.members) != {}
  {
    if q.target in LocalAdmins(s.members) && q.target !in LocalAdmins(s'.members) {
      var others := LocalAdmins(s.members) - {q.target};
      assert others == {} ==> LocalAdmins(s.members) == {q.target};
      var p :| p in others;
      assert p in LocalAdmins(s'.members);
    } else {
      var p :| p in LocalAdmins(s.members);
      assert p in LocalAdmins(s'.members);
    }
  }

  // --- Whole runs -----------------------------------------------------------------------

  datatype Attempt = Attempt(actor: Principal, write: bool, change: Change)

  ghost function Run(s: State, attempts: seq<Attempt>): State
    decreases |attempts|
  {
    if attempts == [] then s
    else Run(Changed(s, attempts[0].actor, attempts[0].write, attempts[0].change).1, attempts[1..])
  }

  /** Along any run of attempted changes the members are the fold of a contiguous, truthful log over the
      founders; an effective administrator remains, and local administrators never fall from some to none. */
  lemma {:induction false} RunKeepsAudit(s: State, founders: Members, attempts: seq<Attempt>)
    requires Audited(s, founders)
    ensures var t := Run(s, attempts);
      && Audited(t, founders) && Admins(t.members) != {}
      && (LocalAdmins(s.members) != {} ==> LocalAdmins(t.members) != {})
      && forall k :: k in s.receipts ==> k in t.receipts && t.receipts[k] == s.receipts[k]
    decreases |attempts|
  {
    if attempts != [] {
      var a := attempts[0];
      var t := Changed(s, a.actor, a.write, a.change).1;
      ChangeKeepsAudit(s, founders, a.actor, a.write, a.change);
      ChangeKeepsRows(s, founders, a.actor, a.write, a.change);
      hide Audited, Changed, LocalAdmins;
      RunKeepsAudit(t, founders, attempts[1..]);
    }
  }

  lemma ChangeKeepsRows(s: State, founders: Members, actor: Principal, write: bool, c: Change)
    requires Audited(s, founders)
    ensures var t := Changed(s, actor, write, c).1;
      && (LocalAdmins(s.members) != {} ==> LocalAdmins(t.members) != {})
      && forall k :: k in s.receipts ==> k in t.receipts && t.receipts[k] == s.receipts[k]
  {
    ChangedRecords(s, actor, write, c);
    AuditedParts(s, founders);
    hide *;
    var (r, t) := Changed(s, actor, write, c);
    if r.Ok? && !Logged(s.receipts, c.operation.value) {
      var q := MembershipRequest(actor, c).value;
      RecordKeepsRows(s, c.operation.value, q, r.value, t);
      if LocalAdmins(s.members) != {} {
        LocalAdminsRemain(s, c.operation.value, q, r.value, t);
      }
    }
  }

  lemma RecordKeepsRows(s: State, operation: string, q: Request, o: Outcome, t: State)
    requires Contiguous(s.receipts) && Records(s, operation, q, o, t)
    ensures forall k :: k in s.receipts ==> k in t.receipts && t.receipts[k] == s.receipts[k]
  {
    hide WellFormed, Protect, Admins, CanonicalUuid;
    RevisionIsCount(s.receipts, q.expectedRevision);
  }

  /** No refusal is ever the last-administrator one: the actor is itself an effective administrator. */
  lemma LastAdminNeverRefuses(s: State, actor: Principal, write: bool, c: Change)
    ensures Changed(s, actor, write, c).0 != Err(LastAdmin)
  {
    var request := MembershipRequest(actor, c);
    if EFFECTIVE <= Held(PermissionsOf(s.members, actor)) && request.Ok? {
      LastAdminImpliedBySelfLockout(s.members, actor, c.target, request.value.permissions);
    }
  }

  /** Exactly when a new change is committed: writing, effective administrator, well-formed request at the
      current revision, no loss of one's own administration, and no loss of the only local administrator. */
  lemma CommittedExactly(s: State, founders: Members, actor: Principal, write: bool, c: Change)
    requires Audited(s, founders) && c.operation.Some? && !Logged(s.receipts, c.operation.value)
    ensures Changed(s, actor, write, c).0.Ok? <==>
      && actor in Admins(s.members) && write && MembershipRequest(actor, c).Ok?
      && c.expectedRevision == Some(|s.receipts|)
      && (var after := MembershipRequest(actor, c).value.permissions;
          c.target in Admins(s.members) && !(EFFECTIVE <= Held(after)) ==>
            c.target != actor && (c.target.authority == LocalOs ==> |LocalAdmins(s.members)| > 1))
  {
    var request := MembershipRequest(actor, c);
    ChangedOkExactly(s, actor, write, c);
    AuditedParts(s, founders);
    hide Audited, Changed;
    if request.Ok? {
      RequestNamesOperation(actor, c);
      hide MembershipRequest, IsRevision, Protect;
      RevisionExactly(s.receipts, request.value.expectedRevision);
      if actor in Admins(s.members) {
        ProtectExactly(s.members, actor, c.target, request.value.permissions);
      }
    }
  }

  lemma AuditedParts(s: State, founders: Members)
    requires Audited(s, founders)
    ensures Contiguous(s.receipts) && Distinct(s.receipts)
  {
  }

  lemma ChangedOkExactly(s: State, actor: Principal, write: bool, c: Change)
    requires c.operation.Some? && !Logged(s.receipts, c.operation.value)
    ensures Changed(s, actor, write, c).0.Ok? <==>
      && actor in Admins(s.members) && write && MembershipRequest(actor, c).Ok?
      && var q := MembershipRequest(actor, c).value;
         IsRevision(s.receipts, q.expectedRevision)
         && Protect(s.members, actor, q.target, PermissionsOf(s.members, q.target), q.permissions).Ok?
  {
    hide Protect, IsRevision;
  }

  lemma RevisionExactly(receipts: map<nat, Row>, r: nat)
    requires Contiguous(receipts)
    ensures IsRevision(receipts, r) <==> r == |receipts|
  {
    if IsRevision(receipts, r) {
      RevisionIsCount(receipts, r);
    }
  }

  /** The protections of an administrator's change, without the last-administrator rule. */
  lemma ProtectExactly(members: Members, actor: Principal, target: Principal, after: Option<Permissions>)
    requires actor in Admins(members)
    ensures Protect(members, actor, target, PermissionsOf(members, target), after).Ok? <==>
      (target in Admins(members) && !(EFFECTIVE <= Held(after)) ==>
         target != actor && (target.authority == LocalOs ==> |LocalAdmins(members)| > 1))
  {
    LastAdminImpliedBySelfLockout(members, actor, target, after);
  }

  /** Repeating an operation after any later changes returns its original outcome, as long as its author
      may still administer. */
  lemma ReplayReturnsOriginal(s: State, founders: Members, a: Attempt, later: seq<Attempt>)
    requires Audited(s, founders) && Changed(s, a.actor, a.write, a.change).0.Ok?
    requires var t := Run(Changed(s, a.actor, a.write, a.change).1, later); a.actor in Admins(t.members)
    ensures var (r, s') := Changed(s, a.actor, a.write, a.change);
      var t := Run(s', later);
      Changed(t, a.actor, true, a.change) == (r, t)
  {
    hide *;
    var s' := Changed(s, a.actor, a.write, a.change).1;
    var t := Run(s', later);
    var k := RowOfSuccess(s, a);
    ChangeKeepsAudit(s, founders, a.actor, a.write, a.change);
    LaterRows(s', founders, later);
    ReplayReads(s', t, a, k);
  }

  lemma LaterRows(s: State, founders: Members, later: seq<Attempt>)
    requires Audited(s, founders)
    ensures var t := Run(s, later); RowsKept(s.receipts, t.receipts) && Distinct(t.receipts)
  {
    RunKeepsAudit(s, founders, later);
    AuditedParts(Run(s, later), founders);
    hide Audited, Run, Distinct;
  }

  ghost predicate RowsKept(receipts: map<nat, Row>, later: map<nat, Row>) {
    forall k :: k in receipts ==> k in later && later[k] == receipts[k]
  }

  /** A success, new or repeated, has its row in the log. */
  lemma RowOfSuccess(s: State, a: Attempt) returns (k: nat)
    requires Changed(s, a.actor, a.write, a.change).0.Ok?
    ensures var (r, s') := Changed(s, a.actor, a.write, a.change);
      && MembershipRequest(a.actor, a.change).Ok? && a.change.operation.Some?
      && k in s'.receipts
      && s'.receipts[k] == Row(a.change.operation.value, MembershipRequest(a.actor, a.change).value, r.value)
  {
    var (r, s') := Changed(s, a.actor, a.write, a.change);
    var operation := a.change.operation.value;
    if Logged(s.receipts, operation) {
      k :| k in s.receipts && s.receipts[k] == RowOf(s.receipts, operation);
    } else {
      k := MembershipRequest(a.actor, a.change).value.expectedRevision + 1;
    }
  }

  lemma ReplayReads(s: State, t: State, a: Attempt, k: nat)
    requires MembershipRequest(a.actor, a.change).Ok? && a.change.operation.Some?
    requires k in s.receipts && s.receipts[k].operation == a.change.operation.value
    requires s.receipts[k].request == MembershipRequest(a.actor, a.change).value
    requires RowsKept(s.receipts, t.receipts) && a.actor in Admins(t.members) && Distinct(t.receipts)
    ensures Changed(t, a.actor, true, a.change) == (Ok(s.receipts[k].outcome), t)
  {
    assert t.receipts[k] == s.receipts[k];
    assert Logged(t.receipts, a.change.operation.value);
    assert RowOf(t.receipts, a.change.operation.value) == t.receipts[k];
  }
}
