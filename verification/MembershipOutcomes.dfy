/** What a membership change comes to, told from the change itself: which requests are accepted, what they grant, and
    when each refusal is given. */
module MembershipOutcomes {
  import opened Wrappers
  import Utf8
  import opened Membership

  // --- Requests -------------------------------------------------------------------------

  /** Thirty-six characters: hyphens behind the eighth, twelfth, sixteenth and twentieth digit, and lower-case
      hexadecimal digits otherwise. */
  ghost predicate Uuid(s: string) {
    && |s| == 36 && s[8] == '-' && s[13] == '-' && s[18] == '-' && s[23] == '-'
    && forall k :: 0 <= k < 36 && k !in {8, 13, 18, 23} ==> s[k] in "0123456789abcdef"
  }

  lemma HexIs(c: char)
    ensures c in "0123456789abcdef" <==> '0' <= c <= '9' || 'a' <= c <= 'f'
  {
  }

  lemma UuidIs(s: string)
    ensures CanonicalUuid(s) <==> Uuid(s)
  {
    forall k | 0 <= k < |s| ensures s[k] in "0123456789abcdef" <==> '0' <= s[k] <= '9' || 'a' <= s[k] <= 'f' {
      HexIs(s[k]);
    }
  }

  /** An identifier of at most 4096 bytes without control characters. */
  ghost predicate Named(p: Principal) {
    |Utf8.Encode(p.id)| <= 4096 && forall c :: c in p.id ==> !(c as int < 0x20) && c as int != 0x7F
  }

  /** A list without repetitions of names of permissions, reading among them. */
  ghost predicate Grantable(values: seq<string>) {
    && (forall i, j :: 0 <= i < |values| && 0 <= j < |values| && values[i] == values[j] ==> i == j)
    && (forall v :: v in values ==>
         v in ["project:read", "project:admin", "analysis:run", "source:edit",
               "artifacts:export", "approvals:decide", "operations:execute", "policies:decide"])
    && "project:read" in values
  }

  lemma {:induction false} CountDistinct(values: seq<string>)
    ensures |set v | v in values| <= |values|
    ensures |set v | v in values| == |values| <==>
      forall i, j :: 0 <= i < |values| && 0 <= j < |values| && values[i] == values[j] ==> i == j
  {
    if values != [] {
      var (before, last) := (values[..|values| - 1], values[|values| - 1]);
      CountDistinct(before);
      assert values == before + [last];
      var (all, some) := (set v | v in values, set v | v in before);
      assert all == some + {last};
      if last in before {
        var i :| 0 <= i < |before| && before[i] == last;
        assert values[i] == values[|values| - 1];
      } else {
        assert forall i :: 0 <= i < |before| ==> values[i] == before[i] && before[i] in before;
      }
    }
  }

  lemma PermissionsAre(values: seq<string>)
    ensures PermissionValues(values) == if Grantable(values) then Ok(set v | v in values) else Err(Invalid)
  {
    CountDistinct(values);
    assert forall v :: v in OWNER_PERMISSIONS <==>
      v in ["project:read", "project:admin", "analysis:run", "source:edit",
            "artifacts:export", "approvals:decide", "operations:execute", "policies:decide"];
  }

  /** Actor and target are named, the permissions can be granted, and the revision is in range. */
  ghost predicate Proper(actor: Principal, c: Change)
    requires c.expectedRevision.Some?
  {
    && Named(actor) && Named(c.target) && 0 <= c.expectedRevision.value < 0x7FFF_FFFF_FFFF_FFFF
    && (c.values.Some? ==> Grantable(c.values.value))
  }

  /** What the target is granted, or nothing when its membership is revoked. */
  ghost function Granted(c: Change): Option<Permissions> {
    if c.values.Some? then Some(set v | v in c.values.value) else None
  }

  /** Which changes are accepted as requests, and what is asked by them. Each refusal is given for its own reason, in
      this order. */
  lemma RequestExactly(actor: Principal, c: Change)
    ensures var r := MembershipRequest(actor, c);
      if c.operation == None || c.expectedRevision == None then r == Err(OperationRequired)
      else if !Uuid(c.operation.value) then r == Err(OperationConflict)
      else if !Proper(actor, c) then r == Err(Invalid)
      else r == Ok(Request(actor, c.target, Granted(c), c.expectedRevision.value))
  {
    hide CanonicalUuid, Uuid, ValidPrincipal, Named, PermissionValues, Grantable;
    if c.operation.Some? {
      UuidIs(c.operation.value);
    }
    if c.values.Some? {
      PermissionsAre(c.values.value);
    }
    NamedIs(actor);
    NamedIs(c.target);
  }

  lemma NamedIs(p: Principal)
    ensures ValidPrincipal(p) <==> Named(p)
  {
    assert forall k :: 0 <= k < |p.id| ==> p.id[k] in p.id;
  }

  /** The order in which permissions are listed does not matter. */
  lemma OrderDoesNotMatter(actor: Principal, c: Change, values: seq<string>, other: seq<string>)
    requires multiset(values) == multiset(other)
    ensures MembershipRequest(actor, c.(values := Some(values))) == MembershipRequest(actor, c.(values := Some(other)))
  {
    assert forall v :: v in values <==> v in multiset(values);
    assert forall v :: v in other <==> v in multiset(other);
    assert (set v | v in values) == (set v | v in other);
    assert |values| == |multiset(values)| == |other|;
    hide CanonicalUuid, ValidPrincipal;
  }

  // --- Changes --------------------------------------------------------------------------

  ghost predicate Administers(members: Members, p: Principal) {
    p in members && "project:read" in members[p] && "project:admin" in members[p]
  }

  /** The change would take the administration from its target. */
  ghost predicate Deposes(members: Members, c: Change) {
    Administers(members, c.target)
      && (c.values == None || !("project:read" in c.values.value && "project:admin" in c.values.value))
  }

  /** Some other local account administers. */
  ghost predicate OtherLocal(members: Members, target: Principal) {
    exists p :: p != target && p.authority == LocalOs && Administers(members, p)
  }

  /** The state after a change that is recorded at revision `n`. */
  ghost predicate Recorded(s: State, actor: Principal, c: Change, n: nat, o: Outcome, t: State)
    requires c.operation.Some?
  {
    var before := if c.target in s.members then Some(s.members[c.target]) else None;
    && o == Outcome(before, Granted(c), before != Granted(c), n + 1)
    && t.members == (if Granted(c).Some? then s.members[c.target := Granted(c).value] else s.members - {c.target})
    && t.receipts == s.receipts[n + 1 := Row(c.operation.value, Request(actor, c.target, Granted(c), n), o)]
  }

  lemma AdminIs(members: Members, p: Principal)
    ensures EFFECTIVE <= Held(PermissionsOf(members, p)) <==> Administers(members, p)
    ensures p in Admins(members) <==> Administers(members, p)
  {
  }

  lemma ProtectIs(members: Members, actor: Principal, c: Change)
    requires Administers(members, actor)
    ensures Protect(members, actor, c.target, PermissionsOf(members, c.target), Granted(c)) ==
      if Deposes(members, c) && c.target == actor then Err(SelfLockout)
      else if Deposes(members, c) && c.target.authority == LocalOs && !OtherLocal(members, c.target)
        then Err(LastLocalAdmin)
      else Ok(())
  {
    AdminIs(members, actor);
    AdminIs(members, c.target);
    LastAdminImpliedBySelfLockout(members, actor, c.target, Granted(c));
    LosesIs(members, c);
    if Deposes(members, c) && c.target.authority == LocalOs {
      LocalsAre(members, c.target);
    }
    hide Administers, Deposes, OtherLocal, Admins, LocalAdmins, Granted, Held;
  }

  lemma LosesIs(members: Members, c: Change)
    ensures EFFECTIVE <= Held(PermissionsOf(members, c.target)) && !(EFFECTIVE <= Held(Granted(c))) <==>
      Deposes(members, c)
  {
    if c.values.Some? {
      assert forall v :: v in Held(Granted(c)) <==> v in c.values.value;
    }
  }

  lemma LocalsAre(members: Members, target: Principal)
    requires Administers(members, target) && target.authority == LocalOs
    ensures |LocalAdmins(members)| <= 1 <==> !OtherLocal(members, target)
  {
    var locals := LocalAdmins(members);
    assert target in locals;
    if OtherLocal(members, target) {
      var p :| p != target && p.authority == LocalOs && Administers(members, p);
      assert {p, target} <= locals;
      CardinalityMonotone({p, target}, locals);
    } else {
      assert locals == {target};
    }
  }

  /** Every outcome of a change: a refusal for each reason, in this order, which changes nothing; the original
      outcome of a repeated request; or the change, recorded at the next revision. */
  lemma ChangedExactly(s: State, founders: Members, actor: Principal, write: bool, c: Change)
    requires Audited(s, founders)
    ensures var (r, t) := Changed(s, actor, write, c);
      && (r.Err? ==> t == s)
      && if !Administers(s.members, actor) then r == Err(Forbidden)
         else if !write then r == Err(ReadOnlyTransaction)
         else if MembershipRequest(actor, c).Err? then r == Err(MembershipRequest(actor, c).error)
         else c.operation.Some? && Settles(s, actor, c, r, t)
  {
    ChangedRecords(s, actor, write, c);
    hide Audited, MembershipRequest, Administers, Settled, Settles, Records;
    AdminIs(s.members, actor);
    var request := MembershipRequest(actor, c);
    if Administers(s.members, actor) && write && request.Ok? {
      RequestNamesOperation(actor, c);
      SettledExactly(s, founders, actor, c);
    }
  }

  /** What an accepted request of an administrator comes to. */
  ghost predicate Settles(s: State, actor: Principal, c: Change, r: Result<Outcome>, t: State)
    requires c.operation.Some? && c.expectedRevision.Some?
  {
    if exists k :: k in s.receipts && s.receipts[k].operation == c.operation.value then
      && t == s
      && forall k :: k in s.receipts && s.receipts[k].operation == c.operation.value ==>
           r == if Repeats(s.receipts[k].request, actor, c) then Ok(s.receipts[k].outcome) else Err(OperationConflict)
    else if c.expectedRevision.value != |s.receipts| then r == Err(RevisionConflict) && t == s
    else if Deposes(s.members, c) && c.target == actor then r == Err(SelfLockout) && t == s
    else if Deposes(s.members, c) && c.target.authority == LocalOs && !OtherLocal(s.members, c.target)
      then r == Err(LastLocalAdmin) && t == s
    else r.Ok? && Recorded(s, actor, c, |s.receipts|, r.value, t)
  }

  /** The same actor, target, permissions and revision as before. */
  ghost predicate Repeats(q: Request, actor: Principal, c: Change)
    requires c.expectedRevision.Some?
  {
    && q.actor == actor && q.target == c.target && q.permissions == Granted(c)
    && q.expectedRevision == c.expectedRevision.value
  }

  lemma SettledExactly(s: State, founders: Members, actor: Principal, c: Change)
    requires Audited(s, founders) && Administers(s.members, actor) && MembershipRequest(actor, c).Ok?
    ensures c.operation.Some? && c.expectedRevision.Some?
    ensures var (r, t) := Settled(s, c.operation.value, MembershipRequest(actor, c).value); Settles(s, actor, c, r, t)
  {
    hide *;
    AuditedParts(s, founders);
    RequestNamesOperation(actor, c);
    RequestParts(actor, c);
    var (operation, q) := (c.operation.value, MembershipRequest(actor, c).value);
    if Logged(s.receipts, operation) {
      SettledRepeated(s, actor, c, q);
    } else {
      RevisionExactly(s.receipts, q.expectedRevision);
      ProtectIs(s.members, actor, c);
      SettledNew(s, actor, c, q);
    }
  }

  lemma RequestParts(actor: Principal, c: Change)
    requires MembershipRequest(actor, c).Ok?
    ensures c.operation.Some? && c.expectedRevision.Some? && c.expectedRevision.value >= 0
    ensures MembershipRequest(actor, c).value == Request(actor, c.target, Granted(c), c.expectedRevision.value)
  {
    RequestExactly(actor, c);
    hide MembershipRequest, Uuid, Proper;
    ProperRevision(actor, c);
  }

  lemma ProperRevision(actor: Principal, c: Change)
    ensures c.expectedRevision.Some? && Proper(actor, c) ==> c.expectedRevision.value >= 0
  {
  }

  lemma SettledRepeated(s: State, actor: Principal, c: Change, q: Request)
    requires c.operation.Some? && c.expectedRevision.Some? && c.expectedRevision.value >= 0
    requires q == Request(actor, c.target, Granted(c), c.expectedRevision.value)
    requires Distinct(s.receipts) && Logged(s.receipts, c.operation.value)
    ensures var (r, t) := Settled(s, c.operation.value, q); Settles(s, actor, c, r, t)
  {
    var operation := c.operation.value;
    forall k | k in s.receipts && s.receipts[k].operation == operation
      ensures RowOf(s.receipts, operation) == s.receipts[k] {
      LoggedOnce(s.receipts, k);
    }
    hide Distinct, RowOf, Granted, Written, Recorded, Deposes, OtherLocal;
  }

  lemma SettledNew(s: State, actor: Principal, c: Change, q: Request)
    requires c.operation.Some? && c.expectedRevision.Some? && c.expectedRevision.value >= 0
    requires q == Request(actor, c.target, Granted(c), c.expectedRevision.value)
    requires !Logged(s.receipts, c.operation.value)
    requires IsRevision(s.receipts, q.expectedRevision) <==> q.expectedRevision == |s.receipts|
    requires Protect(s.members, actor, c.target, PermissionsOf(s.members, c.target), Granted(c)) ==
      if Deposes(s.members, c) && c.target == actor then Err(SelfLockout)
      else if Deposes(s.members, c) && c.target.authority == LocalOs && !OtherLocal(s.members, c.target)
        then Err(LastLocalAdmin)
      else Ok(())
    ensures var (r, t) := Settled(s, c.operation.value, q); Settles(s, actor, c, r, t)
  {
    hide IsRevision, Protect, Granted, Deposes, OtherLocal, RowOf;
  }

  lemma LoggedOnce(receipts: map<nat, Row>, k: nat)
    requires Distinct(receipts) && k in receipts
    ensures Logged(receipts, receipts[k].operation) && RowOf(receipts, receipts[k].operation) == receipts[k]
    ensures forall l :: l in receipts && receipts[l].operation == receipts[k].operation ==> l == k
  {
  }
}
