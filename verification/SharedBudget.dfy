/** Two snapshot sessions on one budget, as a comparison of two snapshots opens them: whatever either of them does,
    in whatever order, the other keeps its leases, and the budget can be closed only when both are clean. */
module SharedBudget {
  import opened Wrappers
  import opened ReadBudget
  import opened GraphReader
  import opened SnapshotSession

  // --- What one owner leaves to another -------------------------------------------------

  lemma StaysHeld(lease: Lease, open: Leases, open': Leases, own: set<nat>, own': set<nat>)
    requires Held(lease, open) && lease.id !in own && Others(open, own) == Others(open', own')
    ensures Held(lease, open')
  {
    assert Others(open, own)[lease.id] == lease;
    assert lease.id in Others(open', own');
  }

  /** The reader of another owner keeps everything that it owns. */
  lemma StaysOwned(rows: map<nat, Lease>, stuck: map<nat, Lease>, issued: set<nat>, leases: seq<Lease>,
                   open: Leases, open': Leases, next: nat, next': nat, own: set<nat>, own': set<nat>)
    requires Owned(rows, stuck, issued, leases, open, next) && Ids(rows, stuck, leases) !! own
    requires Others(open, own) == Others(open', own') && Later(own, own', next, next') && own <= open.Keys
    ensures Owned(rows, stuck, issued, leases, open', next')
  {
    var all := rows + stuck;
    forall c | c in all ensures all[c].id !in own && Held(all[c], open') {
      InIds(rows, stuck, leases, c);
      assert Held(all[c], open);
      StaysHeld(all[c], open, open', own, own');
    }
    forall i | 0 <= i < |leases| ensures Held(leases[i], open') {
      assert leases[i].id in Ids(rows, stuck, leases) && Held(leases[i], open);
      StaysHeld(leases[i], open, open', own, own');
    }
    forall l | l in issued && l in open' ensures HeldBySome(all, l) {
      if l !in own {
        assert l in Others(open', own');
        assert l in Others(open, own);
      }
    }
  }

  lemma InIds(rows: map<nat, Lease>, stuck: map<nat, Lease>, leases: seq<Lease>, c: nat)
    requires c in rows + stuck
    ensures (rows + stuck)[c].id in Ids(rows, stuck, leases)
  {
    if c in stuck {
      assert (rows + stuck)[c] == stuck[c];
    } else {
      assert (rows + stuck)[c] == rows[c];
    }
  }

  lemma StaysReserved(leases: seq<Lease>, open: Leases, open': Leases, own: set<nat>, own': set<nat>)
    requires Reserves(leases, open) && LeaseIds(leases) !! own && Others(open, own) == Others(open', own')
    ensures Reserves(leases, open')
  {
    forall i | 0 <= i < |leases| ensures Held(leases[i], open') {
      assert leases[i].id in LeaseIds(leases) && Held(leases[i], open);
      StaysHeld(leases[i], open, open', own, own');
    }
  }

  lemma LeasesAreOpen(leases: seq<Lease>, open: Leases)
    requires Reserves(leases, open)
    ensures LeaseIds(leases) <= open.Keys
  {
    forall i | 0 <= i < |leases| ensures leases[i].id in open {
      assert Held(leases[i], open);
    }
  }

  lemma MineIsOpen(rows: map<nat, Lease>, stuck: map<nat, Lease>, issued: set<nat>, leases: seq<Lease>, open: Leases,
                   next: nat)
    requires Owned(rows, stuck, issued, leases, open, next)
    ensures Ids(rows, stuck, leases) <= open.Keys
  {
    var all := rows + stuck;
    forall c | c in stuck ensures stuck[c].id in open {
      assert all[c] == stuck[c] && Held(all[c], open);
    }
    forall c | c in rows ensures rows[c].id in open {
      assert c !in stuck && all[c] == rows[c] && Held(all[c], open);
    }
    forall i | 0 <= i < |leases| ensures leases[i].id in open {
      assert Held(leases[i], open);
    }
  }

  // --- Two sessions ---------------------------------------------------------------------

  /** Different sessions with different readers on the same budget, neither of which owns a lease of the other. */
  ghost predicate Together(s: Session, t: Session)
    reads s, s.graph, s.budget, t, t.graph, t.budget
  {
    && s != t && s.graph != t.graph && s.budget == t.budget && {s.id, s.graph.id} !! {t.id, t.graph.id}
    && s.Valid() && t.Valid() && s.Own() !! t.Own() && s.base > 2 && t.base > 2
  }

  // --- Any order of turns ---------------------------------------------------------------

  datatype Operation =
    | Enters(setup: Setup, w: Leave)
    | Queries(worlds: seq<World>, rowEnvelope: nat, entry: Entry, found: bool, w: Leave)
    | Exits(exception: bool, check: Check, w: Leave)

  datatype Turn = Turn(first: bool, operation: Operation)

  predicate Sensible(o: Operation, base: nat) {
    o.Enters? ==> o.setup.WellFormed(base)
  }

  /** One operation of a session, whatever its phase. */
  method Perform(s: Session, o: Operation)
    requires s.Valid() && s.base > 2 && Sensible(o, s.base)
    modifies s, s.graph, s.budget
    ensures s.Valid() && s.Rest() == old(s.Rest()) && Later(old(s.Own()), s.Own(), old(s.budget.next), s.budget.next)
    ensures s.budget.owners - {s.id, s.graph.id} == old(s.budget.owners) - {s.id, s.graph.id}
  {
    hide s.Own, s.Rest;
    match o
    case Enters(setup, w) => var r := s.Enter(setup, w);
    case Queries(worlds, rowEnvelope, entry, found, w) => var r := s.Query(worlds, rowEnvelope, entry, found, w);
    case Exits(exception, check, w) => var r := s.Exit(exception, check, w);
  }

  /** What the validity of a session says about the session itself... */
  ghost predicate Local(t: Session)
    reads t, t.graph
  {
    && t.graph.budget == t.budget && t.graph.id != t.id && t.graph.Local() && Apart(t.leases, t.graph.Mine())
    && Covered(t.handles, t.leases, t.phase == Ended) && t.graph.phase != Entering
    && (t.phase == New ==>
      !t.registered && t.leases == [] && t.handles.native == {} && !t.openStarted && t.graph.phase == New)
    && (t.handles.native != {} ==> t.openStarted)
    && (t.phase == Active ==> t.registered && t.openStarted && |t.handles.native| + 5 <= Allowed(t.leases))
  }

  /** ...and what it asks of the budget. */
  ghost predicate Backing(t: Session, open: Leases, next: nat, owners: set<nat>)
    reads t, t.graph
  {
    && Owned(t.graph.rows, t.graph.stuck, t.graph.issued, t.graph.leases, open, next) && Reserves(t.leases, open)
    && (t.registered ==> t.id in owners) && (t.graph.registered ==> t.graph.id in owners)
  }

  lemma ValidIff(t: Session)
    ensures t.Valid() <==> Local(t) && t.budget.Valid() && Backing(t, t.budget.open, t.budget.next, t.budget.owners)
  {
    hide Owned, Reserves, Ids, LeaseIds, Covered, Allowed, Apart, Balanced, WorkWithin, NothingHeld;
  }

  lemma StaysBacked(t: Session, open: Leases, open': Leases, next: nat, next': nat, own: set<nat>, own': set<nat>,
                    owners: set<nat>, owners': set<nat>, ids: set<nat>)
    requires Backing(t, open, next, owners) && t.Own() !! own && own <= open.Keys
    requires Others(open, own) == Others(open', own') && Later(own, own', next, next')
    requires owners' - ids == owners - ids && t.id !in ids && t.graph.id !in ids
    ensures Backing(t, open', next', owners')
  {
    hide Owned, Reserves, Ids, LeaseIds, Others;
    StaysOwned(t.graph.rows, t.graph.stuck, t.graph.issued, t.graph.leases, open, open', next, next', own, own');
    StaysReserved(t.leases, open, open', own, own');
    assert t.registered ==> t.id in owners - ids;
    assert t.graph.registered ==> t.graph.id in owners - ids;
  }

  lemma StaysApart(mine: set<nat>, own: set<nat>, own': set<nat>, next: nat, next': nat)
    requires mine !! own && Later(own, own', next, next') && forall l :: l in mine ==> l < next
    ensures mine !! own'
  {
  }

  /** A turn of one session does not disturb the other. */
  method TakeTurn(s: Session, t: Session, o: Operation)
    requires Together(s, t) && Sensible(o, s.base)
    modifies s, s.graph, s.budget
    ensures Together(s, t)
  {
    hide s.Valid, s.Own, Local, Backing, Later, Others;
    ghost var open, next, own, owners := s.budget.open, s.budget.next, s.Own(), s.budget.owners;
    OwnIsOpen(s);
    OwnIsOpen(t);
    ValidIff(t);
    assert s.Rest() == Others(open, own);
    Perform(s, o);
    StaysBacked(t, open, s.budget.open, next, s.budget.next, own, s.Own(), owners, s.budget.owners, {s.id, s.graph.id});
    StaysApart(t.Own(), own, s.Own(), next, s.budget.next);
    ValidIff(s);
    ValidIff(t);
  }

  lemma Exchanged(s: Session, t: Session)
    requires Together(s, t)
    ensures Together(t, s) && s.budget == t.budget && s.base > 2 && t.base > 2
  {
    hide s.Valid, s.Own;
  }

  lemma OwnIsOpen(s: Session)
    requires s.Valid()
    ensures s.Own() <= s.budget.open.Keys && forall l :: l in s.budget.open ==> l < s.budget.next
  {
    hide Owned, Reserves, Ids, LeaseIds, Covered, Allowed, Apart;
    s.budget.IdsBelow();
    MineIsOpen(s.graph.rows, s.graph.stuck, s.graph.issued, s.graph.leases, s.budget.open, s.budget.next);
    LeasesAreOpen(s.leases, s.budget.open);
  }

  /** Two sessions take turns in any order, and then the budget is closed: if that succeeds, neither session nor
      its reader has anything left, except descriptors that no capability ever held. */
  method Alternate(s: Session, t: Session, turns: seq<Turn>, fault: Option<Error>) returns (closed: Result<()>)
    requires Together(s, t)
    requires forall k :: 0 <= k < |turns| ==> Sensible(turns[k].operation, if turns[k].first then s.base else t.base)
    modifies s, s.graph, t, t.graph, s.budget
    ensures s.Valid() && t.Valid()
    ensures closed.Ok? ==>
      && s.leases == [] && !s.registered && s.graph.stuck == map[] && s.handles.native == s.handles.hidden
      && t.leases == [] && !t.registered && t.graph.stuck == map[] && t.handles.native == t.handles.hidden
  {
    hide Together, s.Valid;
    for k := 0 to |turns|
      invariant Together(s, t)
    {
      if turns[k].first {
        TakeTurn(s, t, turns[k].operation);
      } else {
        Exchanged(s, t);
        TakeTurn(t, s, turns[k].operation);
        Exchanged(t, s);
      }
    }
    closed := CloseBoth(s, t, fault);
  }

  method CloseBoth(s: Session, t: Session, fault: Option<Error>) returns (closed: Result<()>)
    requires Together(s, t)
    modifies s.budget
    ensures s.Valid() && t.Valid()
    ensures closed.Ok? ==>
      && s.leases == [] && !s.registered && s.graph.stuck == map[] && s.handles.native == s.handles.hidden
      && t.leases == [] && !t.registered && t.graph.stuck == map[] && t.handles.native == t.handles.hidden
  {
    hide s.Valid, Local, Backing;
    ValidIff(s);
    ValidIff(t);
    closed := s.budget.Close(fault);
    ValidIff(s);
    ValidIff(t);
    if closed.Ok? {
      s.ClosedBudgetIsClean();
      t.ClosedBudgetIsClean();
    }
  }
}
