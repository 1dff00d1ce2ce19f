/** The graph reader's cursors and leases on a shared budget: a cursor's lease is given back exactly when no
    native cursor exists for it any more, on every path. */
module GraphReader {
  import opened Wrappers
  import opened ReadBudget

  /** Every cursor in `cursors` holds its own open lease for one cursor. */
  ghost predicate Backed(cursors: map<nat, Lease>, open: Leases) {
    && (forall c :: c in cursors ==> Held(cursors[c], open) && cursors[c].kind == Cursors && cursors[c].amount == 1)
    && (forall c, d :: c in cursors && d in cursors && cursors[c].id == cursors[d].id ==> c == d)
  }

  ghost predicate Held(lease: Lease, open: Leases) {
    lease.id in open && open[lease.id] == lease
  }

  /** The cursor leases taken so far; one of them is open exactly when a cursor still holds it. */
  ghost predicate Accounted(issued: set<nat>, cursors: map<nat, Lease>, open: Leases, next: nat) {
    && (forall c :: c in cursors ==> cursors[c].id in issued)
    && (forall l :: l in issued ==> l < next && (l in open ==> HeldBySome(cursors, l)))
  }

  ghost predicate HeldBySome(cursors: map<nat, Lease>, l: nat) {
    exists c :: c in cursors && cursors[c].id == l
  }

  /** The reader's other leases. */
  ghost predicate Reserved(leases: seq<Lease>, open: Leases) {
    && (forall i :: 0 <= i < |leases| ==> Held(leases[i], open) && leases[i].kind == ImageBytes && leases[i].amount > 0)
    && (forall i, j :: 0 <= i < j < |leases| ==> leases[i].id != leases[j].id)
  }

  /** Everything a reader owns: cursors in use, cursors whose close was not acknowledged, and its leases. */
  ghost predicate Owned(rows: map<nat, Lease>, stuck: map<nat, Lease>, issued: set<nat>, leases: seq<Lease>,
                        open: Leases, next: nat) {
    && rows.Keys !! stuck.Keys
    && Backed(rows + stuck, open) && Accounted(issued, rows + stuck, open, next) && Reserved(leases, open)
  }

  /** The identities of the leases that a reader owns. */
  ghost function Ids(rows: map<nat, Lease>, stuck: map<nat, Lease>, leases: seq<Lease>): set<nat> {
    (set c | c in rows :: rows[c].id) + (set c | c in stuck :: stuck[c].id)
      + (set i | 0 <= i < |leases| :: leases[i].id)
  }

  /** From one state of a budget to a later one, an owner has dropped some of its leases and taken new ones;
      all other leases are as they were. */
  ghost predicate OnlyOwn(open: Leases, open': Leases, next: nat, next': nat, mine: set<nat>, mine': set<nat>) {
    && next <= next'
    && (forall l :: l in open && l !in mine ==> l in open' && open'[l] == open[l])
    && (forall l :: l in mine' ==> l in mine || l >= next)
    && (forall l :: l in open' && l !in mine' ==> l in open && l !in mine)
  }

  lemma OwnAgain(open: Leases, open': Leases, open'': Leases, next: nat, next': nat, next'': nat, mine: set<nat>,
                 mine': set<nat>, mine'': set<nat>)
    requires OnlyOwn(open, open', next, next', mine, mine') && OnlyOwn(open', open'', next', next'', mine', mine'')
    requires forall l :: l in open ==> l < next
    ensures OnlyOwn(open, open'', next, next'', mine, mine'')
  {
  }

  // --- Steps of ownership ---------------------------------------------------------------

  /** A lease is taken for a cursor that is then obtained; it goes to `rows` or, if it cannot be closed, to
      `stuck`: to `all` of them either way. */
  lemma Obtain(all: map<nat, Lease>, issued: set<nat>, leases: seq<Lease>, open: Leases, next: nat, c: nat,
               lease: Lease, next': nat)
    requires Backed(all, open) && Accounted(issued, all, open, next) && Reserved(leases, open)
    requires c !in all && lease.kind == Cursors && lease.amount == 1 && next <= lease.id < next' && lease.id !in open
    requires forall id :: id in open ==> id < next
    ensures var open' := open[lease.id := lease];
      Backed(all[c := lease], open') && Accounted(issued + {lease.id}, all[c := lease], open', next')
        && Reserved(leases, open')
  {
    var all', open', issued' := all[c := lease], open[lease.id := lease], issued + {lease.id};
    forall l | l in issued' ensures l < next' && (l in open' ==> HeldBySome(all', l)) {
      if l == lease.id {
        assert all'[c].id == l;
      } else if l in open {
        var d :| d in all && all[d].id == l;
        assert all'[d].id == l;
      }
    }
  }

  /** A lease that was taken in vain is given back. */
  lemma GiveBack(all: map<nat, Lease>, issued: set<nat>, leases: seq<Lease>, open: Leases, next: nat, lease: Lease,
                 next': nat)
    requires Backed(all, open) && Accounted(issued, all, open, next) && Reserved(leases, open)
    requires next <= lease.id < next' && lease.id !in open
    ensures var open' := open[lease.id := lease] - {lease.id};
      Backed(all, open') && Accounted(issued + {lease.id}, all, open', next') && Reserved(leases, open')
  {
    var open' := open[lease.id := lease] - {lease.id};
    assert open' == open;
  }

  /** A cursor that is closed gives its lease back. */
  lemma Closed(all: map<nat, Lease>, issued: set<nat>, leases: seq<Lease>, open: Leases, next: nat, c: nat)
    requires Backed(all, open) && Accounted(issued, all, open, next) && Reserved(leases, open) && c in all
    ensures Backed(all - {c}, open - {all[c].id}) && Accounted(issued, all - {c}, open - {all[c].id}, next)
    ensures Reserved(leases, open - {all[c].id})
  {
    var all', open' := all - {c}, open - {all[c].id};
    forall l | l in issued && l in open' ensures HeldBySome(all', l) {
      var d :| d in all && all[d].id == l;
      assert d in all' && all'[d].id == l;
    }
    forall i | 0 <= i < |leases| ensures leases[i].id != all[c].id {
      assert Held(leases[i], open) && Held(all[c], open);
    }
  }

  /** A budget that has been closed leaves a reader with nothing. */
  lemma ClosedBudgetLeavesNothing(all: map<nat, Lease>, leases: seq<Lease>, open: Leases)
    requires Backed(all, open) && Reserved(leases, open)
    requires forall id :: id in open ==> open[id].amount == 0
    ensures all == map[] && leases == []
  {
    assert forall c :: c !in all;
    SomeLease(leases, open);
  }

  lemma SomeLease(leases: seq<Lease>, open: Leases)
    requires Reserved(leases, open)
    ensures leases == [] || exists id :: id in open && open[id].amount > 0
  {
    if leases != [] {
      assert Held(leases[0], open);
    }
  }

  lemma ObtainRows(rows: map<nat, Lease>, stuck: map<nat, Lease>, issued: set<nat>, leases: seq<Lease>, open: Leases,
                   next: nat, c: nat, lease: Lease, next': nat)
    requires Owned(rows, stuck, issued, leases, open, next) && c !in rows + stuck
    requires lease.kind == Cursors && lease.amount == 1 && next <= lease.id < next' && lease.id !in open
    requires forall id :: id in open ==> id < next
    ensures Owned(rows[c := lease], stuck, issued + {lease.id}, leases, open[lease.id := lease], next')
  {
    Obtain(rows + stuck, issued, leases, open, next, c, lease, next');
    assert rows[c := lease] + stuck == (rows + stuck)[c := lease];
  }

  lemma ObtainStuck(rows: map<nat, Lease>, stuck: map<nat, Lease>, issued: set<nat>, leases: seq<Lease>, open: Leases,
                    next: nat, c: nat, lease: Lease, next': nat)
    requires Owned(rows, stuck, issued, leases, open, next) && c !in rows + stuck
    requires lease.kind == Cursors && lease.amount == 1 && next <= lease.id < next' && lease.id !in open
    requires forall id :: id in open ==> id < next
    ensures Owned(rows, stuck[c := lease], issued + {lease.id}, leases, open[lease.id := lease], next')
  {
    Obtain(rows + stuck, issued, leases, open, next, c, lease, next');
    assert rows + stuck[c := lease] == (rows + stuck)[c := lease];
  }

  lemma GiveBackOwned(rows: map<nat, Lease>, stuck: map<nat, Lease>, issued: set<nat>, leases: seq<Lease>, open: Leases,
                      next: nat, lease: Lease, next': nat)
    requires Owned(rows, stuck, issued, leases, open, next) && next <= lease.id < next' && lease.id !in open
    ensures Owned(rows, stuck, issued + {lease.id}, leases, open[lease.id := lease] - {lease.id}, next')
  {
    GiveBack(rows + stuck, issued, leases, open, next, lease, next');
  }

  lemma ClosedOwned(rows: map<nat, Lease>, stuck: map<nat, Lease>, issued: set<nat>, leases: seq<Lease>, open: Leases,
                    next: nat, c: nat)
    requires Owned(rows, stuck, issued, leases, open, next) && c in rows
    ensures Owned(rows - {c}, stuck, issued, leases, open - {rows[c].id}, next) && Held(rows[c], open)
    ensures rows[c].amount == 1
  {
    Closed(rows + stuck, issued, leases, open, next, c);
    assert (rows - {c}) + stuck == (rows + stuck) - {c};
    assert (rows + stuck)[c] == rows[c];
  }

  lemma StuckOwned(rows: map<nat, Lease>, stuck: map<nat, Lease>, issued: set<nat>, leases: seq<Lease>, open: Leases,
                   next: nat, c: nat)
    requires Owned(rows, stuck, issued, leases, open, next) && c in rows
    ensures Owned(rows - {c}, stuck[c := rows[c]], issued, leases, open, next)
  {
    assert (rows - {c}) + stuck[c := rows[c]] == rows + stuck;
  }

  lemma DropLease(rows: map<nat, Lease>, stuck: map<nat, Lease>, issued: set<nat>, leases: seq<Lease>, open: Leases,
                  next: nat)
    requires Owned(rows, stuck, issued, leases, open, next) && leases != []
    ensures var last := leases[|leases| - 1];
      Held(last, open) && last.amount > 0 && Owned(rows, stuck, issued, leases[..|leases| - 1], open - {last.id}, next)
  {
    var last, all, open' := leases[|leases| - 1], rows + stuck, open - {leases[|leases| - 1].id};
    assert Held(last, open);
    forall c | c in all ensures Held(all[c], open') {
      assert Held(all[c], open);
    }
    forall i | 0 <= i < |leases| - 1 ensures Held(leases[i], open') {
      assert Held(leases[i], open);
    }
  }

  lemma AddLease(rows: map<nat, Lease>, stuck: map<nat, Lease>, issued: set<nat>, leases: seq<Lease>, open: Leases,
                 next: nat, lease: Lease, next': nat)
    requires Owned(rows, stuck, issued, leases, open, next) && lease.id !in open && lease.kind == ImageBytes
    requires lease.amount > 0
    requires next <= lease.id < next'
    ensures Owned(rows, stuck, issued, leases + [lease], open[lease.id := lease], next')
  {
    var all, open' := rows + stuck, open[lease.id := lease];
    forall c | c in all ensures Held(all[c], open') {
      assert Held(all[c], open);
    }
    forall i | 0 <= i < |leases| ensures Held(leases[i], open') && leases[i].id != lease.id {
      assert Held(leases[i], open);
    }
  }

  /** The lease of a cursor taken so far is open exactly while some cursor holds it. */
  lemma LeaseIffCursor(rows: map<nat, Lease>, stuck: map<nat, Lease>, issued: set<nat>, leases: seq<Lease>,
                       open: Leases, next: nat, l: nat)
    requires Owned(rows, stuck, issued, leases, open, next) && l in issued
    ensures l in open <==> HeldBySome(rows + stuck, l)
  {
    if HeldBySome(rows + stuck, l) {
      var c :| c in rows + stuck && (rows + stuck)[c].id == l;
      assert Held((rows + stuck)[c], open);
    }
  }

  // --- What one step leaves to others ---------------------------------------------------

  lemma ObtainOwn(rows: map<nat, Lease>, stuck: map<nat, Lease>, leases: seq<Lease>, open: Leases, next: nat,
                  next': nat, c: nat, lease: Lease)
    requires c !in rows && c !in stuck && next <= lease.id < next' && lease.id !in open
    ensures OnlyOwn(open, open[lease.id := lease], next, next', Ids(rows, stuck, leases),
      Ids(rows[c := lease], stuck, leases))
    ensures OnlyOwn(open, open[lease.id := lease], next, next', Ids(rows, stuck, leases),
      Ids(rows, stuck[c := lease], leases))
  {
    hide Ids;
    IdsWith(rows, stuck, leases, c, lease);
  }

  lemma IdsWith(rows: map<nat, Lease>, stuck: map<nat, Lease>, leases: seq<Lease>, c: nat, lease: Lease)
    requires c !in rows && c !in stuck
    ensures Ids(rows[c := lease], stuck, leases) == Ids(rows, stuck, leases) + {lease.id}
    ensures Ids(rows, stuck[c := lease], leases) == Ids(rows, stuck, leases) + {lease.id}
  {
    var rows', stuck' := rows[c := lease], stuck[c := lease];
    assert forall d :: d in rows ==> rows'[d] == rows[d];
    assert forall d :: d in stuck ==> stuck'[d] == stuck[d];
    assert rows'[c].id == stuck'[c].id == lease.id;
  }

  lemma AddOwn(rows: map<nat, Lease>, stuck: map<nat, Lease>, leases: seq<Lease>, open: Leases, next: nat, next': nat,
               lease: Lease)
    requires next <= lease.id < next' && lease.id !in open
    ensures OnlyOwn(open, open[lease.id := lease], next, next', Ids(rows, stuck, leases),
      Ids(rows, stuck, leases + [lease]))
  {
    var leases' := leases + [lease];
    assert leases'[|leases|] == lease && forall i :: 0 <= i < |leases| ==> leases'[i] == leases[i];
    assert Ids(rows, stuck, leases') == Ids(rows, stuck, leases) + {lease.id};
  }

  lemma CloseOwn(rows: map<nat, Lease>, stuck: map<nat, Lease>, leases: seq<Lease>, open: Leases, next: nat, c: nat)
    requires c in rows && c !in stuck
    ensures OnlyOwn(open, open - {rows[c].id}, next, next, Ids(rows, stuck, leases), Ids(rows - {c}, stuck, leases))
    ensures OnlyOwn(open, open, next, next, Ids(rows, stuck, leases), Ids(rows - {c}, stuck[c := rows[c]], leases))
  {
    var rows', stuck' := rows - {c}, stuck[c := rows[c]];
    assert rows[c].id in Ids(rows, stuck, leases);
    assert forall d :: d in rows && d != c ==> d in rows' && rows'[d] == rows[d];
    assert forall d :: d in stuck ==> stuck'[d] == stuck[d];
    assert stuck'[c].id == rows[c].id;
    assert Ids(rows, stuck, leases) == Ids(rows', stuck, leases) + {rows[c].id} == Ids(rows', stuck', leases);
  }

  lemma DropOwn(rows: map<nat, Lease>, stuck: map<nat, Lease>, leases: seq<Lease>, open: Leases, next: nat)
    requires leases != []
    ensures var n := |leases| - 1;
      OnlyOwn(open, open - {leases[n].id}, next, next, Ids(rows, stuck, leases), Ids(rows, stuck, leases[..n]))
  {
    var n := |leases| - 1;
    assert leases[n].id in Ids(rows, stuck, leases);
    assert forall i :: 0 <= i < n ==> leases[..n][i] == leases[i];
    assert Ids(rows, stuck, leases) == Ids(rows, stuck, leases[..n]) + {leases[n].id};
  }

  lemma NothingTaken(open: Leases, next: nat, next': nat, mine: set<nat>)
    requires next <= next'
    ensures OnlyOwn(open, open, next, next', mine, mine)
  {
  }

  /** A reader does not notice that another owner of the same budget takes a lease... */
  lemma OthersTake(rows: map<nat, Lease>, stuck: map<nat, Lease>, issued: set<nat>, leases: seq<Lease>, open: Leases,
                   next: nat, lease: Lease, next': nat)
    requires Owned(rows, stuck, issued, leases, open, next) && next <= lease.id < next' && lease.id !in open
    ensures Owned(rows, stuck, issued, leases, open[lease.id := lease], next')
  {
    var all, open' := rows + stuck, open[lease.id := lease];
    forall c | c in all ensures Held(all[c], open') {
      assert Held(all[c], open);
    }
    forall i | 0 <= i < |leases| ensures Held(leases[i], open') {
      assert Held(leases[i], open);
    }
  }

  /** ...or gives one back. */
  lemma OthersDrop(rows: map<nat, Lease>, stuck: map<nat, Lease>, issued: set<nat>, leases: seq<Lease>, open: Leases,
                   next: nat, l: nat)
    requires Owned(rows, stuck, issued, leases, open, next) && l !in Ids(rows, stuck, leases)
    ensures Owned(rows, stuck, issued, leases, open - {l}, next)
  {
    var all, open' := rows + stuck, open - {l};
    forall c | c in all ensures Held(all[c], open') {
      assert Held(all[c], open) && (c in stuck ==> all[c] == stuck[c]) && (c !in stuck ==> all[c] == rows[c]);
    }
    forall i | 0 <= i < |leases| ensures Held(leases[i], open') {
      assert Held(leases[i], open) && leases[i].id in Ids(rows, stuck, leases);
    }
  }

  // --- The reader -----------------------------------------------------------------------

  datatype Phase = New | Entering | Active | Ended

  /** What the outside world does during one statement: the checkpoints before it and before its reservation,
      the statement itself, the registration of its rows, and the close of its cursor. */
  datatype World = World(fault: Option<Error>, reserveFault: Option<Error>, statementOk: bool, registerOk: bool,
    closeOk: bool,
                         row: Option<seq<Cell>>)

  /** A value of a fetched row; only its length in bytes matters. */
  datatype Cell = TextCell(bytes: nat) | BlobCell(bytes: nat) | OtherCell

  function CellCost(c: Cell): nat {
    match c
    case TextCell(bytes) => 64 + 4 * bytes
    case BlobCell(bytes) => 64 + bytes
    case OtherCell => 32
  }

  /** What the first `n` values of a row take. */
  function CellsCost(row: seq<Cell>, n: nat): nat
    requires n <= |row|
  {
    if n == 0 then 0 else CellsCost(row, n - 1) + CellCost(row[n - 1])
  }

  function RowCost(row: seq<Cell>): nat {
    128 + 16 * |row| + CellsCost(row, |row|)
  }

  /** The values of one sort in a row. */
  function CountOf(row: seq<Cell>, sort: Cell -> bool): nat {
    if row == [] then 0 else CountOf(row[1..], sort) + if sort(row[0]) then 1 else 0
  }

  function TextBytes(row: seq<Cell>): nat {
    if row == [] then 0 else TextBytes(row[1..]) + if row[0].TextCell? then row[0].bytes else 0
  }

  function BlobBytes(row: seq<Cell>): nat {
    if row == [] then 0 else BlobBytes(row[1..]) + if row[0].BlobCell? then row[0].bytes else 0
  }

  lemma {:induction false} CellsSplit(row: seq<Cell>, n: nat)
    requires 0 < n <= |row|
    ensures CellsCost(row, n) == CellCost(row[0]) + CellsCost(row[1..], n - 1)
  {
    if n > 1 {
      CellsSplit(row, n - 1);
    }
  }

  lemma {:induction false} CellsTotal(row: seq<Cell>)
    ensures CellsCost(row, |row|) ==
      32 * |row| + 32 * CountOf(row, (c: Cell) => !c.OtherCell?) + 4 * TextBytes(row) + BlobBytes(row)
  {
    if row != [] {
      CellsSplit(row, |row|);
      CellsTotal(row[1..]);
    }
  }

  /** A row takes 128 bytes, 48 more for each value, 32 more for each text or blob, four times the bytes of its texts
      and the bytes of its blobs. */
  lemma RowCostExactly(row: seq<Cell>)
    ensures RowCost(row) == 128 + 48 * |row| + 32 * CountOf(row, (c: Cell) => !c.OtherCell?)
      + 4 * TextBytes(row) + BlobBytes(row)
  {
    CellsTotal(row);
  }

  method ComputeRowCost(row: seq<Cell>) returns (cost: nat)
    ensures cost == RowCost(row)
  {
    cost := 128 + 16 * |row|;
    for k := 0 to |row|
      invariant cost == 128 + 16 * |row| + CellsCost(row, k)
    {
      cost := cost + CellCost(row[k]);
    }
  }

  /** What the outside world does while a reader is entered or runs an operation: the faults found at its
      checkpoints, the sizes that it reserves and charges, its setup statements and validating queries, and
      whether the image is sound. */
  datatype Entry = Entry(registerFault: Option<Error>, startFault: Option<Error>, imagesFault: Option<Error>,
                         chargeFault: Option<Error>, vmFault: Option<Error>, lastFault: Option<Error>, envelope: nat,
                           rowBytes: nat, vmSteps: nat,
                         setup: seq<World>, queries: seq<World>, sound: bool)

  /** The budget's part aside, a setup statement that runs and whose cursor closes. */
  predicate Sound(world: World) {
    world.reserveFault == None && world.statementOk && world.closeOk
  }

  /** The budget's part aside, a query whose cursor can be neither registered nor closed. */
  predicate Hopeless(world: World) {
    world.fault == None && world.reserveFault == None && world.statementOk && !world.registerOk && !world.closeOk
  }

  lemma HopelessMeans(world: World)
    ensures Hopeless(world) <==>
      && world.fault == None && world.reserveFault == None && world.statementOk && !world.registerOk && !world.closeOk
  {
  }

  /** The setup is sound, and the first query hopeless. */
  predicate LosesFirst(entry: Entry) {
    && entry.sound && (forall k :: 0 <= k < |entry.setup| ==> Sound(entry.setup[k]))
    && entry.queries != [] && Hopeless(entry.queries[0])
  }

  ghost function Failing(cursors: set<nat>, closeOk: nat -> bool): set<nat> {
    set c | c in cursors && !closeOk(c)
  }

  lemma HeldAgain(before: map<Kind, nat>, lent: map<Kind, nat>, after: map<Kind, nat>)
    requires (forall k: Kind :: k in before) && lent == before[Cursors := before[Cursors] + 1]
    requires forall k: Kind :: k in after && k in lent && after[k] + (if k == Cursors then 1 else 0) == lent[k]
    ensures after == before
  {
  }

  lemma FailingWithout(before: set<nat>, after: set<nat>, closeOk: nat -> bool, c: nat)
    requires c in before && after == before - {c}
    ensures Failing(before, closeOk) == Failing(after, closeOk) + if closeOk(c) then {} else {c}
  {
  }

  /** With the cursors of `left` to close at first and those of `now` still to be closed. */
  ghost predicate HaveClosed(left: set<nat>, now: set<nat>, stuck0: set<nat>, stuck: set<nat>, closeOk: nat -> bool,
                             failed: bool) {
    && stuck + Failing(now, closeOk) == stuck0 + Failing(left, closeOk)
    && (failed || Failing(now, closeOk) != {} <==> Failing(left, closeOk) != {})
  }

  lemma NoneClosed(left: set<nat>, stuck0: set<nat>, closeOk: nat -> bool)
    ensures HaveClosed(left, left, stuck0, stuck0, closeOk, false)
  {
  }

  lemma OneClosed(left: set<nat>, now: set<nat>, stuck0: set<nat>, stuck: set<nat>, closeOk: nat -> bool, failed: bool,
                  c: nat)
    requires HaveClosed(left, now, stuck0, stuck, closeOk, failed) && c in now
    ensures HaveClosed(left, now - {c}, stuck0, stuck + if closeOk(c) then {} else {c}, closeOk, failed || !closeOk(c))
  {
    FailingWithout(now, now - {c}, closeOk, c);
    hide Failing;
  }

  lemma AllClosed(left: set<nat>, stuck0: set<nat>, stuck: set<nat>, closeOk: nat -> bool, failed: bool)
    requires HaveClosed(left, {}, stuck0, stuck, closeOk, failed)
    ensures stuck == stuck0 + Failing(left, closeOk) && (failed <==> Failing(left, closeOk) != {})
  {
  }

  lemma FailingNone(cursors: set<nat>, closeOk: nat -> bool)
    requires cursors == {} || forall c :: closeOk(c)
    ensures Failing(cursors, closeOk) == {}
  {
  }

  class Graph {
    const budget: Budget
    const id: nat
    const maxCursors: nat
    const maxRowBytes: nat
    var rowBytes: nat
    var phase: Phase
    var cursorFailure: bool
    var rows: map<nat, Lease>
    var leases: seq<Lease>
    var registered: bool
    var nextCursor: nat
    ghost var stuck: map<nat, Lease>
    ghost var unseen: set<nat>
    ghost var issued: set<nat>

    ghost predicate Valid()
      reads this`rows, this`stuck, this`unseen, this`issued, this`leases, this`registered, this`phase,
        this`cursorFailure, this`nextCursor
      reads budget
    {
      && budget.Valid() && Owned(rows, stuck, issued, leases, budget.open, budget.next) && Local()
      && (registered ==> id in budget.owners)
    }

    /** What a reader knows of itself. The cursors in `stuck` were not seen closed; those in `unseen` among them
        were never registered either. Until the end a failure is noted exactly when there are others. */
    ghost predicate Local()
      reads this`rows, this`stuck, this`unseen, this`leases, this`registered, this`phase, this`cursorFailure,
        this`nextCursor
    {
      && (forall c :: c in rows ==> c < nextCursor) && (forall c :: c in stuck ==> c < nextCursor)
      && (phase == New ==> !registered && leases == [] && rows == map[] && stuck == map[])
      && unseen <= stuck.Keys && (phase != Ended ==> (cursorFailure <==> !(stuck.Keys <= unseen)))
    }

    ghost function Mine(): set<nat>
      reads this`rows, this`stuck, this`leases
    {
      Ids(rows, stuck, leases)
    }

    constructor (budget: Budget, id: nat, maxCursors: nat, maxRowBytes: nat)
      requires budget.Valid()
      ensures Valid() && this.budget == budget && this.id == id && phase == New && !registered
      ensures rows == map[] && stuck == map[] && leases == [] && this.maxCursors == maxCursors
    {
      this.budget, this.id, this.maxCursors, this.maxRowBytes, rowBytes := budget, id, maxCursors, maxRowBytes, 0;
      phase, cursorFailure, rows, leases, registered, nextCursor := New, false, map[], [], false, 0;
      stuck, unseen, issued := map[], {}, {};
    }

    method Checkpoint(fault: Option<Error>) returns (r: Result<()>)
      ensures r.Ok? <==> phase in {Entering, Active} && !cursorFailure && !budget.closed && fault == None
    {
      if phase != Entering && phase != Active {
        return Err(SessionInvalid);
      }
      if cursorFailure {
        return Err(Corrupt);
      }
      r := budget.Checkpoint(fault);
    }

    // --- A cursor and its lease -----------------------------------------------------------

    /** A lease for one cursor has been taken, and no cursor has been obtained for it yet. */
    ghost predicate Loaned(lease: Lease, open: Leases, next: nat)
      reads this, budget
    {
      && budget.Valid() && Owned(rows, stuck, issued, leases, open, next) && Local() && phase != New && !budget.closed
      && (registered ==> id in budget.owners)
      && lease.kind == Cursors && lease.amount == 1 && next <= lease.id < budget.next && lease.id !in open
      && (forall l :: l in open ==> l < next) && budget.open == open[lease.id := lease]
    }

    /** The budget lends a cursor. */
    ghost predicate Lends()
      reads budget`held, budget`closed
    {
      && !budget.closed && Cursors in budget.held && Cursors in budget.limits
      && budget.held[Cursors] + 1 <= budget.limits[Cursors]
    }

    method TakeCursor(fault: Option<Error>) returns (r: Result<Lease>)
      requires Valid() && phase != New
      modifies budget`held, budget`peaks, budget`open, budget`next
      ensures r.Ok? <==> fault == None && old(Lends())
      ensures r.Ok? ==> Loaned(r.value, old(budget.open), old(budget.next))
      ensures r.Ok? ==> budget.held == old(budget.held)[Cursors := old(budget.held)[Cursors] + 1]
      ensures r.Err? ==> Valid() && budget.open == old(budget.open) && budget.next == old(budget.next)
    {
      hide Owned, Balanced, WorkWithin, NothingHeld;
      budget.IdsBelow();
      budget.HeldIsKnown();
      r := budget.Reserve(Cursors, 1, fault);
    }

    /** There is no native cursor: the lease goes back. */
    method GiveCursor(lease: Lease, ghost open: Leases, ghost next: nat)
      requires Loaned(lease, open, next)
      modifies this`issued, budget`held, budget`open
      ensures Valid() && budget.open == open
      ensures forall k: Kind ::
        && k in budget.held && k in old(budget.held)
        && budget.held[k] + (if k == Cursors then 1 else 0) == old(budget.held)[k]
      ensures OnlyOwn(open, budget.open, next, budget.next, old(Mine()), Mine())
    {
      hide Owned, Balanced, WorkWithin, NothingHeld, OnlyOwn, Ids;
      GiveBackOwned(rows, stuck, issued, leases, open, next, lease, budget.next);
      NothingTaken(open, next, budget.next, Mine());
      var released := budget.Release(lease);
      assert open[lease.id := lease] - {lease.id} == open;
      issued := issued + {lease.id};
    }

    /** There is a native cursor that will not be closed: its lease stays. */
    method LoseCursor(lease: Lease, recorded: bool, ghost open: Leases, ghost next: nat)
      requires Loaned(lease, open, next)
      modifies this`nextCursor, this`stuck, this`unseen, this`issued, this`cursorFailure
      ensures Valid() && stuck.Keys == old(stuck.Keys) + {old(nextCursor)} && old(nextCursor) !in old(stuck)
      ensures unseen == old(unseen) + if recorded then {} else {old(nextCursor)}
      ensures cursorFailure == (old(cursorFailure) || recorded)
      ensures OnlyOwn(open, budget.open, next, budget.next, old(Mine()), Mine())
    {
      hide Owned, Budget.Valid, OnlyOwn, Ids;
      assert nextCursor !in rows + stuck;
      ObtainOwn(rows, stuck, leases, open, next, budget.next, nextCursor, lease);
      ObtainStuck(rows, stuck, issued, leases, open, next, nextCursor, lease, budget.next);
      unseen := unseen + if recorded then {} else {nextCursor};
      stuck, issued, nextCursor := stuck[nextCursor := lease], issued + {lease.id}, nextCursor + 1;
      cursorFailure := cursorFailure || recorded;
    }

    /** There is a native cursor, and it is registered with its lease. */
    method HoldCursor(lease: Lease, ghost open: Leases, ghost next: nat) returns (cursor: nat)
      requires Loaned(lease, open, next)
      modifies this`nextCursor, this`rows, this`issued
      ensures Valid() && cursor !in old(rows) && cursor !in old(stuck) && rows.Keys == old(rows.Keys) + {cursor}
      ensures OnlyOwn(open, budget.open, next, budget.next, old(Mine()), Mine())
    {
      hide Owned, Balanced, WorkWithin, NothingHeld, OnlyOwn, Ids;
      assert nextCursor !in rows + stuck;
      ObtainOwn(rows, stuck, leases, open, next, budget.next, nextCursor, lease);
      ObtainRows(rows, stuck, issued, leases, open, next, nextCursor, lease, budget.next);
      cursor := nextCursor;
      rows, issued, nextCursor := rows[cursor := lease], issued + {lease.id}, nextCursor + 1;
    }

    // --- Statements -----------------------------------------------------------------------

    /** A statement will run, and its cursor can be neither registered nor closed. */
    ghost predicate Loses(world: World)
      reads this`phase, this`cursorFailure, this`rows, budget`held, budget`closed
    {
      Hopeless(world) && phase in {Entering, Active} && !cursorFailure && |rows| < maxCursors && Lends()
    }

    lemma LosesMeans(world: World)
      ensures Loses(world) <==>
        Hopeless(world) && phase in {Entering, Active} && !cursorFailure && |rows| < maxCursors && Lends()
      ensures Lends() ==> !budget.closed
    {
    }

    /** Runs a statement whose rows will be read: its cursor is held, with its lease, until it is closed. */
    method Execute(world: World) returns (r: Result<nat>)
      requires Valid()
      modifies this`nextCursor, this`rows, this`stuck, this`unseen, this`issued, this`cursorFailure
      modifies budget`held, budget`peaks, budget`open, budget`next
      ensures Valid() && cursorFailure == old(cursorFailure) && (r.Err? ==> rows == old(rows))
      ensures r.Ok? ==> r.value !in old(rows) && r.value !in old(stuck) && rows.Keys == old(rows.Keys) + {r.value}
      ensures old(Loses(world)) ==> r.Err? && old(nextCursor) !in old(stuck)
      ensures old(Loses(world)) ==>
        stuck.Keys == old(stuck.Keys) + {old(nextCursor)} && unseen == old(unseen) + {old(nextCursor)}
      ensures !old(Loses(world)) ==> stuck == old(stuck) && unseen == old(unseen)
      ensures OnlyOwn(old(budget.open), budget.open, old(budget.next), budget.next, old(Mine()), Mine())
    {
      hide *;
      OpenBelow();
      NothingTaken(budget.open, budget.next, budget.next, Mine());
      LosesMeans(world);
      HopelessMeans(world);
      var checked := Checkpoint(world.fault);
      if checked.Err? {
        return Err(checked.error);
      }
      if |rows| >= maxCursors {
        return Err(LimitExceeded);
      }
      r := RunStatement(world);
    }

    /** Everything after the checks of a statement. */
    method RunStatement(world: World) returns (r: Result<nat>)
      requires Valid() && phase in {Entering, Active} && !cursorFailure && |rows| < maxCursors && world.fault == None
      modifies this`nextCursor, this`rows, this`stuck, this`unseen, this`issued, this`cursorFailure
      modifies budget`held, budget`peaks, budget`open, budget`next
      ensures Valid() && cursorFailure == old(cursorFailure) && (r.Err? ==> rows == old(rows))
      ensures r.Ok? ==> r.value !in old(rows) && r.value !in old(stuck) && rows.Keys == old(rows.Keys) + {r.value}
      ensures old(Lends()) && Hopeless(world) ==> r.Err? && old(nextCursor) !in old(stuck)
      ensures var loses := old(Lends()) && Hopeless(world);
        if loses then stuck.Keys == old(stuck.Keys) + {old(nextCursor)} && unseen == old(unseen) + {old(nextCursor)}
        else stuck == old(stuck) && unseen == old(unseen)
      ensures OnlyOwn(old(budget.open), budget.open, old(budget.next), budget.next, old(Mine()), Mine())
    {
      hide *;
      ghost var open, next := budget.open, budget.next;
      OpenBelow();
      NothingTaken(open, next, next, Mine());
      HopelessMeans(world);
      var taken := TakeCursor(world.reserveFault);
      if taken.Err? {
        return Err(taken.error);
      }
      if world.statementOk && world.registerOk {
        var cursor := HoldCursor(taken.value, open, next);
        r := Ok(cursor);
      } else if !world.statementOk || world.closeOk {
        GiveCursor(taken.value, open, next);
        r := Err(Failed);
      } else {
        LoseCursor(taken.value, false, open, next);
        r := Err(Failed);
      }
    }

    /** Closes the cursor of some rows, once; the lease follows only an acknowledged close. */
    method CloseRows(cursor: nat, closeOk: bool) returns (r: Result<()>)
      requires Valid()
      modifies this`rows, this`stuck, this`cursorFailure, budget`held, budget`open
      ensures Valid()
      ensures rows == old(rows) - {cursor}
      ensures cursor !in old(rows) ==> r.Ok? && stuck == old(stuck) && budget.open == old(budget.open)
      ensures cursor in old(rows) && closeOk ==>
        r.Ok? && stuck == old(stuck) && budget.open == old(budget.open) - {old(rows)[cursor].id}
          && cursorFailure == old(cursorFailure)
      ensures cursor in old(rows) && !closeOk ==>
        r.Err? && stuck == old(stuck)[cursor := old(rows)[cursor]] && budget.open == old(budget.open) && cursorFailure
      ensures OnlyOwn(old(budget.open), budget.open, old(budget.next), budget.next, old(Mine()), Mine())
    {
      hide Owned, Balanced, WorkWithin, NothingHeld, OnlyOwn, Ids;
      NothingTaken(budget.open, budget.next, budget.next, Mine());
      if cursor !in rows {
        assert rows - {cursor} == rows;
        r := Ok(());
      } else {
        var lease := rows[cursor];
        assert cursor in rows + stuck;
        ClosedOwned(rows, stuck, issued, leases, budget.open, budget.next, cursor);
        RowsDistinct(cursor);
        CloseOwn(rows, stuck, leases, budget.open, budget.next, cursor);
        if closeOk {
          budget.OpenMeansRunning(lease);
          rows := rows - {cursor};
          r := budget.Release(lease);
        } else {
          StuckOwned(rows, stuck, issued, leases, budget.open, budget.next, cursor);
          rows, stuck, cursorFailure := rows - {cursor}, stuck[cursor := lease], true;
          r := Err(Failed);
        }
      }
    }

    /** One of the fixed statements of the setup: its cursor is closed at once. */
    method SetupStatement(world: World) returns (r: Result<()>)
      requires Valid() && phase == Entering
      modifies this`nextCursor, this`stuck, this`unseen, this`issued, this`cursorFailure
      modifies budget`held, budget`peaks, budget`open, budget`next
      ensures Valid() && unseen == old(unseen)
      ensures r.Ok? <==> old(Lends()) && Sound(world)
      ensures r.Ok? ==> budget.held == old(budget.held)
      ensures r.Ok? ==> stuck == old(stuck) && nextCursor == old(nextCursor) && cursorFailure == old(cursorFailure)
      ensures stuck != old(stuck) ==> r.Err? && cursorFailure && world.statementOk && !world.closeOk
      ensures OnlyOwn(old(budget.open), budget.open, old(budget.next), budget.next, old(Mine()), Mine())
    {
      hide Owned, Balanced, WorkWithin, NothingHeld, OnlyOwn, Ids, Local;
      ghost var open, next := budget.open, budget.next;
      budget.HeldIsKnown();
      NothingTaken(open, next, next, Mine());
      var taken := TakeCursor(world.reserveFault);
      if taken.Err? {
        return Err(taken.error);
      }
      if world.statementOk && !world.closeOk {
        LoseCursor(taken.value, true, open, next);
        r := Err(Failed);
      } else {
        ghost var held := budget.held;
        GiveCursor(taken.value, open, next);
        HeldAgain(old(budget.held), held, budget.held);
        r := if world.statementOk then Ok(()) else Err(Failed);
      }
    }

    /** Fetches one row behind a temporary reservation, which is always given back, and charges what it holds. */
    method Fetch(cursor: nat, envelope: nat, world: World) returns (r: Result<()>)
      requires Valid()
      modifies this`rowBytes, budget`held, budget`peaks, budget`open, budget`next
      ensures Valid() && budget.open == old(budget.open) && budget.next >= old(budget.next)
      ensures rowBytes == old(rowBytes) || (world.row.Some? && rowBytes == old(rowBytes) + RowCost(world.row.value))
      ensures r.Ok? && cursor in rows && world.row.Some? ==>
        rowBytes == old(rowBytes) + RowCost(world.row.value) <= maxRowBytes
    {
      hide Owned, Balanced, WorkWithin, NothingHeld;
      var checked := Checkpoint(world.fault);
      if checked.Err? || cursor !in rows {
        return checked;
      }
      ghost var open, next := budget.open, budget.next;
      var reserved := budget.Reserve(ImageBytes, envelope, world.reserveFault);
      if reserved.Err? {
        return Err(reserved.error);
      }
      ghost var before := budget.open;
      var released := budget.Release(reserved.value);
      assert before - {reserved.value.id} == open;
      LaterNext(rows, stuck, issued, leases, open, next, budget.next);
      if !world.statementOk {
        return Err(Failed);
      }
      if world.row.Some? {
        var cost := ComputeRowCost(world.row.value);
        rowBytes := rowBytes + cost;
        if rowBytes > maxRowBytes {
          return Err(LimitExceeded);
        }
      }
      return Ok(());
    }

    /** Fetches one row and ends the statement, whatever happens. */
    method FetchOne(cursor: nat, envelope: nat, world: World) returns (r: Result<()>)
      requires Valid()
      modifies this`rows, this`stuck, this`cursorFailure, this`rowBytes, budget`held, budget`peaks, budget`open,
        budget`next
      ensures Valid() && cursor !in rows
      ensures cursor in old(rows) ==>
        (cursor in stuck <==> !world.closeOk) && (old(rows)[cursor].id in budget.open <==> !world.closeOk)
      ensures OnlyOwn(old(budget.open), budget.open, old(budget.next), budget.next, old(Mine()), Mine())
    {
      hide Owned, Balanced, WorkWithin, NothingHeld, OnlyOwn, Ids;
      RowsDistinct(cursor);
      ghost var open, next, mine := budget.open, budget.next, Mine();
      budget.IdsBelow();
      var fetched := Fetch(cursor, envelope, world);
      NothingTaken(open, next, budget.next, mine);
      ghost var next' := budget.next;
      var closed := CloseRows(cursor, world.closeOk);
      OwnAgain(open, open, budget.open, next, next', budget.next, mine, mine, Mine());
      r := if fetched.Err? then fetched else closed;
    }

    lemma RowsDistinct(cursor: nat)
      requires Valid()
      ensures cursor in rows ==> cursor !in stuck && rows[cursor].id in budget.open
    {
      if cursor in rows {
        assert cursor in rows + stuck && (rows + stuck)[cursor] == rows[cursor];
        assert Held(rows[cursor], budget.open);
      }
    }

    /** Reserves the memory of the parsed images for the whole lifetime of the reader. */
    method ReserveImages(envelope: nat, fault: Option<Error>) returns (r: Result<()>)
      requires Valid() && phase != New && envelope > 0
      modifies this`leases, budget`held, budget`peaks, budget`open, budget`next
      ensures Valid() && |leases| == old(|leases|) + if r.Ok? then 1 else 0
      ensures r.Ok? <==>
        !budget.closed && fault == None && old(budget.held)[ImageBytes] + envelope <= budget.limits[ImageBytes]
      ensures budget.held == if r.Ok? then old(budget.held)[ImageBytes := old(budget.held)[ImageBytes] + envelope]
        else old(budget.held)
      ensures OnlyOwn(old(budget.open), budget.open, old(budget.next), budget.next, old(Mine()), Mine())
    {
      hide Owned, Balanced, WorkWithin, NothingHeld, OnlyOwn, Ids;
      ghost var open, next := budget.open, budget.next;
      NothingTaken(open, next, next, Mine());
      var reserved := budget.Reserve(ImageBytes, envelope, fault);
      if reserved.Err? {
        return Err(reserved.error);
      }
      AddLease(rows, stuck, issued, leases, open, next, reserved.value, budget.next);
      AddOwn(rows, stuck, leases, open, next, budget.next, reserved.value);
      leases := leases + [reserved.value];
      return Ok(());
    }

    method Register(fault: Option<Error>) returns (r: Result<()>)
      requires Valid() && !registered && phase != New
      modifies this`registered, budget`owners
      ensures Valid() && registered == r.Ok? && budget.owners == old(budget.owners) + if r.Ok? then {id} else {}
      ensures r.Ok? <==> !budget.closed && fault == None && id !in old(budget.owners)
    {
      hide Owned;
      r := budget.OwnerOpened(id, fault);
      registered := r.Ok?;
    }

    /** Moves on to a later phase. */
    method Advance(to: Phase)
      requires Valid() && phase != Ended && to != New
      modifies this`phase
      ensures Valid() && phase == to
    {
      hide Owned, Budget.Valid;
      phase := to;
    }

    // --- The end --------------------------------------------------------------------------

    lemma OpenBelow()
      requires Valid()
      ensures budget.Valid() && forall l :: l in budget.open ==> l < budget.next
    {
      hide Owned, Local;
      budget.IdsBelow();
    }

    /** Closes every cursor; tells whether one of them failed. */
    method CloseAllRows(closeOk: nat -> bool) returns (failed: bool)
      requires Valid()
      modifies this`rows, this`stuck, this`cursorFailure, budget`held, budget`open
      ensures Valid() && rows == map[]
      ensures failed <==> Failing(old(rows.Keys), closeOk) != {}
      ensures stuck.Keys == old(stuck.Keys) + Failing(old(rows.Keys), closeOk)
      ensures OnlyOwn(old(budget.open), budget.open, old(budget.next), budget.next, old(Mine()), Mine())
    {
      hide *;
      failed := false;
      OpenBelow();
      NothingTaken(budget.open, budget.next, budget.next, Mine());
      ghost var left, stuck0 := rows.Keys, stuck.Keys;
      NoneClosed(left, stuck0, closeOk);
      while rows != map[]
        invariant Valid() && HaveClosed(left, rows.Keys, stuck0, stuck.Keys, closeOk, failed)
        invariant OnlyOwn(old(budget.open), budget.open, old(budget.next), budget.next, old(Mine()), Mine())
        decreases rows.Keys
      {
        ghost var before, was, open, next, mine := rows.Keys, stuck.Keys, budget.open, budget.next, Mine();
        var c, closed := CloseSome(closeOk);
        OwnAgain(old(budget.open), open, budget.open, old(budget.next), next, budget.next, old(Mine()), mine, Mine());
        OneClosed(left, before, stuck0, was, closeOk, failed, c);
        failed := failed || !closed;
      }
      assert rows.Keys == {};
      AllClosed(left, stuck0, stuck.Keys, closeOk, failed);
    }

    method CloseSome(closeOk: nat -> bool) returns (c: nat, closed: bool)
      requires Valid() && rows != map[]
      modifies this`rows, this`stuck, this`cursorFailure, budget`held, budget`open
      ensures Valid() && c in old(rows) && rows.Keys == old(rows.Keys) - {c} && closed == closeOk(c)
      ensures stuck.Keys == old(stuck.Keys) + if closed then {} else {c}
      ensures OnlyOwn(old(budget.open), budget.open, old(budget.next), budget.next, old(Mine()), Mine())
    {
      hide *;
      c :| c in rows;
      var r := CloseRows(c, closeOk(c));
      closed := r.Ok?;
    }

    /** Gives back every lease of the reader and acknowledges it, once nothing failed. */
    method Refund()
      requires Valid() && rows == map[] && phase != New
      modifies this`leases, this`registered, budget`held, budget`open, budget`owners, budget`acknowledged
      ensures Valid() && leases == [] && !registered
      ensures budget.owners == if old(registered) then old(budget.owners) - {id} else old(budget.owners)
      ensures OnlyOwn(old(budget.open), budget.open, old(budget.next), budget.next, old(Mine()), Mine())
    {
      hide *;
      OpenBelow();
      NothingTaken(budget.open, budget.next, budget.next, Mine());
      while leases != []
        invariant Valid() && registered == old(registered) && budget.owners == old(budget.owners)
        invariant OnlyOwn(old(budget.open), budget.open, old(budget.next), budget.next, old(Mine()), Mine())
        decreases |leases|
      {
        ghost var open, mine := budget.open, Mine();
        RefundLast();
        OwnAgain(old(budget.open), open, budget.open, old(budget.next), budget.next, budget.next, old(Mine()), mine,
          Mine());
      }
      Acknowledge();
    }

    method RefundLast()
      requires Valid() && leases != [] && phase != New
      modifies this`leases, budget`held, budget`open
      ensures Valid() && leases == old(leases)[..|old(leases)| - 1]
      ensures OnlyOwn(old(budget.open), budget.open, old(budget.next), budget.next, old(Mine()), Mine())
    {
      hide Owned, Balanced, WorkWithin, NothingHeld, OnlyOwn, Ids;
      var last := leases[|leases| - 1];
      DropLease(rows, stuck, issued, leases, budget.open, budget.next);
      DropOwn(rows, stuck, leases, budget.open, budget.next);
      budget.OpenMeansRunning(last);
      var released := budget.Release(last);
      leases := leases[..|leases| - 1];
    }

    method Acknowledge()
      requires Valid()
      modifies this`registered, budget`owners, budget`acknowledged
      ensures Valid() && !registered
      ensures budget.owners == if old(registered) then old(budget.owners) - {id} else old(budget.owners)
    {
      hide Owned;
      if registered {
        budget.OwnerMeansRunning(id);
        var acknowledged := budget.OwnerClosed(id);
        registered := false;
      }
    }

    /** The end of a reader: leases are refunded and the owner acknowledged exactly when the database was closed
        and no setup cursor and no registered cursor ever failed to close. A cursor whose registration failed is not
        asked about: after a refund exactly these cursors are still unconfirmed, each with its lease. */
    method End(closeOk: nat -> bool, dbOk: bool) returns (failed: bool)
      requires Valid() && phase !in {New, Ended}
      modifies this, budget
      ensures Valid() && phase == Ended && rows == map[] && unseen == old(unseen)
      ensures failed <==> !(old(stuck.Keys) <= old(unseen)) || !dbOk || Failing(old(rows.Keys), closeOk) != {}
      ensures failed <==> old(cursorFailure) || !dbOk || Failing(old(rows.Keys), closeOk) != {}
      ensures stuck.Keys == old(stuck.Keys) + Failing(old(rows.Keys), closeOk)
      ensures !failed ==>
        stuck.Keys == unseen && leases == [] && !registered && (old(registered) ==> id !in budget.owners)
      ensures failed ==> leases == old(leases) && registered == old(registered)
      ensures budget.owners == if !failed && old(registered) then old(budget.owners) - {id} else old(budget.owners)
      ensures OnlyOwn(old(budget.open), budget.open, old(budget.next), budget.next, old(Mine()), Mine())
    {
      hide *;
      ghost var open0, next0, mine0 := budget.open, budget.next, Mine();
      OpenBelow();
      failed := EndRows(closeOk);
      failed := failed || !dbOk;
      if !failed {
        ghost var open1, next1, mine1 := budget.open, budget.next, Mine();
        Refund();
        OwnAgain(open0, open1, budget.open, next0, next1, budget.next, mine0, mine1, Mine());
      }
    }

    /** The cursors' part of the end: tells whether one of them failed to close, now or before. */
    method EndRows(closeOk: nat -> bool) returns (failed: bool)
      requires Valid() && phase !in {New, Ended}
      modifies this`phase, this`rows, this`stuck, this`cursorFailure, budget`held, budget`open
      ensures Valid() && phase == Ended && rows == map[]
      ensures failed <==> old(cursorFailure) || Failing(old(rows.Keys), closeOk) != {}
      ensures failed <==> !(old(stuck.Keys) <= unseen) || Failing(old(rows.Keys), closeOk) != {}
      ensures stuck.Keys == old(stuck.Keys) + Failing(old(rows.Keys), closeOk) && (!failed ==> stuck.Keys == unseen)
      ensures OnlyOwn(old(budget.open), budget.open, old(budget.next), budget.next, old(Mine()), Mine())
    {
      hide *;
      FailureNoted();
      Advance(Ended);
      failed := cursorFailure;
      var rowsFailed := CloseAllRows(closeOk);
      failed := failed || rowsFailed;
      Forget();
    }

    lemma FailureNoted()
      requires Valid() && phase != Ended
      ensures unseen <= stuck.Keys && (cursorFailure <==> !(stuck.Keys <= unseen))
    {
      hide Owned, Budget.Valid;
    }

    method Forget()
      requires Valid() && phase == Ended
      modifies this`cursorFailure
      ensures Valid()
    {
      hide Owned, Budget.Valid;
      cursorFailure := false;
    }

    // --- Entering -------------------------------------------------------------------------

    /** Enters the reader: everything is reserved before it is used, and whatever fails ends the reader. */
    method Enter(entry: Entry, rowEnvelope: nat, closeOk: nat -> bool, dbOk: bool) returns (r: Result<()>)
      requires Valid() && entry.envelope > 0
      modifies this, budget
      ensures Valid() && budget.owners - {id} == old(budget.owners) - {id}
      ensures OnlyOwn(old(budget.open), budget.open, old(budget.next), budget.next, old(Mine()), Mine())
      ensures old(phase) != New ==> r == Err(SessionInvalid) && phase == old(phase) && leases == old(leases)
      ensures old(phase) == New ==>
        if r.Ok? then phase == Active && registered && |leases| == 1 && !cursorFailure else phase == Ended
      ensures old(phase) == New && old(Doomed(entry)) && dbOk && (forall c :: closeOk(c)) ==>
        r.Err? && leases == [] && !registered && id !in budget.owners && stuck.Keys == unseen && stuck != map[]
    {
      hide *;
      ghost var open0, next0, mine0 := budget.open, budget.next, Mine();
      NothingTaken(open0, next0, next0, mine0);
      OpenBelow();
      if phase != New {
        return Err(SessionInvalid);
      }
      NewIsEmpty();
      Advance(Entering);
      r := Prepare(entry, rowEnvelope);
      if r.Ok? {
        Advance(Active);
      } else {
        ghost var open1, next1, mine1, rows1 := budget.open, budget.next, Mine(), rows.Keys;
        var failed := End(closeOk, dbOk);
        OwnAgain(open0, open1, budget.open, next0, next1, budget.next, mine0, mine1, Mine());
        if forall c :: closeOk(c) {
          FailingNone(rows1, closeOk);
        }
      }
    }

    lemma NewIsEmpty()
      requires Valid() && phase == New
      ensures !registered && leases == [] && rows == map[] && stuck == map[] && unseen == {} && !cursorFailure
    {
      hide Owned, Budget.Valid;
    }

    /** The world lets the reader get as far as its first query, whose cursor can be neither registered nor closed. */
    ghost predicate Doomed(entry: Entry)
      reads budget
      requires budget.Valid()
    {
      Admissible(entry) && LosesFirst(entry) && Lends() && maxCursors > 0
    }

    /** Nothing stands in the way of registering, reserving and charging. */
    ghost predicate Admissible(entry: Entry)
      reads budget
      requires budget.Valid()
    {
      && !budget.closed && id !in budget.owners
      && entry.registerFault == entry.startFault == entry.imagesFault == entry.chargeFault == entry.vmFault == None
      && budget.held[ImageBytes] + entry.envelope <= budget.limits[ImageBytes]
      && budget.used[RowBytes] + entry.rowBytes <= budget.workLimits[RowBytes]
      && budget.used[VmSteps] + entry.vmSteps <= budget.workLimits[VmSteps]
    }

    method Prepare(entry: Entry, rowEnvelope: nat) returns (r: Result<()>)
      requires Valid() && phase == Entering && !registered && leases == [] && entry.envelope > 0
      requires rows == map[] && stuck == map[] && unseen == {} && !cursorFailure
      modifies this, budget
      ensures Valid() && phase == Entering && budget.owners - {id} == old(budget.owners) - {id}
      ensures r.Ok? ==> registered && |leases| == 1 && !cursorFailure
      ensures old(Doomed(entry)) ==> r.Err? && registered && stuck.Keys == unseen && stuck != map[]
      ensures OnlyOwn(old(budget.open), budget.open, old(budget.next), budget.next, old(Mine()), Mine())
    {
      hide *;
      ghost var open0, next0, mine0 := budget.open, budget.next, Mine();
      OpenBelow();
      if Doomed(entry) {
        DoomedMeans(entry);
      }
      r := Admit(entry);
      if r.Ok? {
        ghost var open1, next1, mine1 := budget.open, budget.next, Mine();
        r := Validate(entry, rowEnvelope);
        OwnAgain(open0, open1, budget.open, next0, next1, budget.next, mine0, mine1, Mine());
      }
    }

    lemma DoomedMeans(entry: Entry)
      requires budget.Valid() && Doomed(entry)
      ensures Admissible(entry) && LosesFirst(entry) && Lends() && maxCursors > 0
    {
    }

    lemma LosesFirstMeans(entry: Entry)
      requires phase == Entering && !cursorFailure && rows == map[] && maxCursors > 0
      requires LosesFirst(entry) && Lends()
      ensures entry.sound && entry.queries != [] && Loses(entry.queries[0])
      ensures forall k :: 0 <= k < |entry.setup| ==> Sound(entry.setup[k])
    {
    }

    /** The setup and the validating queries. */
    method Validate(entry: Entry, rowEnvelope: nat) returns (r: Result<()>)
      requires Valid() && phase == Entering
      modifies this`nextCursor, this`rows, this`stuck, this`unseen, this`issued, this`cursorFailure, this`rowBytes
      modifies budget`held, budget`peaks, budget`open, budget`next
      ensures Valid() && (r.Ok? ==> !cursorFailure)
      ensures LosesFirst(entry) && old(Lends()) && !old(cursorFailure) && old(rows) == map[] && maxCursors > 0 ==>
        && r.Err? && stuck.Keys == old(stuck.Keys) + {old(nextCursor)} && unseen == old(unseen) + {old(nextCursor)}
      ensures OnlyOwn(old(budget.open), budget.open, old(budget.next), budget.next, old(Mine()), Mine())
    {
      hide *;
      ghost var open0, next0, mine0 := budget.open, budget.next, Mine();
      OpenBelow();
      NothingTaken(open0, next0, next0, mine0);
      if LosesFirst(entry) && Lends() && !cursorFailure && rows == map[] && maxCursors > 0 {
        LosesFirstMeans(entry);
      }
      if !entry.sound {
        return Err(Corrupt);
      }
      r := Statements(entry.setup);
      if r.Err? {
        return;
      }
      if LosesFirst(entry) && Lends() && !cursorFailure && rows == map[] && maxCursors > 0 {
        LosesFirstMeans(entry);
      }
      ghost var open1, next1, mine1 := budget.open, budget.next, Mine();
      r := Queries(entry.queries, rowEnvelope);
      OwnAgain(open0, open1, budget.open, next0, next1, budget.next, mine0, mine1, Mine());
      if r.Ok? {
        r := Checkpoint(entry.lastFault);
      }
    }

    /** Registers the reader, reserves the memory of its images and charges its allowance. */
    method Admit(entry: Entry) returns (r: Result<()>)
      requires Valid() && phase == Entering && !registered && leases == [] && entry.envelope > 0 && !cursorFailure
      modifies this`registered, this`leases
      modifies budget`owners, budget`used, budget`held, budget`peaks, budget`open, budget`next
      ensures Valid() && budget.owners - {id} == old(budget.owners) - {id}
      ensures r.Ok? <==> old(Admissible(entry))
      ensures r.Ok? ==> registered && |leases| == 1 && Lends() == old(Lends())
      ensures OnlyOwn(old(budget.open), budget.open, old(budget.next), budget.next, old(Mine()), Mine())
    {
      hide Owned, OnlyOwn, Ids, Local, Balanced, WorkWithin, NothingHeld, Valid;
      OpenBelow();
      NothingTaken(budget.open, budget.next, budget.next, Mine());
      r := Register(entry.registerFault);
      if r.Err? {
        return;
      }
      r := Checkpoint(entry.startFault);
      if r.Err? {
        return;
      }
      r := ReserveImages(entry.envelope, entry.imagesFault);
      if r.Err? {
        return;
      }
      r := Precharge(entry.rowBytes, entry.vmSteps, entry.chargeFault, entry.vmFault);
    }

    /** The allowance of rows and steps is charged before the work, and never refunded. */
    method Precharge(rowBytes: nat, vmSteps: nat, fault: Option<Error>, vmFault: Option<Error>) returns (r: Result<()>)
      requires Valid()
      modifies budget`used
      ensures Valid()
      ensures r.Ok? <==>
        && !budget.closed && fault == None && vmFault == None
        && old(budget.used)[RowBytes] + rowBytes <= budget.workLimits[RowBytes]
        && old(budget.used)[VmSteps] + vmSteps <= budget.workLimits[VmSteps]
      ensures RowBytes in old(budget.used) && VmSteps in old(budget.used)
      ensures var rowsCharged := old(budget.used)[RowBytes := old(budget.used)[RowBytes] + rowBytes];
        if r.Ok? then budget.used == rowsCharged[VmSteps := rowsCharged[VmSteps] + vmSteps]
        else budget.used == old(budget.used) || budget.used == rowsCharged
    {
      hide Owned, Balanced, NothingHeld;
      r := budget.Charge(RowBytes, rowBytes, fault);
      if r.Ok? {
        r := budget.Charge(VmSteps, vmSteps, vmFault);
      }
    }

    /** The statements of the setup; once one fails there are no more. */
    method Statements(worlds: seq<World>) returns (r: Result<()>)
      requires Valid() && phase == Entering
      modifies this`nextCursor, this`stuck, this`unseen, this`issued, this`cursorFailure
      modifies budget`held, budget`peaks, budget`open, budget`next
      ensures Valid() && unseen == old(unseen)
      ensures r.Ok? ==> Lends() == old(Lends())
      ensures r.Ok? ==> stuck == old(stuck) && nextCursor == old(nextCursor) && cursorFailure == old(cursorFailure)
      ensures r.Ok? <==> worlds == [] || (old(Lends()) && forall k :: 0 <= k < |worlds| ==> Sound(worlds[k]))
      ensures OnlyOwn(old(budget.open), budget.open, old(budget.next), budget.next, old(Mine()), Mine())
    {
      hide *;
      r := Ok(());
      OpenBelow();
      NothingTaken(budget.open, budget.next, budget.next, Mine());
      for k := 0 to |worlds|
        invariant Valid() && r.Ok? && unseen == old(unseen)
        invariant stuck == old(stuck) && nextCursor == old(nextCursor) && cursorFailure == old(cursorFailure)
        invariant Lends() == old(Lends()) && (k == 0 || Lends()) && forall j :: 0 <= j < k ==> Sound(worlds[j])
        invariant OnlyOwn(old(budget.open), budget.open, old(budget.next), budget.next, old(Mine()), Mine())
      {
        ghost var open, next, mine := budget.open, budget.next, Mine();
        r := SetupStatement(worlds[k]);
        OwnAgain(old(budget.open), open, budget.open, old(budget.next), next, budget.next, old(Mine()), mine, Mine());
        if r.Err? {
          return;
        }
      }
    }

    /** Queries one after another, each with its own cursor. */
    method Queries(worlds: seq<World>, rowEnvelope: nat) returns (r: Result<()>)
      requires Valid() && phase != New
      modifies this`nextCursor, this`rows, this`stuck, this`unseen, this`issued, this`cursorFailure, this`rowBytes
      modifies budget`held, budget`peaks, budget`open, budget`next
      ensures Valid()
      ensures worlds != [] && old(Loses(worlds[0])) ==>
        && r.Err? && cursorFailure == old(cursorFailure)
        && stuck.Keys == old(stuck.Keys) + {old(nextCursor)} && unseen == old(unseen) + {old(nextCursor)}
      ensures OnlyOwn(old(budget.open), budget.open, old(budget.next), budget.next, old(Mine()), Mine())
    {
      hide *;
      r := Ok(());
      OpenBelow();
      NothingTaken(budget.open, budget.next, budget.next, Mine());
      for k := 0 to |worlds|
        invariant Valid()
        invariant k == 0 ==> nextCursor == old(nextCursor) && stuck == old(stuck) && unseen == old(unseen)
        invariant k == 0 ==>
          cursorFailure == old(cursorFailure) && (worlds != [] ==> Loses(worlds[0]) == old(Loses(worlds[0])))
        invariant k == 0 || !old(Loses(worlds[0]))
        invariant OnlyOwn(old(budget.open), budget.open, old(budget.next), budget.next, old(Mine()), Mine())
      {
        ghost var open, next, mine := budget.open, budget.next, Mine();
        r := Query(worlds[k], rowEnvelope);
        OwnAgain(old(budget.open), open, budget.open, old(budget.next), next, budget.next, old(Mine()), mine, Mine());
        if r.Err? {
          return;
        }
      }
    }

    /** One query: executed, fetched and closed. */
    method Query(world: World, rowEnvelope: nat) returns (r: Result<()>)
      requires Valid() && phase != New
      modifies this`nextCursor, this`rows, this`stuck, this`unseen, this`issued, this`cursorFailure, this`rowBytes
      modifies budget`held, budget`peaks, budget`open, budget`next
      ensures Valid()
      ensures old(Loses(world)) ==>
        && r.Err? && cursorFailure == old(cursorFailure)
        && stuck.Keys == old(stuck.Keys) + {old(nextCursor)} && unseen == old(unseen) + {old(nextCursor)}
      ensures OnlyOwn(old(budget.open), budget.open, old(budget.next), budget.next, old(Mine()), Mine())
    {
      hide *;
      ghost var open0, next0, mine0 := budget.open, budget.next, Mine();
      OpenBelow();
      var executed := Execute(world);
      if executed.Err? {
        return Err(executed.error);
      }
      ghost var open1, next1, mine1 := budget.open, budget.next, Mine();
      r := FetchOne(executed.value, rowEnvelope, world);
      OwnAgain(open0, open1, budget.open, next0, next1, budget.next, mine0, mine1, Mine());
    }

    // --- Operations -----------------------------------------------------------------------

    /** One operation of an active reader; whatever fails ends the reader. */
    method Run(worlds: seq<World>, rowEnvelope: nat, entry: Entry, closeOk: nat -> bool, dbOk: bool)
      returns (r: Result<()>)
      requires Valid()
      modifies this, budget
      ensures Valid() && budget.owners - {id} == old(budget.owners) - {id}
      ensures old(phase) != Active ==> r == Err(SessionInvalid) && phase == old(phase)
      ensures old(phase) == Active ==> phase == (if r.Ok? then Active else Ended) && (r.Ok? ==> !cursorFailure)
      ensures OnlyOwn(old(budget.open), budget.open, old(budget.next), budget.next, old(Mine()), Mine())
    {
      hide *;
      ghost var open0, next0, mine0 := budget.open, budget.next, Mine();
      OpenBelow();
      NothingTaken(open0, next0, next0, mine0);
      if phase != Active {
        return Err(SessionInvalid);
      }
      r := Operate(worlds, rowEnvelope, entry);
      if r.Err? {
        ghost var open1, next1, mine1 := budget.open, budget.next, Mine();
        var failed := End(closeOk, dbOk);
        OwnAgain(open0, open1, budget.open, next0, next1, budget.next, mine0, mine1, Mine());
      }
    }

    method Operate(worlds: seq<World>, rowEnvelope: nat, entry: Entry) returns (r: Result<()>)
      requires Valid() && phase == Active
      modifies this`nextCursor, this`rows, this`stuck, this`unseen, this`issued, this`cursorFailure, this`rowBytes
      modifies budget`used, budget`held, budget`peaks, budget`open, budget`next
      ensures Valid() && (r.Ok? ==> !cursorFailure)
      ensures OnlyOwn(old(budget.open), budget.open, old(budget.next), budget.next, old(Mine()), Mine())
    {
      hide *;
      OpenBelow();
      NothingTaken(budget.open, budget.next, budget.next, Mine());
      r := Allow(entry);
      if r.Ok? {
        r := Queries(worlds, rowEnvelope);
      }
      if r.Ok? {
        r := Checkpoint(entry.lastFault);
      }
    }

    /** Each operation has its own allowance. */
    method Allow(entry: Entry) returns (r: Result<()>)
      requires Valid()
      modifies this`rowBytes, budget`used
      ensures Valid()
    {
      hide *;
      r := Checkpoint(entry.startFault);
      if r.Ok? {
        rowBytes := 0;
        r := Precharge(entry.rowBytes, entry.vmSteps, entry.chargeFault, entry.vmFault);
      }
    }

    /** A budget that could be closed has nothing of this reader left: no native cursor, confirmed or not, no
        lease, and no unacknowledged owner. */
    lemma ClosedBudgetIsClean()
      requires Valid() && budget.closed
      ensures rows == map[] && stuck == map[] && leases == [] && !registered
    {
      budget.ClosedHoldsNothing();
      ClosedBudgetLeavesNothing(rows + stuck, leases, budget.open);
      assert forall c :: c !in rows + stuck;
      assert (forall c :: c !in rows) && (forall c :: c !in stuck);
    }
  }

  lemma LaterNext(rows: map<nat, Lease>, stuck: map<nat, Lease>, issued: set<nat>, leases: seq<Lease>, open: Leases,
                  next: nat, next': nat)
    requires Owned(rows, stuck, issued, leases, open, next) && next <= next'
    ensures Owned(rows, stuck, issued, leases, open, next')
  {
  }
  /** A reader can be refunded and acknowledged over a cursor that was never seen closed: its first query opens a
      cursor, registering the rows fails and so does closing the cursor, which is passed over in silence. */
  method RegistrationLeftOpen() returns (budget: Budget, graph: Graph)
    ensures graph.Valid() && graph.budget == budget && graph.phase == Ended
    ensures graph.leases == [] && !graph.registered && budget.owners == {} && graph.stuck != map[]
    ensures graph.stuck.Keys == graph.unseen
  {
    hide *;
    var work := map[CopiedBytes := 0, SourceEntries := 0, InventoryItems := 0, RowBytes := 4, VmSteps := 9];
    var limits := map[ImageBytes := 7, Descriptors := 0, Cursors := 1];
    AllNamed(work, limits);
    budget := new Budget(work, limits);
    graph := new Graph(budget, 0, 1, 0);
    var sound := World(None, None, true, true, true, None);
    var entry := Entry(None, None, None, None, None, None, 7, 4, 9, [sound, sound, sound, sound],
                       [sound.(registerOk := false, closeOk := false)], true);
    DoomedHere(graph, entry, sound);
    var entered := graph.Enter(entry, 0, c => true, true);
    assert budget.owners == budget.owners - {graph.id} == {};
  }

  lemma AllNamed(work: map<Work, nat>, limits: map<Kind, nat>)
    requires {CopiedBytes, SourceEntries, InventoryItems, RowBytes, VmSteps} <= work.Keys
    requires {ImageBytes, Descriptors, Cursors} <= limits.Keys
    ensures (forall w: Work :: w in work) && forall k: Kind :: k in limits
  {
    forall w: Work ensures w in work {
      match w case CopiedBytes => case SourceEntries => case InventoryItems => case RowBytes => case VmSteps =>
    }
    forall k: Kind ensures k in limits {
      match k case ImageBytes => case Descriptors => case Cursors =>
    }
  }

  lemma DoomedHere(graph: Graph, entry: Entry, sound: World)
    requires graph.budget.Valid() && !graph.budget.closed && graph.id !in graph.budget.owners && graph.maxCursors == 1
    requires forall k: Kind :: k in graph.budget.held && graph.budget.held[k] == 0
    requires forall w: Work :: w in graph.budget.used && graph.budget.used[w] == 0
    requires ImageBytes in graph.budget.limits && Cursors in graph.budget.limits
    requires RowBytes in graph.budget.workLimits && VmSteps in graph.budget.workLimits
    requires entry.envelope <= graph.budget.limits[ImageBytes] && 1 <= graph.budget.limits[Cursors]
    requires entry.rowBytes <= graph.budget.workLimits[RowBytes] && entry.vmSteps <= graph.budget.workLimits[VmSteps]
    requires entry.registerFault == entry.startFault == entry.imagesFault == entry.chargeFault == entry.vmFault == None
    requires entry.sound && sound == World(None, None, true, true, true, None)
    requires (forall k :: 0 <= k < |entry.setup| ==> entry.setup[k] == sound)
    requires entry.queries == [sound.(registerOk := false, closeOk := false)]
    ensures graph.Doomed(entry)
  {
  }
}
