/** A snapshot session: it opens directories and copies files of a published generation, and hands the verified
    bytes to a graph reader on the same budget. It refunds its leases only when it has seen every directory
    descriptor closed, and the budget can be closed only when both owners are clean. */
module SnapshotSession {
  import opened Wrappers
  import opened ReadBudget
  import opened GraphReader

  // --- Leases and descriptors -----------------------------------------------------------

  /** The session's leases are open, distinct, and none of the graph reader's. */
  ghost predicate Reserves(leases: seq<Lease>, open: Leases) {
    && (forall i :: 0 <= i < |leases| ==> Held(leases[i], open) && leases[i].amount > 0)
    && (forall i, j :: 0 <= i < j < |leases| ==> leases[i].id != leases[j].id)
  }

  ghost predicate Apart(leases: seq<Lease>, others: set<nat>) {
    forall i :: 0 <= i < |leases| ==> leases[i].id !in others
  }

  /** How many descriptors the leases allow. */
  function Allowed(leases: seq<Lease>): nat {
    if leases == [] then 0
    else Allowed(leases[..|leases| - 1]) + if leases[|leases| - 1].kind == Descriptors then leases[|leases| - 1].amount
      else 0
  }

  /** The descriptors that are open in the process on the session's behalf: those of its directory capabilities,
      and `hidden` ones that could not be closed again before any capability was handed over. Numbers from
      `next` on are unused. */
  datatype Handles = Handles(native: set<nat>, caps: set<nat>, hidden: set<nat>, next: nat)

  /** Until the session has ended the leases cover all descriptors; after that either they still do, or they
      have been refunded and only hidden descriptors can be left. */
  ghost predicate Covered(h: Handles, leases: seq<Lease>, ended: bool) {
    && h.caps <= h.native && h.hidden <= h.native && h.caps !! h.hidden
    && (forall fd :: fd in h.native ==> fd < h.next)
    && (!ended ==> h.native == h.caps + h.hidden && |h.native| <= Allowed(leases))
    && (ended ==> h.caps == {} && (|h.native| <= Allowed(leases) || (leases == [] && h.native == h.hidden)))
  }

  function Numbers(next: nat, count: nat): set<nat> {
    if count == 0 then {} else Numbers(next, count - 1) + {next + count - 1}
  }

  lemma {:induction false} NumbersAre(next: nat, count: nat)
    ensures |Numbers(next, count)| == count && forall fd :: fd in Numbers(next, count) ==> next <= fd < next + count
  {
    if count > 0 {
      NumbersAre(next, count - 1);
    }
  }

  /** A capability over `count` new descriptors is handed over. */
  function HandedOver(h: Handles, count: nat): Handles {
    h.(native := h.native + Numbers(h.next, count), caps := h.caps + Numbers(h.next, count), next := h.next + count)
  }

  /** `count` new descriptors are left behind. */
  function LeftBehind(h: Handles, count: nat): Handles {
    h.(native := h.native + Numbers(h.next, count), hidden := h.hidden + Numbers(h.next, count), next := h.next + count)
  }

  lemma HandlesGrow(h: Handles, leases: seq<Lease>, count: nat)
    requires Covered(h, leases, false) && |h.native| + count <= Allowed(leases)
    ensures Covered(HandedOver(h, count), leases, false) && Covered(LeftBehind(h, count), leases, false)
    ensures |HandedOver(h, count).native| == |LeftBehind(h, count).native| == |h.native| + count
    ensures |HandedOver(h, count).caps| == |h.caps| + count && |LeftBehind(h, count).hidden| == |h.hidden| + count
    ensures HandedOver(h, count).hidden == h.hidden && LeftBehind(h, count).caps == h.caps
    ensures count == 0 ==> LeftBehind(h, count).hidden == h.hidden
  {
    hide Numbers, Allowed;
    var fds := Numbers(h.next, count);
    NumbersAre(h.next, count);
    assert fds !! h.native && fds !! h.caps && fds !! h.hidden && (count == 0 ==> fds == {});
  }

  /** All capabilities are given up; the descriptors in `kept` could not be closed. */
  function GivenUp(h: Handles, kept: set<nat>): Handles {
    h.(native := h.native - (h.caps - kept), caps := {})
  }

  lemma HandlesGivenUp(h: Handles, leases: seq<Lease>, kept: set<nat>)
    requires Covered(h, leases, false) && kept <= h.caps
    ensures Covered(GivenUp(h, kept), leases, true)
    ensures GivenUp(h, kept).hidden == h.hidden && GivenUp(h, kept).native * h.caps == kept
    ensures kept == {} ==> GivenUp(h, kept).native == h.hidden && Covered(GivenUp(h, kept), [], true)
  {
    var left := h.native - (h.caps - kept);
    assert left + (h.caps - kept) == h.native && |h.native| == |left| + |h.caps - kept|;
    hide Allowed;
  }

  lemma CoveredMore(h: Handles, leases: seq<Lease>, leases': seq<Lease>)
    requires Covered(h, leases, false) && Allowed(leases) <= Allowed(leases')
    ensures Covered(h, leases', false)
  {
  }

  lemma TakeReserves(leases: seq<Lease>, open: Leases, lease: Lease, others: set<nat>)
    requires Reserves(leases, open) && Apart(leases, others)
    requires lease.id !in open && lease.amount > 0 && lease.id !in others
    ensures Reserves(leases + [lease], open[lease.id := lease]) && Apart(leases + [lease], others)
    ensures Allowed(leases + [lease]) == Allowed(leases) + if lease.kind == Descriptors then lease.amount else 0
  {
    var leases', open' := leases + [lease], open[lease.id := lease];
    forall i | 0 <= i < |leases'| ensures Held(leases'[i], open') && (i < |leases| ==> leases'[i].id != lease.id) {
      assert i < |leases| ==> Held(leases[i], open);
    }
    assert leases'[..|leases|] == leases;
  }

  lemma DropReserves(leases: seq<Lease>, open: Leases, others: set<nat>)
    requires Reserves(leases, open) && Apart(leases, others) && leases != []
    ensures var last := leases[|leases| - 1];
      && Held(last, open) && last.amount > 0 && last.id !in others
      && Reserves(leases[..|leases| - 1], open - {last.id}) && Apart(leases[..|leases| - 1], others)
  {
    var last, open' := leases[|leases| - 1], open - {leases[|leases| - 1].id};
    assert Held(last, open);
    forall i | 0 <= i < |leases| - 1 ensures Held(leases[i], open') {
      assert Held(leases[i], open);
    }
  }

  /** What the graph reader does to the budget leaves the session's leases alone. */
  lemma OthersKeepReserves(leases: seq<Lease>, open: Leases, open': Leases, next: nat, next': nat, mine: set<nat>,
                           mine': set<nat>)
    requires Reserves(leases, open) && Apart(leases, mine) && OnlyOwn(open, open', next, next', mine, mine')
    requires forall l :: l in open ==> l < next
    ensures Reserves(leases, open') && Apart(leases, mine')
  {
    forall i | 0 <= i < |leases| ensures Held(leases[i], open') && leases[i].id !in mine' {
      assert Held(leases[i], open);
    }
  }

  /** New leases are open, and everything that was open still is. */
  ghost predicate OnlyMore(open: Leases, open': Leases, next: nat, leases: seq<Lease>, leases': seq<Lease>) {
    && (forall l :: l in open ==> l in open' && open'[l] == open[l])
    && (forall i :: 0 <= i < |leases'| ==> leases'[i].id >= next || leases'[i] in leases)
  }

  lemma MoreByOne(open: Leases, next: nat, leases: seq<Lease>, lease: Lease)
    requires next <= lease.id && lease.id !in open
    ensures OnlyMore(open, open[lease.id := lease], next, leases, leases + [lease])
  {
  }

  lemma NoneMore(open: Leases, next: nat, leases: seq<Lease>)
    ensures OnlyMore(open, open, next, leases, leases)
  {
  }

  /** A lease held besides is given back. */
  lemma ScratchDropped(leases: seq<Lease>, open: Leases, mine: set<nat>, l: nat)
    requires Reserves(leases, open) && Apart(leases, {l})
    ensures Reserves(leases, open - {l})
  {
    forall i | 0 <= i < |leases| ensures Held(leases[i], open - {l}) {
      assert Held(leases[i], open);
    }
  }

  lemma ScratchTaken(leases: seq<Lease>, open: Leases, lease: Lease)
    requires Reserves(leases, open) && lease.id !in open
    ensures Reserves(leases, open[lease.id := lease]) && Apart(leases, {lease.id})
  {
    forall i | 0 <= i < |leases| ensures Held(leases[i], open[lease.id := lease]) && leases[i].id != lease.id {
      assert Held(leases[i], open);
    }
  }

  lemma ScratchKept(scratch: Lease, open: Leases, open': Leases, next: nat, leases: seq<Lease>, leases': seq<Lease>)
    requires OnlyMore(open, open', next, leases, leases') && Held(scratch, open) && scratch.id < next
    requires Apart(leases, {scratch.id})
    ensures Held(scratch, open') && Apart(leases', {scratch.id})
  {
    forall i | 0 <= i < |leases'| ensures leases'[i].id != scratch.id {
      if leases'[i] in leases {
        var j :| 0 <= j < |leases| && leases[j] == leases'[i];
        assert leases[j].id !in {scratch.id};
      }
    }
  }

  lemma SomeReserve(leases: seq<Lease>, open: Leases)
    requires Reserves(leases, open)
    ensures leases == [] || exists id :: id in open && open[id].amount > 0
  {
    if leases != [] {
      assert Held(leases[0], open);
    }
  }

  // --- What is left to others -----------------------------------------------------------

  ghost function LeaseIds(leases: seq<Lease>): set<nat> {
    set i | 0 <= i < |leases| :: leases[i].id
  }

  /** The open leases that are not one's own. */
  ghost function Others(open: Leases, own: set<nat>): Leases {
    map l | l in open && l !in own :: open[l]
  }

  /** One's own leases are old ones or new ones. */
  ghost predicate Later(own: set<nat>, own': set<nat>, next: nat, next': nat) {
    next <= next' && forall l :: l in own' ==> l in own || l >= next
  }

  lemma TakeRest(leases: seq<Lease>, mine: set<nat>, open: Leases, lease: Lease, next: nat, next': nat)
    requires lease.id !in open && next <= lease.id < next'
    ensures Others(open[lease.id := lease], LeaseIds(leases + [lease]) + mine) == Others(open, LeaseIds(leases) + mine)
    ensures Later(LeaseIds(leases) + mine, LeaseIds(leases + [lease]) + mine, next, next')
  {
    OneMore(leases, lease);
    hide LeaseIds;
    assert Others(open[lease.id := lease], LeaseIds(leases + [lease]) + mine) == Others(open, LeaseIds(leases) + mine);
  }

  lemma OneMore(leases: seq<Lease>, lease: Lease)
    ensures LeaseIds(leases + [lease]) == LeaseIds(leases) + {lease.id}
  {
    var more := leases + [lease];
    assert more[|leases|] == lease && forall i :: 0 <= i < |leases| ==> more[i] == leases[i];
  }

  lemma DropRest(leases: seq<Lease>, mine: set<nat>, open: Leases, next: nat)
    requires leases != []
    ensures var (rest, last) := (leases[..|leases| - 1], leases[|leases| - 1]);
      && Others(open - {last.id}, LeaseIds(rest) + mine) == Others(open, LeaseIds(leases) + mine)
      && Later(LeaseIds(leases) + mine, LeaseIds(rest) + mine, next, next)
  {
    var (rest, last) := (leases[..|leases| - 1], leases[|leases| - 1]);
    assert rest + [last] == leases;
    OneMore(rest, last);
    hide LeaseIds;
    assert Others(open - {last.id}, LeaseIds(rest) + mine) == Others(open, LeaseIds(leases) + mine);
  }

  lemma GraphRest(ids: set<nat>, open: Leases, open': Leases, next: nat, next': nat, mine: set<nat>, mine': set<nat>)
    requires OnlyOwn(open, open', next, next', mine, mine') && forall l :: l in open ==> l < next
    ensures Others(open', ids + mine') == Others(open, ids + mine) && Later(ids + mine, ids + mine', next, next')
  {
    assert Others(open', ids + mine') == Others(open, ids + mine);
  }

  lemma ScratchRest(open: Leases, own: set<nat>, lease: Lease)
    requires lease.id !in own
    ensures Others(open[lease.id := lease], own) == Others(open, own)[lease.id := lease]
    ensures Others(open - {lease.id}, own) == Others(open, own) - {lease.id}
    ensures lease.id !in open ==> lease.id !in Others(open, own)
  {
    assert Others(open[lease.id := lease], own) == Others(open, own)[lease.id := lease];
    assert Others(open - {lease.id}, own) == Others(open, own) - {lease.id};
  }

  // --- The outside world ----------------------------------------------------------------

  /** Opening a directory hands over its capability, or fails; a failed open may leave descriptors whose close
      failed too. */
  datatype Opening = Handed | Refused(left: nat)

  /** Copying one file: whether it could be opened at all, its size, the faults at its charge and reservation,
      whether it is read as expected, and whether its own descriptor could be closed again. */
  datatype Leaf = Leaf(found: bool, size: nat, chargeFault: Option<Error>, reserveFault: Option<Error>, readOk: bool,
    closeOk: bool)

  /** What happens while a session ends: the graph reader's checkpoint, cursors and database; which descriptors
      can be closed; whether the last verification passes; and which numbers were already used again. */
  datatype Leave = Leave(fault: Option<Error>, cursorClose: nat -> bool, dbOk: bool, closes: nat -> bool,
    verified: bool, reused: nat -> bool)

  /** One directory found by the inventory: the fault at its reservation, and its open. */
  datatype Folder = Folder(fault: Option<Error>, opening: Opening)

  /** A later look at the inventory: its size and faults, whether it is the same, and the checkpoint after it. */
  datatype Check = Check(slots: nat, slotsFault: Option<Error>, roomFault: Option<Error>, same: bool,
    fault: Option<Error>)

  /** What happens while a session is entered, in order. */
  datatype Setup = Setup(registerFault: Option<Error>, baseFault: Option<Error>, startFault: Option<Error>,
                         root: Opening, generations: Opening, selected: Opening, manifest: Leaf,
                         parseFault: Option<Error>, entries: nat, entriesFault: Option<Error>, sound: bool,
                         slots: nat, slotsFault: Option<Error>, roomFault: Option<Error>,
                         folders: seq<Folder>, listed: bool, files: seq<Leaf>,
                         graph: Entry, rowEnvelope: nat, again: Check)
  {
    predicate WellFormed(base: nat) {
      && (root.Refused? ==> root.left <= base - 2) && graph.envelope > 0
      && One(generations) && One(selected) && forall k :: 0 <= k < |folders| ==> One(folders[k].opening)
    }

    /** Nothing that failed to open, and no file, kept a descriptor that it could not close. */
    predicate ClosesBehind() {
      && Nothing(root) && Nothing(generations) && Nothing(selected) && Closes(manifest)
      && (forall k :: 0 <= k < |folders| ==> Nothing(folders[k].opening))
      && (forall k :: 0 <= k < |files| ==> Closes(files[k]))
    }
  }

  predicate One(opening: Opening) {
    opening.Refused? ==> opening.left <= 1
  }

  predicate Closes(leaf: Leaf) {
    leaf.found ==> leaf.closeOk
  }

  predicate Nothing(opening: Opening) {
    opening.Refused? ==> opening.left == 0
  }

  // --- How far a setup leads ------------------------------------------------------------

  /** What the budget still allows. */
  datatype Room = Room(copied: int, entries: int, inventory: int, images: int, descriptors: int)

  /** A step either goes on with less room, or is the last one and leaves descriptors behind. */
  datatype Progress = Go(room: Room) | Stop(left: nat)

  function AfterReserve(room: Room, kind: Kind, amount: nat, fault: Option<Error>): Progress {
    if fault.Some? then Stop(0)
    else
      match kind
      case ImageBytes => if amount > room.images then Stop(0) else Go(room.(images := room.images - amount))
      case Descriptors => if amount > room.descriptors then Stop(0)
        else Go(room.(descriptors := room.descriptors - amount))
      case Cursors => Stop(0)
  }

  function AfterCharge(room: Room, work: Work, amount: nat, fault: Option<Error>): Progress {
    if fault.Some? then Stop(0)
    else
      match work
      case CopiedBytes => if amount > room.copied then Stop(0) else Go(room.(copied := room.copied - amount))
      case SourceEntries => if amount > room.entries then Stop(0) else Go(room.(entries := room.entries - amount))
      case InventoryItems => if amount > room.inventory then Stop(0)
        else Go(room.(inventory := room.inventory - amount))
      case _ => Stop(0)
  }

  function AfterOpening(room: Room, opening: Opening): Progress {
    match opening
    case Handed => Go(room)
    case Refused(left) => Stop(left)
  }

  function AfterLeaf(room: Room, leaf: Leaf): Progress {
    if !Closes(leaf) then Stop(1)
    else if !leaf.found then Stop(0)
    else
      match AfterCharge(room, CopiedBytes, leaf.size + 1, leaf.chargeFault)
      case Stop(left) => Stop(left)
      case Go(next) =>
        match AfterReserve(next, ImageBytes, leaf.size + 1, leaf.reserveFault)
        case Stop(left) => Stop(left)
        case Go(next) => if leaf.readOk then Go(next) else Stop(0)
  }

  function AfterLeaves(room: Room, files: seq<Leaf>): Progress
    decreases |files|
  {
    if files == [] then Go(room)
    else
      match AfterLeaf(room, files[0])
      case Stop(left) => Stop(left)
      case Go(next) => AfterLeaves(next, files[1..])
  }

  function AfterFolders(room: Room, folders: seq<Folder>): Progress
    decreases |folders|
  {
    if folders == [] then Go(room)
    else
      match AfterReserve(room, Descriptors, 1, folders[0].fault)
      case Stop(left) => Stop(left)
      case Go(next) =>
        match AfterOpening(next, folders[0].opening)
        case Stop(left) => Stop(left)
        case Go(next) => AfterFolders(next, folders[1..])
  }

  function Scratch(slots: nat): nat {
    (slots + 1) * 1280
  }

  function AfterInventory(room: Room, slots: nat, fault: Option<Error>, roomFault: Option<Error>,
                          folders: seq<Folder>, listed: bool): Progress {
    match AfterCharge(room, InventoryItems, slots + 1, fault)
    case Stop(left) => Stop(left)
    case Go(next) =>
      match AfterReserve(next, ImageBytes, Scratch(slots), roomFault)
      case Stop(left) => Stop(left)
      case Go(next) =>
        match AfterFolders(next, folders)
        case Stop(left) => Stop(left)
        case Go(next) => if listed then Go(next.(images := next.images + Scratch(slots))) else Stop(0)
  }

  function AfterBegin(room: Room, setup: Setup, base: nat, usable: bool): Progress {
    if !usable || setup.registerFault.Some? then Stop(0)
    else
      match AfterReserve(room, Descriptors, base + 5, setup.baseFault)
      case Stop(left) => Stop(left)
      case Go(next) => if setup.startFault.Some? then Stop(0) else Go(next)
  }

  function AfterOpenings(room: Room, root: Opening, generations: Opening, selected: Opening): Progress {
    match AfterOpening(room, root)
    case Stop(left) => Stop(left)
    case Go(next) =>
      match AfterOpening(next, generations)
      case Stop(left) => Stop(left)
      case Go(next) => AfterOpening(next, selected)
  }

  function AfterManifest(room: Room, setup: Setup): Progress {
    match AfterLeaf(room, setup.manifest)
    case Stop(left) => Stop(left)
    case Go(next) =>
      match AfterReserve(next, ImageBytes, 256 * setup.manifest.size + 131072, setup.parseFault)
      case Stop(left) => Stop(left)
      case Go(next) =>
        if setup.sound then AfterCharge(next, SourceEntries, setup.entries, setup.entriesFault) else Stop(0)
  }

  function AfterVerify(room: Room, setup: Setup): Progress {
    match AfterManifest(room, setup)
    case Stop(left) => Stop(left)
    case Go(next) =>
      match AfterInventory(next, setup.slots, setup.slotsFault, setup.roomFault, setup.folders, setup.listed)
      case Stop(left) => Stop(left)
      case Go(next) => AfterLeaves(next, setup.files)
  }

  /** Where the opening of files and directories ends: after all of it, or at the first refusal, with the
      descriptors that this one leaves behind. */
  function AfterAll(room: Room, setup: Setup, base: nat, usable: bool): Progress {
    match AfterBegin(room, setup, base, usable)
    case Stop(left) => Stop(left)
    case Go(next) =>
      match AfterOpenings(next, setup.root, setup.generations, setup.selected)
      case Stop(left) => Stop(left)
      case Go(next) => AfterVerify(next, setup)
  }

  /** A method goes on exactly when its specification does, with that room, and has left behind what it says. */
  ghost predicate Follows(r: Result<()>, p: Progress, room: Room, left: int) {
    left == LeftOver(p) && match p case Go(next) => r.Ok? && next == room case Stop(_) => r.Err?
  }

  function LeftOver(p: Progress): nat {
    if p.Stop? then p.left else 0
  }

  lemma FolderStep(room: Room, folders: seq<Folder>, k: nat)
    requires k < |folders|
    ensures AfterFolders(room, folders[k..]) ==
      match AfterReserve(room, Descriptors, 1, folders[k].fault)
      case Stop(left) => Stop(left)
      case Go(next) =>
        match AfterOpening(next, folders[k].opening)
        case Stop(left) => Stop(left)
        case Go(next) => AfterFolders(next, folders[k + 1..])
  {
    hide AfterReserve;
    assert folders[k..][0] == folders[k] && folders[k..][1..] == folders[k + 1..];
  }

  lemma LeafStep(room: Room, files: seq<Leaf>, k: nat)
    requires k < |files|
    ensures AfterLeaves(room, files[k..]) ==
      match AfterLeaf(room, files[k])
      case Stop(left) => Stop(left)
      case Go(next) => AfterLeaves(next, files[k + 1..])
  {
    hide AfterLeaf;
    assert files[k..][0] == files[k] && files[k..][1..] == files[k + 1..];
  }

  lemma NoneLeft(room: Room, folders: seq<Folder>, files: seq<Leaf>)
    ensures AfterFolders(room, folders[|folders|..]) == Go(room) == AfterLeaves(room, files[|files|..])
  {
  }

  lemma {:induction false} FoldersCloseBehind(room: Room, folders: seq<Folder>)
    requires forall k :: 0 <= k < |folders| ==> Nothing(folders[k].opening)
    ensures LeftOver(AfterFolders(room, folders)) == 0
    decreases |folders|
  {
    if folders != [] {
      match AfterReserve(room, Descriptors, 1, folders[0].fault)
      case Stop(_) =>
      case Go(next) =>
        assert Nothing(folders[0].opening);
        FoldersCloseBehind(next, folders[1..]);
    }
  }

  lemma {:induction false} LeavesCloseBehind(room: Room, files: seq<Leaf>)
    requires forall k :: 0 <= k < |files| ==> Closes(files[k])
    ensures LeftOver(AfterLeaves(room, files)) == 0
    decreases |files|
  {
    if files != [] && AfterLeaf(room, files[0]).Go? {
      LeavesCloseBehind(AfterLeaf(room, files[0]).room, files[1..]);
    }
  }

  /** Nothing is left over when everything closes behind itself. */
  lemma NothingLeftOver(room: Room, setup: Setup, base: nat, usable: bool)
    requires setup.ClosesBehind()
    ensures LeftOver(AfterAll(room, setup, base, usable)) == 0
  {
    forall room: Room
      ensures LeftOver(AfterFolders(room, setup.folders)) == 0 && LeftOver(AfterLeaves(room, setup.files)) == 0 {
      FoldersCloseBehind(room, setup.folders);
      LeavesCloseBehind(room, setup.files);
    }
    hide AfterFolders, AfterLeaves;
  }

  /** Some directory descriptor was not seen closed, or none was ever seen. */
  ghost predicate UncertainClose(caps: set<nat>, openStarted: bool, exception: bool, w: Leave) {
    || (exists c :: c in caps && (!w.closes(c) || w.reused(c)))
    || (openStarted && (caps == {} || (!exception && !w.verified)))
  }

  // --- The session ----------------------------------------------------------------------

  class Session {
    const budget: Budget
    const graph: Graph
    const id: nat
    const base: nat
    var phase: Phase
    var leases: seq<Lease>
    var registered: bool
    var openStarted: bool
    var handles: Handles

    /** Both owners of the budget, side by side. */
    ghost predicate Shared()
      reads this, graph, budget
    {
      && graph.budget == budget && graph.id != id && graph.Valid()
      && Reserves(leases, budget.open) && Apart(leases, graph.Mine())
      && (registered ==> id in budget.owners)
    }

    ghost predicate Valid()
      reads this, graph, budget
    {
      && Shared() && Covered(handles, leases, phase == Ended) && graph.phase != Entering
      && (phase == New ==> !registered && leases == [] && handles.native == {} && !openStarted && graph.phase == New)
      && (handles.native != {} ==> openStarted)
      && (phase == Active ==> registered && openStarted && |handles.native| + 5 <= Allowed(leases))
    }

    /** The leases of the session and of its graph reader. */
    ghost function Own(): set<nat>
      reads this`leases, graph`rows, graph`stuck, graph`leases
    {
      LeaseIds(leases) + graph.Mine()
    }

    /** All other open leases of the budget. */
    ghost function Rest(): Leases
      reads this`leases, graph`rows, graph`stuck, graph`leases, budget`open
    {
      Others(budget.open, Own())
    }

    /** What the budget still allows. */
    ghost function Free(): Room
      reads budget
      requires budget.Valid()
    {
      Room(budget.workLimits[CopiedBytes] - budget.used[CopiedBytes],
        budget.workLimits[SourceEntries] - budget.used[SourceEntries],
           budget.workLimits[InventoryItems] - budget.used[InventoryItems],
           budget.limits[ImageBytes] - budget.held[ImageBytes], budget.limits[Descriptors] - budget.held[Descriptors])
    }

    constructor (budget: Budget, id: nat, graph: Graph, base: nat)
      requires graph.budget == budget && graph.id != id && graph.Valid() && graph.phase == New
      ensures Valid() && this.budget == budget && this.graph == graph && this.id == id && this.base == base
      ensures phase == New && leases == [] && handles.native == {}
    {
      this.budget, this.graph, this.id, this.base := budget, graph, id, base;
      phase, leases, registered, openStarted, handles := New, [], false, false, Handles({}, {}, {}, 0);
    }

    /** Work is charged before it is done. */
    method Charge(work: Work, amount: nat, fault: Option<Error>) returns (r: Result<()>)
      requires Valid() && !budget.closed && work in {CopiedBytes, SourceEntries, InventoryItems}
      modifies budget`used
      ensures Valid() && Follows(r, AfterCharge(old(Free()), work, amount, fault), Free(), 0)
    {
      hide Owned, Balanced, NothingHeld, Graph.Local, Reserves, Apart, Ids, Allowed, Covered;
      r := budget.Charge(work, amount, fault);
    }

    /** A descriptor that could not be closed stays open outside any capability. */
    method LeaveBehind(count: nat)
      requires Valid() && phase == Entering && openStarted && |handles.native| + count <= Allowed(leases)
      modifies this`handles
      ensures Valid() && handles.caps == old(handles.caps) && |handles.hidden| == old(|handles.hidden|) + count
      ensures count == 0 ==> handles.hidden == old(handles.hidden)
    {
      hide Owned, Balanced, WorkWithin, NothingHeld, Graph.Local, Reserves, Apart, Ids, Allowed, Covered, HandedOver;
      hide LeftBehind;
      HandlesGrow(handles, leases, count);
      handles := LeftBehind(handles, count);
    }

    /** A reservation for the lifetime of the session. */
    method Reserve(kind: Kind, amount: nat, fault: Option<Error>) returns (r: Result<()>)
      requires Valid() && (phase == Entering || phase == Active) && amount > 0 && kind != Cursors && !budget.closed
      modifies this`leases, budget`held, budget`peaks, budget`open, budget`next
      ensures Valid()
      ensures Follows(r, AfterReserve(old(Free()), kind, amount, fault), Free(), 0)
      ensures Allowed(leases) == old(Allowed(leases)) + if r.Ok? && kind == Descriptors then amount else 0
      ensures OnlyMore(old(budget.open), budget.open, old(budget.next), old(leases), leases)
      ensures r.Err? ==> leases == old(leases)
      ensures r.Ok? ==> leases != []
      ensures Rest() == old(Rest()) && Later(old(Own()), Own(), old(budget.next), budget.next)
    {
      hide Owned, Reserves, Apart, Ids, Others, LeaseIds, Allowed, Covered, OnlyMore, Valid;
      assert budget.Valid() by {
        BudgetIsValid();
      }
      r := Hold(kind, amount, fault);
    }

    lemma BudgetIsValid()
      requires Valid()
      ensures budget.Valid()
    {
    }

    method Hold(kind: Kind, amount: nat, fault: Option<Error>) returns (r: Result<()>)
      requires Valid() && (phase == Entering || phase == Active) && amount > 0 && !budget.closed
      modifies this`leases, budget`held, budget`peaks, budget`open, budget`next
      ensures Valid() && budget.Valid()
      ensures r.Ok? <==> fault == None && old(budget.held)[kind] + amount <= budget.limits[kind]
      ensures budget.held == if r.Ok? then old(budget.held)[kind := old(budget.held)[kind] + amount]
        else old(budget.held)
      ensures Allowed(leases) == old(Allowed(leases)) + if r.Ok? && kind == Descriptors then amount else 0
      ensures OnlyMore(old(budget.open), budget.open, old(budget.next), old(leases), leases)
      ensures r.Err? ==> leases == old(leases)
      ensures r.Ok? ==> leases != []
      ensures Rest() == old(Rest()) && Later(old(Own()), Own(), old(budget.next), budget.next)
    {
      hide Owned, Budget.Valid, Graph.Local, Reserves, Apart, Ids, Others, LeaseIds, Allowed, Covered, OnlyMore;
      ghost var open, next := budget.open, budget.next;
      budget.IdsBelow();
      var reserved := budget.Reserve(kind, amount, fault);
      if reserved.Err? {
        NoneMore(open, next, leases);
        return Err(reserved.error);
      }
      Attach(reserved.value, open, next);
      r := Ok(());
    }

    /** A lease has just been taken for the session, which does not list it yet. */
    ghost predicate Pending(lease: Lease, open: Leases, next: nat)
      reads this, graph, budget
    {
      && graph.budget == budget && graph.id != id && budget.Valid() && graph.Local() && graph.phase != Entering
      && Owned(graph.rows, graph.stuck, graph.issued, graph.leases, open, next)
      && (graph.registered ==> graph.id in budget.owners)
      && Reserves(leases, open) && Apart(leases, graph.Mine()) && (registered ==> id in budget.owners)
      && phase in {Entering, Active} && Covered(handles, leases, false) && (handles.native != {} ==> openStarted)
      && (phase == Active ==> registered && openStarted && |handles.native| + 5 <= Allowed(leases))
      && lease.amount > 0 && next <= lease.id < budget.next && lease.id !in open
      && (forall l :: l in open ==> l < next) && budget.open == open[lease.id := lease]
    }

    method Attach(lease: Lease, ghost open: Leases, ghost next: nat)
      requires Pending(lease, open, next)
      modifies this`leases
      ensures Valid() && leases == old(leases) + [lease]
      ensures Allowed(leases) == old(Allowed(leases)) + if lease.kind == Descriptors then lease.amount else 0
      ensures OnlyMore(open, budget.open, next, old(leases), leases)
      ensures Rest() == old(Others(open, Own())) && Later(old(Own()), Own(), next, budget.next)
    {
      hide Owned, Budget.Valid, Graph.Local, Reserves, Apart, Ids, Others, LeaseIds, Allowed, Covered, OnlyMore;
      MineBelow(open, next);
      OthersTake(graph.rows, graph.stuck, graph.issued, graph.leases, open, next, lease, budget.next);
      TakeReserves(leases, open, lease, graph.Mine());
      TakeRest(leases, graph.Mine(), open, lease, next, budget.next);
      MoreByOne(open, next, leases, lease);
      CoveredMore(handles, leases, leases + [lease]);
      leases := leases + [lease];
    }

    /** The graph reader's leases are open ones. */
    lemma MineBelow(open: Leases, next: nat)
      requires Owned(graph.rows, graph.stuck, graph.issued, graph.leases, open, next) && forall l :: l in open ==>
        l < next
      ensures forall l :: l in graph.Mine() ==> l < next
    {
      var all := graph.rows + graph.stuck;
      forall l | l in graph.Mine() ensures l in open {
        if c :| c in graph.stuck && graph.stuck[c].id == l {
          assert all[c] == graph.stuck[c] && Held(all[c], open);
        } else if c :| c in graph.rows && graph.rows[c].id == l {
          assert c !in graph.stuck && all[c] == graph.rows[c] && Held(all[c], open);
        } else {
          var i :| 0 <= i < |graph.leases| && graph.leases[i].id == l;
          assert Held(graph.leases[i], open);
        }
      }
    }

    /** Opens the root with all its ancestors: `base - 2` descriptors, covered by the first reservation. */
    method OpenRoot(opening: Opening) returns (r: Result<()>)
      requires Valid() && phase == Entering && handles.native == {} && base > 2 && base - 2 <= Allowed(leases)
      requires opening.Refused? ==> opening.left <= base - 2
      modifies this`openStarted, this`handles
      ensures Valid() && openStarted && (r.Ok? <==> opening.Handed?)
      ensures r.Ok? ==> |handles.native| == |handles.caps| == base - 2
      ensures r.Err? ==> handles.caps == {} && |handles.hidden| == opening.left
      ensures Nothing(opening) ==> handles.hidden == {}
      ensures Follows(r, AfterOpening(Free(), opening), Free(), |handles.hidden|)
    {
      hide Owned, Balanced, WorkWithin, NothingHeld, Graph.Local, Reserves, Apart, Ids, Others, LeaseIds, Allowed;
      hide Covered, HandedOver, LeftBehind;
      var count := if opening.Handed? then base - 2 else opening.left;
      NothingYet();
      HandlesGrow(handles, leases, count);
      openStarted := true;
      if opening.Handed? {
        handles, r := HandedOver(handles, count), Ok(());
      } else {
        handles, r := LeftBehind(handles, count), Err(Failed);
      }
    }

    lemma NothingYet()
      requires Covered(handles, leases, false) && handles.native == {}
      ensures handles.caps == handles.hidden == {} && |handles.caps| == |handles.hidden| == |handles.native| == 0
    {
    }

    /** Opens one directory below a retained one; the reservation that covers it has been made before. */
    method OpenChild(opening: Opening) returns (r: Result<()>)
      requires Valid() && phase == Entering && openStarted && |handles.native| + 1 <= Allowed(leases)
      requires opening.Refused? ==> opening.left <= 1
      modifies this`handles
      ensures Valid() && (r.Ok? <==> opening.Handed?)
      ensures r.Ok? ==>
        |handles.native| == old(|handles.native|) + 1 && |handles.caps| == old(|handles.caps|) + 1
          && handles.hidden == old(handles.hidden)
      ensures r.Err? ==> handles.caps == old(handles.caps) && |handles.hidden| == old(|handles.hidden|) + opening.left
      ensures Nothing(opening) ==> handles.hidden == old(handles.hidden)
      ensures Follows(r, AfterOpening(Free(), opening), Free(), |handles.hidden| - old(|handles.hidden|))
    {
      hide Owned, Balanced, WorkWithin, NothingHeld, Graph.Local, Reserves, Apart, Ids, Others, LeaseIds, Allowed;
      hide Covered, HandedOver, LeftBehind;
      var count := if opening.Handed? then 1 else opening.left;
      HandlesGrow(handles, leases, count);
      if opening.Handed? {
        handles, r := HandedOver(handles, count), Ok(());
      } else {
        handles, r := LeftBehind(handles, count), Err(Failed);
      }
    }

    /** Copies one file through a transient descriptor; the copy stays reserved until the session ends. */
    method Copy(leaf: Leaf) returns (r: Result<()>)
      requires Valid() && phase == Entering && openStarted && |handles.native| + 1 <= Allowed(leases) && !budget.closed
      modifies this`leases, this`handles, budget`used, budget`held, budget`peaks, budget`open, budget`next
      ensures Valid() && Allowed(leases) == old(Allowed(leases))
      ensures r.Ok? ==> leaf.readOk && leaf.closeOk && leases != []
      ensures handles.caps == old(handles.caps) && (Closes(leaf) ==> handles == old(handles))
      ensures |handles.hidden| == old(|handles.hidden|) + if Closes(leaf) then 0 else 1
      ensures Follows(r, AfterLeaf(old(Free()), leaf), Free(), |handles.hidden| - old(|handles.hidden|))
      ensures Rest() == old(Rest()) && Later(old(Own()), Own(), old(budget.next), budget.next)
    {
      hide Owned, Graph.Local, Reserves, Apart, Ids, Own, Rest, Others, LeaseIds, Allowed, Covered, OnlyMore;
      hide Valid, Shared, Free, Budget.Valid, AfterCharge, AfterReserve;
      if !leaf.found {
        return Err(Failed);
      }
      r := Charge(CopiedBytes, leaf.size + 1, leaf.chargeFault);
      if r.Ok? {
        r := Reserve(ImageBytes, leaf.size + 1, leaf.reserveFault);
      }
      if !leaf.closeOk || !leaf.readOk {
        r := Err(Failed);
      }
      if !leaf.closeOk {
        LeaveBehind(1);
      }
    }

    /** The inventory of directories, behind a reservation for the names it lists. */
    method Inventory(slots: nat, fault: Option<Error>, roomFault: Option<Error>, folders: seq<Folder>, listed: bool)
      returns (r: Result<()>)
      requires Valid() && (phase == Entering || (phase == Active && folders == []))
      requires openStarted && |handles.native| + 5 <= Allowed(leases) && !budget.closed
      requires forall k :: 0 <= k < |folders| ==> One(folders[k].opening)
      modifies this`leases, this`handles, budget`used, budget`held, budget`peaks, budget`open, budget`next
      ensures Valid() && |handles.caps| >= old(|handles.caps|)
      ensures folders == [] ==> handles == old(handles)
      ensures r.Ok? ==> |handles.native| + 5 <= Allowed(leases)
      ensures Follows(r, AfterInventory(old(Free()), slots, fault, roomFault, folders, listed), Free(),
        |handles.hidden| - old(|handles.hidden|))
      ensures Rest() == old(Rest()) && Later(old(Own()), Own(), old(budget.next), budget.next)
    {
      hide Owned, Balanced, WorkWithin, NothingHeld, Graph.Local, Reserves, Apart, Ids, Own, Rest, Others, LeaseIds;
      hide Allowed, Covered, OnlyMore, AfterFolders, Valid, Free;
      var scratch := TakeScratch(slots, fault, roomFault);
      if scratch.Err? {
        return Err(scratch.error);
      }
      r := Folders(scratch.value, folders);
      GiveScratch(scratch.value);
      if r.Ok? && !listed {
        r := Err(Corrupt);
      }
    }

    /** Charges the names and reserves room for them. */
    method TakeScratch(slots: nat, fault: Option<Error>, roomFault: Option<Error>) returns (r: Result<Lease>)
      requires Valid() && (phase == Entering || phase == Active) && !budget.closed
      modifies budget`used, budget`held, budget`peaks, budget`open, budget`next
      ensures Valid()
      ensures r.Ok? ==> Besides(r.value) && r.value.kind == ImageBytes && r.value.amount == Scratch(slots)
      ensures r.Ok? <==>
        fault == roomFault == None && slots + 1 <= old(Free()).inventory && Scratch(slots) <= old(Free()).images
      ensures r.Ok? ==>
        Free() == old(Free()).(inventory := old(Free()).inventory - slots - 1,
          images := old(Free()).images - Scratch(slots))
      ensures Own() == old(Own()) && budget.next >= old(budget.next) && (r.Err? ==> Rest() == old(Rest()))
      ensures r.Ok? ==> r.value.id !in old(Rest()) && Rest() == old(Rest())[r.value.id := r.value]
    {
      hide Owned, Balanced, WorkWithin, NothingHeld, Graph.Local, Reserves, Apart, Ids, Others, LeaseIds, Allowed;
      hide Covered, Peaked, Refusal, HeldBySome, Accounted, OnlyMore;
      var charged := budget.Charge(InventoryItems, slots + 1, fault);
      if charged.Err? {
        return Err(charged.error);
      }
      ghost var open, next := budget.open, budget.next;
      budget.IdsBelow();
      MineBelow(open, next);
      r := budget.Reserve(ImageBytes, Scratch(slots), roomFault);
      if r.Ok? {
        ScratchTaken(leases, open, r.value);
        NotOwn(r.value.id);
        ScratchRest(open, Own(), r.value);
        OthersTake(graph.rows, graph.stuck, graph.issued, graph.leases, open, next, r.value, budget.next);
      }
    }

    lemma NotOwn(l: nat)
      requires Apart(leases, {l}) && l !in graph.Mine()
      ensures l !in Own()
    {
      assert l in {l};
    }

    /** A lease that is held besides those of the session and of its graph reader. */
    ghost predicate Besides(scratch: Lease)
      reads this, graph, budget
    {
      Held(scratch, budget.open) && Apart(leases, {scratch.id}) && scratch.id !in graph.Mine()
        && scratch.id < budget.next
    }

    method GiveScratch(scratch: Lease)
      requires Valid() && Besides(scratch) && !budget.closed && scratch.kind == ImageBytes
      modifies budget`held, budget`open
      ensures Valid() && Free() == old(Free()).(images := old(Free()).images + scratch.amount)
      ensures Own() == old(Own()) && Rest() == old(Rest()) - {scratch.id}
    {
      hide Owned, Balanced, WorkWithin, NothingHeld, Graph.Local, Reserves, Apart, Ids, Others, LeaseIds, Allowed;
      hide Covered;
      ScratchDropped(leases, budget.open, graph.Mine(), scratch.id);
      NotOwn(scratch.id);
      ScratchRest(budget.open, Own(), scratch);
      OthersDrop(graph.rows, graph.stuck, graph.issued, graph.leases, budget.open, budget.next, scratch.id);
      var released := budget.Release(scratch);
    }

    /** Every directory is reserved before it is opened. `scratch` is held besides. */
    method Folders(scratch: Lease, folders: seq<Folder>) returns (r: Result<()>)
      requires Valid() && (phase == Entering || (phase == Active && folders == []))
      requires openStarted && |handles.native| + 5 <= Allowed(leases) && !budget.closed
      requires forall k :: 0 <= k < |folders| ==> One(folders[k].opening)
      requires Besides(scratch)
      modifies this`leases, this`handles, budget`held, budget`peaks, budget`open, budget`next
      ensures Valid() && |handles.caps| >= old(|handles.caps|) && Besides(scratch)
      ensures folders == [] ==> handles == old(handles)
      ensures r.Ok? ==> |handles.native| + 5 <= Allowed(leases)
      ensures Follows(r, AfterFolders(old(Free()), folders), Free(), |handles.hidden| - old(|handles.hidden|))
      ensures Rest() == old(Rest()) && Later(old(Own()), Own(), old(budget.next), budget.next)
    {
      hide Owned, Balanced, WorkWithin, NothingHeld, Graph.Local, Reserves, Apart, Ids, Own, Rest, Others, LeaseIds;
      hide Allowed, Covered, HandedOver, LeftBehind, OnlyMore, AfterFolders, AfterReserve;
      r := Ok(());
      assert folders[0..] == folders;
      for k := 0 to |folders|
        invariant Valid() && openStarted && |handles.native| + 5 <= Allowed(leases)
        invariant k == 0 ==> handles == old(handles)
        invariant Besides(scratch)
        invariant |handles.caps| >= old(|handles.caps|) && handles.hidden == old(handles.hidden)
        invariant Rest() == old(Rest()) && Later(old(Own()), Own(), old(budget.next), budget.next)
        invariant r.Ok? && AfterFolders(Free(), folders[k..]) == AfterFolders(old(Free()), folders)
      {
        ghost var open, next, before := budget.open, budget.next, leases;
        FolderStep(Free(), folders, k);
        r := Reserve(Descriptors, 1, folders[k].fault);
        ScratchKept(scratch, open, budget.open, next, before, leases);
        budget.IdsBelow();
        if r.Err? {
          return;
        }
        r := OpenChild(folders[k].opening);
        if r.Err? {
          return;
        }
      }
      NoneLeft(Free(), folders, []);
    }

    /** Copies files one after another. */
    method Copies(files: seq<Leaf>) returns (r: Result<()>)
      requires Valid() && phase == Entering && openStarted && |handles.native| + 1 <= Allowed(leases) && !budget.closed
      modifies this`leases, this`handles, budget`used, budget`held, budget`peaks, budget`open, budget`next
      ensures Valid() && Allowed(leases) == old(Allowed(leases)) && handles.caps == old(handles.caps)
      ensures r.Ok? ==> handles == old(handles)
      ensures Follows(r, AfterLeaves(old(Free()), files), Free(), |handles.hidden| - old(|handles.hidden|))
      ensures Rest() == old(Rest()) && Later(old(Own()), Own(), old(budget.next), budget.next)
    {
      hide Owned, Balanced, WorkWithin, NothingHeld, Graph.Local, Reserves, Apart, Ids, Own, Rest, Others, LeaseIds;
      hide Allowed, Covered, AfterLeaf, AfterLeaves;
      r := Ok(());
      assert files[0..] == files;
      for k := 0 to |files|
        invariant Valid() && phase == Entering && Allowed(leases) == old(Allowed(leases)) && handles == old(handles)
        invariant Rest() == old(Rest()) && Later(old(Own()), Own(), old(budget.next), budget.next)
        invariant r.Ok? && AfterLeaves(Free(), files[k..]) == AfterLeaves(old(Free()), files)
      {
        LeafStep(Free(), files, k);
        r := Copy(files[k]);
        if r.Err? {
          return;
        }
      }
      NoneLeft(Free(), [], files);
    }

    /** Opens root, `generations` and the selected generation: all covered by the first reservation. */
    method OpenAll(root: Opening, generations: Opening, selected: Opening) returns (r: Result<()>)
      requires Valid() && phase == Entering && handles.native == {} && base > 2 && base + 5 <= Allowed(leases)
      requires (root.Refused? ==> root.left <= base - 2) && One(generations) && One(selected)
      modifies this`openStarted, this`handles
      ensures Valid() && openStarted && (handles.caps != {} <==> root.Handed?)
      ensures r.Ok? ==> |handles.native| == |handles.caps| == base
      ensures Follows(r, AfterOpenings(Free(), root, generations, selected), Free(), |handles.hidden|)
    {
      hide Owned, Balanced, WorkWithin, NothingHeld, Graph.Local, Reserves, Apart, Ids, Others, LeaseIds, Allowed;
      hide Covered;
      r := OpenRoot(root);
      if r.Err? {
        return;
      }
      r := OpenChild(generations);
      if r.Err? {
        return;
      }
      r := OpenChild(selected);
    }

    /** Registers the session and reserves what every generation needs. */
    method Begin(setup: Setup) returns (r: Result<()>)
      requires Valid() && phase == Entering && !registered && leases == [] && handles.native == {}
      modifies this`leases, this`registered, budget`held, budget`peaks, budget`open, budget`next, budget`owners
      ensures Valid() && (r.Ok? ==> registered && Allowed(leases) == base + 5 && !budget.closed)
      ensures Follows(r, AfterBegin(old(Free()), setup, base, old(!budget.closed && id !in budget.owners)), Free(), 0)
      ensures Rest() == old(Rest()) && Later(old(Own()), Own(), old(budget.next), budget.next)
      ensures budget.owners - {id, graph.id} == old(budget.owners) - {id, graph.id}
    {
      hide Owned, Balanced, WorkWithin, NothingHeld, Graph.Local, Reserves, Apart, Ids, Own, Rest, Others, LeaseIds;
      hide Covered, OnlyMore, AfterReserve;
      r := budget.OwnerOpened(id, setup.registerFault);
      registered := r.Ok?;
      if r.Ok? {
        r := Reserve(Descriptors, base + 5, setup.baseFault);
      }
      if r.Ok? {
        r := budget.Checkpoint(setup.startFault);
      }
    }

    /** The manifest, and what parsing it takes. */
    method Manifest(setup: Setup) returns (r: Result<()>)
      requires Valid() && phase == Entering && openStarted && |handles.native| + 5 <= Allowed(leases) && !budget.closed
      modifies this`leases, this`handles, budget`used, budget`held, budget`peaks, budget`open, budget`next
      ensures Valid() && handles.caps == old(handles.caps)
      ensures r.Ok? ==> |handles.native| + 5 <= Allowed(leases)
      ensures Follows(r, AfterManifest(old(Free()), setup), Free(), |handles.hidden| - old(|handles.hidden|))
      ensures Rest() == old(Rest()) && Later(old(Own()), Own(), old(budget.next), budget.next)
    {
      hide Owned, Graph.Local, Reserves, Apart, Ids, Own, Rest, Others, LeaseIds, Allowed, Covered, OnlyMore;
      hide Valid, Shared, Free, Budget.Valid, AfterCharge, AfterReserve, AfterLeaf;
      r := Copy(setup.manifest);
      if r.Err? {
        return;
      }
      r := Reserve(ImageBytes, 256 * setup.manifest.size + 131072, setup.parseFault);
      if r.Err? {
        return;
      }
      if !setup.sound {
        return Err(Corrupt);
      }
      r := Charge(SourceEntries, setup.entries, setup.entriesFault);
    }

    /** Manifest, inventory and files: what the graph reader is then given is a verified copy. */
    method Verify(setup: Setup) returns (r: Result<()>)
      requires Valid() && phase == Entering && openStarted && |handles.native| + 5 <= Allowed(leases) && !budget.closed
      requires setup.WellFormed(base)
      modifies this`leases, this`handles, budget`used, budget`held, budget`peaks, budget`open, budget`next
      ensures Valid() && |handles.caps| >= old(|handles.caps|)
      ensures r.Ok? ==> |handles.native| + 5 <= Allowed(leases)
      ensures Follows(r, AfterVerify(old(Free()), setup), Free(), |handles.hidden| - old(|handles.hidden|))
      ensures Rest() == old(Rest()) && Later(old(Own()), Own(), old(budget.next), budget.next)
    {
      hide Owned, Balanced, WorkWithin, NothingHeld, Graph.Local, Reserves, Apart, Ids, Own, Rest, Others, LeaseIds;
      hide Allowed, Covered, OnlyMore, AfterManifest, AfterInventory, AfterLeaves;
      r := Manifest(setup);
      if r.Ok? {
        r := Inventory(setup.slots, setup.slotsFault, setup.roomFault, setup.folders, setup.listed);
      }
      if r.Ok? {
        r := Copies(setup.files);
      }
    }

    /** Hands the verified bytes to the graph reader, on the same budget. */
    method EnterGraph(setup: Setup, w: Leave) returns (r: Result<()>)
      requires Valid() && phase == Entering && graph.phase == New && setup.graph.envelope > 0
      modifies graph, budget
      ensures Valid() && graph.phase == if r.Ok? then Active else Ended
      ensures Rest() == old(Rest()) && Later(old(Own()), Own(), old(budget.next), budget.next)
      ensures budget.owners - {id, graph.id} == old(budget.owners) - {id, graph.id}
    {
      hide Owned, Balanced, WorkWithin, NothingHeld, Graph.Local, Reserves, Apart, Ids, Others, LeaseIds, Allowed;
      hide Covered, OnlyOwn;
      ghost var open, next, mine := budget.open, budget.next, graph.Mine();
      budget.IdsBelow();
      ghost var owners := budget.owners;
      assert registered ==> id in budget.owners - {graph.id};
      r := graph.Enter(setup.graph, setup.rowEnvelope, w.cursorClose, w.dbOk);
      FewerOwners(owners, budget.owners);
      OthersKeepReserves(leases, open, budget.open, next, budget.next, mine, graph.Mine());
      GraphRest(LeaseIds(leases), open, budget.open, next, budget.next, mine, graph.Mine());
    }

    /** The descriptors that entering with this setup leaves behind, outside any capability. */
    ghost function Left(setup: Setup): nat
      reads budget
      requires budget.Valid()
    {
      LeftOver(AfterAll(Free(), setup, base, !budget.closed && id !in budget.owners))
    }

    lemma FewerOwners(owners: set<nat>, owners': set<nat>)
      requires owners' - {graph.id} == owners - {graph.id}
      ensures owners' - {id, graph.id} == owners - {id, graph.id}
    {
      assert owners - {id, graph.id} == (owners - {graph.id}) - {id};
      assert owners' - {id, graph.id} == (owners' - {graph.id}) - {id};
    }

    /** Enters the session; whatever fails ends it. Afterwards as many descriptors are hidden as the setup leaves
        behind; unless no directory was ever seen, a failed entry refunds every lease all the same. */
    method Enter(setup: Setup, w: Leave) returns (r: Result<()>)
      requires Valid() && base > 2 && setup.WellFormed(base)
      modifies this, graph, budget
      ensures Valid()
      ensures old(phase) != New ==> r == Err(SessionInvalid) && phase == old(phase) && leases == old(leases)
      ensures old(phase) == New ==>
        if r.Ok? then phase == graph.phase == Active && registered && handles.caps != {} && handles.hidden == {}
        else phase == Ended && graph.phase != Active
      ensures old(phase) == New ==>
        |handles.hidden| == old(Left(setup)) && (setup.ClosesBehind() ==> handles.hidden == {})
      ensures old(phase) == New && r.Err? && (forall fd :: w.closes(fd) && !w.reused(fd)) && setup.root.Handed? ==>
        leases == [] && !registered && handles.native == handles.hidden
      ensures Rest() == old(Rest()) && Later(old(Own()), Own(), old(budget.next), budget.next)
      ensures budget.owners - {id, graph.id} == old(budget.owners) - {id, graph.id}
    {
      hide Own, Rest, Shared, Covered, AfterAll, Allowed;
      if phase != New {
        return Err(SessionInvalid);
      }
      if setup.ClosesBehind() {
        BudgetIsValid();
        NothingLeftOver(Free(), setup, base, !budget.closed && id !in budget.owners);
      }
      r := EnterNew(setup, w);
    }

    method EnterNew(setup: Setup, w: Leave) returns (r: Result<()>)
      requires Valid() && phase == New && base > 2 && setup.WellFormed(base)
      modifies this, graph, budget
      ensures Valid()
      ensures
        if r.Ok? then phase == graph.phase == Active && registered && handles.caps != {} && handles.hidden == {}
        else phase == Ended && graph.phase != Active
      ensures |handles.hidden| == old(Left(setup))
      ensures r.Err? && (forall fd :: w.closes(fd) && !w.reused(fd)) && setup.root.Handed? ==>
        leases == [] && !registered && handles.native == handles.hidden
      ensures Rest() == old(Rest()) && Later(old(Own()), Own(), old(budget.next), budget.next)
      ensures budget.owners - {id, graph.id} == old(budget.owners) - {id, graph.id}
    {
      hide Owned, Balanced, WorkWithin, NothingHeld, Graph.Local, Reserves, Apart, Ids, Own, Rest, Others, LeaseIds;
      hide Allowed, OnlyMore, OnlyOwn, Covered, Failing, Left, GraphFails;
      phase := Entering;
      r := Prepare(setup, w);
      if r.Ok? {
        phase := Active;
      } else {
        assert !GraphFails(true, w) by {
          NoFailure(w);
        }
        var failed := End(true, w);
      }
    }

    /** An exception on its way hides the failures of the graph reader. */
    lemma NoFailure(w: Leave)
      ensures !GraphFails(true, w)
    {
    }

    method Prepare(setup: Setup, w: Leave) returns (r: Result<()>)
      requires Valid() && phase == Entering && graph.phase == New && !registered && leases == [] && handles.native == {}
      requires base > 2 && setup.WellFormed(base) && !openStarted
      modifies this, graph, budget
      ensures Valid() && phase == Entering
      ensures r.Ok? ==> graph.phase == Active && registered && openStarted && handles.caps != {} && handles.hidden == {}
      ensures r.Ok? ==> |handles.native| + 5 <= Allowed(leases)
      ensures |handles.hidden| == old(Left(setup))
      ensures openStarted && setup.root.Handed? ==> handles.caps != {}
      ensures Rest() == old(Rest()) && Later(old(Own()), Own(), old(budget.next), budget.next)
      ensures budget.owners - {id, graph.id} == old(budget.owners) - {id, graph.id}
    {
      hide Owned, Balanced, WorkWithin, NothingHeld, Graph.Local, Reserves, Apart, Ids, Own, Rest, Others, LeaseIds;
      hide Allowed, Covered, OnlyMore, OnlyOwn, AfterAll;
      r := Collect(setup);
      if r.Err? {
        return;
      }
      r := EnterGraph(setup, w);
      if r.Ok? {
        r := ListAgain(setup.again);
      }
    }

    /** Everything that opens files and directories. */
    method Collect(setup: Setup) returns (r: Result<()>)
      requires Valid() && phase == Entering && !registered && leases == [] && handles.native == {}
      requires base > 2 && setup.WellFormed(base) && !openStarted
      modifies this`leases, this`registered, this`openStarted, this`handles
      modifies budget`used, budget`held, budget`peaks, budget`open, budget`next, budget`owners
      ensures Valid()
      ensures r.Ok? ==> registered && openStarted && handles.caps != {} && |handles.native| + 5 <= Allowed(leases)
      ensures Follows(r, AfterAll(old(Free()), setup, base, old(!budget.closed && id !in budget.owners)), Free(),
        |handles.hidden|)
      ensures openStarted && setup.root.Handed? ==> handles.caps != {}
      ensures Rest() == old(Rest()) && Later(old(Own()), Own(), old(budget.next), budget.next)
      ensures budget.owners - {id, graph.id} == old(budget.owners) - {id, graph.id}
    {
      hide Owned, Balanced, WorkWithin, NothingHeld, Graph.Local, Reserves, Apart, Ids, Own, Rest, Others, LeaseIds;
      hide Allowed, Covered, OnlyMore, OnlyOwn, Valid;
      hide AfterBegin, AfterOpenings, AfterVerify;
      assert |handles.hidden| == 0 by {
        NothingHidden();
      }
      r := Begin(setup);
      if r.Err? {
        return;
      }
      r := OpenAll(setup.root, setup.generations, setup.selected);
      if r.Err? {
        return;
      }
      r := Verify(setup);
    }

    lemma NothingHidden()
      requires Valid() && phase == Entering && handles.native == {}
      ensures |handles.hidden| == 0
    {
      hide Shared, Allowed;
    }

    /** The inventory once more, which may find nothing new, and a checkpoint. */
    method ListAgain(check: Check) returns (r: Result<()>)
      requires Valid() && (phase == Entering || phase == Active) && registered && openStarted
      requires |handles.native| + 5 <= Allowed(leases)
      modifies this`leases, budget`used, budget`held, budget`peaks, budget`open, budget`next, this`handles
      ensures Valid() && handles == old(handles) && (r.Ok? ==> |handles.native| + 5 <= Allowed(leases))
      ensures Rest() == old(Rest()) && Later(old(Own()), Own(), old(budget.next), budget.next)
    {
      hide Owned, Balanced, WorkWithin, NothingHeld, Graph.Local, Reserves, Apart, Ids, Own, Rest, Others, LeaseIds;
      hide Allowed, Covered, OnlyMore, OnlyOwn, Free;
      budget.OwnerMeansRunning(id);
      r := Inventory(check.slots, check.slotsFault, check.roomFault, [], check.same);
      if r.Ok? {
        r := budget.Checkpoint(check.fault);
      }
    }

    /** One query of an active session; whatever fails ends it. */
    method Query(worlds: seq<World>, rowEnvelope: nat, entry: Entry, found: bool, w: Leave) returns (r: Result<()>)
      requires Valid()
      modifies this, graph, budget
      ensures Valid() && handles.hidden == old(handles.hidden)
      ensures old(phase) != Active ==> r == Err(SessionInvalid) && phase == old(phase)
      ensures old(phase) == Active ==> phase == if r.Ok? then Active else Ended
      ensures Rest() == old(Rest()) && Later(old(Own()), Own(), old(budget.next), budget.next)
      ensures budget.owners - {id, graph.id} == old(budget.owners) - {id, graph.id}
    {
      hide Owned, Balanced, WorkWithin, NothingHeld, Graph.Local, Reserves, Apart, Ids, Others, LeaseIds, Allowed;
      hide Covered, OnlyOwn, OnlyMore;
      if phase != Active {
        return Err(SessionInvalid);
      }
      r := budget.Checkpoint(entry.startFault);
      if r.Ok? && !found {
        r := Err(Failed);
      }
      if r.Ok? {
        ghost var open, next, mine := budget.open, budget.next, graph.Mine();
        budget.IdsBelow();
        ghost var owners := budget.owners;
        assert registered ==> id in budget.owners - {graph.id};
        r := graph.Run(worlds, rowEnvelope, entry, w.cursorClose, w.dbOk);
        FewerOwners(owners, budget.owners);
        OthersKeepReserves(leases, open, budget.open, next, budget.next, mine, graph.Mine());
        GraphRest(LeaseIds(leases), open, budget.open, next, budget.next, mine, graph.Mine());
      }
      if r.Ok? {
        r := budget.Checkpoint(entry.lastFault);
      }
      if r.Err? {
        var failed := End(true, w);
      }
    }

    /** Leaves the session; without an exception it looks at the inventory once more first. */
    method Exit(exception: bool, check: Check, w: Leave) returns (r: Result<()>)
      requires Valid()
      modifies this, graph, budget
      ensures Valid() && handles.hidden == old(handles.hidden)
      ensures old(phase) == Active ==>
        phase == Ended && (r.Ok? && !exception ==> leases == [] && !registered && handles.native == handles.hidden)
      ensures Rest() == old(Rest()) && Later(old(Own()), Own(), old(budget.next), budget.next)
      ensures budget.owners - {id, graph.id} == old(budget.owners) - {id, graph.id}
    {
      hide Owned, Balanced, WorkWithin, NothingHeld, Graph.Local, Reserves, Apart, Ids, Own, Rest, Others, LeaseIds;
      hide Allowed, Covered, OnlyOwn, OnlyMore, Free;
      if phase != Active {
        return if phase == Ended then Ok(()) else Err(SessionInvalid);
      }
      if !exception {
        r := ListAgain(check);
        if r.Err? {
          var failed := End(true, w);
          return;
        }
      }
      var failed := End(exception, w);
      r := if failed && !exception then Err(Failed) else Ok(());
    }

    // --- The end --------------------------------------------------------------------------

    /** Leaves the graph reader, if it is active; an exception that is already on its way hides its failures. */
    method CloseGraph(exception: bool, w: Leave) returns (failed: bool)
      requires Valid() && phase != New
      modifies graph, budget
      ensures Valid() && graph.phase == if old(graph.phase) == Active then Ended else old(graph.phase)
      ensures failed <==> old(GraphFails(exception, w))
      ensures Rest() == old(Rest()) && Later(old(Own()), Own(), old(budget.next), budget.next)
      ensures budget.owners - {id, graph.id} == old(budget.owners) - {id, graph.id}
    {
      hide Owned, Balanced, WorkWithin, NothingHeld, Graph.Local, Reserves, Apart, Ids, Others, LeaseIds, Allowed;
      hide OnlyOwn, Failing, Covered;
      failed := false;
      if graph.phase == Active {
        ghost var open, next, mine := budget.open, budget.next, graph.Mine();
        budget.IdsBelow();
        var checked := graph.Checkpoint(w.fault);
        failed := graph.End(w.cursorClose, w.dbOk);
        failed := !exception && (checked.Err? || failed);
        OthersKeepReserves(leases, open, budget.open, next, budget.next, mine, graph.Mine());
        GraphRest(LeaseIds(leases), open, budget.open, next, budget.next, mine, graph.Mine());
      }
    }

    /** Gives back every lease and acknowledges the session. */
    method Refund()
      requires Shared()
      modifies this`leases, this`registered, budget`held, budget`open, budget`owners, budget`acknowledged
      ensures Shared() && leases == [] && !registered
      ensures budget.owners == if old(registered) then old(budget.owners) - {id} else old(budget.owners)
      ensures Rest() == old(Rest()) && Later(old(Own()), Own(), old(budget.next), budget.next)
      ensures budget.owners - {id, graph.id} == old(budget.owners) - {id, graph.id}
    {
      hide Owned, Balanced, WorkWithin, NothingHeld, Graph.Local, Reserves, Apart, Ids, Others, LeaseIds;
      while leases != []
        invariant Shared() && registered == old(registered) && budget.owners == old(budget.owners)
        invariant Rest() == old(Rest()) && Later(old(Own()), Own(), old(budget.next), budget.next)
        decreases |leases|
      {
        var last := leases[|leases| - 1];
        DropReserves(leases, budget.open, graph.Mine());
        DropRest(leases, graph.Mine(), budget.open, budget.next);
        OthersDrop(graph.rows, graph.stuck, graph.issued, graph.leases, budget.open, budget.next, last.id);
        budget.OpenMeansRunning(last);
        var released := budget.Release(last);
        leases := leases[..|leases| - 1];
      }
      if registered {
        budget.OwnerMeansRunning(id);
        var acknowledged := budget.OwnerClosed(id);
        registered := false;
      }
    }

    /** Closes all directories, then looks for itself whether their descriptors are gone: a number that is used
        again counts as not closed, and so does an open that never showed its descriptors. */
    method CloseDescriptors(exception: bool, before: bool, w: Leave) returns (failed: bool)
      requires Valid() && (phase == Entering || phase == Active)
      modifies this`handles, this`phase
      ensures Valid() && phase == Ended && handles.hidden == old(handles.hidden)
      ensures failed <==> (before || UncertainClose(old(handles.caps), openStarted, exception, w))
      ensures !failed ==> handles.native == handles.hidden && Covered(handles, [], true)
    {
      hide Owned, Balanced, WorkWithin, NothingHeld, Graph.Local, Reserves, Apart, Ids, Others, LeaseIds, Allowed;
      hide Covered;
      var kept := set c | c in handles.caps && !w.closes(c);
      var caps := handles.caps;
      HandlesGivenUp(handles, leases, kept);
      handles, phase := GivenUp(handles, kept), Ended;
      failed := before || (openStarted && !exception && (kept != {} || !w.verified));
      assert forall c :: c in kept ==> c in caps && !w.closes(c);
      var seen := set c | c in caps && (c in handles.native || w.reused(c));
      assert forall c :: c in caps ==> (c in handles.native <==> c in kept);
      assert seen != {} <==> exists c :: c in caps && (!w.closes(c) || w.reused(c)) by {
        if c :| c in caps && (!w.closes(c) || w.reused(c)) {
          assert c in seen;
        }
        if c :| c in seen {
          assert c in caps && (!w.closes(c) || w.reused(c));
        }
      }
      failed := failed || seen != {} || (openStarted && caps == {});
    }

    /** The end of a session. Leases are refunded exactly when every directory descriptor was seen closed and, unless
        an exception is on its way, the graph reader ended without a failure; descriptors that were never part of a
        capability are not looked for. */
    method End(exception: bool, w: Leave) returns (failed: bool)
      requires Valid() && (phase == Entering || phase == Active)
      modifies this, graph, budget
      ensures Valid() && phase == Ended && graph.phase != Active && handles.hidden == old(handles.hidden)
      ensures failed <==>
        || old(GraphFails(exception, w)) || (exists c :: c in old(handles.caps) && (!w.closes(c) || w.reused(c)))
        || (old(openStarted) && (old(handles.caps) == {} || (!exception && !w.verified)))
      ensures !failed ==> leases == [] && !registered && handles.native == old(handles.hidden)
      ensures failed ==> leases == old(leases) && registered == old(registered)
      ensures Rest() == old(Rest()) && Later(old(Own()), Own(), old(budget.next), budget.next)
      ensures budget.owners - {id, graph.id} == old(budget.owners) - {id, graph.id}
    {
      hide Owned, Balanced, WorkWithin, NothingHeld, Graph.Local, Reserves, Apart, Ids, Own, Rest, Others, LeaseIds;
      hide Allowed, Covered, Failing;
      var graphFailed := CloseGraph(exception, w);
      failed := CloseDescriptors(exception, graphFailed, w);
      if !failed {
        Refund();
      }
    }

    ghost predicate GraphFails(exception: bool, w: Leave)
      reads this, graph, budget
    {
      !exception && graph.phase == Active &&
      (w.fault.Some? || budget.closed || graph.cursorFailure || !w.dbOk
        || Failing(graph.rows.Keys, w.cursorClose) != {})
    }

    /** A budget that could be closed has nothing left of the session and of its graph reader, except descriptors
        that no capability ever held. */
    lemma ClosedBudgetIsClean()
      requires Valid() && budget.closed
      ensures leases == [] && !registered && handles.native == handles.hidden
      ensures graph.rows == map[] && graph.stuck == map[] && graph.leases == [] && !graph.registered
    {
      budget.ClosedHoldsNothing();
      SomeReserve(leases, budget.open);
      graph.ClosedBudgetIsClean();
    }
  }

  /** What `hidden` is about: a manifest whose own descriptor could not be closed ends the session, and every
      lease of it is refunded although that descriptor is still open. */
  method LeafLeftOpen(base: nat, setup: Setup, w: Leave) returns (s: Session)
    requires base > 2 && setup.WellFormed(base)
    requires setup.registerFault == setup.baseFault == setup.startFault == None
    requires setup.root == setup.generations == setup.selected == Handed
    requires setup.manifest.found && !setup.manifest.closeOk
    requires forall fd :: w.closes(fd) && !w.reused(fd)
    ensures s.Valid() && s.phase == Ended && s.leases == [] && !s.registered && |s.handles.native| == 1
  {
    hide Owned, Balanced, WorkWithin, NothingHeld, Graph.Local, Reserves, Apart, Ids, Others, LeaseIds, Allowed;
    hide Covered;
    var work := map[CopiedBytes := 0, SourceEntries := 0, InventoryItems := 0, RowBytes := 0, VmSteps := 0];
    var limits := map[ImageBytes := 0, Descriptors := base + 5, Cursors := 0];
    forall w: Work ensures w in work {
      match w case CopiedBytes => case SourceEntries => case InventoryItems => case RowBytes => case VmSteps =>
    }
    forall k: Kind ensures k in limits {
      match k case ImageBytes => case Descriptors => case Cursors =>
    }
    var budget := new Budget(work, limits);
    var graph := new Graph(budget, 0, 1, 0);
    s := new Session(budget, 1, graph, base);
    var entered := s.Enter(setup, w);
  }
}
