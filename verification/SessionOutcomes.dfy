/** How far a session is entered, told from its setup and the free budget: exactly when everything is opened, read and
    accounted for, what room is then left, and which step leaves descriptors behind otherwise. */
module SessionOutcomes {
  import opened Wrappers
  import opened ReadBudget
  import opened SnapshotSession

  ghost predicate Roomy(room: Room) {
    room.copied >= 0 && room.entries >= 0 && room.inventory >= 0 && room.images >= 0 && room.descriptors >= 0
  }

  // --- Files ----------------------------------------------------------------------------

  /** The file was found, closed again and read, and nothing struck meanwhile. */
  ghost predicate IsRead(leaf: Leaf) {
    leaf.found && leaf.closeOk && leaf.chargeFault == None && leaf.reserveFault == None && leaf.readOk
  }

  /** Every file takes one byte more than its size, to notice that it has grown. */
  function Bytes(files: seq<Leaf>): nat {
    if files == [] then 0 else files[0].size + 1 + Bytes(files[1..])
  }

  ghost predicate AllRead(files: seq<Leaf>) {
    forall k :: 0 <= k < |files| ==> IsRead(files[k])
  }

  lemma LeafExactly(room: Room, leaf: Leaf)
    ensures AfterLeaf(room, leaf) ==
      if leaf.found && !leaf.closeOk then Stop(1)
      else if IsRead(leaf) && leaf.size + 1 <= room.copied && leaf.size + 1 <= room.images then
        Go(room.(copied := room.copied - leaf.size - 1, images := room.images - leaf.size - 1))
      else Stop(0)
  {
  }

  lemma {:induction false} LeavesExactly(room: Room, files: seq<Leaf>)
    requires Roomy(room)
    ensures AfterLeaves(room, files).Go? <==>
      AllRead(files) && Bytes(files) <= room.copied && Bytes(files) <= room.images
    ensures AfterLeaves(room, files).Go? ==>
      AfterLeaves(room, files).room ==
        room.(copied := room.copied - Bytes(files), images := room.images - Bytes(files))
    decreases |files|
  {
    if files != [] {
      LeafExactly(room, files[0]);
      hide AfterLeaf;
      if AfterLeaf(room, files[0]).Go? {
        LeavesExactly(AfterLeaf(room, files[0]).room, files[1..]);
      }
      assert AllRead(files) <==> IsRead(files[0]) && AllRead(files[1..]) by {
        assert forall k :: 1 <= k < |files| ==> files[k] == files[1..][k - 1];
      }
      hide IsRead, AllRead;
    }
  }

  /** Reading stops at this file, whose own descriptor cannot be closed. */
  ghost predicate StopsAtFile(room: Room, files: seq<Leaf>, k: nat) {
    && k < |files| && AllRead(files[..k]) && Bytes(files[..k]) <= room.copied && Bytes(files[..k]) <= room.images
    && files[k].found && !files[k].closeOk
  }

  lemma {:induction false} LeavesLeave(room: Room, files: seq<Leaf>, left: nat)
    requires Roomy(room) && left > 0
    ensures AfterLeaves(room, files) == Stop(left) <==> left == 1 && exists k: nat :: StopsAtFile(room, files, k)
    decreases |files|
  {
    if files != [] {
      LeafExactly(room, files[0]);
      if AfterLeaf(room, files[0]).Go? {
        var next := AfterLeaf(room, files[0]).room;
        LeavesLeave(next, files[1..], left);
        forall k: nat ensures StopsAtFile(room, files, k + 1) <==> StopsAtFile(next, files[1..], k) {
          StopsLater(room, files, k);
        }
        assert !StopsAtFile(room, files, 0);
        if k: nat :| StopsAtFile(room, files, k) {
          assert StopsAtFile(next, files[1..], k - 1);
        }
        if k: nat :| StopsAtFile(next, files[1..], k) {
          assert StopsAtFile(room, files, k + 1);
        }
      } else {
        StopsNow(room, files);
      }
    }
  }

  lemma StopsNow(room: Room, files: seq<Leaf>)
    requires Roomy(room) && files != [] && !AfterLeaf(room, files[0]).Go?
    ensures (exists k: nat :: StopsAtFile(room, files, k)) <==> AfterLeaf(room, files[0]) == Stop(1)
  {
    LeafExactly(room, files[0]);
    hide AfterLeaf;
    if k: nat :| StopsAtFile(room, files, k) {
      FirstOf(room, files, k);
    }
    if AfterLeaf(room, files[0]) == Stop(1) {
      assert files[..0] == [];
      assert StopsAtFile(room, files, 0);
    }
  }

  lemma FirstOf(room: Room, files: seq<Leaf>, k: nat)
    requires StopsAtFile(room, files, k)
    ensures k == 0 || (IsRead(files[0]) && files[0].size + 1 <= room.copied && files[0].size + 1 <= room.images)
  {
    if k > 0 {
      assert files[..k][0] == files[0];
    }
  }

  lemma StopsLater(room: Room, files: seq<Leaf>, k: nat)
    requires Roomy(room) && files != [] && AfterLeaf(room, files[0]).Go?
    ensures StopsAtFile(room, files, k + 1) <==> StopsAtFile(AfterLeaf(room, files[0]).room, files[1..], k)
  {
    LeafExactly(room, files[0]);
    hide AfterLeaf, IsRead;
    if k < |files| - 1 {
      var before := files[..k + 1];
      assert before[0] == files[0] && before[1..] == files[1..][..k] && files[1..][k] == files[k + 1];
      assert AllRead(before) <==> IsRead(files[0]) && AllRead(before[1..]) by {
        assert forall j :: 1 <= j < |before| ==> before[j] == before[1..][j - 1];
      }
    }
  }

  // --- Directories ----------------------------------------------------------------------

  ghost predicate AllHanded(folders: seq<Folder>) {
    forall k :: 0 <= k < |folders| ==> folders[k].fault == None && folders[k].opening.Handed?
  }

  lemma {:induction false} FoldersExactly(room: Room, folders: seq<Folder>)
    requires Roomy(room)
    ensures AfterFolders(room, folders).Go? <==> AllHanded(folders) && |folders| <= room.descriptors
    ensures AfterFolders(room, folders).Go? ==>
      AfterFolders(room, folders) == Go(room.(descriptors := room.descriptors - |folders|))
    decreases |folders|
  {
    if folders != [] {
      if room.descriptors >= 1 {
        FoldersExactly(room.(descriptors := room.descriptors - 1), folders[1..]);
      }
      assert AllHanded(folders) <==>
        folders[0].fault == None && folders[0].opening.Handed? && AllHanded(folders[1..]) by {
        assert forall k :: 1 <= k < |folders| ==> folders[k] == folders[1..][k - 1];
      }
    }
  }

  /** The inventory stops at this directory, which cannot be opened and leaves descriptors behind. */
  ghost predicate StopsAtFolder(room: Room, folders: seq<Folder>, k: nat, left: nat) {
    && k < |folders| && AllHanded(folders[..k]) && k + 1 <= room.descriptors
    && folders[k].fault == None && folders[k].opening == Opening.Refused(left)
  }

  lemma {:induction false} FoldersLeave(room: Room, folders: seq<Folder>, left: nat)
    requires Roomy(room) && left > 0
    ensures AfterFolders(room, folders) == Stop(left) <==> exists k: nat :: StopsAtFolder(room, folders, k, left)
    decreases |folders|
  {
    if folders != [] {
      var next := room.(descriptors := room.descriptors - 1);
      if room.descriptors >= 1 {
        FoldersLeave(next, folders[1..], left);
      }
      if k: nat :| StopsAtFolder(room, folders, k, left) {
        FolderCases(room, folders, k, left);
        assert k > 0 ==> StopsAtFolder(next, folders[1..], k - 1, left);
      }
      FolderCases(room, folders, 0, left);
      if room.descriptors >= 1 && folders[0].fault == None && folders[0].opening.Handed? {
        if k: nat :| StopsAtFolder(next, folders[1..], k, left) {
          FolderCases(room, folders, k + 1, left);
        }
      }
    }
  }

  lemma FolderCases(room: Room, folders: seq<Folder>, k: nat, left: nat)
    requires Roomy(room) && folders != []
    ensures StopsAtFolder(room, folders, k, left) <==>
      && folders[0].fault == None && room.descriptors >= 1
      && (k == 0 ==> folders[0].opening == Opening.Refused(left))
      && (k > 0 ==>
            && folders[0].opening.Handed?
            && StopsAtFolder(room.(descriptors := room.descriptors - 1), folders[1..], k - 1, left))
  {
    if 0 < k < |folders| {
      var before := folders[..k];
      assert before[0] == folders[0] && before[1..] == folders[1..][..k - 1] && folders[1..][k - 1] == folders[k];
      assert AllHanded(before) <==> before[0].fault == None && before[0].opening.Handed? && AllHanded(before[1..]) by {
        assert forall j :: 1 <= j < |before| ==> before[j] == before[1..][j - 1];
      }
    }
  }

  // --- The whole setup ------------------------------------------------------------------

  /** The session is registered and its first descriptors are covered. */
  ghost predicate Begun(room: Room, setup: Setup, base: nat, usable: bool) {
    && usable && setup.registerFault == None && setup.baseFault == None && base + 5 <= room.descriptors
    && setup.startFault == None
  }

  ghost predicate Opened(setup: Setup) {
    setup.root.Handed? && setup.generations.Handed? && setup.selected.Handed?
  }

  /** The image bytes that the manifest takes: itself, with one byte more, and room for parsing it. */
  function ManifestBytes(setup: Setup): nat {
    257 * setup.manifest.size + 131073
  }

  /** The manifest is read, parsed and counted. */
  ghost predicate Parsed(room: Room, setup: Setup) {
    && IsRead(setup.manifest) && setup.manifest.size + 1 <= room.copied && setup.parseFault == None
    && ManifestBytes(setup) <= room.images && setup.sound && setup.entriesFault == None && setup.entries <= room.entries
  }

  /** The inventory is charged, and its scratch space is there besides the manifest. */
  ghost predicate Listing(room: Room, setup: Setup) {
    && setup.slotsFault == None && setup.slots + 1 <= room.inventory && setup.roomFault == None
    && ManifestBytes(setup) + 1280 * (setup.slots + 1) <= room.images
  }

  ghost predicate Listed(room: Room, setup: Setup, base: nat) {
    AllHanded(setup.folders) && base + 5 + |setup.folders| <= room.descriptors && setup.listed
  }

  /** The room after the manifest. */
  function Remaining(room: Room, setup: Setup, base: nat): Room {
    Room(room.copied - setup.manifest.size - 1, room.entries - setup.entries, room.inventory,
      room.images - ManifestBytes(setup), room.descriptors - base - 5)
  }

  lemma ManifestExactly(room: Room, setup: Setup)
    requires Roomy(room)
    ensures AfterManifest(room, setup) ==
      if setup.manifest.found && !setup.manifest.closeOk then Stop(1)
      else if Parsed(room, setup) then
        Go(Room(room.copied - setup.manifest.size - 1, room.entries - setup.entries, room.inventory,
          room.images - ManifestBytes(setup), room.descriptors))
      else Stop(0)
  {
    LeafExactly(room, setup.manifest);
    hide AfterLeaf;
  }

  lemma InventoryExactly(room: Room, setup: Setup)
    requires Roomy(room)
    ensures var scratch := 1280 * (setup.slots + 1);
      var fits := setup.slotsFault == None && setup.slots + 1 <= room.inventory && setup.roomFault == None
        && scratch <= room.images;
      var r := AfterInventory(room, setup.slots, setup.slotsFault, setup.roomFault, setup.folders, setup.listed);
      && (r.Go? <==> fits && AllHanded(setup.folders) && |setup.folders| <= room.descriptors && setup.listed)
      && (r.Go? ==> r.room == room.(inventory := room.inventory - setup.slots - 1,
            descriptors := room.descriptors - |setup.folders|))
      && forall left: nat :: left > 0 ==>
           (r == Stop(left) <==> fits && exists k: nat :: StopsAtFolder(room, setup.folders, k, left))
  {
    hide AfterFolders, AllHanded, StopsAtFolder;
    if setup.slots + 1 <= room.inventory && 1280 * (setup.slots + 1) <= room.images {
      var next := room.(inventory := room.inventory - (setup.slots + 1), images := room.images - Scratch(setup.slots));
      FoldersExactly(next, setup.folders);
      forall left: nat | left > 0
        ensures AfterFolders(next, setup.folders) == Stop(left) <==>
          exists k: nat :: StopsAtFolder(room, setup.folders, k, left) {
        FoldersLeave(next, setup.folders, left);
        SameStops(room, next, setup.folders, left);
      }
    }
  }

  lemma SameStops(room: Room, next: Room, folders: seq<Folder>, left: nat)
    requires room.descriptors == next.descriptors
    ensures forall k: nat :: StopsAtFolder(room, folders, k, left) <==> StopsAtFolder(next, folders, k, left)
  {
  }

  /** Everything is opened and read if and only if nothing strikes or is refused, and the budget has room for it;
      what is left of the budget is then determined. */
  lemma SetupExactly(room: Room, setup: Setup, base: nat, usable: bool)
    requires Roomy(room)
    ensures var r := AfterAll(room, setup, base, usable);
      var bytes := Bytes(setup.files);
      && (r.Go? <==>
        && Begun(room, setup, base, usable) && Opened(setup) && Parsed(room, setup) && Listing(room, setup)
        && Listed(room, setup, base) && AllRead(setup.files)
        && setup.manifest.size + 1 + bytes <= room.copied && ManifestBytes(setup) + bytes <= room.images)
      && (r.Go? ==> r.room == Room(room.copied - setup.manifest.size - 1 - bytes, room.entries - setup.entries,
           room.inventory - setup.slots - 1, room.images - ManifestBytes(setup) - bytes,
           room.descriptors - base - 5 - |setup.folders|))
  {
    hide AfterManifest, AfterInventory, AfterLeaves, AllHanded, AllRead, Bytes, StopsAtFolder;
    if Begun(room, setup, base, usable) && Opened(setup) {
      var begun := room.(descriptors := room.descriptors - (base + 5));
      ManifestExactly(begun, setup);
      if AfterManifest(begun, setup).Go? {
        var parsed := AfterManifest(begun, setup).room;
        InventoryExactly(parsed, setup);
        var r := AfterInventory(parsed, setup.slots, setup.slotsFault, setup.roomFault, setup.folders, setup.listed);
        if r.Go? {
          LeavesExactly(r.room, setup.files);
        }
      }
    }
  }

  /** The first step that is refused leaves this many descriptors behind. */
  ghost predicate Leaves(room: Room, setup: Setup, base: nat, left: nat) {
    if !setup.root.Handed? then setup.root == Opening.Refused(left)
    else if !setup.generations.Handed? then setup.generations == Opening.Refused(left)
    else if !setup.selected.Handed? then setup.selected == Opening.Refused(left)
    else if setup.manifest.found && !setup.manifest.closeOk then left == 1
    else
      && Parsed(room, setup) && Listing(room, setup)
      && (|| (exists k: nat :: StopsAtFolder(Remaining(room, setup, base), setup.folders, k, left))
          || (Listed(room, setup, base) && left == 1
               && exists k: nat :: StopsAtFile(Remaining(room, setup, base), setup.files, k)))
  }

  /** Descriptors are left behind in exactly these cases, when all before went well: an opening was refused and left
      them, or the manifest or another file could not close its own. */
  lemma LeftExactly(room: Room, setup: Setup, base: nat, usable: bool, left: nat)
    requires Roomy(room) && left > 0
    ensures AfterAll(room, setup, base, usable) == Stop(left) <==>
      Begun(room, setup, base, usable) && Leaves(room, setup, base, left)
  {
    hide AfterManifest, AfterInventory, AfterLeaves, AllHanded, AllRead, Bytes, StopsAtFolder, StopsAtFile;
    if Begun(room, setup, base, usable) && Opened(setup) {
      var begun := room.(descriptors := room.descriptors - (base + 5));
      ManifestExactly(begun, setup);
      if AfterManifest(begun, setup).Go? {
        var parsed := Remaining(room, setup, base);
        InventoryExactly(parsed, setup);
        FoldersStop(parsed, setup.folders, left);
        var r := AfterInventory(parsed, setup.slots, setup.slotsFault, setup.roomFault, setup.folders, setup.listed);
        if r.Go? {
          LeavesLeave(r.room, setup.files, left);
          SameFiles(parsed, r.room, setup.files);
        }
      }
    }
  }

  /** A directory that stops the inventory is not handed over. */
  lemma FoldersStop(room: Room, folders: seq<Folder>, left: nat)
    ensures AllHanded(folders) ==> forall k: nat :: !StopsAtFolder(room, folders, k, left)
  {
  }

  lemma SameFiles(room: Room, next: Room, files: seq<Leaf>)
    requires room.copied == next.copied && room.images == next.images
    ensures forall k: nat :: StopsAtFile(room, files, k) <==> StopsAtFile(next, files, k)
  {
    hide AllRead, Bytes;
  }
}
