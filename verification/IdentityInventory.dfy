/** The inventory of metadata objects of one snapshot, as the identity planner accepts it: which lists of records it
    takes, and the forest that the owners of an accepted inventory form. */
module IdentityInventory {
  import opened Wrappers

  type Result<T> = Fallible<T, Error>

  datatype Error = Invalid | Limit

  datatype Source = Source(layer: string, path: string, hash: string)

  /** The owner as a record names it. */
  datatype Owner = Owner(uuid: string, source: Source, xmlPath: string)

  /** `folded` is the name without regard to case. */
  datatype Record = Record(uuid: string, kind: string, name: string, folded: string, xmlPath: string,
                           owner: Option<Owner>, source: Source)

  datatype Key = Key(layer: string, uuid: string)

  type Rows = map<Key, Record>

  /** Layers stand for their canonical documents. */
  datatype Inventory = Inventory(layers: map<string, string>, rows: Rows, owners: set<Key>)

  /** What one record must look like by itself, and the index among its owner's XML children that its path ends in. */
  datatype Rules = Rules(proper: Record -> bool, position: Record -> Option<nat>)

  // --- Identities -----------------------------------------------------------------------

  datatype Place = Place(layer: string, path: string)

  datatype Location = Location(place: Place, xmlPath: string)

  datatype Sibling = Sibling(layer: string, owner: Option<string>, kind: string, folded: string)

  datatype Slot = Slot(place: Place, ownerPath: string, index: nat)

  function KeyOf(e: Record): Key {
    Key(e.source.layer, e.uuid)
  }

  function OwnerKey(e: Record): Key
    requires e.owner.Some?
  {
    Key(e.source.layer, e.owner.value.uuid)
  }

  function PlaceOf(s: Source): Place {
    Place(s.layer, s.path)
  }

  function FileOf(e: Record): Place {
    PlaceOf(e.source)
  }

  function LocationOf(e: Record): Location {
    Location(PlaceOf(e.source), e.xmlPath)
  }

  function SiblingOf(e: Record): Sibling {
    Sibling(e.source.layer, if e.owner.Some? then Some(e.owner.value.uuid) else None, e.kind, e.folded)
  }

  function SlotOf(rules: Rules, e: Record): Option<Slot> {
    if e.owner == None || rules.position(e) == None then None
    else Some(Slot(PlaceOf(e.source), e.owner.value.xmlPath, rules.position(e).value))
  }

  // --- The list of records --------------------------------------------------------------

  predicate Fitting(rules: Rules, layers: map<string, string>, refs: map<Place, Source>, e: Record) {
    rules.proper(e) && e.source.layer in layers && PlaceOf(e.source) in refs && refs[PlaceOf(e.source)] == e.source
  }

  /** Neither identity nor place nor name nor position is shared. */
  predicate Apart(rules: Rules, a: Record, b: Record) {
    && KeyOf(a) != KeyOf(b) && LocationOf(a) != LocationOf(b) && SiblingOf(a) != SiblingOf(b)
    && (SlotOf(rules, a).Some? ==> SlotOf(rules, a) != SlotOf(rules, b))
  }

  ghost predicate AllFit(rules: Rules, layers: map<string, string>, refs: map<Place, Source>, objects: seq<Record>) {
    forall k :: 0 <= k < |objects| ==> Fitting(rules, layers, refs, objects[k])
  }

  ghost predicate AllApart(rules: Rules, objects: seq<Record>) {
    forall j, k :: 0 <= j < k < |objects| ==> Apart(rules, objects[j], objects[k])
  }

  /** The records fit and are apart, and every source file has one. */
  ghost predicate Listed(rules: Rules, layers: map<string, string>, refs: map<Place, Source>, objects: seq<Record>) {
    && AllFit(rules, layers, refs, objects) && AllApart(rules, objects)
    && forall place :: place in refs ==> exists k :: 0 <= k < |objects| && FileOf(objects[k]) == place
  }

  /** The records by their keys. */
  function RowsOf(objects: seq<Record>): Rows {
    if objects == [] then map[]
    else
      var last := objects[|objects| - 1];
      RowsOf(objects[..|objects| - 1])[KeyOf(last) := last]
  }

  /** What `f` gives for the records. */
  ghost predicate Images<T(!new)>(xs: set<T>, done: seq<Record>, f: Record -> T) {
    forall x :: x in xs <==> exists k :: 0 <= k < |done| && f(done[k]) == x
  }

  lemma ImagesNext<T(!new)>(xs: set<T>, done: seq<Record>, f: Record -> T, e: Record)
    requires Images(xs, done, f)
    ensures Images(xs + {f(e)}, done + [e], f)
  {
    var more := done + [e];
    assert more[|done|] == e && forall k :: 0 <= k < |done| ==> more[k] == done[k];
  }

  ghost predicate Slots(rules: Rules, slots: set<Slot>, done: seq<Record>) {
    forall x :: x in slots <==> exists k :: 0 <= k < |done| && SlotOf(rules, done[k]) == Some(x)
  }

  function Taking(rules: Rules, slots: set<Slot>, e: Record): set<Slot> {
    if SlotOf(rules, e).Some? then slots + {SlotOf(rules, e).value} else slots
  }

  lemma SlotsNext(rules: Rules, slots: set<Slot>, done: seq<Record>, e: Record)
    requires Slots(rules, slots, done)
    ensures Slots(rules, Taking(rules, slots, e), done + [e])
  {
    hide SlotOf;
    var more := done + [e];
    assert more[|done|] == e && forall k :: 0 <= k < |done| ==> more[k] == done[k];
  }

  /** A scan that has found nothing wrong remembers what it has seen. */
  ghost predicate Scanned(rules: Rules, layers: map<string, string>, refs: map<Place, Source>, done: seq<Record>,
                          records: Rows,
                          used: set<Place>, locations: set<Location>, siblings: set<Sibling>, slots: set<Slot>) {
    && AllFit(rules, layers, refs, done) && AllApart(rules, done) && records == RowsOf(done)
    && Images(records.Keys, done, KeyOf) && Images(used, done, FileOf) && Images(locations, done, LocationOf)
    && Images(siblings, done, SiblingOf) && Slots(rules, slots, done)
  }

  /** The record shares something with one seen before. */
  predicate Seen(rules: Rules, e: Record, records: Rows, locations: set<Location>, siblings: set<Sibling>,
                 slots: set<Slot>) {
    || (SlotOf(rules, e).Some? && SlotOf(rules, e).value in slots)
    || KeyOf(e) in records || LocationOf(e) in locations || SiblingOf(e) in siblings
  }

  lemma SeenIff(rules: Rules, layers: map<string, string>, refs: map<Place, Source>, done: seq<Record>, records: Rows,
                used: set<Place>, locations: set<Location>, siblings: set<Sibling>, slots: set<Slot>, e: Record)
    requires Scanned(rules, layers, refs, done, records, used, locations, siblings, slots)
    ensures Seen(rules, e, records, locations, siblings, slots) <==>
      exists k :: 0 <= k < |done| && !Apart(rules, done[k], e)
  {
    if SlotOf(rules, e).Some? && SlotOf(rules, e).value in slots {
      var k :| 0 <= k < |done| && SlotOf(rules, done[k]) == SlotOf(rules, e);
      assert !Apart(rules, done[k], e);
    }
    if KeyOf(e) in records {
      var k :| 0 <= k < |done| && KeyOf(done[k]) == KeyOf(e);
      assert !Apart(rules, done[k], e);
    }
    if LocationOf(e) in locations {
      var k :| 0 <= k < |done| && LocationOf(done[k]) == LocationOf(e);
      assert !Apart(rules, done[k], e);
    }
    if SiblingOf(e) in siblings {
      var k :| 0 <= k < |done| && SiblingOf(done[k]) == SiblingOf(e);
      assert !Apart(rules, done[k], e);
    }
  }

  lemma ScanNext(rules: Rules, layers: map<string, string>, refs: map<Place, Source>, done: seq<Record>, records: Rows,
                 used: set<Place>, locations: set<Location>, siblings: set<Sibling>, slots: set<Slot>, e: Record)
    requires Scanned(rules, layers, refs, done, records, used, locations, siblings, slots)
    requires Fitting(rules, layers, refs, e) && forall k :: 0 <= k < |done| ==> Apart(rules, done[k], e)
    ensures Scanned(rules, layers, refs, done + [e], records[KeyOf(e) := e], used + {FileOf(e)},
      locations + {LocationOf(e)},
                    siblings + {SiblingOf(e)}, Taking(rules, slots, e))
  {
    hide Fitting, Apart, AllFit, AllApart, Images, Slots, RowsOf, Taking, KeyOf, FileOf, LocationOf, SiblingOf, SlotOf;
    AllNext(rules, layers, refs, done, e);
    RowsNext(done, e);
    ImagesNext(records.Keys, done, KeyOf, e);
    assert records[KeyOf(e) := e].Keys == records.Keys + {KeyOf(e)};
    ImagesNext(used, done, FileOf, e);
    ImagesNext(locations, done, LocationOf, e);
    ImagesNext(siblings, done, SiblingOf, e);
    SlotsNext(rules, slots, done, e);
  }

  lemma AllNext(rules: Rules, layers: map<string, string>, refs: map<Place, Source>, done: seq<Record>, e: Record)
    requires AllFit(rules, layers, refs, done) && AllApart(rules, done) && Fitting(rules, layers, refs, e)
    requires forall k :: 0 <= k < |done| ==> Apart(rules, done[k], e)
    ensures AllFit(rules, layers, refs, done + [e]) && AllApart(rules, done + [e])
  {
    hide Fitting, Apart;
  }

  lemma RowsNext(done: seq<Record>, e: Record)
    ensures RowsOf(done + [e]) == RowsOf(done)[KeyOf(e) := e]
  {
    assert (done + [e])[..|done|] == done;
  }

  method CollectRecords(rules: Rules, layers: map<string, string>, refs: map<Place, Source>, objects: seq<Record>)
    returns (r: Option<Rows>)
    ensures r == if Listed(rules, layers, refs, objects) then Some(RowsOf(objects)) else None
  {
    var records: Rows := map[];
    var used, locations, siblings, slots := {}, {}, {}, {};
    for k := 0 to |objects|
      invariant Scanned(rules, layers, refs, objects[..k], records, used, locations, siblings, slots)
    {
      hide Scanned, Seen, Fitting, Taking, KeyOf, FileOf, LocationOf, SiblingOf;
      var e := objects[k];
      SeenIff(rules, layers, refs, objects[..k], records, used, locations, siblings, slots, e);
      assert objects[..k] + [e] == objects[..k + 1];
      if !Fitting(rules, layers, refs, e) || Seen(rules, e, records, locations, siblings, slots) {
        return None;
      }
      ScanNext(rules, layers, refs, objects[..k], records, used, locations, siblings, slots, e);
      records := records[KeyOf(e) := e];
      used, locations, siblings := used + {FileOf(e)}, locations + {LocationOf(e)}, siblings + {SiblingOf(e)};
      slots := Taking(rules, slots, e);
    }
    assert objects[..|objects|] == objects;
    AllScanned(rules, layers, refs, objects, records, used, locations, siblings, slots);
    r := if used == refs.Keys then Some(records) else None;
  }

  lemma AllScanned(rules: Rules, layers: map<string, string>, refs: map<Place, Source>, objects: seq<Record>,
                   records: Rows,
                   used: set<Place>, locations: set<Location>, siblings: set<Sibling>, slots: set<Slot>)
    requires Scanned(rules, layers, refs, objects, records, used, locations, siblings, slots)
    ensures records == RowsOf(objects) && (used == refs.Keys <==> Listed(rules, layers, refs, objects))
  {
    hide Apart;
    assert used <= refs.Keys;
  }

  /** The rows are the records, each under its own key. */
  lemma {:induction false} RowsIndex(rules: Rules, objects: seq<Record>)
    requires AllApart(rules, objects)
    ensures forall k :: 0 <= k < |objects| ==>
      KeyOf(objects[k]) in RowsOf(objects) && RowsOf(objects)[KeyOf(objects[k])] == objects[k]
    ensures forall key :: key in RowsOf(objects) ==>
      RowsOf(objects)[key] in objects && KeyOf(RowsOf(objects)[key]) == key
  {
    if objects != [] {
      var before := objects[..|objects| - 1];
      RowsIndex(rules, before);
      assert forall k :: 0 <= k < |before| ==>
        before[k] == objects[k] && Apart(rules, objects[k], objects[|objects| - 1]);
    }
  }

  // --- The order of the list ------------------------------------------------------------

  lemma ApartBothWays(rules: Rules, a: Record, b: Record)
    ensures Apart(rules, a, b) == Apart(rules, b, a) && !Apart(rules, a, a)
  {
  }

  lemma {:induction false} Occurs<T>(xs: seq<T>, k: nat)
    requires k < |xs|
    ensures multiset(xs[..k])[xs[k]] < multiset(xs)[xs[k]]
  {
    assert xs == xs[..k] + [xs[k]] + xs[k + 1..];
  }

  /** A record that is listed twice is not apart from itself. */
  lemma {:induction false} OnlyOnce(rules: Rules, objects: seq<Record>, e: Record)
    requires AllApart(rules, objects)
    ensures multiset(objects)[e] <= 1
  {
    if objects != [] {
      var before, last := objects[..|objects| - 1], objects[|objects| - 1];
      assert objects == before + [last];
      assert forall k :: 0 <= k < |before| ==> before[k] == objects[k] && Apart(rules, objects[k], last);
      OnlyOnce(rules, before, e);
      if e == last && e in before {
        ApartBothWays(rules, e, e);
      }
    }
  }

  lemma PermutedApart(rules: Rules, objects: seq<Record>, other: seq<Record>)
    requires multiset(objects) == multiset(other) && AllApart(rules, objects)
    ensures AllApart(rules, other)
  {
    hide Apart;
    forall j, k | 0 <= j < k < |other| ensures Apart(rules, other[j], other[k]) {
      Occurs(other, k);
      OnlyOnce(rules, objects, other[k]);
      assert other[..k][j] == other[j];
      assert other[j] in multiset(objects) && other[k] in multiset(objects);
      var i, l :| 0 <= i < |objects| && 0 <= l < |objects| && objects[i] == other[j] && objects[l] == other[k];
      ApartBothWays(rules, objects[i], objects[l]);
    }
  }

  /** The same records in another order are accepted alike, with the same rows. */
  lemma OrderDoesNotMatter(rules: Rules, layers: map<string, string>, refs: map<Place, Source>, objects: seq<Record>,
                           other: seq<Record>)
    requires multiset(objects) == multiset(other)
    ensures Listed(rules, layers, refs, objects) <==> Listed(rules, layers, refs, other)
    ensures Listed(rules, layers, refs, objects) ==> RowsOf(objects) == RowsOf(other)
  {
    if Listed(rules, layers, refs, objects) {
      PermutedListed(rules, layers, refs, objects, other);
      PermutedRows(rules, objects, other);
    }
    if Listed(rules, layers, refs, other) {
      PermutedListed(rules, layers, refs, other, objects);
    }
  }

  lemma PermutedListed(rules: Rules, layers: map<string, string>, refs: map<Place, Source>, objects: seq<Record>,
                       other: seq<Record>)
    requires multiset(objects) == multiset(other) && Listed(rules, layers, refs, objects)
    ensures Listed(rules, layers, refs, other)
  {
    hide AllApart, Fitting;
    PermutedApart(rules, objects, other);
    forall k | 0 <= k < |other| ensures Fitting(rules, layers, refs, other[k]) {
      assert other[k] in multiset(objects);
    }
    forall place | place in refs ensures exists k :: 0 <= k < |other| && FileOf(other[k]) == place {
      var k :| 0 <= k < |objects| && FileOf(objects[k]) == place;
      assert objects[k] in multiset(other);
    }
  }

  lemma PermutedRows(rules: Rules, objects: seq<Record>, other: seq<Record>)
    requires multiset(objects) == multiset(other) && AllApart(rules, objects)
    ensures RowsOf(objects) == RowsOf(other)
  {
    PermutedApart(rules, objects, other);
    RowsIndex(rules, objects);
    RowsIndex(rules, other);
    hide AllApart, RowsOf;
    var rows, rows' := RowsOf(objects), RowsOf(other);
    forall key ensures (key in rows <==> key in rows') && (key in rows ==> rows[key] == rows'[key]) {
      if key in rows {
        assert rows[key] in multiset(other);
      }
      if key in rows' {
        assert rows'[key] in multiset(objects);
      }
    }
  }

  // --- Owners ---------------------------------------------------------------------------

  /** An owner has no owner itself, unless it is a tabular section that owns an attribute. */
  predicate Nests(parent: Record, e: Record) {
    parent.owner == None || (parent.kind == "TabularSection" && e.kind == "Attribute")
  }

  /** The owner that a record names is there, at the place named. */
  predicate Anchored(rows: Rows, e: Record) {
    e.owner.Some? ==>
      && OwnerKey(e) in rows
      && rows[OwnerKey(e)].source == e.owner.value.source && rows[OwnerKey(e)].xmlPath == e.owner.value.xmlPath
      && Nests(rows[OwnerKey(e)], e)
  }

  predicate AllAnchored(rows: Rows) {
    forall key :: key in rows ==> Anchored(rows, rows[key])
  }

  ghost function OwnerKeys(rows: Rows): set<Key> {
    set key | key in rows && rows[key].owner.Some? :: OwnerKey(rows[key])
  }

  method CheckOwners(rows: Rows) returns (r: Option<set<Key>>)
    ensures r.Some? <==> AllAnchored(rows)
    ensures r.Some? ==> r.value == OwnerKeys(rows)
  {
    var left, owners := rows.Keys, {};
    while left != {}
      invariant left <= rows.Keys
      invariant forall key :: key in rows && key !in left ==> Anchored(rows, rows[key])
      invariant owners == set key | key in rows && key !in left && rows[key].owner.Some? :: OwnerKey(rows[key])
      decreases |left|
    {
      var key :| key in left;
      if !Anchored(rows, rows[key]) {
        return None;
      }
      if rows[key].owner.Some? {
        owners := owners + {OwnerKey(rows[key])};
      }
      left := left - {key};
    }
    r := Some(owners);
  }

  /** An inventory is refused as too large, as invalid, or for too many owners, in this order. */
  method Normalize(rules: Rules, layers: map<string, string>, refs: map<Place, Source>, objects: seq<Record>,
                   maxObjects: nat, maxOwners: nat) returns (r: Result<Inventory>)
    ensures var rows := RowsOf(objects);
      r == if |objects| > maxObjects then Err(Limit)
           else if !Listed(rules, layers, refs, objects) || !AllAnchored(rows) then Err(Invalid)
           else if |OwnerKeys(rows)| > maxOwners then Err(Limit)
           else Ok(Inventory(layers, rows, OwnerKeys(rows)))
  {
    hide *;
    if |objects| > maxObjects {
      return Err(Limit);
    }
    var records := CollectRecords(rules, layers, refs, objects);
    if records == None {
      return Err(Invalid);
    }
    var owners := CheckOwners(records.value);
    if owners == None {
      return Err(Invalid);
    }
    if |owners.value| > maxOwners {
      return Err(Limit);
    }
    r := Ok(Inventory(layers, records.value, owners.value));
  }

  // --- The forest -----------------------------------------------------------------------

  /** From this record at most `n` steps from owner to owner lead to one without an owner. */
  ghost predicate Rooted(rows: Rows, key: Key, n: nat)
    decreases n
  {
    key in rows && (rows[key].owner == None || (n > 0 && Rooted(rows, OwnerKey(rows[key]), n - 1)))
  }

  /** The owner after `n` steps. */
  ghost function Ancestor(rows: Rows, key: Key, n: nat): Option<Key>
    decreases n
  {
    if key !in rows then None
    else if n == 0 then Some(key)
    else if rows[key].owner == None then None
    else Ancestor(rows, OwnerKey(rows[key]), n - 1)
  }

  /** The owner that is named is there, at the path named. */
  ghost predicate Resolved(rows: Rows, e: Record) {
    e.owner.Some? ==>
      && OwnerKey(e) in rows && rows[OwnerKey(e)].source == e.owner.value.source
      && rows[OwnerKey(e)].xmlPath == e.owner.value.xmlPath
  }

  function OwnerKind(rows: Rows, e: Record): string {
    if e.owner.Some? && OwnerKey(e) in rows then rows[OwnerKey(e)].kind else ""
  }

  /** Every record reaches a root within two steps; two steps are taken from attributes of tabular sections only. */
  ghost predicate Forest(rows: Rows) {
    forall key :: key in rows ==>
      && Rooted(rows, key, 2)
      && (!Rooted(rows, key, 1) ==> rows[key].kind == "Attribute" && OwnerKind(rows, rows[key]) == "TabularSection")
  }

  /** When the rule for nesting holds for each record, every record is at most two levels below a root. */
  lemma NestedForest(rows: Rows)
    requires forall key :: key in rows && rows[key].owner.Some? ==>
      OwnerKey(rows[key]) in rows && Nests(rows[OwnerKey(rows[key])], rows[key])
    ensures Forest(rows)
  {
    forall key | key in rows
      ensures Rooted(rows, key, 2)
      ensures !Rooted(rows, key, 1) ==> rows[key].kind == "Attribute" && OwnerKind(rows, rows[key]) == "TabularSection"
    {
      if rows[key].owner.Some? {
        var parent := OwnerKey(rows[key]);
        if rows[parent].owner.Some? {
          assert rows[parent].kind == "TabularSection" != "Attribute";
          var root := OwnerKey(rows[parent]);
          assert Nests(rows[root], rows[parent]);
          assert Rooted(rows, root, 0) && Rooted(rows, parent, 1);
        } else {
          assert Rooted(rows, parent, 0) && Rooted(rows, parent, 1);
        }
      }
    }
  }

  /** The owners of an inventory are accepted exactly when every owner named is there as named and the owners form
      this forest. */
  lemma AcceptedIffForest(rows: Rows)
    ensures AllAnchored(rows) <==> (forall key :: key in rows ==> Resolved(rows, rows[key])) && Forest(rows)
  {
    if AllAnchored(rows) {
      NestedForest(rows);
    }
    if (forall key :: key in rows ==> Resolved(rows, rows[key])) && Forest(rows) {
      forall key | key in rows ensures Anchored(rows, rows[key]) {
        if rows[key].owner.Some? && rows[OwnerKey(rows[key])].owner.Some? {
          assert !Rooted(rows, OwnerKey(rows[key]), 0);
          assert !Rooted(rows, key, 1);
        }
      }
    }
  }

  /** No record owns itself, directly or over others. */
  lemma NoOwnerCycle(rows: Rows, key: Key, n: nat)
    requires Forest(rows) && key in rows && n > 0
    ensures Ancestor(rows, key, n) != Some(key) && (n > 2 ==> Ancestor(rows, key, n) == None)
  {
    assert Rooted(rows, key, 2);
    hide Forest;
    BeyondRoot(rows, key, 2, n);
    if Ancestor(rows, key, n) == Some(key) {
      AncestorAgain(rows, key, n, n);
      AncestorAgain(rows, key, n, n + n);
      BeyondRoot(rows, key, 2, n + n + n);
      assert false;
    }
  }

  lemma {:induction false} BeyondRoot(rows: Rows, key: Key, d: nat, n: nat)
    requires Rooted(rows, key, d)
    ensures n > d ==> Ancestor(rows, key, n) == None
    decreases d
  {
    if rows[key].owner.Some? && n > d {
      BeyondRoot(rows, OwnerKey(rows[key]), d - 1, n - 1);
    }
  }

  /** Steps add up. */
  lemma {:induction false} AncestorAgain(rows: Rows, key: Key, n: nat, m: nat)
    requires Ancestor(rows, key, n).Some?
    ensures Ancestor(rows, key, n + m) == Ancestor(rows, Ancestor(rows, key, n).value, m)
    decreases n
  {
    if n > 0 {
      AncestorAgain(rows, OwnerKey(rows[key]), n - 1, m);
    }
  }
}
