/** The three-way comparison of accepted inventories: what is done with every object, and why a plan that settles
    everything leaves no object without its owner. */
module IdentityPlan {
  import opened Wrappers
  import opened IdentityInventory

  datatype Reason = LayerChanged | TypeChanged | OwnerChanged | OwnerPathChanged | MissingLayer | MissingOwner

  datatype Action = Unchanged | SameChange | KeepCurrent | TakeUpstream | Conflict | Unsupported(reason: Reason)

  datatype Versions = Versions(base: Inventory, current: Inventory, upstream: Inventory) {
    function Exchanged(): Versions {
      Versions(base, upstream, current)
    }
  }

  /** A record in one version, with the document of its layer there. */
  datatype Row = Row(record: Record, layer: string)

  /** What is compared: an owner by its identity and whereabouts, not by the digest of its file. */
  datatype Projection = Projection(kind: string, name: string, xmlPath: string, owner: Option<(string, Whereabouts)>,
    layer: string,
                                   path: string, hash: string)

  datatype Whereabouts = Whereabouts(path: string, xmlPath: string)

  function OwnerAt(e: Record): Option<Whereabouts> {
    if e.owner.Some? then Some(Whereabouts(e.owner.value.source.path, e.owner.value.xmlPath)) else None
  }

  function OwnerUuid(e: Record): Option<string> {
    if e.owner.Some? then Some(e.owner.value.uuid) else None
  }

  function At(e: Record): Whereabouts {
    Whereabouts(e.source.path, e.xmlPath)
  }

  function ProjectionOf(row: Row): Projection {
    var e := row.record;
    Projection(e.kind, e.name, e.xmlPath, if e.owner.Some? then Some((e.owner.value.uuid, OwnerAt(e).value)) else None,
      row.layer,
               e.source.path, e.source.hash)
  }

  // --- Accepted inventories -------------------------------------------------------------

  /** What this comparison needs of an accepted inventory. */
  predicate Usable(v: Inventory) {
    && (forall key :: key in v.rows ==> key.layer in v.layers && KeyOf(v.rows[key]) == key)
    && AllAnchored(v.rows)
  }

  lemma AcceptedIsUsable(rules: Rules, layers: map<string, string>, refs: map<Place, Source>, objects: seq<Record>)
    requires Listed(rules, layers, refs, objects) && AllAnchored(RowsOf(objects))
    ensures Usable(Inventory(layers, RowsOf(objects), OwnerKeys(RowsOf(objects))))
  {
    RowsIndex(rules, objects);
    hide RowsOf, AllApart, AllAnchored;
  }

  predicate AllUsable(vs: Versions) {
    Usable(vs.base) && Usable(vs.current) && Usable(vs.upstream)
  }

  function RowAt(v: Inventory, key: Key): Option<Row> {
    if key in v.rows && key.layer in v.layers then Some(Row(v.rows[key], v.layers[key.layer])) else None
  }

  predicate Known(vs: Versions, key: Key) {
    key in vs.base.rows || key in vs.current.rows || key in vs.upstream.rows
  }

  // --- What is done with an object ------------------------------------------------------

  /** The action on a path or an object that two sides may have changed. */
  function Compared<T(==)>(base: T, current: T, upstream: T): Action {
    if current == upstream then if current == base then Unchanged else SameChange
    else if current == base then TakeUpstream
    else if upstream == base then KeepCurrent
    else Conflict
  }

  /** The layers in which a version has an object of this identity. */
  function LayersOf(v: Inventory, uuid: string): set<string> {
    set key | key in v.rows && key.uuid == uuid :: key.layer
  }

  predicate Elsewhere(v: Inventory, w: Inventory, uuid: string) {
    LayersOf(v, uuid) != {} && LayersOf(w, uuid) != {} && LayersOf(v, uuid) != LayersOf(w, uuid)
  }

  /** Two versions have the object in different layers. */
  predicate Moved(vs: Versions, uuid: string) {
    Elsewhere(vs.base, vs.current, uuid) || Elsewhere(vs.base, vs.upstream, uuid)
      || Elsewhere(vs.current, vs.upstream, uuid)
  }

  function Present(vs: Versions, key: Key): seq<Row> {
    Only(RowAt(vs.base, key)) + Only(RowAt(vs.current, key)) + Only(RowAt(vs.upstream, key))
  }

  function Only(row: Option<Row>): seq<Row> {
    if row.Some? then [row.value] else []
  }

  /** All rows agree about `f`. */
  predicate Agree<T(==)>(rows: seq<Row>, f: Row -> T) {
    forall i, j :: 0 <= i < |rows| && 0 <= j < |rows| ==> f(rows[i]) == f(rows[j])
  }

  /** What one version has against an object that looks like `example` where it is present. */
  function Against(v: Inventory, key: Key, example: Row): Option<Reason> {
    if key.layer !in v.layers then Some(MissingLayer)
    else if v.layers[key.layer] != example.layer then Some(LayerChanged)
    else if key !in v.rows && example.record.owner.Some? then
      var owner := Key(key.layer, example.record.owner.value.uuid);
      if owner !in v.rows then Some(MissingOwner)
      else if Some(At(v.rows[owner])) != OwnerAt(example.record) then Some(OwnerPathChanged)
      else None
    else None
  }

  function AgainstAll(vs: Versions, key: Key, example: Row): Option<Reason> {
    if Against(vs.base, key, example).Some? then Against(vs.base, key, example)
    else if Against(vs.current, key, example).Some? then Against(vs.current, key, example)
    else Against(vs.upstream, key, example)
  }

  /** Why an object cannot be compared, if it cannot. */
  function WhyNot(vs: Versions, key: Key): Option<Reason> {
    var rows := Present(vs, key);
    if Moved(vs, key.uuid) || !Agree(rows, (r: Row) => r.layer) then Some(LayerChanged)
    else if !Agree(rows, (r: Row) => r.record.kind) then Some(TypeChanged)
    else if !Agree(rows, (r: Row) => OwnerUuid(r.record)) then Some(OwnerChanged)
    else if !Agree(rows, (r: Row) => OwnerAt(r.record)) then Some(OwnerPathChanged)
    else if rows == [] then None
    else AgainstAll(vs, key, rows[0])
  }

  function Projected(row: Option<Row>): Option<Projection> {
    if row.Some? then Some(ProjectionOf(row.value)) else None
  }

  function ActionFor(vs: Versions, key: Key): Action {
    match WhyNot(vs, key)
    case Some(reason) => Unsupported(reason)
    case None => Compared(Projected(RowAt(vs.base, key)), Projected(RowAt(vs.current, key)),
      Projected(RowAt(vs.upstream, key)))
  }

  // --- Exchanging the two sides ---------------------------------------------------------

  /** The same decision seen from the other side; the first reason found may be another one. */
  predicate Mirrors(a: Action, b: Action) {
    match a
    case Unsupported(_) => b.Unsupported?
    case KeepCurrent => b == TakeUpstream
    case TakeUpstream => b == KeepCurrent
    case _ => b == a
  }

  lemma AgreeIff<T>(vs: Versions, key: Key, f: Row -> T)
    ensures Agree(Present(vs, key), f) <==> Agree(Present(vs.Exchanged(), key), f)
  {
    var rows, rows' := Present(vs, key), Present(vs.Exchanged(), key);
    SameRows(vs, key);
    hide Present;
    if Agree(rows, f) {
      forall i, j | 0 <= i < |rows'| && 0 <= j < |rows'| ensures f(rows'[i]) == f(rows'[j]) {
        assert rows'[i] in rows && rows'[j] in rows;
      }
    }
    if Agree(rows', f) {
      forall i, j | 0 <= i < |rows| && 0 <= j < |rows| ensures f(rows[i]) == f(rows[j]) {
        assert rows[i] in rows' && rows[j] in rows';
      }
    }
  }

  lemma SameRows(vs: Versions, key: Key)
    ensures forall r :: r in Present(vs, key) <==> r in Present(vs.Exchanged(), key)
  {
  }

  /** An object counts against two examples alike when they agree. */
  lemma AgainstAlike(v: Inventory, key: Key, r: Row, q: Row)
    requires r.layer == q.layer && OwnerUuid(r.record) == OwnerUuid(q.record) && OwnerAt(r.record) == OwnerAt(q.record)
    ensures Against(v, key, r) == Against(v, key, q)
  {
  }

  lemma WhyNotBothWays(vs: Versions, key: Key)
    ensures WhyNot(vs, key).Some? <==> WhyNot(vs.Exchanged(), key).Some?
  {
    hide Present, Agree, Against, LayersOf;
    AgreeIff(vs, key, (r: Row) => r.layer);
    AgreeIff(vs, key, (r: Row) => r.record.kind);
    AgreeIff(vs, key, (r: Row) => OwnerUuid(r.record));
    AgreeIff(vs, key, (r: Row) => OwnerAt(r.record));
    SameRows(vs, key);
    var rows, rows' := Present(vs, key), Present(vs.Exchanged(), key);
    if rows != [] {
      assert rows[0] in rows';
    }
    if rows' != [] {
      assert rows'[0] in rows;
    }
    if rows != [] && rows' != [] && Agree(rows, (r: Row) => r.layer) && Agree(rows, (r: Row) => OwnerUuid(r.record))
        && Agree(rows, (r: Row) => OwnerAt(r.record)) {
      ExamplesAgree(rows, rows[0], rows'[0]);
      AgainstAlike(vs.base, key, rows[0], rows'[0]);
      AgainstAlike(vs.current, key, rows[0], rows'[0]);
      AgainstAlike(vs.upstream, key, rows[0], rows'[0]);
    }
  }

  lemma ExamplesAgree(rows: seq<Row>, r: Row, q: Row)
    requires r in rows && q in rows
    requires Agree(rows, (r: Row) => r.layer) && Agree(rows, (r: Row) => OwnerUuid(r.record))
    requires Agree(rows, (r: Row) => OwnerAt(r.record))
    ensures r.layer == q.layer && OwnerUuid(r.record) == OwnerUuid(q.record) && OwnerAt(r.record) == OwnerAt(q.record)
  {
  }

  /** Exchanging current and upstream exchanges what is kept with what is taken, and nothing else. */
  lemma ExchangeSides(vs: Versions, key: Key)
    ensures Mirrors(ActionFor(vs, key), ActionFor(vs.Exchanged(), key))
  {
    WhyNotBothWays(vs, key);
    hide WhyNot, RowAt, Projected;
  }

  // --- A settled plan -------------------------------------------------------------------

  ghost predicate Settled(vs: Versions) {
    forall key :: Known(vs, key) ==> !ActionFor(vs, key).Conflict? && !ActionFor(vs, key).Unsupported?
  }

  /** The record that the action selects; deletions select none. */
  function Chosen(vs: Versions, key: Key): Option<Record> {
    var v := if ActionFor(vs, key).TakeUpstream? then vs.upstream else vs.current;
    if key in v.rows then Some(v.rows[key]) else None
  }

  /** All selected records. */
  function Selected(vs: Versions): Rows {
    map key | key in vs.current.rows.Keys + vs.upstream.rows.Keys && Chosen(vs, key).Some? :: Chosen(vs, key).value
  }

  /** The owner that a record names is there, at its whereabouts. */
  ghost predicate Stands(rows: Rows, e: Record) {
    e.owner.Some? ==> OwnerKey(e) in rows && Some(At(rows[OwnerKey(e)])) == OwnerAt(e) && Nests(rows[OwnerKey(e)], e)
  }

  lemma ComparableParts(vs: Versions, key: Key, w: Inventory)
    requires WhyNot(vs, key) == None && Present(vs, key) != [] && w in [vs.base, vs.current, vs.upstream]
    ensures var rows := Present(vs, key);
      && Agree(rows, (r: Row) => r.layer) && Agree(rows, (r: Row) => r.record.kind)
      && Agree(rows, (r: Row) => OwnerUuid(r.record)) && Agree(rows, (r: Row) => OwnerAt(r.record))
      && Against(w, key, rows[0]) == None
  {
    hide Present, Against, Agree, Moved, OwnerUuid, OwnerAt;
  }

  lemma InPresent(vs: Versions, key: Key, v: Inventory)
    requires AllUsable(vs) && v in [vs.base, vs.current, vs.upstream] && key in v.rows
    ensures key.layer in v.layers && Row(v.rows[key], v.layers[key.layer]) in Present(vs, key)
  {
    hide AllAnchored;
  }

  lemma KindsAgree(rows: seq<Row>, r: Row, q: Row)
    requires r in rows && q in rows && Agree(rows, (r: Row) => r.record.kind)
    ensures r.record.kind == q.record.kind
  {
  }

  lemma OwnerAmong(w: Inventory, key: Key, example: Row)
    requires Against(w, key, example) == None && key !in w.rows && example.record.owner.Some?
    ensures var owner := Key(key.layer, example.record.owner.value.uuid);
      owner in w.rows && Some(At(w.rows[owner])) == OwnerAt(example.record)
  {
    hide At, OwnerAt;
  }

  /** A version of a comparable object has an object that agrees with any other, or has its owner. */
  lemma Comparable(vs: Versions, key: Key, v: Inventory, w: Inventory)
    requires AllUsable(vs) && WhyNot(vs, key) == None && key in v.rows
    requires v in [vs.base, vs.current, vs.upstream] && w in [vs.base, vs.current, vs.upstream]
    ensures key in w.rows ==>
      && w.rows[key].kind == v.rows[key].kind && OwnerUuid(w.rows[key]) == OwnerUuid(v.rows[key])
      && OwnerAt(w.rows[key]) == OwnerAt(v.rows[key])
    ensures key !in w.rows && v.rows[key].owner.Some? ==>
      var owner := Key(key.layer, v.rows[key].owner.value.uuid);
      owner in w.rows && Some(At(w.rows[owner])) == OwnerAt(v.rows[key])
  {
    hide *;
    InPresent(vs, key, v);
    ComparableParts(vs, key, w);
    var rows, row := Present(vs, key), Row(v.rows[key], v.layers[key.layer]);
    if key in w.rows {
      InPresent(vs, key, w);
      var other := Row(w.rows[key], w.layers[key.layer]);
      ExamplesAgree(rows, row, other);
      KindsAgree(rows, row, other);
    } else if v.rows[key].owner.Some? {
      ExamplesAgree(rows, rows[0], row);
      AgainstAlike(w, key, rows[0], row);
      OwnerAmong(w, key, row);
    }
  }

  lemma UsableParts(vs: Versions, v: Inventory, key: Key)
    requires AllUsable(vs) && v in [vs.base, vs.current, vs.upstream] && key in v.rows
    ensures KeyOf(v.rows[key]) == key
    ensures v.rows[key].owner.Some? ==>
      var owner := OwnerKey(v.rows[key]);
      owner in v.rows && Some(At(v.rows[owner])) == OwnerAt(v.rows[key]) && Nests(v.rows[owner], v.rows[key])
  {
    hide Nests;
    assert Anchored(v.rows, v.rows[key]);
  }

  /** A comparable object with an owner has its owner in every version, at the same whereabouts. */
  lemma OwnerEverywhere(vs: Versions, key: Key, v: Inventory, w: Inventory)
    requires AllUsable(vs) && WhyNot(vs, key) == None && v in [vs.base, vs.current, vs.upstream]
    requires w in [vs.base, vs.current, vs.upstream]
    requires key in v.rows && v.rows[key].owner.Some?
    ensures var owner := OwnerKey(v.rows[key]);
      owner.layer == key.layer && owner in w.rows && Some(At(w.rows[owner])) == OwnerAt(v.rows[key])
  {
    hide WhyNot, AllUsable, At, OwnerAt, Nests;
    Comparable(vs, key, v, w);
    UsableParts(vs, v, key);
    if key in w.rows {
      UsableParts(vs, w, key);
    }
  }

  /** Where an object is in every version, it is selected in one of them. */
  lemma ChosenFrom(vs: Versions, key: Key)
    requires Chosen(vs, key).Some?
    ensures exists v :: v in [vs.current, vs.upstream] && key in v.rows && Chosen(vs, key) == Some(v.rows[key])
  {
    hide ActionFor;
    var v := if ActionFor(vs, key).TakeUpstream? then vs.upstream else vs.current;
    assert v in [vs.current, vs.upstream];
  }

  lemma PresentIsChosen(vs: Versions, key: Key)
    requires key in vs.current.rows && key in vs.upstream.rows
    ensures key in Selected(vs) && Selected(vs)[key] == Chosen(vs, key).value
  {
    hide ActionFor;
  }

  /** A plan without conflicts and unsupported objects selects an inventory in which every owner named is there, at
      the path named, although current and upstream may each have removed objects; and its owners form a forest. */
  lemma SettledSelectsForest(vs: Versions)
    requires AllUsable(vs) && Settled(vs)
    ensures forall key :: key in Selected(vs) ==>
      KeyOf(Selected(vs)[key]) == key && Stands(Selected(vs), Selected(vs)[key])
    ensures Forest(Selected(vs))
  {
    hide *;
    var rows := Selected(vs);
    forall key | key in rows ensures KeyOf(rows[key]) == key && Stands(rows, rows[key]) {
      SelectedStands(vs, key);
    }
    StandingNests(rows);
    NestedForest(rows);
  }

  lemma StandingNests(rows: Rows)
    requires forall key :: key in rows ==> Stands(rows, rows[key])
    ensures forall key :: key in rows && rows[key].owner.Some? ==>
      OwnerKey(rows[key]) in rows && Nests(rows[OwnerKey(rows[key])], rows[key])
  {
    hide Nests;
  }

  lemma SelectedIsChosen(vs: Versions, key: Key)
    requires key in Selected(vs)
    ensures Chosen(vs, key) == Some(Selected(vs)[key]) && Known(vs, key)
  {
    hide ActionFor;
  }

  lemma SettledIsComparable(vs: Versions, key: Key)
    requires Settled(vs) && Known(vs, key)
    ensures WhyNot(vs, key) == None
  {
    hide WhyNot, Compared, Known;
    assert !ActionFor(vs, key).Unsupported?;
  }

  lemma SelectedStands(vs: Versions, key: Key)
    requires AllUsable(vs) && Settled(vs) && key in Selected(vs)
    ensures KeyOf(Selected(vs)[key]) == key && Stands(Selected(vs), Selected(vs)[key])
  {
    hide *;
    SelectedIsChosen(vs, key);
    SettledIsComparable(vs, key);
    ChosenFrom(vs, key);
    var v :| v in [vs.current, vs.upstream] && key in v.rows && Chosen(vs, key) == Some(v.rows[key]);
    assert v in [vs.base, vs.current, vs.upstream];
    UsableParts(vs, v, key);
    var e := v.rows[key];
    if e.owner.Some? {
      OwnerSelected(vs, key, v);
    }
    StandsBy(Selected(vs), e);
  }

  lemma StandsBy(rows: Rows, e: Record)
    requires e.owner.Some? ==>
      OwnerKey(e) in rows && Some(At(rows[OwnerKey(e)])) == OwnerAt(e) && Nests(rows[OwnerKey(e)], e)
    ensures Stands(rows, e)
  {
    hide Nests;
  }

  lemma OwnerSelected(vs: Versions, key: Key, v: Inventory)
    requires AllUsable(vs) && Settled(vs) && WhyNot(vs, key) == None && v in [vs.base, vs.current, vs.upstream]
    requires key in v.rows && v.rows[key].owner.Some?
    ensures var e := v.rows[key]; var rows := Selected(vs);
      OwnerKey(e) in rows && Some(At(rows[OwnerKey(e)])) == OwnerAt(e) && Nests(rows[OwnerKey(e)], e)
  {
    hide *;
    var e := v.rows[key];
    var owner := OwnerKey(e);
    assert vs.current in [vs.base, vs.current, vs.upstream] && vs.upstream in [vs.base, vs.current, vs.upstream];
    OwnerEverywhere(vs, key, v, vs.current);
    OwnerEverywhere(vs, key, v, vs.upstream);
    OwnerEverywhere(vs, key, v, v);
    UsableParts(vs, v, key);
    PresentIsChosen(vs, owner);
    SelectedIsChosen(vs, owner);
    ChosenFrom(vs, owner);
    var w :| w in [vs.current, vs.upstream] && owner in w.rows && Chosen(vs, owner) == Some(w.rows[owner]);
    SettledIsComparable(vs, owner);
    Comparable(vs, owner, v, w);
    SameNesting(v.rows[owner], w.rows[owner], e);
  }

  lemma SameNesting(parent: Record, other: Record, e: Record)
    requires parent.kind == other.kind && OwnerUuid(parent) == OwnerUuid(other) && Nests(parent, e)
    ensures Nests(other, e)
  {
  }

  /** An object whose owner is missing or elsewhere in some version is not compared. */
  lemma LostOwnerIsUnsupported(vs: Versions, key: Key, v: Inventory, w: Inventory)
    requires AllUsable(vs) && v in [vs.base, vs.current, vs.upstream] && w in [vs.base, vs.current, vs.upstream]
    requires key in v.rows && v.rows[key].owner.Some?
    requires OwnerKey(v.rows[key]) !in w.rows || Some(At(w.rows[OwnerKey(v.rows[key])])) != OwnerAt(v.rows[key])
    ensures ActionFor(vs, key).Unsupported?
  {
    hide WhyNot, Compared, AllUsable;
    if WhyNot(vs, key) == None {
      OwnerEverywhere(vs, key, v, w);
    }
  }

  // --- What a settled plan does not exclude ---------------------------------------------

  ghost predicate LocationsApart(rows: Rows) {
    forall a, b :: a in rows && b in rows && a != b ==> LocationOf(rows[a]) != LocationOf(rows[b])
  }

  lemma AcceptedIsApart(rules: Rules, objects: seq<Record>)
    requires AllApart(rules, objects)
    ensures LocationsApart(RowsOf(objects))
  {
    RowsIndex(rules, objects);
    var rows := RowsOf(objects);
    hide RowsOf;
    forall a, b | a in rows && b in rows && a != b ensures LocationOf(rows[a]) != LocationOf(rows[b]) {
      var i, j :| 0 <= i < |objects| && 0 <= j < |objects| && objects[i] == rows[a] && objects[j] == rows[b];
      ApartBothWays(rules, objects[i], objects[j]);
    }
  }

  /** Current keeps one object and upstream brings another one to the same location. */
  ghost predicate Collide(vs: Versions, a: Key, b: Key) {
    && a in vs.current.rows && b in vs.upstream.rows && ActionFor(vs, a).KeepCurrent? && ActionFor(vs, b).TakeUpstream?
    && LocationOf(vs.current.rows[a]) == LocationOf(vs.upstream.rows[b])
  }

  /** Two selected objects claim one location exactly when each side brings its own object there. */
  lemma LocationsApartExactly(vs: Versions)
    requires AllUsable(vs) && Settled(vs) && LocationsApart(vs.current.rows) && LocationsApart(vs.upstream.rows)
    ensures LocationsApart(Selected(vs)) <==> !exists a, b :: Collide(vs, a, b)
  {
    hide *;
    if a, b :| Collide(vs, a, b) {
      CollideMeans(vs, a, b);
      NotApart(Selected(vs), a, b);
    }
    if !LocationsApart(Selected(vs)) {
      var a, b := TogetherSomewhere(Selected(vs));
      SelectedCollide(vs, a, b);
    }
  }

  lemma NotApart(rows: Rows, a: Key, b: Key)
    requires a in rows && b in rows && a != b && LocationOf(rows[a]) == LocationOf(rows[b])
    ensures !LocationsApart(rows)
  {
  }

  lemma TogetherSomewhere(rows: Rows) returns (a: Key, b: Key)
    requires !LocationsApart(rows)
    ensures a in rows && b in rows && a != b && LocationOf(rows[a]) == LocationOf(rows[b])
  {
    a, b :| a in rows && b in rows && a != b && LocationOf(rows[a]) == LocationOf(rows[b]);
  }

  lemma CollideMeans(vs: Versions, a: Key, b: Key)
    requires Collide(vs, a, b)
    ensures a in Selected(vs) && b in Selected(vs) && a != b
    ensures LocationOf(Selected(vs)[a]) == LocationOf(Selected(vs)[b])
  {
    hide ActionFor, LocationOf;
  }

  /** The location of an object that both sides have alike is the same on both sides. */
  lemma SelectedLocation(vs: Versions, key: Key)
    requires AllUsable(vs) && Settled(vs) && key in Selected(vs)
    ensures ActionFor(vs, key) in {Unchanged, SameChange, KeepCurrent, TakeUpstream}
    ensures !ActionFor(vs, key).TakeUpstream? ==>
      key in vs.current.rows && LocationOf(Selected(vs)[key]) == LocationOf(vs.current.rows[key])
    ensures !ActionFor(vs, key).KeepCurrent? ==>
      key in vs.upstream.rows && LocationOf(Selected(vs)[key]) == LocationOf(vs.upstream.rows[key])
  {
    hide WhyNot, AllAnchored;
    SelectedIsChosen(vs, key);
    assert Known(vs, key);
    if !ActionFor(vs, key).TakeUpstream? && !ActionFor(vs, key).KeepCurrent? {
      assert Projected(RowAt(vs.current, key)) == Projected(RowAt(vs.upstream, key));
    }
  }

  lemma SelectedCollide(vs: Versions, a: Key, b: Key)
    requires AllUsable(vs) && Settled(vs) && LocationsApart(vs.current.rows) && LocationsApart(vs.upstream.rows)
    requires a in Selected(vs) && b in Selected(vs) && a != b
    requires LocationOf(Selected(vs)[a]) == LocationOf(Selected(vs)[b])
    ensures Collide(vs, a, b) || Collide(vs, b, a)
  {
    hide ActionFor, LocationOf, AllUsable, Settled, Selected;
    SelectedLocation(vs, a);
    SelectedLocation(vs, b);
  }

  /** An object without an owner that one side has added, on a layer that all versions have alike. */
  lemma AddedAlone(vs: Versions, key: Key, row: Row, ours: bool)
    requires Present(vs, key) == [row] && row.record.owner == None && !Moved(vs, key.uuid)
    requires forall v :: v in [vs.base, vs.current, vs.upstream] ==>
      key.layer in v.layers && v.layers[key.layer] == row.layer
    requires RowAt(vs.base, key) == None
    requires if ours then RowAt(vs.current, key) == Some(row) && RowAt(vs.upstream, key) == None
      else RowAt(vs.current, key) == None && RowAt(vs.upstream, key) == Some(row)
    ensures ActionFor(vs, key) == if ours then KeepCurrent else TakeUpstream
  {
    hide Present, Moved;
    assert vs.base in [vs.base, vs.current, vs.upstream] && vs.current in [vs.base, vs.current, vs.upstream];
    assert vs.upstream in [vs.base, vs.current, vs.upstream];
  }

  /** Each side adds an object at the same location: the plan is settled, and selects both. */
  lemma BothAdd() returns (vs: Versions)
    ensures AllUsable(vs) && Settled(vs) && LocationsApart(vs.current.rows) && LocationsApart(vs.upstream.rows)
    ensures !LocationsApart(Selected(vs))
  {
    var layers := map["l" := "L"];
    var source := Source("l", "Catalogs/A/A.mdo", "h");
    var ours := Record("1", "Catalog", "A", "a", "/Catalog", None, source);
    var theirs := ours.(uuid := "2");
    var (a, b) := (Key("l", "1"), Key("l", "2"));
    vs := Versions(Inventory(layers, map[], {}), Inventory(layers, map[a := ours], {}),
      Inventory(layers, map[b := theirs], {}));
    hide ActionFor;
    AddedAlone(vs, a, Row(ours, "L"), true);
    AddedAlone(vs, b, Row(theirs, "L"), false);
    assert forall key :: Known(vs, key) ==> key == a || key == b;
    assert Collide(vs, a, b);
    LocationsApartExactly(vs);
  }
}
