/** Inventories and plans told from the fields of the records: which records may not stand together, when an object
    is not compared, and what each action says about the three versions. */
module IdentityOutcomes {
  import opened Wrappers
  import opened IdentityInventory
  import opened IdentityPlan

  // --- Records that may not stand together ----------------------------------------------

  ghost predicate SameOwner(a: Record, b: Record) {
    if a.owner.Some? then b.owner.Some? && a.owner.value.uuid == b.owner.value.uuid else b.owner == None
  }

  /** Two records of one layer with one identity, one place, one name among siblings, or one index below an owner. */
  ghost predicate Collides(rules: Rules, a: Record, b: Record) {
    && a.source.layer == b.source.layer
    && (|| a.uuid == b.uuid
        || (a.source.path == b.source.path && a.xmlPath == b.xmlPath)
        || (a.kind == b.kind && a.folded == b.folded && SameOwner(a, b))
        || (a.source.path == b.source.path && a.owner.Some? && b.owner.Some?
             && a.owner.value.xmlPath == b.owner.value.xmlPath
             && rules.position(a).Some? && rules.position(a) == rules.position(b)))
  }

  /** The record suits its layer and its file. */
  ghost predicate Belongs(rules: Rules, layers: map<string, string>, refs: map<Place, Source>, e: Record) {
    && rules.proper(e) && e.source.layer in layers
    && var place := Place(e.source.layer, e.source.path);
       place in refs && refs[place].layer == e.source.layer && refs[place].path == e.source.path
         && refs[place].hash == e.source.hash
  }

  /** A list of records is accepted if and only if every record suits layer and file, no two of them collide, and every
      file has a record. */
  lemma ListedExactly(rules: Rules, layers: map<string, string>, refs: map<Place, Source>, objects: seq<Record>)
    ensures Listed(rules, layers, refs, objects) <==>
      && (forall k :: 0 <= k < |objects| ==> Belongs(rules, layers, refs, objects[k]))
      && (forall j, k :: 0 <= j < k < |objects| ==> !Collides(rules, objects[j], objects[k]))
      && forall place :: place in refs ==>
           exists k :: 0 <= k < |objects| && objects[k].source.layer == place.layer
             && objects[k].source.path == place.path
  {
    forall k | 0 <= k < |objects|
      ensures Fitting(rules, layers, refs, objects[k]) <==> Belongs(rules, layers, refs, objects[k])
    {
    }
    forall j, k | 0 <= j < k < |objects|
      ensures Apart(rules, objects[j], objects[k]) <==> !Collides(rules, objects[j], objects[k])
    {
      ApartIff(rules, objects[j], objects[k]);
    }
    hide Fitting, Belongs, Apart, Collides;
  }

  lemma ApartIff(rules: Rules, a: Record, b: Record)
    ensures Apart(rules, a, b) <==> !Collides(rules, a, b)
  {
  }

  // --- Objects that are alike -----------------------------------------------------------

  ghost predicate SameOwnerThere(a: Record, b: Record) {
    if a.owner.Some? then
      && b.owner.Some? && a.owner.value.uuid == b.owner.value.uuid
      && a.owner.value.source.path == b.owner.value.source.path && a.owner.value.xmlPath == b.owner.value.xmlPath
    else b.owner == None
  }

  /** Two versions lack the object, or have it with the same kind, name, place, owner, layer document and file. */
  ghost predicate Alike(v: Inventory, w: Inventory, key: Key) {
    && (key in v.rows <==> key in w.rows)
    && (key in v.rows && key in w.rows && key.layer in v.layers && key.layer in w.layers ==>
      var (a, b) := (v.rows[key], w.rows[key]);
      && v.layers[key.layer] == w.layers[key.layer]
      && a.kind == b.kind && a.name == b.name && a.xmlPath == b.xmlPath && SameOwnerThere(a, b)
      && a.source.path == b.source.path && a.source.hash == b.source.hash)
  }

  lemma AlikeIff(v: Inventory, w: Inventory, key: Key)
    requires Usable(v) && Usable(w)
    ensures Projected(RowAt(v, key)) == Projected(RowAt(w, key)) <==> Alike(v, w, key)
  {
    hide AllAnchored;
  }

  /** Of an object that is compared: it is unchanged if all three versions have it alike, changed alike if only base
      differs, taken from upstream if only upstream differs, kept from current if only current differs, and in
      conflict otherwise. */
  lemma ActionsExactly(vs: Versions, key: Key)
    requires AllUsable(vs) && !ActionFor(vs, key).Unsupported?
    ensures var (bc, bu, cu) := (Alike(vs.base, vs.current, key), Alike(vs.base, vs.upstream, key),
      Alike(vs.current, vs.upstream, key));
      && (ActionFor(vs, key) == Unchanged <==> bc && bu && cu)
      && (ActionFor(vs, key) == SameChange <==> cu && !bc)
      && (ActionFor(vs, key) == TakeUpstream <==> bc && !bu)
      && (ActionFor(vs, key) == KeepCurrent <==> bu && !bc)
      && (ActionFor(vs, key) == Conflict <==> !bc && !bu && !cu)
  {
    hide WhyNot, Projected, Alike, Usable;
    AlikeIff(vs.base, vs.current, key);
    AlikeIff(vs.base, vs.upstream, key);
    AlikeIff(vs.current, vs.upstream, key);
  }

  /** A settled plan selects what current made of an object it changed, what upstream made of one that only upstream
      changed, and what current has otherwise; deletions included. */
  lemma SelectedExactly(vs: Versions, key: Key)
    requires AllUsable(vs) && Settled(vs) && Known(vs, key)
    ensures var v :=
      if Alike(vs.base, vs.current, key) && !Alike(vs.base, vs.upstream, key) then vs.upstream else vs.current;
      && (key in Selected(vs) <==> key in v.rows)
      && (key in v.rows ==> Selected(vs)[key] == v.rows[key])
  {
    assert !ActionFor(vs, key).Unsupported?;
    ActionsExactly(vs, key);
    hide ActionFor, Alike, Usable;
  }

  // --- Objects that are not compared ----------------------------------------------------

  ghost function Three(vs: Versions): seq<Inventory> {
    [vs.base, vs.current, vs.upstream]
  }

  /** Two versions have objects of this identity, but not in the same layers. */
  ghost predicate Wanders(vs: Versions, uuid: string) {
    exists v, w :: v in Three(vs) && w in Three(vs)
      && (exists l :: Key(l, uuid) in v.rows && Key(l, uuid) !in w.rows) && exists l :: Key(l, uuid) in w.rows
  }

  /** The object as a version has it, with the document of its layer there. */
  ghost function RowIn(v: Inventory, key: Key): Row
    requires key in v.rows
  {
    Row(v.rows[key], if key.layer in v.layers then v.layers[key.layer] else "")
  }

  ghost predicate Has(vs: Versions, v: Inventory, key: Key) {
    v in Three(vs) && key in v.rows
  }

  /** Two versions that have the object differ. */
  ghost predicate DifferBy(vs: Versions, key: Key, differ: (Row, Row) -> bool) {
    exists v, w :: Has(vs, v, key) && Has(vs, w, key) && differ(RowIn(v, key), RowIn(w, key))
  }

  ghost predicate LayersDiffer(vs: Versions, key: Key) {
    DifferBy(vs, key, (a: Row, b: Row) => a.layer != b.layer)
  }

  ghost predicate KindsDiffer(vs: Versions, key: Key) {
    DifferBy(vs, key, (a: Row, b: Row) => a.record.kind != b.record.kind)
  }

  ghost predicate OwnersDiffer(vs: Versions, key: Key) {
    DifferBy(vs, key, (a: Row, b: Row) => !SameOwner(a.record, b.record))
  }

  ghost predicate OwnerPlacesDiffer(vs: Versions, key: Key) {
    DifferBy(vs, key, (a: Row, b: Row) => !SameOwnerThere(a.record, b.record))
  }

  /** What version `w` has against comparing an object that version `v` has. */
  ghost function Objection(v: Inventory, w: Inventory, key: Key): Option<Reason>
    requires key in v.rows && key.layer in v.layers
  {
    if key.layer !in w.layers then Some(MissingLayer)
    else if w.layers[key.layer] != v.layers[key.layer] then Some(LayerChanged)
    else if key in w.rows || v.rows[key].owner == None then None
    else
      var owner := v.rows[key].owner.value;
      var at := Key(key.layer, owner.uuid);
      if at !in w.rows then Some(MissingOwner)
      else if w.rows[at].source.path != owner.source.path || w.rows[at].xmlPath != owner.xmlPath
        then Some(OwnerPathChanged)
      else None
  }

  lemma MovedIff(vs: Versions, uuid: string)
    ensures Moved(vs, uuid) <==> Wanders(vs, uuid)
  {
    ElsewhereIff(vs.base, vs.current, uuid);
    ElsewhereIff(vs.base, vs.upstream, uuid);
    ElsewhereIff(vs.current, vs.upstream, uuid);
    hide Elsewhere;
    var t := Three(vs);
    assert vs.base in t && vs.current in t && vs.upstream in t;
    assert forall v :: v in t <==> v == vs.base || v == vs.current || v == vs.upstream;
    hide Three;
  }

  /** One of the two versions has the identity in a layer in which the other one has not, and both have it. */
  lemma ElsewhereIff(v: Inventory, w: Inventory, uuid: string)
    ensures Elsewhere(v, w, uuid) <==>
      || ((exists l :: Key(l, uuid) in v.rows && Key(l, uuid) !in w.rows) && exists l :: Key(l, uuid) in w.rows)
      || ((exists l :: Key(l, uuid) in w.rows && Key(l, uuid) !in v.rows) && exists l :: Key(l, uuid) in v.rows)
  {
    LayersAre(v, uuid);
    LayersAre(w, uuid);
    hide LayersOf;
    var (x, y) := (LayersOf(v, uuid), LayersOf(w, uuid));
    assert x != y <==> (exists l :: l in x && l !in y) || exists l :: l in y && l !in x;
    assert x != {} <==> exists l :: l in x;
    assert y != {} <==> exists l :: l in y;
  }

  lemma LayersAre(v: Inventory, uuid: string)
    ensures forall l :: l in LayersOf(v, uuid) <==> Key(l, uuid) in v.rows
  {
    forall l | Key(l, uuid) in v.rows ensures l in LayersOf(v, uuid) {
      assert Key(l, uuid).layer == l && Key(l, uuid).uuid == uuid;
    }
  }

  /** The rows of the versions that have the object. */
  lemma PresentIs(vs: Versions, key: Key)
    requires AllUsable(vs)
    ensures forall v :: Has(vs, v, key) ==> RowIn(v, key) in Present(vs, key)
    ensures forall r :: r in Present(vs, key) ==> exists v :: Has(vs, v, key) && r == RowIn(v, key)
  {
    hide AllAnchored;
    var t := Three(vs);
    assert vs.base in t && vs.current in t && vs.upstream in t;
    assert forall v :: v in t <==> v == vs.base || v == vs.current || v == vs.upstream;
    assert key in vs.base.rows ==> Has(vs, vs.base, key);
    assert key in vs.current.rows ==> Has(vs, vs.current, key);
    assert key in vs.upstream.rows ==> Has(vs, vs.upstream, key);
    hide Three;
  }

  lemma AgreeOver<T>(vs: Versions, key: Key, f: Row -> T, differ: (Row, Row) -> bool)
    requires AllUsable(vs)
    requires forall r, q :: r in Present(vs, key) && q in Present(vs, key) ==> (differ(r, q) <==> f(r) != f(q))
    ensures !Agree(Present(vs, key), f) <==> DifferBy(vs, key, differ)
  {
    hide Present, AllUsable, RowIn, Three;
    PresentIs(vs, key);
    var rows := Present(vs, key);
    if !Agree(rows, f) {
      var i, j :| 0 <= i < |rows| && 0 <= j < |rows| && f(rows[i]) != f(rows[j]);
      assert rows[i] in rows && rows[j] in rows;
      var v :| Has(vs, v, key) && rows[i] == RowIn(v, key);
      var w :| Has(vs, w, key) && rows[j] == RowIn(w, key);
      assert differ(RowIn(v, key), RowIn(w, key));
    }
    if DifferBy(vs, key, differ) {
      SomeDiffer(vs, key, f, differ);
    }
  }

  lemma SomeDiffer<T>(vs: Versions, key: Key, f: Row -> T, differ: (Row, Row) -> bool)
    requires AllUsable(vs) && DifferBy(vs, key, differ)
    requires forall r, q :: r in Present(vs, key) && q in Present(vs, key) ==> (differ(r, q) <==> f(r) != f(q))
    ensures !Agree(Present(vs, key), f)
  {
    PresentIs(vs, key);
    hide Present, AllUsable;
    var v, w :| Has(vs, v, key) && Has(vs, w, key) && differ(RowIn(v, key), RowIn(w, key));
    assert RowIn(v, key) in Present(vs, key) && RowIn(w, key) in Present(vs, key);
  }

  lemma DifferencesAre(vs: Versions, key: Key)
    requires AllUsable(vs)
    ensures var rows := Present(vs, key);
      && (!Agree(rows, (r: Row) => r.layer) <==> LayersDiffer(vs, key))
      && (!Agree(rows, (r: Row) => r.record.kind) <==> KindsDiffer(vs, key))
      && (!Agree(rows, (r: Row) => OwnerUuid(r.record)) <==> OwnersDiffer(vs, key))
      && (Agree(rows, (r: Row) => OwnerUuid(r.record)) ==>
           (!Agree(rows, (r: Row) => OwnerAt(r.record)) <==> OwnerPlacesDiffer(vs, key)))
  {
    hide Present, AllUsable, DifferBy;
    AgreeOver(vs, key, (r: Row) => r.layer, (a: Row, b: Row) => a.layer != b.layer);
    AgreeOver(vs, key, (r: Row) => r.record.kind, (a: Row, b: Row) => a.record.kind != b.record.kind);
    AgreeOver(vs, key, (r: Row) => OwnerUuid(r.record), (a: Row, b: Row) => !SameOwner(a.record, b.record));
    if Agree(Present(vs, key), (r: Row) => OwnerUuid(r.record)) {
      OwnersAgree(Present(vs, key));
      AgreeOver(vs, key, (r: Row) => OwnerAt(r.record), (a: Row, b: Row) => !SameOwnerThere(a.record, b.record));
    }
  }

  lemma OwnersAgree(rows: seq<Row>)
    requires Agree(rows, (r: Row) => OwnerUuid(r.record))
    ensures forall r, q :: r in rows && q in rows ==>
      (!SameOwnerThere(r.record, q.record) <==> OwnerAt(r.record) != OwnerAt(q.record))
  {
    forall r, q | r in rows && q in rows ensures OwnerUuid(r.record) == OwnerUuid(q.record) {
    }
  }

  lemma AgainstIs(v: Inventory, w: Inventory, key: Key)
    requires key in v.rows && key.layer in v.layers
    ensures Against(w, key, Row(v.rows[key], v.layers[key.layer])) == Objection(v, w, key)
  {
  }

  /** The version that the others are held against: the first one that has the object. */
  ghost function First(vs: Versions, key: Key): Inventory {
    if key in vs.base.rows then vs.base else if key in vs.current.rows then vs.current else vs.upstream
  }

  /** An object is not compared for the first of these reasons: its identity wanders between layers or its layer has
      changed, its kind, its owner, the place of its owner; then the first objection of a version, in order. */
  lemma UnsupportedExactly(vs: Versions, key: Key)
    requires AllUsable(vs) && Known(vs, key)
    ensures var a := ActionFor(vs, key);
      var v := First(vs, key);
      key in v.rows && key.layer in v.layers &&
      if Wanders(vs, key.uuid) || LayersDiffer(vs, key) then a == Unsupported(LayerChanged)
      else if KindsDiffer(vs, key) then a == Unsupported(TypeChanged)
      else if OwnersDiffer(vs, key) then a == Unsupported(OwnerChanged)
      else if OwnerPlacesDiffer(vs, key) then a == Unsupported(OwnerPathChanged)
      else if Objection(v, vs.base, key).Some? then a == Unsupported(Objection(v, vs.base, key).value)
      else if Objection(v, vs.current, key).Some? then a == Unsupported(Objection(v, vs.current, key).value)
      else if Objection(v, vs.upstream, key).Some? then a == Unsupported(Objection(v, vs.upstream, key).value)
      else !a.Unsupported?
  {
    hide Moved, Agree, Wanders, LayersDiffer, KindsDiffer, OwnersDiffer, OwnerPlacesDiffer, Against, Objection;
    hide AllAnchored;
    MovedIff(vs, key.uuid);
    DifferencesAre(vs, key);
    var v := First(vs, key);
    FirstIsFirst(vs, key);
    AgainstIs(v, vs.base, key);
    AgainstIs(v, vs.current, key);
    AgainstIs(v, vs.upstream, key);
    hide Present, Projected, Compared;
    ComparedIsSupported(Projected(RowAt(vs.base, key)), Projected(RowAt(vs.current, key)),
      Projected(RowAt(vs.upstream, key)));
  }

  lemma ComparedIsSupported<T>(base: T, current: T, upstream: T)
    ensures !Compared(base, current, upstream).Unsupported?
  {
  }

  lemma FirstIsFirst(vs: Versions, key: Key)
    requires AllUsable(vs) && Known(vs, key)
    ensures var v := First(vs, key);
      && key in v.rows && key.layer in v.layers
      && Present(vs, key) != [] && Present(vs, key)[0] == Row(v.rows[key], v.layers[key.layer])
  {
    hide AllAnchored;
  }
}
