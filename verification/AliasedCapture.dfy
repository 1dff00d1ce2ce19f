/** Capturing a caller's value that may share or even contain itself: every container is copied once, copies
    are reused for aliases, cycles are refused, and the canonical size is added up on the way. */
module AliasedCapture {
  import opened Wrappers
  import opened Utf8
  import opened CanonicalJson
  import opened CanonicalDocuments

  type Scalar = v: Json | v.Null? || v.Bool? || v.Int? || v.Str? witness Null

  /** A reference held by a container: a scalar, another container, or something of another type. */
  datatype Ref = Leaf(v: Scalar) | Node(id: nat) | Foreign

  /** Keys that are not text are `None`. */
  datatype Entry = Entry(key: Option<string>, child: Ref)

  datatype Container = List(items: seq<Ref>) | Mapping(entries: seq<Entry>)

  type Heap = map<nat, Container>

  datatype Copy = Copy(value: Json, size: nat)

  type Memo = map<nat, Copy>

  datatype Outcome = Captured(copy: Copy, memo: Memo) | Invalid | Limit

  const MAX_DEPTH: nat := 32

  /** Canonical bytes; see ManifestSizeExact. */
  function Weight(v: Json): nat {
    if ManifestSize(v).Some? then ManifestSize(v).value else 0
  }

  function Comma(count: nat): nat {
    if count == 0 then 0 else 1
  }

  // --- What a capture does --------------------------------------------------------------

  function Capture(heap: Heap, ref: Ref, maximum: nat, memo: Memo, active: set<nat>, depth: nat): Outcome
    requires depth <= MAX_DEPTH + 1
    decreases MAX_DEPTH + 1 - depth, 1, 0
  {
    if depth > MAX_DEPTH then Invalid
    else
      match ref
      case Foreign => Invalid
      case Leaf(v) => if Weight(v) > maximum then Limit else Captured(Copy(v, Weight(v)), memo)
      case Node(id) =>
        if id !in heap || id in active then Invalid
        else if id in memo then Captured(memo[id], memo)
        else
          var o := match heap[id]
            case List(items) => CaptureItems(heap, items, maximum, memo, active + {id}, depth, [], 2)
            case Mapping(entries) => CaptureEntries(heap, entries, maximum, memo, active + {id}, depth, [], 2);
          if !o.Captured? then o
          else if o.copy.size > maximum then Limit
          else Captured(o.copy, o.memo[id := o.copy])
  }

  function CaptureItems(heap: Heap, items: seq<Ref>, maximum: nat, memo: Memo, active: set<nat>, depth: nat,
                        done: seq<Json>, size: nat): Outcome
    requires depth <= MAX_DEPTH && |done| <= |items|
    decreases MAX_DEPTH + 1 - depth, 0, |items| - |done|
  {
    if |done| == |items| then Captured(Copy(Arr(done), size), memo)
    else
      var o := Capture(heap, items[|done|], maximum, memo, active, depth + 1);
      if !o.Captured? then o
      else
        var size' := size + o.copy.size + Comma(|done|);
        if size' > maximum then Limit
        else CaptureItems(heap, items, maximum, o.memo, active, depth, done + [o.copy.value], size')
  }

  function CaptureEntries(heap: Heap, entries: seq<Entry>, maximum: nat, memo: Memo, active: set<nat>, depth: nat,
                          done: seq<Field>, size: nat): Outcome
    requires depth <= MAX_DEPTH && |done| <= |entries|
    decreases MAX_DEPTH + 1 - depth, 0, |entries| - |done|
  {
    if |done| == |entries| then Captured(Copy(Obj(done), size), memo)
    else
      var e := entries[|done|];
      if e.key == None || e.key.value in Keys(done) then Invalid
      else
        var o := Capture(heap, e.child, maximum, memo, active, depth + 1);
        if !o.Captured? then o
        else
          var size' := size + TextSize(e.key.value) + o.copy.size + 1 + Comma(|done|);
          if size' > maximum then Limit
          else CaptureEntries(heap, entries, maximum, o.memo, active, depth, done + [Field(e.key.value, o.copy.value)],
            size')
  }

  // --- The mutable form -----------------------------------------------------------------

  datatype Result = Copied(copy: Copy) | Refused | TooLarge

  ghost predicate Matches(o: Outcome, r: Result, memo: Memo) {
    match o
    case Captured(copy, after) => r == Copied(copy) && memo == after
    case Invalid => r == Refused
    case Limit => r == TooLarge
  }

  class Capturer {
    const heap: Heap
    const maximum: nat
    var memo: Memo
    var active: set<nat>

    constructor (heap: Heap, maximum: nat)
      ensures this.heap == heap && this.maximum == maximum && memo == map[] && active == {}
    {
      this.heap := heap;
      this.maximum := maximum;
      memo, active := map[], {};
    }

    method CaptureRef(ref: Ref, depth: nat) returns (r: Result)
      requires depth <= MAX_DEPTH + 1
      modifies this
      ensures Matches(Capture(heap, ref, maximum, old(memo), old(active), depth), r, memo)
      ensures r.Copied? ==> active == old(active)
      decreases MAX_DEPTH + 1 - depth, 1
    {
      if depth > MAX_DEPTH || ref.Foreign? {
        r := Refused;
      } else if ref.Leaf? {
        r := if Weight(ref.v) > maximum then TooLarge else Copied(Copy(ref.v, Weight(ref.v)));
      } else if ref.id !in heap || ref.id in active {
        r := Refused;
      } else if ref.id in memo {
        r := Copied(memo[ref.id]);
      } else {
        ghost var before := active;
        active := active + {ref.id};
        if heap[ref.id].List? {
          r := CaptureList(heap[ref.id].items, depth);
        } else {
          r := CaptureMapping(heap[ref.id].entries, depth);
        }
        if r.Copied? {
          active := active - {ref.id};
          assert active == before;
          memo := memo[ref.id := r.copy];
          if r.copy.size > maximum { r := TooLarge; }
        }
      }
    }

    method CaptureList(items: seq<Ref>, depth: nat) returns (r: Result)
      requires depth <= MAX_DEPTH
      modifies this
      ensures Matches(CaptureItems(heap, items, maximum, old(memo), old(active), depth, [], 2), r, memo)
      ensures r.Copied? ==> active == old(active)
      decreases MAX_DEPTH + 1 - depth, 0
    {
      var size: nat, done: seq<Json> := 2, [];
      while |done| < |items|
        invariant |done| <= |items| && active == old(active)
        invariant CaptureItems(heap, items, maximum, memo, active, depth, done, size)
               == CaptureItems(heap, items, maximum, old(memo), old(active), depth, [], 2)
        decreases |items| - |done|
      {
        var child := CaptureRef(items[|done|], depth + 1);
        if !child.Copied? {
          return child;
        }
        size := size + child.copy.size + Comma(|done|);
        if size > maximum {
          return TooLarge;
        }
        done := done + [child.copy.value];
      }
      return Copied(Copy(Arr(done), size));
    }

    method CaptureMapping(entries: seq<Entry>, depth: nat) returns (r: Result)
      requires depth <= MAX_DEPTH
      modifies this
      ensures Matches(CaptureEntries(heap, entries, maximum, old(memo), old(active), depth, [], 2), r, memo)
      ensures r.Copied? ==> active == old(active)
      decreases MAX_DEPTH + 1 - depth, 0
    {
      var size: nat, done: seq<Field> := 2, [];
      while |done| < |entries|
        invariant |done| <= |entries| && active == old(active)
        invariant CaptureEntries(heap, entries, maximum, memo, active, depth, done, size)
               == CaptureEntries(heap, entries, maximum, old(memo), old(active), depth, [], 2)
        decreases |entries| - |done|
      {
        var e := entries[|done|];
        if e.key == None || e.key.value in Keys(done) {
          return Refused;
        }
        var child := CaptureRef(e.child, depth + 1);
        if !child.Copied? {
          return child;
        }
        size := size + TextSize(e.key.value) + child.copy.size + 1 + Comma(|done|);
        if size > maximum {
          return TooLarge;
        }
        done := done + [Field(e.key.value, child.copy.value)];
      }
      return Copied(Copy(Obj(done), size));
    }
  }

  // --- What a capture means -------------------------------------------------------------

  /** `v` is the tree that a reference unfolds to. */
  ghost predicate Unfolds(heap: Heap, ref: Ref, v: Json)
    decreases v
  {
    match ref
    case Leaf(s) => v == s
    case Foreign => false
    case Node(id) =>
      id in heap &&
      match heap[id]
      case List(items) => v.Arr? && |v.items| == |items| && forall k :: 0 <= k < |items| ==>
        Unfolds(heap, items[k], v.items[k])
      case Mapping(entries) =>
        && v.Obj? && |v.fields| == |entries| && DistinctKeys(v.fields)
        && forall k :: 0 <= k < |entries| ==>
          entries[k].key == Some(v.fields[k].key) && Unfolds(heap, entries[k].child, v.fields[k].value)
  }

  /** A reference unfolds to one tree at most. */
  lemma {:induction false} UnfoldsUnique(heap: Heap, ref: Ref, v: Json, w: Json)
    requires Unfolds(heap, ref, v) && Unfolds(heap, ref, w)
    ensures v == w
    decreases v
  {
    if ref.Node? {
      match heap[ref.id]
      case List(items) =>
        forall k | 0 <= k < |items| ensures v.items[k] == w.items[k] {
          UnfoldsUnique(heap, items[k], v.items[k], w.items[k]);
        }
        assert v.items == w.items;
      case Mapping(entries) =>
        forall k | 0 <= k < |entries| ensures v.fields[k] == w.fields[k] {
          assert entries[k].key == Some(v.fields[k].key) && entries[k].key == Some(w.fields[k].key);
          UnfoldsUnique(heap, entries[k].child, v.fields[k].value, w.fields[k].value);
        }
        assert v.fields == w.fields;
    }
  }

  /** Remembered copies are unfoldings with their exact size, within the limit. */
  ghost predicate Faithful(heap: Heap, maximum: nat, memo: Memo) {
    forall id :: id in memo ==> FaithfulCopy(heap, Node(id), maximum, memo[id])
  }

  ghost predicate FaithfulCopy(heap: Heap, ref: Ref, maximum: nat, copy: Copy) {
    Unfolds(heap, ref, copy.value) && copy.size == Weight(copy.value) && copy.size <= maximum
  }

  lemma {:induction false} ItemsSizeAppend(items: seq<Json>, v: Json)
    ensures ManifestItemsSize(items + [v]) == Plus(ManifestItemsSize(items), ManifestSize(v))
  {
    if items == [] {
      assert [v][1..] == [];
      ManifestSizeIsLength(v);
    } else {
      ItemsSizeAppend(items[1..], v);
      assert (items + [v])[1..] == items[1..] + [v];
    }
    hide ManifestSize;
  }

  lemma {:induction false} FieldsSizeAppend(fields: seq<Field>, f: Field)
    ensures ManifestFieldsSize(fields + [f]) == Plus(ManifestFieldsSize(fields), FieldSize(f))
  {
    if fields == [] {
      assert [f][1..] == [];
      ManifestSizeIsLength(f.value);
    } else {
      FieldsSizeAppend(fields[1..], f);
      assert (fields + [f])[1..] == fields[1..] + [f];
    }
    hide ManifestSize;
  }

  lemma ItemWeight(items: seq<Json>, v: Json)
    ensures Weight(Arr(items + [v])) == Weight(Arr(items)) + Weight(v) + Comma(|items|)
  {
    ItemsSizeAppend(items, v);
    ManifestSizeIsLength(v);
    ManifestSizeIsLength(Arr(items));
    ItemsSizeIsLength(items);
    hide ManifestItemsSize, Length, Write, WriteItems;
  }

  lemma FieldWeight(fields: seq<Field>, key: string, v: Json)
    ensures Weight(Obj(fields + [Field(key, v)])) ==
      Weight(Obj(fields)) + TextSize(key) + Weight(v) + 1 + Comma(|fields|)
  {
    FieldsSizeAppend(fields, Field(key, v));
    ManifestSizeIsLength(v);
    ManifestSizeIsLength(Obj(fields));
    FieldsSizeIsLength(fields);
    hide ManifestFieldsSize, Length, Write, WriteFields, TextSize;
  }

  lemma EmptyWeight()
    ensures Weight(Arr([])) == 2 && Weight(Obj([])) == 2
  {
  }

  /** Whatever is captured is the unfolding, with its exact canonical size; the memo stays faithful. */
  lemma {:induction false} CaptureFaithful(heap: Heap, ref: Ref, maximum: nat, memo: Memo, active: set<nat>, depth: nat)
    requires depth <= MAX_DEPTH + 1 && Faithful(heap, maximum, memo)
    ensures var o := Capture(heap, ref, maximum, memo, active, depth);
            o.Captured? ==> FaithfulCopy(heap, ref, maximum, o.copy) && Faithful(heap, maximum, o.memo)
    decreases MAX_DEPTH + 1 - depth, 1, 0
  {
    var o := Capture(heap, ref, maximum, memo, active, depth);
    if o.Captured? && ref.Node? && ref.id !in memo {
      var id := ref.id;
      EmptyWeight();
      if heap[id].List? {
        ItemsFaithful(heap, heap[id].items, maximum, memo, active + {id}, depth, [], 2);
      } else {
        EntriesFaithful(heap, heap[id].entries, maximum, memo, active + {id}, depth, [], 2);
      }
      hide Weight;
    }
  }

  ghost predicate ItemsDone(heap: Heap, items: seq<Ref>, done: seq<Json>, size: nat) {
    |done| <= |items| && (forall k :: 0 <= k < |done| ==> Unfolds(heap, items[k], done[k])) && size == Weight(Arr(done))
  }

  lemma ItemDone(heap: Heap, items: seq<Ref>, maximum: nat, done: seq<Json>, size: nat, copy: Copy)
    requires ItemsDone(heap, items, done, size) && |done| < |items| && FaithfulCopy(heap, items[|done|], maximum, copy)
    ensures ItemsDone(heap, items, done + [copy.value], size + copy.size + Comma(|done|))
  {
    ItemWeight(done, copy.value);
    hide Unfolds, Weight;
  }

  /** The outcome of a list, when it is captured. */
  ghost predicate ItemsCaptured(heap: Heap, items: seq<Ref>, maximum: nat, o: Outcome) {
    o.Captured? ==>
      && o.copy.value.Arr? && |o.copy.value.items| == |items| && ItemsDone(heap, items, o.copy.value.items, o.copy.size)
      && Faithful(heap, maximum, o.memo)
  }

  lemma ItemsRefused(heap: Heap, items: seq<Ref>, maximum: nat, memo: Memo, active: set<nat>, depth: nat,
                     done: seq<Json>, size: nat, o: Outcome)
    requires depth <= MAX_DEPTH && |done| < |items|
    requires o == Capture(heap, items[|done|], maximum, memo, active, depth + 1)
    requires !o.Captured? || size + o.copy.size + Comma(|done|) > maximum
    ensures ItemsCaptured(heap, items, maximum, CaptureItems(heap, items, maximum, memo, active, depth, done, size))
  {
    hide Capture;
  }

  lemma {:induction false} ItemsFaithful(heap: Heap, items: seq<Ref>, maximum: nat, memo: Memo, active: set<nat>,
                                         depth: nat, done: seq<Json>, size: nat)
    requires depth <= MAX_DEPTH && Faithful(heap, maximum, memo) && ItemsDone(heap, items, done, size)
    requires |done| <= |items|
    ensures ItemsCaptured(heap, items, maximum, CaptureItems(heap, items, maximum, memo, active, depth, done, size))
    decreases MAX_DEPTH + 1 - depth, 0, |items| - |done|
  {
    hide *;
    if |done| == |items| {
      NoItemsLeft(heap, items, maximum, memo, active, depth, done, size);
    } else {
      CaptureFaithful(heap, items[|done|], maximum, memo, active, depth + 1);
      var o := Capture(heap, items[|done|], maximum, memo, active, depth + 1);
      if o.Captured? && size + o.copy.size + Comma(|done|) <= maximum {
        ItemDone(heap, items, maximum, done, size, o.copy);
        ItemStep(heap, items, maximum, memo, active, depth, done, size, o);
        ItemsFaithful(heap, items, maximum, o.memo, active, depth, done + [o.copy.value],
          size + o.copy.size + Comma(|done|));
      } else {
        ItemsRefused(heap, items, maximum, memo, active, depth, done, size, o);
      }
    }
  }

  lemma NoItemsLeft(heap: Heap, items: seq<Ref>, maximum: nat, memo: Memo, active: set<nat>, depth: nat,
                    done: seq<Json>, size: nat)
    requires depth <= MAX_DEPTH && Faithful(heap, maximum, memo) && ItemsDone(heap, items, done, size)
    requires |done| == |items|
    ensures ItemsCaptured(heap, items, maximum, CaptureItems(heap, items, maximum, memo, active, depth, done, size))
  {
    hide Unfolds, Faithful, FaithfulCopy, Weight;
  }

  ghost predicate EntriesDone(heap: Heap, entries: seq<Entry>, done: seq<Field>, size: nat) {
    && |done| <= |entries| && DistinctKeys(done) && size == Weight(Obj(done))
    && forall k :: 0 <= k < |done| ==>
      entries[k].key == Some(done[k].key) && Unfolds(heap, entries[k].child, done[k].value)
  }

  lemma EntryDone(heap: Heap, entries: seq<Entry>, maximum: nat, done: seq<Field>, size: nat, copy: Copy)
    requires EntriesDone(heap, entries, done, size) && |done| < |entries|
    requires entries[|done|].key.Some? && entries[|done|].key.value !in Keys(done)
    requires FaithfulCopy(heap, entries[|done|].child, maximum, copy)
    ensures var key := entries[|done|].key.value;
            EntriesDone(heap, entries, done + [Field(key, copy.value)],
              size + TextSize(key) + copy.size + 1 + Comma(|done|))
  {
    FieldWeight(done, entries[|done|].key.value, copy.value);
    hide Unfolds, Weight, TextSize;
    forall k | 0 <= k < |done| ensures done[k].key != entries[|done|].key.value {
      assert done[k].key in Keys(done);
    }
  }

  /** A mapping that is captured has had its next entry captured, and goes on from there. */
  lemma EntriesUnfold(heap: Heap, entries: seq<Entry>, maximum: nat, memo: Memo, active: set<nat>, depth: nat,
                      done: seq<Field>, size: nat)
    returns (o: Outcome, done': seq<Field>, size': nat)
    requires depth <= MAX_DEPTH && |done| < |entries|
    requires CaptureEntries(heap, entries, maximum, memo, active, depth, done, size).Captured?
    ensures var e := entries[|done|];
      && e.key.Some? && e.key.value !in Keys(done) && o == Capture(heap, e.child, maximum, memo, active, depth + 1)
      && o.Captured?
      && done' == done + [Field(e.key.value, o.copy.value)] && |done'| == |done| + 1
      && size' == size + TextSize(e.key.value) + o.copy.size + 1 + Comma(|done|)
      && CaptureEntries(heap, entries, maximum, memo, active, depth, done, size)
         == CaptureEntries(heap, entries, maximum, o.memo, active, depth, done', size')
  {
    hide Capture, TextSize, Keys;
    var e := entries[|done|];
    o := Capture(heap, e.child, maximum, memo, active, depth + 1);
    done', size' :=
      done + [Field(e.key.value, o.copy.value)], size + TextSize(e.key.value) + o.copy.size + 1 + Comma(|done|);
  }

  lemma {:induction false} EntriesFaithful(heap: Heap, entries: seq<Entry>, maximum: nat, memo: Memo, active: set<nat>,
                                           depth: nat, done: seq<Field>, size: nat)
    requires depth <= MAX_DEPTH && Faithful(heap, maximum, memo) && EntriesDone(heap, entries, done, size)
    ensures var o := CaptureEntries(heap, entries, maximum, memo, active, depth, done, size);
      o.Captured? ==>
        && o.copy.value.Obj? && |o.copy.value.fields| == |entries|
        && EntriesDone(heap, entries, o.copy.value.fields, o.copy.size)
        && Faithful(heap, maximum, o.memo)
    decreases MAX_DEPTH + 1 - depth, 0, |entries| - |done|
  {
    if |done| < |entries| && CaptureEntries(heap, entries, maximum, memo, active, depth, done, size).Captured? {
      hide *;
      var e := entries[|done|];
      var o, done', size' := EntriesUnfold(heap, entries, maximum, memo, active, depth, done, size);
      CaptureFaithful(heap, e.child, maximum, memo, active, depth + 1);
      EntryDone(heap, entries, maximum, done, size, o.copy);
      EntriesFaithful(heap, entries, maximum, o.memo, active, depth, done', size');
    }
  }

  // --- Cycles ---------------------------------------------------------------------------

  function Count(v: Json): nat
    decreases v, 1
  {
    match v
    case Arr(items) => 1 + CountItems(items)
    case Obj(fields) => 1 + CountFields(fields)
    case _ => 1
  }

  function CountItems(items: seq<Json>): nat
    decreases items, 0
  {
    if items == [] then 0 else Count(items[0]) + CountItems(items[1..])
  }

  function CountFields(fields: seq<Field>): nat
    decreases fields, 0
  {
    if fields == [] then 0 else Count(fields[0].value) + CountFields(fields[1..])
  }

  lemma {:induction false} ItemSmaller(items: seq<Json>, k: nat)
    requires k < |items|
    ensures Count(items[k]) <= CountItems(items)
  {
    if k > 0 {
      ItemSmaller(items[1..], k - 1);
    }
  }

  lemma {:induction false} FieldSmaller(fields: seq<Field>, k: nat)
    requires k < |fields|
    ensures Count(fields[k].value) <= CountFields(fields)
  {
    if k > 0 {
      FieldSmaller(fields[1..], k - 1);
    }
  }

  /** Container `id` refers directly to `other`. */
  ghost predicate Refers(heap: Heap, id: nat, other: nat) {
    id in heap &&
    match heap[id]
    case List(items) => exists k :: 0 <= k < |items| && items[k] == Node(other)
    case Mapping(entries) => exists k :: 0 <= k < |entries| && entries[k].child == Node(other)
  }

  ghost predicate Path(heap: Heap, path: seq<nat>) {
    path != [] && forall k :: 0 <= k < |path| - 1 ==> Refers(heap, path[k], path[k + 1])
  }

  /** A container's unfolding contains the unfoldings of everything it refers to. */
  lemma ReferredSmaller(heap: Heap, id: nat, other: nat, v: Json) returns (u: Json)
    requires Unfolds(heap, Node(id), v) && Refers(heap, id, other)
    ensures Unfolds(heap, Node(other), u) && Count(u) < Count(v)
  {
    match heap[id]
    case List(items) =>
      var k :| 0 <= k < |items| && items[k] == Node(other);
      u := v.items[k];
      ItemSmaller(v.items, k);
    case Mapping(entries) =>
      var k :| 0 <= k < |entries| && entries[k].child == Node(other);
      u := v.fields[k].value;
      FieldSmaller(v.fields, k);
  }

  lemma {:induction false} PathSmaller(heap: Heap, path: seq<nat>, v: Json) returns (u: Json)
    requires Path(heap, path) && Unfolds(heap, Node(path[0]), v)
    ensures Unfolds(heap, Node(path[|path| - 1]), u) && Count(u) + |path| - 1 <= Count(v)
    decreases |path|
  {
    if |path| == 1 {
      u := v;
    } else {
      assert Refers(heap, path[0], path[1]);
      var w := ReferredSmaller(heap, path[0], path[1], v);
      assert forall k :: 0 <= k < |path[1..]| - 1 ==> Refers(heap, path[1..][k], path[1..][k + 1]);
      u := PathSmaller(heap, path[1..], w);
    }
  }

  /** A reference from which a container that contains itself can be reached is never captured. */
  lemma CyclesAreRefused(heap: Heap, ref: Ref, maximum: nat, path: seq<nat>, cycle: seq<nat>)
    requires Path(heap, path) && ref == Node(path[0])
    requires Path(heap, cycle) && |cycle| > 1 && cycle[0] == path[|path| - 1] == cycle[|cycle| - 1]
    ensures !Capture(heap, ref, maximum, map[], {}, 0).Captured?
  {
    CaptureFaithful(heap, ref, maximum, map[], {}, 0);
    hide Capture, Count, Unfolds;
    if Capture(heap, ref, maximum, map[], {}, 0).Captured? {
      var v := Capture(heap, ref, maximum, map[], {}, 0).copy.value;
      var u := PathSmaller(heap, path, v);
      var w := PathSmaller(heap, cycle, u);
      UnfoldsUnique(heap, Node(cycle[0]), u, w);
      assert false;
    }
  }

  // --- Completeness ---------------------------------------------------------------------

  /** Containers nest at most `height` deep below the top of `v`. */
  predicate Within(v: Json, height: int)
    decreases v
  {
    match v
    case Arr(items) => height >= 0 && forall k :: 0 <= k < |items| ==> Within(items[k], height - 1)
    case Obj(fields) => height >= 0 && forall k :: 0 <= k < |fields| ==> Within(fields[k].value, height - 1)
    case _ => height >= 0
  }

  function Children(c: Container): seq<Ref> {
    match c
    case List(items) => items
    case Mapping(entries) => seq(|entries|, k requires 0 <= k < |entries| => entries[k].child)
  }

  /** A depth-first visit that enters every container once: the containers it has finished, or nothing when it
      meets a reference below the depth limit. It asks nothing of sizes, keys or cycles. */
  function Visit(heap: Heap, ref: Ref, seen: set<nat>, depth: nat): Option<set<nat>>
    requires depth <= MAX_DEPTH + 1
    decreases MAX_DEPTH + 1 - depth, 1, 0
  {
    if depth > MAX_DEPTH then None
    else if !ref.Node? || ref.id !in heap || ref.id in seen then Some(seen)
    else
      match VisitAll(heap, Children(heap[ref.id]), seen, depth)
      case None => None
      case Some(after) => Some(after + {ref.id})
  }

  function VisitAll(heap: Heap, refs: seq<Ref>, seen: set<nat>, depth: nat): Option<set<nat>>
    requires depth <= MAX_DEPTH
    decreases MAX_DEPTH + 1 - depth, 0, |refs|
  {
    if refs == [] then Some(seen)
    else
      match Visit(heap, refs[0], seen, depth + 1)
      case None => None
      case Some(next) => VisitAll(heap, refs[1..], next, depth)
  }

  lemma ChildAt(entries: seq<Entry>, k: nat)
    requires k < |entries|
    ensures |Children(Mapping(entries))| == |entries| && Children(Mapping(entries))[k] == entries[k].child
  {
  }

  lemma VisitStep(heap: Heap, refs: seq<Ref>, k: nat, seen: set<nat>, depth: nat)
    requires depth <= MAX_DEPTH && k < |refs|
    ensures VisitAll(heap, refs[k..], seen, depth) ==
      match Visit(heap, refs[k], seen, depth + 1)
      case None => None
      case Some(next) => VisitAll(heap, refs[k + 1..], next, depth)
  {
    hide Visit;
    assert refs[k..][0] == refs[k] && refs[k..][1..] == refs[k + 1..];
  }

  lemma VisitJoins(heap: Heap, refs: seq<Ref>, k: nat, seen: set<nat>, next: set<nat>, after: set<nat>, depth: nat)
    requires depth <= MAX_DEPTH && k < |refs|
    requires Visit(heap, refs[k], seen, depth + 1) == Some(next)
    requires VisitAll(heap, refs[k + 1..], next, depth) == Some(after)
    ensures VisitAll(heap, refs[k..], seen, depth) == Some(after)
  {
    hide *;
    VisitStep(heap, refs, k, seen, depth);
  }

  lemma VisitSplits(heap: Heap, refs: seq<Ref>, k: nat, seen: set<nat>, depth: nat)
    requires depth <= MAX_DEPTH && k < |refs| && VisitAll(heap, refs[k..], seen, depth).Some?
    ensures var next := Visit(heap, refs[k], seen, depth + 1);
      next.Some? && VisitAll(heap, refs[k + 1..], next.value, depth).Some?
  {
    hide *;
    VisitStep(heap, refs, k, seen, depth);
  }

  /** What is captured was visited, and remembered. */
  lemma {:induction false} CapturedVisits(heap: Heap, ref: Ref, maximum: nat, memo: Memo, active: set<nat>, depth: nat)
    requires depth <= MAX_DEPTH + 1
    ensures var o := Capture(heap, ref, maximum, memo, active, depth);
            o.Captured? ==> Visit(heap, ref, memo.Keys, depth) == Some(o.memo.Keys)
    decreases MAX_DEPTH + 1 - depth, 1, 0
  {
    if depth <= MAX_DEPTH && ref.Node? && ref.id in heap && ref.id !in memo {
      var id := ref.id;
      assert Children(heap[id])[0..] == Children(heap[id]);
      if heap[id].List? {
        ItemsVisit(heap, heap[id].items, maximum, memo, active + {id}, depth, [], 2);
        var o := CaptureItems(heap, heap[id].items, maximum, memo, active + {id}, depth, [], 2);
        assert o.Captured? ==> o.memo[id := o.copy].Keys == o.memo.Keys + {id};
      } else {
        EntriesVisit(heap, heap[id].entries, maximum, memo, active + {id}, depth, [], 2);
        var o := CaptureEntries(heap, heap[id].entries, maximum, memo, active + {id}, depth, [], 2);
        assert o.Captured? ==> o.memo[id := o.copy].Keys == o.memo.Keys + {id};
      }
      hide VisitAll, CaptureItems, CaptureEntries, Weight;
    }
  }

  lemma {:induction false} ItemsVisit(heap: Heap, items: seq<Ref>, maximum: nat, memo: Memo, active: set<nat>,
                                      depth: nat, done: seq<Json>, size: nat)
    requires depth <= MAX_DEPTH && |done| <= |items|
    ensures var o := CaptureItems(heap, items, maximum, memo, active, depth, done, size);
            o.Captured? ==> VisitAll(heap, items[|done|..], memo.Keys, depth) == Some(o.memo.Keys)
    decreases MAX_DEPTH + 1 - depth, 0, |items| - |done|
  {
    hide Capture, Visit;
    if |done| < |items| {
      CapturedVisits(heap, items[|done|], maximum, memo, active, depth + 1);
      var o := Capture(heap, items[|done|], maximum, memo, active, depth + 1);
      if o.Captured? {
        ItemsVisit(heap, items, maximum, o.memo, active, depth, done + [o.copy.value],
          size + o.copy.size + Comma(|done|));
      }
      VisitStep(heap, items, |done|, memo.Keys, depth);
      hide VisitAll;
    }
  }

  lemma {:induction false} EntriesVisit(heap: Heap, entries: seq<Entry>, maximum: nat, memo: Memo, active: set<nat>,
                                        depth: nat, done: seq<Field>, size: nat)
    requires depth <= MAX_DEPTH && |done| <= |entries|
    ensures var o := CaptureEntries(heap, entries, maximum, memo, active, depth, done, size);
            o.Captured? ==> VisitAll(heap, Children(Mapping(entries))[|done|..], memo.Keys, depth) == Some(o.memo.Keys)
    decreases MAX_DEPTH + 1 - depth, 0, |entries| - |done|
  {
    hide *;
    if |done| == |entries| {
      NoEntriesLeft(heap, entries, maximum, memo, active, depth, done, size);
    } else if CaptureEntries(heap, entries, maximum, memo, active, depth, done, size).Captured? {
      var e := entries[|done|];
      ChildAt(entries, |done|);
      var o, done', size' := EntriesUnfold(heap, entries, maximum, memo, active, depth, done, size);
      CapturedVisits(heap, e.child, maximum, memo, active, depth + 1);
      EntriesVisit(heap, entries, maximum, o.memo, active, depth, done', size');
      var after := CaptureEntries(heap, entries, maximum, memo, active, depth, done, size).memo;
      VisitJoins(heap, Children(Mapping(entries)), |done|, memo.Keys, o.memo.Keys, after.Keys, depth);
    }
  }

  lemma NoEntriesLeft(heap: Heap, entries: seq<Entry>, maximum: nat, memo: Memo, active: set<nat>, depth: nat,
                      done: seq<Field>, size: nat)
    requires depth <= MAX_DEPTH && |done| == |entries|
    ensures var o := CaptureEntries(heap, entries, maximum, memo, active, depth, done, size);
            o.Captured? ==> VisitAll(heap, Children(Mapping(entries))[|done|..], memo.Keys, depth) == Some(o.memo.Keys)
  {
    hide Visit;
  }

  /** A tree that nests no deeper than the limit is visited, whatever has been seen. */
  lemma {:induction false} ShallowIsVisited(heap: Heap, ref: Ref, seen: set<nat>, depth: nat, v: Json)
    requires depth <= MAX_DEPTH + 1 && Unfolds(heap, ref, v) && Within(v, MAX_DEPTH - depth)
    ensures Visit(heap, ref, seen, depth).Some?
    decreases MAX_DEPTH + 1 - depth, 1, 0
  {
    if ref.Node? && ref.id !in seen {
      assert Children(heap[ref.id])[0..] == Children(heap[ref.id]);
      ShallowAreVisited(heap, ref.id, 0, seen, depth, v);
    }
  }

  lemma {:induction false} ShallowAreVisited(heap: Heap, id: nat, k: nat, seen: set<nat>, depth: nat, v: Json)
    requires depth <= MAX_DEPTH && Unfolds(heap, Node(id), v) && Within(v, MAX_DEPTH - depth)
    requires k <= |Children(heap[id])|
    ensures VisitAll(heap, Children(heap[id])[k..], seen, depth).Some?
    decreases MAX_DEPTH + 1 - depth, 0, |Children(heap[id])| - k
  {
    var refs := Children(heap[id]);
    if k < |refs| {
      VisitStep(heap, refs, k, seen, depth);
      ShallowIsVisited(heap, refs[k], seen, depth + 1, if v.Arr? then v.items[k] else v.fields[k].value);
      hide VisitAll, Visit;
      ShallowAreVisited(heap, id, k + 1, Visit(heap, refs[k], seen, depth + 1).value, depth, v);
    }
  }

  /** Every container being copied further up unfolds to something larger than `v`. */
  ghost predicate Above(heap: Heap, active: set<nat>, v: Json) {
    forall a :: a in active ==> AboveOne(heap, a, v)
  }

  ghost predicate AboveOne(heap: Heap, a: nat, v: Json) {
    exists u :: Unfolds(heap, Node(a), u) && Count(u) > Count(v)
  }

  lemma NotActive(heap: Heap, active: set<nat>, id: nat, v: Json)
    requires Above(heap, active, v) && Unfolds(heap, Node(id), v)
    ensures id !in active
  {
    if id in active {
      assert AboveOne(heap, id, v);
      var u :| Unfolds(heap, Node(id), u) && Count(u) > Count(v);
      UnfoldsUnique(heap, Node(id), u, v);
      assert false;
    }
  }

  lemma AboveChild(heap: Heap, active: set<nat>, id: nat, v: Json, child: Json)
    requires Above(heap, active, v) && Unfolds(heap, Node(id), v) && Count(child) < Count(v)
    ensures Above(heap, active + {id}, child)
  {
    hide Unfolds, Count;
    forall a | a in active + {id} ensures AboveOne(heap, a, child) {
      if a in active {
        assert AboveOne(heap, a, v);
      }
    }
  }

  /** A tree that is visited within the depth limit and fits the size limit is captured, however its containers
      are shared and whatever has been remembered. */
  lemma {:induction false} CaptureComplete(heap: Heap, ref: Ref, maximum: nat, memo: Memo, active: set<nat>, depth: nat,
                                           v: Json)
    requires depth <= MAX_DEPTH + 1 && Faithful(heap, maximum, memo) && Above(heap, active, v)
    requires Unfolds(heap, ref, v) && Visit(heap, ref, memo.Keys, depth).Some? && Weight(v) <= maximum
    ensures Capture(heap, ref, maximum, memo, active, depth).Captured?
    ensures Capture(heap, ref, maximum, memo, active, depth).copy == Copy(v, Weight(v))
    decreases MAX_DEPTH + 1 - depth, 1, 0
  {
    CaptureFaithful(heap, ref, maximum, memo, active, depth);
    if ref.Node? {
      var id := ref.id;
      NotActive(heap, active, id, v);
      if id !in memo {
        EmptyWeight();
        assert Children(heap[id])[0..] == Children(heap[id]);
        if heap[id].List? {
          assert v.items[..0] == [];
          ItemsComplete(heap, id, maximum, memo, active, depth, v, 0);
        } else {
          assert v.fields[..0] == [];
          EntriesComplete(heap, id, maximum, memo, active, depth, v, 0);
        }
      }
    }
    var o := Capture(heap, ref, maximum, memo, active, depth);
    if o.Captured? {
      UnfoldsUnique(heap, ref, o.copy.value, v);
    }
    hide Weight, Unfolds;
  }

  lemma {:induction false} ItemPrefixWeight(items: seq<Json>, k: nat)
    requires k <= |items|
    ensures Weight(Arr(items[..k])) <= Weight(Arr(items))
    decreases |items| - k
  {
    hide Weight;
    if k == |items| {
      assert items[..k] == items;
    } else {
      ItemWeight(items[..k], items[k]);
      assert items[..k] + [items[k]] == items[..k + 1];
      ItemPrefixWeight(items, k + 1);
    }
  }

  lemma {:induction false} FieldPrefixWeight(fields: seq<Field>, k: nat)
    requires k <= |fields|
    ensures Weight(Obj(fields[..k])) <= Weight(Obj(fields))
    decreases |fields| - k
  {
    hide Weight;
    if k == |fields| {
      assert fields[..k] == fields;
    } else {
      FieldWeight(fields[..k], fields[k].key, fields[k].value);
      assert Field(fields[k].key, fields[k].value) == fields[k];
      assert fields[..k] + [fields[k]] == fields[..k + 1];
      FieldPrefixWeight(fields, k + 1);
    }
  }

  /** What the next child of a container needs in order to be captured. */
  lemma ItemReady(heap: Heap, id: nat, maximum: nat, active: set<nat>, depth: nat, v: Json, k: nat)
    requires depth <= MAX_DEPTH && Above(heap, active, v) && Unfolds(heap, Node(id), v) && heap[id].List?
    requires k < |heap[id].items|
    requires Weight(v) <= maximum
    ensures id in heap && v.Arr? && k < |v.items|
    ensures var c := v.items[k];
      && Unfolds(heap, heap[id].items[k], c) && Above(heap, active + {id}, c)
      && v.items[..k] + [c] == v.items[..k + 1]
      && Weight(Arr(v.items[..k])) + Weight(c) + Comma(k) == Weight(Arr(v.items[..k + 1])) <= maximum
  {
    ItemSmaller(v.items, k);
    assert Count(v.items[k]) < Count(v);
    hide Count, Weight;
    AboveChild(heap, active, id, v, v.items[k]);
    ItemPrefixWeight(v.items, k + 1);
    ItemWeight(v.items[..k], v.items[k]);
    assert v.items[..k] + [v.items[k]] == v.items[..k + 1];
  }

  lemma ItemStep(heap: Heap, items: seq<Ref>, maximum: nat, memo: Memo, active: set<nat>, depth: nat, done: seq<Json>,
                 size: nat, o: Outcome)
    requires depth <= MAX_DEPTH && |done| < |items|
    requires o == Capture(heap, items[|done|], maximum, memo, active, depth + 1)
    requires o.Captured? && size + o.copy.size + Comma(|done|) <= maximum
    ensures CaptureItems(heap, items, maximum, memo, active, depth, done, size)
         == CaptureItems(heap, items, maximum, o.memo, active, depth, done + [o.copy.value],
           size + o.copy.size + Comma(|done|))
  {
    hide Capture;
  }

  lemma EntryStep(heap: Heap, entries: seq<Entry>, maximum: nat, memo: Memo, active: set<nat>, depth: nat,
                  done: seq<Field>, size: nat, key: string, o: Outcome)
    requires depth <= MAX_DEPTH && |done| < |entries| && entries[|done|].key == Some(key) && key !in Keys(done)
    requires o == Capture(heap, entries[|done|].child, maximum, memo, active, depth + 1)
    requires o.Captured? && size + TextSize(key) + o.copy.size + 1 + Comma(|done|) <= maximum
    ensures CaptureEntries(heap, entries, maximum, memo, active, depth, done, size)
         == CaptureEntries(heap, entries, maximum, o.memo, active, depth, done + [Field(key, o.copy.value)],
           size + TextSize(key) + o.copy.size + 1 + Comma(|done|))
  {
    hide Capture, TextSize, Keys;
  }

  /** A child that can be captured is, and the visit goes on with what is remembered then. */
  lemma ChildCaptured(heap: Heap, ref: Ref, maximum: nat, memo: Memo, active: set<nat>, depth: nat, c: Json)
    returns (o: Outcome)
    requires depth <= MAX_DEPTH && Faithful(heap, maximum, memo) && Above(heap, active, c)
    requires Unfolds(heap, ref, c) && Visit(heap, ref, memo.Keys, depth + 1).Some? && Weight(c) <= maximum
    ensures o == Capture(heap, ref, maximum, memo, active, depth + 1) && o.Captured? && o.copy == Copy(c, Weight(c))
    ensures Faithful(heap, maximum, o.memo) && Visit(heap, ref, memo.Keys, depth + 1) == Some(o.memo.Keys)
    decreases MAX_DEPTH - depth, 2, 0
  {
    hide *;
    o := Capture(heap, ref, maximum, memo, active, depth + 1);
    CaptureComplete(heap, ref, maximum, memo, active, depth + 1, c);
    CapturedVisits(heap, ref, maximum, memo, active, depth + 1);
    CaptureFaithful(heap, ref, maximum, memo, active, depth + 1);
  }

  lemma ItemCaptured(heap: Heap, id: nat, maximum: nat, memo: Memo, active: set<nat>, depth: nat, v: Json, k: nat)
    returns (later: Memo)
    requires depth <= MAX_DEPTH && Faithful(heap, maximum, memo) && Above(heap, active, v) && Unfolds(heap, Node(id), v)
    requires heap[id].List?
    requires Weight(v) <= maximum
    requires v.Arr? && k < |v.items| == |heap[id].items| && VisitAll(heap, heap[id].items[k..], memo.Keys, depth).Some?
    ensures Faithful(heap, maximum, later) && VisitAll(heap, heap[id].items[k + 1..], later.Keys, depth).Some?
    ensures CaptureItems(heap, heap[id].items, maximum, memo, active + {id}, depth, v.items[..k],
      Weight(Arr(v.items[..k])))
         == CaptureItems(heap, heap[id].items, maximum, later, active + {id}, depth, v.items[..k + 1],
           Weight(Arr(v.items[..k + 1])))
    decreases MAX_DEPTH + 1 - depth, 0, 0
  {
    hide *;
    ItemReady(heap, id, maximum, active, depth, v, k);
    var items := heap[id].items;
    ItemBounded(v, k, maximum);
    VisitSplits(heap, items, k, memo.Keys, depth);
    var o := ChildCaptured(heap, items[k], maximum, memo, active + {id}, depth, v.items[k]);
    ItemStep(heap, items, maximum, memo, active + {id}, depth, v.items[..k], Weight(Arr(v.items[..k])), o);
    later := o.memo;
  }

  lemma {:induction false} ItemsComplete(heap: Heap, id: nat, maximum: nat, memo: Memo, active: set<nat>, depth: nat,
                                         v: Json, k: nat)
    requires depth <= MAX_DEPTH && Faithful(heap, maximum, memo) && Above(heap, active, v) && Unfolds(heap, Node(id), v)
    requires heap[id].List?
    requires Weight(v) <= maximum
    requires v.Arr? && k <= |v.items| == |heap[id].items| && VisitAll(heap, heap[id].items[k..], memo.Keys, depth).Some?
    ensures var o :=
      CaptureItems(heap, heap[id].items, maximum, memo, active + {id}, depth, v.items[..k], Weight(Arr(v.items[..k])));
            o.Captured? && o.copy == Copy(v, Weight(v))
    decreases MAX_DEPTH + 1 - depth, 0, |v.items| - k + 1
  {
    if k == |v.items| {
      assert v.items[..k] == v.items;
      hide Weight, Visit, Above, Faithful, Unfolds;
    } else {
      hide *;
      var later := ItemCaptured(heap, id, maximum, memo, active, depth, v, k);
      ItemsComplete(heap, id, maximum, later, active, depth, v, k + 1);
    }
  }

  lemma ItemBounded(v: Json, k: nat, maximum: nat)
    requires v.Arr? && k < |v.items| && Weight(Arr(v.items[..k])) + Weight(v.items[k]) + Comma(k) <= maximum
    ensures Weight(v.items[k]) <= maximum
  {
  }

  lemma EntryBounded(v: Json, k: nat, maximum: nat)
    requires v.Obj? && k < |v.fields|
    requires Weight(Obj(v.fields[..k])) + TextSize(v.fields[k].key) + Weight(v.fields[k].value) + 1
      + Comma(k) <= maximum
    ensures Weight(v.fields[k].value) <= maximum
  {
  }

  lemma EntryReady(heap: Heap, id: nat, maximum: nat, active: set<nat>, depth: nat, v: Json, k: nat)
    requires depth <= MAX_DEPTH && Above(heap, active, v) && Unfolds(heap, Node(id), v) && heap[id].Mapping?
    requires k < |heap[id].entries|
    requires Weight(v) <= maximum
    ensures v.Obj? && k < |v.fields|
    ensures var (f, e) := (v.fields[k], heap[id].entries[k]);
      && e.key == Some(f.key) && f.key !in Keys(v.fields[..k])
      && Unfolds(heap, e.child, f.value) && Above(heap, active + {id}, f.value)
      && v.fields[..k] + [f] == v.fields[..k + 1]
      && Weight(Obj(v.fields[..k])) + TextSize(f.key) + Weight(f.value) + 1 + Comma(k) ==
        Weight(Obj(v.fields[..k + 1])) <= maximum
  {
    FieldSmaller(v.fields, k);
    assert Count(v.fields[k].value) < Count(v);
    hide Count, Weight, TextSize;
    AboveChild(heap, active, id, v, v.fields[k].value);
    FieldPrefixWeight(v.fields, k + 1);
    FieldWeight(v.fields[..k], v.fields[k].key, v.fields[k].value);
    assert v.fields[..k] + [v.fields[k]] == v.fields[..k + 1];
  }

  /** The next entry is captured, and the rest goes on from there. */
  lemma EntryGoesOn(heap: Heap, entries: seq<Entry>, maximum: nat, memo: Memo, active: set<nat>, depth: nat,
                    fields: seq<Field>, k: nat, f: Field) returns (later: Memo)
    requires depth <= MAX_DEPTH && Faithful(heap, maximum, memo) && k < |fields| == |entries| && f == fields[k]
    requires entries[k].key == Some(f.key) && f.key !in Keys(fields[..k]) && Unfolds(heap, entries[k].child, f.value)
    requires Above(heap, active, f.value) && Weight(f.value) <= maximum
    requires VisitAll(heap, Children(Mapping(entries))[k..], memo.Keys, depth).Some?
    requires Weight(Obj(fields[..k])) + TextSize(f.key) + Weight(f.value) + 1 + Comma(k) ==
      Weight(Obj(fields[..k + 1])) <= maximum
    requires fields[..k] + [f] == fields[..k + 1]
    ensures Faithful(heap, maximum, later)
    ensures VisitAll(heap, Children(Mapping(entries))[k + 1..], later.Keys, depth).Some?
    ensures CaptureEntries(heap, entries, maximum, memo, active, depth, fields[..k], Weight(Obj(fields[..k])))
         == CaptureEntries(heap, entries, maximum, later, active, depth, fields[..k + 1], Weight(Obj(fields[..k + 1])))
    decreases MAX_DEPTH + 1 - depth, 0, 0
  {
    ChildAt(entries, k);
    hide *;
    VisitSplits(heap, Children(Mapping(entries)), k, memo.Keys, depth);
    var o := ChildCaptured(heap, entries[k].child, maximum, memo, active, depth, f.value);
    EntryStep(heap, entries, maximum, memo, active, depth, fields[..k], Weight(Obj(fields[..k])), f.key, o);
    assert Field(f.key, o.copy.value) == f;
    later := o.memo;
  }

  lemma EntryCaptured(heap: Heap, id: nat, maximum: nat, memo: Memo, active: set<nat>, depth: nat, v: Json, k: nat)
    returns (later: Memo)
    requires depth <= MAX_DEPTH && Faithful(heap, maximum, memo) && Above(heap, active, v) && Unfolds(heap, Node(id), v)
    requires heap[id].Mapping?
    requires Weight(v) <= maximum
    requires v.Obj? && k < |v.fields| == |heap[id].entries|
    requires VisitAll(heap, Children(heap[id])[k..], memo.Keys, depth).Some?
    ensures Faithful(heap, maximum, later) && VisitAll(heap, Children(heap[id])[k + 1..], later.Keys, depth).Some?
    ensures CaptureEntries(heap, heap[id].entries, maximum, memo, active + {id}, depth, v.fields[..k],
      Weight(Obj(v.fields[..k])))
         == CaptureEntries(heap, heap[id].entries, maximum, later, active + {id}, depth, v.fields[..k + 1],
           Weight(Obj(v.fields[..k + 1])))
    decreases MAX_DEPTH + 1 - depth, 0, 1
  {
    var entries := heap[id].entries;
    hide *;
    EntryReady(heap, id, maximum, active, depth, v, k);
    EntryBounded(v, k, maximum);
    later := EntryGoesOn(heap, entries, maximum, memo, active + {id}, depth, v.fields, k, v.fields[k]);
  }

  lemma {:induction false} EntriesComplete(heap: Heap, id: nat, maximum: nat, memo: Memo, active: set<nat>, depth: nat,
                                           v: Json, k: nat)
    requires depth <= MAX_DEPTH && Faithful(heap, maximum, memo) && Above(heap, active, v) && Unfolds(heap, Node(id), v)
    requires heap[id].Mapping?
    requires Weight(v) <= maximum
    requires v.Obj? && k <= |v.fields| == |heap[id].entries|
    requires VisitAll(heap, Children(heap[id])[k..], memo.Keys, depth).Some?
    ensures var o :=
      CaptureEntries(heap, heap[id].entries, maximum, memo, active + {id}, depth, v.fields[..k],
        Weight(Obj(v.fields[..k])));
            o.Captured? && o.copy == Copy(v, Weight(v))
    decreases MAX_DEPTH + 1 - depth, 0, |v.fields| - k + 2
  {
    if k == |v.fields| {
      assert v.fields[..k] == v.fields;
      hide Weight, Visit, Above, Faithful, Unfolds;
    } else {
      hide *;
      var later := EntryCaptured(heap, id, maximum, memo, active, depth, v, k);
      EntriesComplete(heap, id, maximum, later, active, depth, v, k + 1);
    }
  }

  /** At the top: a tree is captured exactly when the visit that enters every container once stays within the
      depth limit, and its canonical bytes fit the size limit. */
  lemma CapturedIffFits(heap: Heap, ref: Ref, maximum: nat, v: Json)
    requires Unfolds(heap, ref, v)
    ensures var o := Capture(heap, ref, maximum, map[], {}, 0);
      && (o.Captured? <==> Visit(heap, ref, {}, 0).Some? && |CanonicalBytes(v)| <= maximum)
      && (o.Captured? ==> o.copy == Copy(v, |CanonicalBytes(v)|))
    ensures Within(v, MAX_DEPTH) ==> Visit(heap, ref, {}, 0).Some?
  {
    ManifestSizeExact(v);
    assert Weight(v) == |CanonicalBytes(v)|;
    var none: Memo := map[];
    assert none.Keys == {};
    hide Weight, Unfolds, CanonicalBytes, Capture, Within, Visit;
    CaptureFaithful(heap, ref, maximum, map[], {}, 0);
    CapturedVisits(heap, ref, maximum, map[], {}, 0);
    var o := Capture(heap, ref, maximum, map[], {}, 0);
    if o.Captured? {
      UnfoldsUnique(heap, ref, o.copy.value, v);
    }
    if Visit(heap, ref, {}, 0).Some? && Weight(v) <= maximum {
      CaptureComplete(heap, ref, maximum, map[], {}, 0, v);
    }
    if Within(v, MAX_DEPTH) {
      ShallowIsVisited(heap, ref, {}, 0, v);
    }
  }
}
