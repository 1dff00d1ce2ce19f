/** Patches: ordered replacements of half-open intervals of a sequence, and the cursor loop that applies
    them. The line merge and the exact text editor both rebuild their candidate this way. */
module Patching {
  import opened Sequences

  /** Replace `base[start..end]` by `replacement`; `mark` says where the change came from. */
  datatype Edit<T, M> = Edit(start: int, end: int, replacement: seq<T>, mark: M) {
    /** How much longer the sequence grows. */
    function Net(): int {
      |replacement| - (end - start)
    }

    predicate Insertion() {
      start == end
    }
  }

  /** Two edits that do the same thing, wherever they came from. */
  predicate SameChange<T(==), M, N>(a: Edit<T, M>, b: Edit<T, N>) {
    a.start == b.start && a.end == b.end && a.replacement == b.replacement
  }

  predicate SameChanges<T(==), M, N>(a: seq<Edit<T, M>>, b: seq<Edit<T, N>>) {
    |a| == |b| && forall k :: 0 <= k < |a| ==> SameChange(a[k], b[k])
  }

  /** The edits lie inside `[lo, n]`, in order; neighbours may touch. */
  ghost predicate InOrder<T, M>(edits: seq<Edit<T, M>>, lo: int, n: int) {
    edits == [] || (lo <= edits[0].start <= edits[0].end <= n && InOrder(edits[1..], edits[0].end, n))
  }

  /** The edits lie inside `[lo, n]` and at least one untouched element stands between neighbours. */
  ghost predicate Separated<T, M>(edits: seq<Edit<T, M>>, lo: int, n: int) {
    edits == [] || (lo <= edits[0].start <= edits[0].end <= n && Separated(edits[1..], edits[0].end + 1, n))
  }

  /** The result of applying `edits` to `base` from position `cursor` on. */
  ghost function Patched<T, M>(base: seq<T>, cursor: nat, edits: seq<Edit<T, M>>): seq<T>
    requires cursor <= |base| && InOrder(edits, cursor, |base|)
    decreases |edits|
  {
    if edits == [] then base[cursor..]
    else base[cursor..edits[0].start] + (edits[0].replacement + Patched(base, edits[0].end, edits[1..]))
  }

  ghost function NetChange<T, M>(edits: seq<Edit<T, M>>): int {
    if edits == [] then 0 else edits[0].Net() + NetChange(edits[1..])
  }

  lemma PatchedStep<T, M>(base: seq<T>, cursor: nat, edits: seq<Edit<T, M>>, k: nat)
    requires cursor <= |base| && k < |edits| && InOrder(edits[k..], cursor, |base|)
    ensures cursor <= edits[k].start <= edits[k].end <= |base| && InOrder(edits[k + 1..], edits[k].end, |base|)
    ensures Patched(base, cursor, edits[k..]) ==
      base[cursor..edits[k].start] + edits[k].replacement + Patched(base, edits[k].end, edits[k + 1..])
  {
    assert edits[k..][1..] == edits[k + 1..];
  }

  /** What has been copied, joined with what is still to come, is the result. */
  ghost predicate CopiedTo<T, M>(base: seq<T>, edits: seq<Edit<T, M>>, k: nat, cursor: nat, parts: seq<T>)
    requires InOrder(edits, 0, |base|) && k <= |edits|
  {
    cursor <= |base| && InOrder(edits[k..], cursor, |base|)
      && parts + Patched(base, cursor, edits[k..]) == Patched(base, 0, edits)
  }

  lemma CopyNext<T, M>(base: seq<T>, edits: seq<Edit<T, M>>, k: nat, cursor: nat, parts: seq<T>)
    requires InOrder(edits, 0, |base|) && k < |edits| && CopiedTo(base, edits, k, cursor, parts)
    ensures cursor <= edits[k].start <= edits[k].end <= |base|
    ensures CopiedTo(base, edits, k + 1, edits[k].end, parts + base[cursor..edits[k].start] + edits[k].replacement)
  {
    PatchedStep(base, cursor, edits, k);
    hide Patched, InOrder;
    Regroup(parts, base[cursor..edits[k].start], edits[k].replacement, Patched(base, edits[k].end, edits[k + 1..]));
  }

  lemma Regroup<T>(a: seq<T>, b: seq<T>, c: seq<T>, d: seq<T>)
    ensures a + ((b + c) + d) == ((a + b) + c) + d
  {
  }

  /** The cursor loop. */
  method Rebuild<T, M>(base: seq<T>, edits: seq<Edit<T, M>>) returns (parts: seq<T>)
    requires InOrder(edits, 0, |base|)
    ensures parts == Patched(base, 0, edits)
  {
    parts := [];
    var cursor: nat := 0;
    assert edits[0..] == edits;
    for k := 0 to |edits|
      invariant cursor <= |base| && CopiedTo(base, edits, k, cursor, parts)
    {
      hide CopiedTo, Patched, InOrder;
      CopyNext(base, edits, k, cursor, parts);
      parts := parts + base[cursor..edits[k].start] + edits[k].replacement;
      cursor := edits[k].end;
    }
    parts := parts + base[cursor..];
  }

  lemma {:induction false} SeparatedIsInOrder<T, M>(edits: seq<Edit<T, M>>, lo: int, lo': int, n: int)
    requires Separated(edits, lo, n) && lo' <= lo
    ensures Separated(edits, lo', n) && InOrder(edits, lo', n)
  {
    if edits != [] {
      SeparatedIsInOrder(edits[1..], edits[0].end + 1, edits[0].end, n);
    }
  }

  lemma {:induction false} SeparatedAt<T, M>(edits: seq<Edit<T, M>>, lo: int, n: int, k: nat)
    requires Separated(edits, lo, n) && k < |edits|
    ensures lo <= edits[k].start <= edits[k].end <= n
  {
    if k > 0 {
      SeparatedAt(edits[1..], edits[0].end + 1, n, k - 1);
    }
  }

  /** Only the changes matter to the result, not their marks. */
  lemma {:induction false} PatchedIgnoresMarks<T, M, N>(base: seq<T>, cursor: nat, a: seq<Edit<T, M>>,
                                                        b: seq<Edit<T, N>>)
    requires cursor <= |base| && InOrder(a, cursor, |base|) && SameChanges(a, b)
    ensures InOrder(b, cursor, |base|) && Patched(base, cursor, a) == Patched(base, cursor, b)
    decreases |a|
  {
    if a != [] {
      assert SameChange(a[0], b[0]);
      forall k | 0 <= k < |a[1..]| ensures SameChange(a[1..][k], b[1..][k]) {
        assert SameChange(a[k + 1], b[k + 1]);
      }
      PatchedIgnoresMarks(base, a[0].end, a[1..], b[1..]);
    }
  }

  /** An untouched stretch can be copied first. */
  lemma PatchedAdvance<T, M>(base: seq<T>, cursor: nat, to: nat, edits: seq<Edit<T, M>>)
    requires cursor <= to <= |base| && InOrder(edits, to, |base|)
    ensures InOrder(edits, cursor, |base|)
    ensures Patched(base, cursor, edits) == base[cursor..to] + Patched(base, to, edits)
  {
    if edits == [] {
      assert base[cursor..] == base[cursor..to] + base[to..];
    } else {
      assert base[cursor..edits[0].start] == base[cursor..to] + base[to..edits[0].start];
      Associates(base[cursor..to], base[to..edits[0].start],
        edits[0].replacement + Patched(base, edits[0].end, edits[1..]));
    }
  }

  lemma {:induction false} PatchedLength<T, M>(base: seq<T>, cursor: nat, edits: seq<Edit<T, M>>)
    requires cursor <= |base| && InOrder(edits, cursor, |base|)
    ensures |Patched(base, cursor, edits)| == |base| - cursor + NetChange(edits)
    decreases |edits|
  {
    if edits != [] {
      PatchedLength(base, edits[0].end, edits[1..]);
    }
  }

  lemma NetCons<T, M>(edits: seq<Edit<T, M>>, k: nat)
    requires 0 < k <= |edits|
    ensures NetChange(edits[..k]) == edits[0].Net() + NetChange(edits[1..][..k - 1])
  {
    assert edits[..k][1..] == edits[1..][..k - 1];
  }

  /** `part` stands in `whole` at `at`. */
  ghost predicate StandsAt<T>(whole: seq<T>, at: int, part: seq<T>) {
    0 <= at && at + |part| <= |whole| && whole[at..at + |part|] == part
  }

  lemma StandsBehind<T>(head: seq<T>, rest: seq<T>, at: int, part: seq<T>)
    requires StandsAt(rest, at, part)
    ensures StandsAt(head + rest, |head| + at, part)
  {
    assert (head + rest)[|head| + at..|head| + at + |part|] == rest[at..at + |part|];
  }

  lemma PatchedHead<T, M>(base: seq<T>, cursor: nat, edits: seq<Edit<T, M>>)
    requires cursor <= |base| && InOrder(edits, cursor, |base|) && edits != []
    ensures InOrder(edits[1..], edits[0].end, |base|) && cursor <= edits[0].start <= edits[0].end <= |base|
    ensures Patched(base, cursor, edits) ==
      (base[cursor..edits[0].start] + edits[0].replacement) + Patched(base, edits[0].end, edits[1..])
  {
    Associates(base[cursor..edits[0].start], edits[0].replacement, Patched(base, edits[0].end, edits[1..]));
  }

  /** Every replacement stands where its interval was, shifted by the net change of the edits before it. */
  lemma {:induction false} PatchedReplacement<T, M>(base: seq<T>, cursor: nat, edits: seq<Edit<T, M>>, k: nat)
    requires cursor <= |base| && InOrder(edits, cursor, |base|) && k < |edits|
    ensures StandsAt(Patched(base, cursor, edits), edits[k].start - cursor + NetChange(edits[..k]),
      edits[k].replacement)
    decreases |edits|
  {
    PatchedHead(base, cursor, edits);
    hide Patched, InOrder;
    var head, rest := base[cursor..edits[0].start] + edits[0].replacement, Patched(base, edits[0].end, edits[1..]);
    if k == 0 {
      assert edits[..0] == [];
      assert (head + rest)[edits[0].start - cursor..|head|] == edits[0].replacement;
    } else {
      NetCons(edits, k);
      PatchedReplacement(base, edits[0].end, edits[1..], k - 1);
      hide StandsAt, NetChange;
      StandsBehind(head, rest, edits[k].start - edits[0].end + NetChange(edits[1..][..k - 1]), edits[k].replacement);
    }
  }

  /** The net change of the edits that end at or before `p`. */
  ghost function ShiftAt<T, M>(edits: seq<Edit<T, M>>, p: int): int {
    if edits == [] || p < edits[0].end then 0 else edits[0].Net() + ShiftAt(edits[1..], p)
  }

  ghost predicate Untouched<T, M>(edits: seq<Edit<T, M>>, p: int) {
    forall k :: 0 <= k < |edits| ==> !(edits[k].start <= p < edits[k].end)
  }

  /** Every element outside the replaced intervals is kept, shifted by the edits before it. */
  lemma {:induction false} PatchedOutside<T, M>(base: seq<T>, cursor: nat, edits: seq<Edit<T, M>>, p: nat)
    requires cursor <= p < |base| && InOrder(edits, cursor, |base|) && Untouched(edits, p)
    ensures var at := p - cursor + ShiftAt(edits, p);
      var result := Patched(base, cursor, edits);
      0 <= at < |result| && result[at] == base[p]
    decreases |edits|
  {
    if edits != [] {
      assert !(edits[0].start <= p < edits[0].end);
      if p >= edits[0].end {
        assert forall k :: 0 <= k < |edits[1..]| ==> edits[1..][k] == edits[k + 1];
        PatchedOutside(base, edits[0].end, edits[1..], p);
      }
    }
  }
}
