/** Merging the two edit scripts of one base with two pointers: distinct edits must leave an untouched
    line between them, an identical replacement or deletion counts once, everything else conflicts. */
module BslMerge {
  import opened Sequences
  import opened Patching
  import opened BslEdits

  datatype Merge<L> =
    | Merged(edits: seq<LineEdit<L>>)
    | Conflict(ours: LineEdit<L>, theirs: LineEdit<L>)
  {
    /** The reason that the refusal reports. */
    predicate SameAnchor() {
      Conflict? && ours.start == ours.end == theirs.start == theirs.end
    }
  }

  predicate Shareable<L(==)>(ours: LineEdit<L>, theirs: LineEdit<L>) {
    SameChange(ours, theirs) && !ours.Insertion()
  }

  /** At least one untouched base line stands between the end of `a` and the start of `b`. */
  predicate Before<L>(a: LineEdit<L>, b: LineEdit<L>) {
    a.end < b.start
  }

  /** The two edits overlap or touch, and are not one change made on both sides. */
  predicate Clash<L(==)>(ours: LineEdit<L>, theirs: LineEdit<L>) {
    !Shareable(ours, theirs) && !Before(ours, theirs) && !Before(theirs, ours)
  }

  function MergedOrigin(ours: Origin, theirs: Origin): Origin {
    if ours.From? && theirs.From? then Both(ours.range, theirs.range) else ours
  }

  function Shared<L>(ours: LineEdit<L>, theirs: LineEdit<L>): LineEdit<L> {
    ours.(mark := MergedOrigin(ours.mark, theirs.mark))
  }

  function Prepend<L>(edits: seq<LineEdit<L>>, m: Merge<L>): Merge<L> {
    match m
    case Merged(rest) => Merged(edits + rest)
    case Conflict(_, _) => m
  }

  function Combine<L(==)>(current: seq<LineEdit<L>>, upstream: seq<LineEdit<L>>): Merge<L>
    decreases |current| + |upstream|
  {
    if current == [] || upstream == [] then Merged(current + upstream)
    else
      var ours, theirs := current[0], upstream[0];
      if Shareable(ours, theirs) then Prepend([Shared(ours, theirs)], Combine(current[1..], upstream[1..]))
      else if Before(ours, theirs) then Prepend([ours], Combine(current[1..], upstream))
      else if Before(theirs, ours) then Prepend([theirs], Combine(current, upstream[1..]))
      else Conflict(ours, theirs)
  }

  /** The two-pointer loop. */
  method ComputeMerge<L(==)>(current: seq<LineEdit<L>>, upstream: seq<LineEdit<L>>) returns (m: Merge<L>)
    ensures m == Combine(current, upstream)
  {
    var merged := [];
    var i, j := 0, 0;
    while i < |current| && j < |upstream|
      invariant i <= |current| && j <= |upstream|
      invariant Prepend(merged, Combine(current[i..], upstream[j..])) == Combine(current, upstream)
      decreases |current| - i + |upstream| - j
    {
      var ours, theirs := current[i], upstream[j];
      assert current[i..][0] == ours && upstream[j..][0] == theirs;
      assert current[i..][1..] == current[i + 1..] && upstream[j..][1..] == upstream[j + 1..];
      ghost var rest;
      if Shareable(ours, theirs) {
        rest := Combine(current[i + 1..], upstream[j + 1..]);
        PrependTwice(merged, [Shared(ours, theirs)], rest);
        merged := merged + [Shared(ours, theirs)];
        i, j := i + 1, j + 1;
      } else if Before(ours, theirs) {
        rest := Combine(current[i + 1..], upstream[j..]);
        PrependTwice(merged, [ours], rest);
        merged := merged + [ours];
        i := i + 1;
      } else if Before(theirs, ours) {
        rest := Combine(current[i..], upstream[j + 1..]);
        PrependTwice(merged, [theirs], rest);
        merged := merged + [theirs];
        j := j + 1;
      } else {
        return Conflict(ours, theirs);
      }
    }
    Associates(merged, current[i..], upstream[j..]);
    m := Merged(merged + current[i..] + upstream[j..]);
  }

  lemma PrependTwice<L>(a: seq<LineEdit<L>>, b: seq<LineEdit<L>>, m: Merge<L>)
    ensures Prepend(a + b, m) == Prepend(a, Prepend(b, m))
  {
    if m.Merged? {
      Associates(a, b, m.edits);
    }
  }

  // --- When the merge is refused --------------------------------------------------------

  /** `ours` is current edit `i`, `theirs` upstream edit `j`, they clash, and every pair with an earlier
      member on either side does not. */
  ghost predicate FirstClash<L>(current: seq<LineEdit<L>>, upstream: seq<LineEdit<L>>, i: nat, j: nat) {
    i < |current| && j < |upstream| && Clash(current[i], upstream[j]) &&
    forall x, y :: 0 <= x < |current| && 0 <= y < |upstream| && (x < i || y < j) ==> !Clash(current[x], upstream[y])
  }

  /** The head edit of either side lies before, or equals, the other head: it clashes with nothing. */
  lemma HeadIsClear<L>(current: seq<LineEdit<L>>, upstream: seq<LineEdit<L>>, lo: int, n: int)
    requires Separated(current, lo, n) && Separated(upstream, lo, n) && current != [] && upstream != []
    ensures Before(current[0], upstream[0]) ==> forall y :: 0 <= y < |upstream| ==> Before(current[0], upstream[y])
    ensures Before(upstream[0], current[0]) ==> forall x :: 0 <= x < |current| ==> Before(upstream[0], current[x])
    ensures Shareable(current[0], upstream[0]) ==>
      && (forall y :: 1 <= y < |upstream| ==> Before(current[0], upstream[y]))
      && (forall x :: 1 <= x < |current| ==> Before(upstream[0], current[x]))
  {
    forall y | 1 <= y < |upstream| ensures upstream[y].start > upstream[0].end {
      SeparatedAt(upstream[1..], upstream[0].end + 1, n, y - 1);
    }
    forall x | 1 <= x < |current| ensures current[x].start > current[0].end {
      SeparatedAt(current[1..], current[0].end + 1, n, x - 1);
    }
  }

  /** The merge is refused exactly when some current edit and some upstream edit clash, and the pair that
      it reports is the first such pair of both scripts. */
  lemma {:induction false} RefusedIffClash<L>(current: seq<LineEdit<L>>, upstream: seq<LineEdit<L>>, lo: int, n: int)
    requires Separated(current, lo, n) && Separated(upstream, lo, n)
    ensures Combine(current, upstream).Conflict? <==>
      exists i, j :: 0 <= i < |current| && 0 <= j < |upstream| && Clash(current[i], upstream[j])
    ensures Combine(current, upstream).Conflict? ==>
      exists i: nat, j: nat :: FirstClash(current, upstream, i, j)
        && Combine(current, upstream) == Conflict(current[i], upstream[j])
    decreases |current| + |upstream|, 0
  {
    if current != [] && upstream != [] {
      var ours, theirs := current[0], upstream[0];
      HeadIsClear(current, upstream, lo, n);
      if Shareable(ours, theirs) {
        SkipHeads(current, upstream, 1, 1, ours.end + 1, n);
      } else if Before(ours, theirs) {
        SeparatedIsInOrder(upstream, theirs.start, lo, n);
        SkipHeads(current, upstream, 1, 0, ours.end + 1, n);
      } else if Before(theirs, ours) {
        SkipHeads(current, upstream, 0, 1, theirs.end + 1, n);
      } else {
        assert FirstClash(current, upstream, 0, 0);
      }
    }
  }

  /** Dropping heads that clash with nothing keeps the criterion and the first clash. */
  lemma {:induction false} SkipHeads<L>(current: seq<LineEdit<L>>, upstream: seq<LineEdit<L>>, a: nat, b: nat, lo: int,
                                        n: int)
    requires a <= |current| && b <= |upstream| && 1 <= a + b
    requires Separated(current[a..], lo, n) && Separated(upstream[b..], lo, n)
    requires forall x, y :: 0 <= x < |current| && 0 <= y < |upstream| && (x < a || y < b) ==>
      !Clash(current[x], upstream[y])
    ensures var m := Combine(current[a..], upstream[b..]);
      && (m.Conflict? <==> exists i, j :: 0 <= i < |current| && 0 <= j < |upstream| && Clash(current[i], upstream[j]))
      && (m.Conflict? ==>
        exists i: nat, j: nat :: FirstClash(current, upstream, i, j) && m == Conflict(current[i], upstream[j]))
    decreases |current| + |upstream| - a - b, 1
  {
    var c, u := current[a..], upstream[b..];
    RefusedIffClash(c, u, lo, n);
    if i, j :| 0 <= i < |current| && 0 <= j < |upstream| && Clash(current[i], upstream[j]) {
      assert Clash(c[i - a], u[j - b]);
    }
    if Combine(c, u).Conflict? {
      var i: nat, j: nat :| FirstClash(c, u, i, j) && Combine(c, u) == Conflict(c[i], u[j]);
      assert Clash(current[i + a], upstream[j + b]);
      forall x, y | 0 <= x < |current| && 0 <= y < |upstream| && (x < i + a || y < j + b)
        ensures !Clash(current[x], upstream[y])
      {
        if x >= a && y >= b {
          assert !Clash(c[x - a], u[y - b]);
        }
      }
      assert FirstClash(current, upstream, i + a, j + b);
    }
  }

  // --- What a successful merge contains -------------------------------------------------

  /** `m` is an edit of `mine` that no edit of `others` repeats. */
  ghost predicate Unshared<L>(m: LineEdit<L>, mine: seq<LineEdit<L>>, others: seq<LineEdit<L>>) {
    m in mine && forall t :: t in others ==> !Shareable(m, t)
  }

  ghost predicate SharedBy<L>(m: LineEdit<L>, current: seq<LineEdit<L>>, upstream: seq<LineEdit<L>>) {
    exists o, t :: o in current && t in upstream && Shareable(o, t) && m == Shared(o, t)
  }

  ghost predicate Belongs<L>(m: LineEdit<L>, current: seq<LineEdit<L>>, upstream: seq<LineEdit<L>>) {
    Unshared(m, current, upstream) || Unshared(m, upstream, current) || SharedBy(m, current, upstream)
  }

  lemma {:induction false} MergedSeparated<L>(current: seq<LineEdit<L>>, upstream: seq<LineEdit<L>>, lo: int, n: int)
    requires Separated(current, lo, n) && Separated(upstream, lo, n) && Combine(current, upstream).Merged?
    ensures Separated(Combine(current, upstream).edits, lo, n)
    decreases |current| + |upstream|
  {
    if current == [] || upstream == [] {
      assert current + upstream == if current == [] then upstream else current;
    } else {
      var ours, theirs := current[0], upstream[0];
      var rest;
      if Shareable(ours, theirs) {
        MergedSeparated(current[1..], upstream[1..], ours.end + 1, n);
        rest := Combine(current[1..], upstream[1..]).edits;
      } else if Before(ours, theirs) {
        MergedSeparated(current[1..], upstream, ours.end + 1, n);
        rest := Combine(current[1..], upstream).edits;
      } else {
        MergedSeparated(current, upstream[1..], theirs.end + 1, n);
        rest := Combine(current, upstream[1..]).edits;
      }
      assert Combine(current, upstream).edits[1..] == rest;
    }
  }

  /** The merge holds exactly the unshared edits of either side and each shared edit once: with
      `MergedSeparated`, which orders them and rules out repetition, this determines it. */
  lemma {:induction false} MergedExactly<L>(current: seq<LineEdit<L>>, upstream: seq<LineEdit<L>>, lo: int, n: int,
                                            m: LineEdit<L>)
    requires Separated(current, lo, n) && Separated(upstream, lo, n) && Combine(current, upstream).Merged?
    ensures m in Combine(current, upstream).edits <==> Belongs(m, current, upstream)
    decreases |current| + |upstream|
  {
    if current != [] && upstream != [] {
      var ours, theirs := current[0], upstream[0];
      HeadIsClear(current, upstream, lo, n);
      assert current == [ours] + current[1..] && upstream == [theirs] + upstream[1..];
      if Shareable(ours, theirs) {
        MergedExactly(current[1..], upstream[1..], ours.end + 1, n, m);
        SharedHeads(current, upstream, m);
      } else if Before(ours, theirs) {
        MergedExactly(current[1..], upstream, ours.end + 1, n, m);
        assert Unshared(ours, current, upstream);
      } else {
        MergedExactly(current, upstream[1..], theirs.end + 1, n, m);
        assert Unshared(theirs, upstream, current);
      }
    }
  }

  lemma SharedHeads<L>(current: seq<LineEdit<L>>, upstream: seq<LineEdit<L>>, m: LineEdit<L>)
    requires current != [] && upstream != [] && Shareable(current[0], upstream[0]) && current[0].start <= current[0].end
    requires forall y :: 1 <= y < |upstream| ==> Before(current[0], upstream[y])
    requires forall x :: 1 <= x < |current| ==> Before(upstream[0], current[x])
    ensures Belongs(m, current, upstream) <==>
      m == Shared(current[0], upstream[0]) || Belongs(m, current[1..], upstream[1..])
  {
    var ours, theirs := current[0], upstream[0];
    assert current == [ours] + current[1..] && upstream == [theirs] + upstream[1..];
    assert forall t :: t in upstream[1..] ==> Before(ours, t);
    assert forall o :: o in current[1..] ==> Before(theirs, o);
    assert SharedBy(Shared(ours, theirs), current, upstream);
    if SharedBy(m, current, upstream) {
      var o, t :| o in current && t in upstream && Shareable(o, t) && m == Shared(o, t);
      assert (o == ours && t == theirs) || (o in current[1..] && t in upstream[1..]);
    }
  }

  /** Branches may be exchanged: the other order also succeeds, or also fails, with the same changes. */
  lemma {:induction false} CombineCommutes<L>(current: seq<LineEdit<L>>, upstream: seq<LineEdit<L>>,
                                              current': seq<LineEdit<L>>, upstream': seq<LineEdit<L>>, lo: int, n: int)
    requires Separated(current, lo, n) && Separated(upstream, lo, n)
    requires SameChanges(current, current') && SameChanges(upstream, upstream')
    ensures Combine(current, upstream).Merged? <==> Combine(upstream', current').Merged?
    ensures Combine(current, upstream).Merged? ==>
      SameChanges(Combine(current, upstream).edits, Combine(upstream', current').edits)
    ensures Combine(current, upstream).Conflict? ==>
      Combine(current, upstream).SameAnchor() == Combine(upstream', current').SameAnchor()
    decreases |current| + |upstream|
  {
    if current == [] || upstream == [] {
      assert current + upstream == if current == [] then upstream else current;
      assert upstream' + current' == if current == [] then upstream' else current';
    } else {
      assert SameChange(current[0], current'[0]) && SameChange(upstream[0], upstream'[0]);
      assert SameChanges(current[1..], current'[1..]) by { SameChangesTail(current, current'); }
      assert SameChanges(upstream[1..], upstream'[1..]) by { SameChangesTail(upstream, upstream'); }
      var ours, theirs := current[0], upstream[0];
      hide SameChanges;
      if Shareable(ours, theirs) {
        CombineCommutes(current[1..], upstream[1..], current'[1..], upstream'[1..], ours.end + 1, n);
        PrependSame(Shared(ours, theirs), Shared(upstream'[0], current'[0]),
                    Combine(current[1..], upstream[1..]), Combine(upstream'[1..], current'[1..]));
      } else if Before(ours, theirs) {
        CombineCommutes(current[1..], upstream, current'[1..], upstream', ours.end + 1, n);
        PrependSame(ours, current'[0], Combine(current[1..], upstream), Combine(upstream', current'[1..]));
      } else if Before(theirs, ours) {
        CombineCommutes(current, upstream[1..], current', upstream'[1..], theirs.end + 1, n);
        PrependSame(theirs, upstream'[0], Combine(current, upstream[1..]), Combine(upstream'[1..], current'));
      }
    }
  }

  lemma PrependSame<L>(a: LineEdit<L>, b: LineEdit<L>, m: Merge<L>, m': Merge<L>)
    requires SameChange(a, b) && (m.Merged? <==> m'.Merged?) && (m.Merged? ==> SameChanges(m.edits, m'.edits))
    ensures m.Merged? ==> SameChanges(Prepend([a], m).edits, Prepend([b], m').edits)
  {
  }

  lemma SameChangesTail<L>(a: seq<LineEdit<L>>, b: seq<LineEdit<L>>)
    requires SameChanges(a, b) && a != []
    ensures SameChanges(a[1..], b[1..])
  {
    forall k | 0 <= k < |a[1..]| ensures SameChange(a[1..][k], b[1..][k]) {
      assert SameChange(a[k + 1], b[k + 1]);
    }
  }
}
