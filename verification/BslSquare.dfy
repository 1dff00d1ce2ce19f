/** The merge as a commuting square: patching the base with the merged script is the same as patching
    either branch with the other side's own hunks, moved by the net line changes before them. */
module BslSquare {
  import opened Sequences
  import opened Patching
  import opened BslEdits
  import opened BslMerge

  /** Net growth of the edits that end before base position `p`. */
  ghost function NetBefore<L>(edits: seq<LineEdit<L>>, p: int): int {
    if edits == [] then 0
    else (if edits[0].end < p then edits[0].Net() else 0) + NetBefore(edits[1..], p)
  }

  ghost function Moved<L>(e: LineEdit<L>, offset: int): LineEdit<L> {
    e.(start := e.start + offset, end := e.end + offset)
  }

  /** The edits of `mine` that `others` do not repeat, moved to where they belong once `others` are
      applied. `delta` is the growth that happened before the first of `others`. */
  ghost function Rebased<L>(mine: seq<LineEdit<L>>, others: seq<LineEdit<L>>, delta: int): seq<LineEdit<L>> {
    if mine == [] then []
    else
      (if exists o :: o in others && Shareable(o, mine[0]) then []
       else [Moved(mine[0], delta + NetBefore(others, mine[0].start))]) +
      Rebased(mine[1..], others, delta)
  }

  lemma {:induction false} NetBeforeNothing<L>(edits: seq<LineEdit<L>>, lo: int, n: int, p: int)
    requires Separated(edits, lo, n) && p <= lo
    ensures NetBefore(edits, p) == 0
  {
    if edits != [] {
      NetBeforeNothing(edits[1..], edits[0].end + 1, n, p);
    }
  }

  /** Once an edit of the other side lies before everything that is left, it only adds to `delta`. */
  lemma {:induction false} RebasedPast<L>(mine: seq<LineEdit<L>>, others: seq<LineEdit<L>>, delta: int, n: int)
    requires others != [] && Separated(mine, others[0].end + 1, n) && others[0].start <= others[0].end
    ensures Rebased(mine, others, delta) == Rebased(mine, others[1..], delta + others[0].Net())
    decreases |mine|
  {
    if mine != [] {
      SeparatedIsInOrder(mine[1..], mine[0].end + 1, others[0].end + 1, n);
      RebasedPast(mine[1..], others, delta, n);
      assert others == [others[0]] + others[1..];
    }
  }

  /** Nothing of `others` starts before `mine[0]` ends: the head edit moves by `delta` alone. */
  lemma RebasedHead<L>(mine: seq<LineEdit<L>>, others: seq<LineEdit<L>>, delta: int, n: int)
    requires mine != [] && mine[0].start <= mine[0].end && Separated(others, mine[0].end + 1, n)
    ensures Rebased(mine, others, delta) == [Moved(mine[0], delta)] + Rebased(mine[1..], others, delta)
  {
    NetBeforeNothing(others, mine[0].end + 1, n, mine[0].start);
    forall o | o in others ensures !Shareable(o, mine[0]) {
      var k :| 0 <= k < |others| && others[k] == o;
      SeparatedAt(others, mine[0].end + 1, n, k);
    }
  }

  /** A shared head edit is not applied again. */
  lemma RebasedSkip<L>(mine: seq<LineEdit<L>>, others: seq<LineEdit<L>>, delta: int)
    requires mine != [] && others != [] && Shareable(others[0], mine[0])
    ensures Rebased(mine, others, delta) == Rebased(mine[1..], others, delta)
  {
    assert others[0] in others;
  }

  /** The base from `c` on, patched by `mine`, is the branch from `k` on; nothing is edited before `lo`. */
  ghost predicate InStep<L>(base: seq<L>, branch: seq<L>, mine: seq<LineEdit<L>>, others: seq<LineEdit<L>>, c: nat,
                            lo: int, k: nat) {
    && c <= lo && c <= |base| && k <= |branch|
    && Separated(mine, lo, |base|) && Separated(others, lo, |base|)
    && InOrder(mine, c, |base|) && branch[k..] == Patched(base, c, mine)
  }

  /** Patching the branch with `rebased` is patching the base with `merged`. */
  ghost predicate Square<L>(base: seq<L>, branch: seq<L>, merged: seq<LineEdit<L>>, rebased: seq<LineEdit<L>>, c: nat,
                            k: nat) {
    && c <= |base| && k <= |branch|
    && InOrder(merged, c, |base|) && InOrder(rebased, k, |branch|)
    && Patched(branch, k, rebased) == Patched(base, c, merged)
  }

  /** The square, from base position `c` and branch position `k` on. */
  lemma {:induction false} SquareFrom<L>(base: seq<L>, branch: seq<L>, mine: seq<LineEdit<L>>, others: seq<LineEdit<L>>,
                                         c: nat, lo: int, k: nat)
    requires InStep(base, branch, mine, others, c, lo, k) && Combine(mine, others).Merged?
    ensures Square(base, branch, Combine(mine, others).edits, Rebased(others, mine, k - c), c, k)
    decreases |mine| + |others|, 1
  {
    if others == [] {
      assert mine + others == mine;
    } else if mine == [] {
      assert mine + others == others;
      SeparatedIsInOrder(others, lo, c, |base|);
      OnlyOthers(base, branch, others, c, k);
    } else if Shareable(mine[0], others[0]) {
      SquareShared(base, branch, mine, others, c, lo, k);
    } else if Before(mine[0], others[0]) {
      SquareOurs(base, branch, mine, others, c, lo, k);
    } else {
      SquareTheirs(base, branch, mine, others, c, lo, k);
    }
  }

  /** After the last edit of this side the two sequences agree at a fixed distance. */
  lemma {:induction false} OnlyOthers<L>(base: seq<L>, branch: seq<L>, others: seq<LineEdit<L>>, c: nat, k: nat)
    requires c <= |base| && k <= |branch| && branch[k..] == base[c..] && InOrder(others, c, |base|)
    ensures Square(base, branch, others, Rebased(others, [], k - c), c, k)
    decreases |others|
  {
    if others != [] {
      var e := others[0];
      var at := e.end + (k - c);
      assert branch[at..] == branch[k..][e.end - c..] && base[e.end..] == base[c..][e.end - c..];
      assert branch[k..e.start + (k - c)] == branch[k..][..e.start - c] && base[c..e.start] == base[c..][..e.start - c];
      assert Rebased(others, [], k - c) == [Moved(e, k - c)] + Rebased(others[1..], [], k - c);
      assert InOrder(others[1..], e.end, |base|) && c <= e.start <= e.end <= |base| && at - e.end == k - c;
      assert [e] + others[1..] == others;
      hide *;
      OnlyOthers(base, branch, others[1..], e.end, at);
      JoinTheirs(base, branch, e, others[1..], Rebased(others[1..], [], k - c), c, k);
    }
  }

  /** The head of this side is applied on both paths; the branch cursor moves past its replacement. */
  lemma PassHead<L>(base: seq<L>, branch: seq<L>, mine: seq<LineEdit<L>>, c: nat, k: nat) returns (k': nat)
    requires c <= |base| && k <= |branch| && mine != [] && InOrder(mine, c, |base|)
    requires branch[k..] == Patched(base, c, mine)
    ensures k <= k' <= |branch| && k' - mine[0].end == k - c + mine[0].Net()
    ensures branch[k..k'] == base[c..mine[0].start] + mine[0].replacement
    ensures branch[k'..] == Patched(base, mine[0].end, mine[1..])
  {
    var e := mine[0];
    var head, rest := base[c..e.start] + e.replacement, Patched(base, e.end, mine[1..]);
    Associates(base[c..e.start], e.replacement, rest);
    k' := k + |head|;
    assert branch[k..][..|head|] == head && branch[k..][|head|..] == rest;
  }

  /** An edit of this side put before a square: the branch already contains it. */
  lemma JoinOurs<L>(base: seq<L>, branch: seq<L>, e: LineEdit<L>, merged: seq<LineEdit<L>>, rebased: seq<LineEdit<L>>,
                    c: nat, k: nat, k': nat)
    requires c <= e.start <= e.end <= |base| && k <= k' && Square(base, branch, merged, rebased, e.end, k')
    requires branch[k..k'] == base[c..e.start] + e.replacement
    ensures Square(base, branch, [e] + merged, rebased, c, k)
  {
    assert ([e] + merged)[1..] == merged;
    PatchedAdvance(branch, k, k', rebased);
    Associates(base[c..e.start], e.replacement, Patched(base, e.end, merged));
  }

  /** An edit of the other side put before a square: both paths apply it, the branch at its own distance. */
  lemma JoinTheirs<L>(base: seq<L>, branch: seq<L>, e: LineEdit<L>, merged: seq<LineEdit<L>>, rebased: seq<LineEdit<L>>,
                      c: nat, k: nat)
    requires c <= e.start <= e.end <= |base| && e.end + (k - c) <= |branch|
    requires Square(base, branch, merged, rebased, e.end, e.end + (k - c))
    requires branch[k..e.start + (k - c)] == base[c..e.start]
    ensures Square(base, branch, [e] + merged, [Moved(e, k - c)] + rebased, c, k)
  {
    assert ([e] + merged)[1..] == merged && ([Moved(e, k - c)] + rebased)[1..] == rebased;
  }

  lemma InStepMeans<L>(base: seq<L>, branch: seq<L>, mine: seq<LineEdit<L>>, others: seq<LineEdit<L>>, c: nat, lo: int,
                       k: nat)
    requires InStep(base, branch, mine, others, c, lo, k)
    ensures c <= lo && c <= |base| && k <= |branch| && InOrder(mine, c, |base|) && branch[k..] == Patched(base, c, mine)
    ensures mine != [] ==> c <= mine[0].start <= mine[0].end <= |base|
  {
    hide Patched, Separated;
  }

  // --- One step of the merge ------------------------------------------------------------

  lemma OursHead<L>(mine: seq<LineEdit<L>>, others: seq<LineEdit<L>>)
    requires mine != [] && others != [] && !Shareable(mine[0], others[0]) && Before(mine[0], others[0])
    requires Combine(mine, others).Merged?
    ensures Combine(mine[1..], others).Merged?
    ensures Combine(mine, others).edits == [mine[0]] + Combine(mine[1..], others).edits
  {
  }

  lemma SharedHead<L>(mine: seq<LineEdit<L>>, others: seq<LineEdit<L>>)
    requires mine != [] && others != [] && Shareable(mine[0], others[0]) && Combine(mine, others).Merged?
    ensures Combine(mine[1..], others[1..]).Merged?
    ensures Combine(mine, others).edits == [Shared(mine[0], others[0])] + Combine(mine[1..], others[1..]).edits
    ensures var e := Shared(mine[0], others[0]);
      e.start == mine[0].start && e.end == mine[0].end && e.replacement == mine[0].replacement
  {
  }

  lemma TheirsHead<L>(mine: seq<LineEdit<L>>, others: seq<LineEdit<L>>)
    requires mine != [] && others != [] && !Shareable(mine[0], others[0]) && !Before(mine[0], others[0])
    requires Combine(mine, others).Merged?
    ensures Combine(mine, others[1..]).Merged?
    ensures Combine(mine, others).edits == [others[0]] + Combine(mine, others[1..]).edits
    ensures Before(others[0], mine[0])
  {
  }

  lemma StepOurs<L>(base: seq<L>, branch: seq<L>, mine: seq<LineEdit<L>>, others: seq<LineEdit<L>>, c: nat, lo: int,
                    k: nat, k': nat)
    requires InStep(base, branch, mine, others, c, lo, k) && mine != [] && others != [] && Before(mine[0], others[0])
    requires k <= k' <= |branch| && branch[k'..] == Patched(base, mine[0].end, mine[1..])
    ensures InStep(base, branch, mine[1..], others, mine[0].end, mine[0].end + 1, k')
    ensures Separated(others, mine[0].end + 1, |base|)
  {
    hide Patched;
    SeparatedIsInOrder(mine[1..], mine[0].end + 1, mine[0].end, |base|);
  }

  lemma StepShared<L>(base: seq<L>, branch: seq<L>, mine: seq<LineEdit<L>>, others: seq<LineEdit<L>>, c: nat, lo: int,
                      k: nat, k': nat)
    requires InStep(base, branch, mine, others, c, lo, k) && mine != [] && others != [] && Shareable(mine[0], others[0])
    requires k <= k' <= |branch| && branch[k'..] == Patched(base, mine[0].end, mine[1..])
    ensures InStep(base, branch, mine[1..], others[1..], mine[0].end, mine[0].end + 1, k')
    ensures Separated(others[1..], mine[0].end + 1, |base|)
  {
    hide Patched;
    SeparatedIsInOrder(mine[1..], mine[0].end + 1, mine[0].end, |base|);
  }

  lemma StepTheirs<L>(base: seq<L>, branch: seq<L>, mine: seq<LineEdit<L>>, others: seq<LineEdit<L>>, c: nat, lo: int,
                      k: nat)
    requires InStep(base, branch, mine, others, c, lo, k) && mine != [] && others != [] && Before(others[0], mine[0])
    ensures var e := others[0]; var at := e.end + (k - c);
      && c <= e.start <= e.end <= |base| && 0 <= at <= |branch| && branch[k..e.start + (k - c)] == base[c..e.start]
      && InStep(base, branch, mine, others[1..], e.end, e.end + 1, at) && Separated(mine, e.end + 1, |base|)
  {
    hide Patched;
    var e := others[0];
    SeparatedIsInOrder(mine, e.end + 1, e.end, |base|);
    PatchedAdvance(base, c, e.end, mine);
    CommonStart(base, branch, c, k, e.start, e.end, Patched(base, e.end, mine));
  }

  lemma SquareOurs<L>(base: seq<L>, branch: seq<L>, mine: seq<LineEdit<L>>, others: seq<LineEdit<L>>, c: nat, lo: int,
                      k: nat)
    requires InStep(base, branch, mine, others, c, lo, k) && Combine(mine, others).Merged?
    requires mine != [] && others != [] && !Shareable(mine[0], others[0]) && Before(mine[0], others[0])
    ensures Square(base, branch, Combine(mine, others).edits, Rebased(others, mine, k - c), c, k)
    decreases |mine| + |others|, 0
  {
    hide *;
    var ours := mine[0];
    InStepMeans(base, branch, mine, others, c, lo, k);
    OursHead(mine, others);
    var k' := PassHead(base, branch, mine, c, k);
    StepOurs(base, branch, mine, others, c, lo, k, k');
    SquareFrom(base, branch, mine[1..], others, ours.end, ours.end + 1, k');
    RebasedPast(others, mine, k - c, |base|);
    JoinOurs(base, branch, ours, Combine(mine[1..], others).edits, Rebased(others, mine, k - c), c, k, k');
  }

  lemma SquareShared<L>(base: seq<L>, branch: seq<L>, mine: seq<LineEdit<L>>, others: seq<LineEdit<L>>, c: nat, lo: int,
                        k: nat)
    requires InStep(base, branch, mine, others, c, lo, k) && Combine(mine, others).Merged?
    requires mine != [] && others != [] && Shareable(mine[0], others[0])
    ensures Square(base, branch, Combine(mine, others).edits, Rebased(others, mine, k - c), c, k)
    decreases |mine| + |others|, 0
  {
    hide *;
    var ours := mine[0];
    InStepMeans(base, branch, mine, others, c, lo, k);
    SharedHead(mine, others);
    RebasedSkip(others, mine, k - c);
    var k' := PassHead(base, branch, mine, c, k);
    StepShared(base, branch, mine, others, c, lo, k, k');
    SquareFrom(base, branch, mine[1..], others[1..], ours.end, ours.end + 1, k');
    RebasedPast(others[1..], mine, k - c, |base|);
    JoinOurs(base, branch, Shared(ours, others[0]), Combine(mine[1..], others[1..]).edits, Rebased(others, mine, k - c),
      c, k, k');
  }

  /** Up to position `to` the branch repeats the base. */
  lemma CommonStart<L>(base: seq<L>, branch: seq<L>, c: nat, k: nat, x: nat, to: nat, rest: seq<L>)
    requires c <= x <= to <= |base| && k <= |branch| && branch[k..] == base[c..to] + rest
    ensures to + (k - c) <= |branch| && branch[to + (k - c)..] == rest
    ensures branch[k..x + (k - c)] == base[c..x]
  {
    var same := base[c..to];
    assert branch[k..][|same|..] == branch[to + (k - c)..];
    assert branch[k..][..x - c] == branch[k..x + (k - c)] && same[..x - c] == base[c..x];
  }

  lemma SquareTheirs<L>(base: seq<L>, branch: seq<L>, mine: seq<LineEdit<L>>, others: seq<LineEdit<L>>, c: nat, lo: int,
                        k: nat)
    requires InStep(base, branch, mine, others, c, lo, k) && Combine(mine, others).Merged?
    requires mine != [] && others != [] && !Shareable(mine[0], others[0]) && !Before(mine[0], others[0])
    ensures Square(base, branch, Combine(mine, others).edits, Rebased(others, mine, k - c), c, k)
    decreases |mine| + |others|, 0
  {
    hide *;
    var e := others[0];
    var at := e.end + (k - c);
    TheirsHead(mine, others);
    StepTheirs(base, branch, mine, others, c, lo, k);
    SquareFrom(base, branch, mine, others[1..], e.end, e.end + 1, at);
    RebasedHead(others, mine, k - c, |base|);
    JoinTheirs(base, branch, e, Combine(mine, others[1..]).edits, Rebased(others[1..], mine, k - c), c, k);
  }

  /** Both sides of the square: the merged lines are `current` patched with upstream's own hunks, and
      `upstream` patched with current's own hunks. */
  lemma CommutingSquare<L>(base: seq<L>, current: seq<L>, upstream: seq<L>, ours: seq<LineEdit<L>>,
                           theirs: seq<LineEdit<L>>)
    requires ScriptFor(base, current, ours) && ScriptFor(base, upstream, theirs)
    requires Combine(ours, theirs).Merged?
    ensures Square(base, current, Combine(ours, theirs).edits, Rebased(theirs, ours, 0), 0, 0)
    ensures Square(base, upstream, Combine(ours, theirs).edits, Rebased(ours, theirs, 0), 0, 0)
  {
    hide Rebased, Combine, Tiles, Patched;
    ScriptPatches(base, current, ours);
    ScriptPatches(base, upstream, theirs);
    SquareFrom(base, current, ours, theirs, 0, 0, 0);
    CombineCommutes(ours, theirs, ours, theirs, 0, |base|);
    SquareFrom(base, upstream, theirs, ours, 0, 0, 0);
    MergedSeparated(ours, theirs, 0, |base|);
    SeparatedIsInOrder(Combine(ours, theirs).edits, 0, 0, |base|);
    PatchedIgnoresMarks(base, 0, Combine(ours, theirs).edits, Combine(theirs, ours).edits);
  }

  lemma ScriptPatches<L>(base: seq<L>, branch: seq<L>, edits: seq<LineEdit<L>>)
    requires ScriptFor(base, branch, edits)
    ensures InOrder(edits, 0, |base|) && Patched(base, 0, edits) == branch == branch[0..]
  {
    SeparatedIsInOrder(edits, 0, 0, |base|);
    TilesPatch(base, branch, edits, 0, 0);
  }
}
