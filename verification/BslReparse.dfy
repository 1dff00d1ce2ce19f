/** Why the rebuilt candidate is again a well-formed document: its parts are lines of the inputs, only the
    last one may lack a terminator, and it begins like one of the inputs. */
module BslReparse {
  import opened Utf8
  import opened Patching
  import opened BslEdits
  import opened BslMerge
  import opened BslDocument

  type ByteEdit = LineEdit<Bytes>

  lemma {:induction false} LineListElements(lines: seq<Bytes>)
    ensures IsLineList(lines) <==>
      forall k :: 0 <= k < |lines| ==> IsLine(lines[k]) && (k < |lines| - 1 ==> Terminated(lines[k]))
  {
    if lines != [] {
      LineListElements(lines[1..]);
      assert forall k :: 1 <= k < |lines| ==> lines[k] == lines[1..][k - 1];
    }
  }

  /** The edit brings complete lines, except at the very end, and appends nothing to an open last line. */
  ghost predicate Clean(base: seq<Bytes>, e: ByteEdit) {
    && 0 <= e.start <= e.end <= |base|
    && (forall k :: 0 <= k < |e.replacement| ==>
          IsLine(e.replacement[k]) && (e.end < |base| || k < |e.replacement| - 1 ==> Terminated(e.replacement[k])))
    && (e.start == |base| > 0 ==> Terminated(base[|base| - 1]))
  }

  lemma FirstClean(base: seq<Bytes>, branch: seq<Bytes>, edits: seq<ByteEdit>, i: nat, j: nat, slack: nat)
    requires IsLineList(base) && IsLineList(branch) && edits != []
    requires Tiles(base, branch, edits, i, j) && Separated(edits, i + slack, |base|) && (i == 0 || slack > 0)
    ensures Clean(base, edits[0])
  {
    var e := edits[0];
    var r := e.mark.range;
    LineListElements(base);
    LineListElements(branch);
    if e.end < |base| {
      AfterEdit(base, branch, edits[1..], e.end, r.end);
    }
    if e.start == |base| > 0 {
      assert base[i..e.start][e.start - 1 - i] == branch[j..r.start][e.start - 1 - i];
      assert |base[i..e.start]| == |branch[j..r.start]|;
    }
  }

  lemma RestTiles(base: seq<Bytes>, branch: seq<Bytes>, edits: seq<ByteEdit>, i: nat, j: nat, slack: nat)
    requires edits != [] && Tiles(base, branch, edits, i, j) && Separated(edits, i + slack, |base|)
    ensures var e := edits[0];
      e.end >= 0 && e.mark.range.end >= 0 && Tiles(base, branch, edits[1..], e.end, e.mark.range.end)
        && Separated(edits[1..], e.end + 1, |base|)
  {
  }

  ghost predicate AllClean(base: seq<Bytes>, edits: seq<ByteEdit>) {
    forall e :: e in edits ==> Clean(base, e)
  }

  lemma AllCleanCons(base: seq<Bytes>, edits: seq<ByteEdit>)
    requires edits != [] && Clean(base, edits[0]) && AllClean(base, edits[1..])
    ensures AllClean(base, edits)
  {
    hide Clean;
    assert edits == [edits[0]] + edits[1..];
  }

  /** Every edit of a script between two line lists is clean. */
  lemma {:induction false} ScriptClean(base: seq<Bytes>, branch: seq<Bytes>, edits: seq<ByteEdit>, i: nat, j: nat,
                                       slack: nat)
    requires IsLineList(base) && IsLineList(branch)
    requires Tiles(base, branch, edits, i, j) && Separated(edits, i + slack, |base|) && (i == 0 || slack > 0)
    ensures AllClean(base, edits)
    decreases |edits|
  {
    if edits == [] {
    } else {
      hide *;
      FirstClean(base, branch, edits, i, j, slack);
      RestTiles(base, branch, edits, i, j, slack);
      ScriptClean(base, branch, edits[1..], edits[0].end, edits[0].mark.range.end, 1);
      AllCleanCons(base, edits);
    }
  }

  /** Where the base goes on after an edit, so does the branch, with the same line. */
  lemma AfterEdit(base: seq<Bytes>, branch: seq<Bytes>, edits: seq<ByteEdit>, i: nat, j: nat)
    requires Tiles(base, branch, edits, i, j) && Separated(edits, i + 1, |base|) && i < |base|
    ensures j < |branch| && branch[j] == base[i]
  {
    if edits == [] {
      assert base[i..][0] == branch[j..][0];
    } else {
      assert base[i..edits[0].start][0] == branch[j..edits[0].mark.range.start][0];
    }
  }

  lemma {:induction false} PatchedLineList(base: seq<Bytes>, c: nat, edits: seq<ByteEdit>)
    requires IsLineList(base) && c <= |base| && InOrder(edits, c, |base|) && Separated(edits, c, |base|)
    requires forall e :: e in edits ==> Clean(base, e)
    ensures IsLineList(Patched(base, c, edits))
    decreases |edits|
  {
    LineListElements(base);
    LineListElements(Patched(base, c, edits));
    if edits != [] {
      var e := edits[0];
      assert Clean(base, e);
      SeparatedIsInOrder(edits[1..], e.end + 1, e.end, |base|);
      PatchedLineList(base, e.end, edits[1..]);
      var rest := Patched(base, e.end, edits[1..]);
      LineListElements(rest);
      assert e.end == |base| ==> rest == [];
    }
  }

  lemma {:induction false} PatchedElements(base: seq<Bytes>, c: nat, edits: seq<ByteEdit>, line: Bytes)
    requires c <= |base| && InOrder(edits, c, |base|) && line in Patched(base, c, edits)
    ensures line in base || exists e :: e in edits && line in e.replacement
    decreases |edits|
  {
    if edits != [] && line !in base[c..edits[0].start] && line !in edits[0].replacement {
      PatchedElements(base, edits[0].end, edits[1..], line);
    }
  }

  lemma {:induction false} ScriptReplacements(base: seq<Bytes>, branch: seq<Bytes>, edits: seq<ByteEdit>, i: nat,
                                              j: nat)
    requires Tiles(base, branch, edits, i, j)
    ensures forall e, line :: e in edits && line in e.replacement ==> line in branch
    decreases |edits|
  {
    if edits != [] {
      ScriptReplacements(base, branch, edits[1..], edits[0].end, edits[0].mark.range.end);
    }
  }

  /** Every edit of the merge has the interval and the lines of an edit of one of the scripts. */
  lemma MergedFromScripts(ours: seq<ByteEdit>, theirs: seq<ByteEdit>, n: int, m: ByteEdit)
    requires Separated(ours, 0, n) && Separated(theirs, 0, n) && Combine(ours, theirs).Merged?
    requires m in Combine(ours, theirs).edits
    ensures exists e :: (e in ours || e in theirs) && SameChange(m, e)
  {
    MergedExactly(ours, theirs, 0, n, m);
    if m !in ours && m !in theirs {
      var o, t :| o in ours && t in theirs && Shareable(o, t) && m == Shared(o, t);
      assert o in ours && SameChange(m, o);
    } else {
      assert SameChange(m, m);
    }
  }

  /** A script for a real change is not empty. */
  lemma ChangeHasEdits(base: seq<Bytes>, branch: seq<Bytes>, edits: seq<ByteEdit>)
    requires ScriptFor(base, branch, edits) && base != branch
    ensures edits != []
  {
    assert base[0..] == base && branch[0..] == branch;
  }

  /** Two different changes give at least two hunks. */
  lemma {:induction false} AtLeastTwoHunks(ours: seq<ByteEdit>, theirs: seq<ByteEdit>)
    requires ours != [] && theirs != [] && Combine(ours, theirs).Merged? && !SameChanges(ours, theirs)
    ensures |Combine(ours, theirs).edits| >= 2
  {
    if Shareable(ours[0], theirs[0]) {
      assert ours[1..] != [] || theirs[1..] != [] || SameChanges(ours, theirs);
      CombineNotEmpty(ours[1..], theirs[1..]);
    } else if Before(ours[0], theirs[0]) {
      CombineNotEmpty(ours[1..], theirs);
    } else {
      CombineNotEmpty(ours, theirs[1..]);
    }
  }

  lemma CombineNotEmpty(ours: seq<ByteEdit>, theirs: seq<ByteEdit>)
    requires Combine(ours, theirs).Merged? && (ours != [] || theirs != [])
    ensures Combine(ours, theirs).edits != []
  {
  }

  /** Between the first two hunks a terminated base line survives. */
  lemma KeptLine(base: seq<Bytes>, edits: seq<ByteEdit>)
    requires IsLineList(base) && Separated(edits, 0, |base|) && InOrder(edits, 0, |base|) && |edits| >= 2
    requires forall e :: e in edits ==> Clean(base, e)
    ensures exists line :: line in base && line in Patched(base, 0, edits) && Terminated(line)
  {
    var first, second := edits[0], edits[1..][0];
    var line := base[first.end];
    LineListElements(base);
    assert edits[1] in edits && Clean(base, second);
    assert base[first.end..second.start][0] == line;
    assert line in Patched(base, first.end, edits[1..]);
    assert line in Patched(base, 0, edits);
  }

  /** The first line of the result is the first line of one of the three documents. */
  lemma FirstLine(base: seq<Bytes>, current: seq<Bytes>, upstream: seq<Bytes>, ours: seq<ByteEdit>,
                  theirs: seq<ByteEdit>)
    requires ScriptFor(base, current, ours) && ScriptFor(base, upstream, theirs) && Combine(ours, theirs).Merged?
    requires InOrder(Combine(ours, theirs).edits, 0, |base|)
    ensures var parts := Patched(base, 0, Combine(ours, theirs).edits);
      parts != [] ==>
        (base != [] && parts[0] == base[0]) || (current != [] && parts[0] == current[0])
          || (upstream != [] && parts[0] == upstream[0])
  {
    var merged := Combine(ours, theirs).edits;
    MergedSeparated(ours, theirs, 0, |base|);
    if merged != [] && merged[0].start == 0 {
      MergedFromScripts(ours, theirs, |base|, merged[0]);
      var e :| (e in ours || e in theirs) && SameChange(merged[0], e);
      if e in ours {
        FirstEditFirstLine(base, current, ours, e, merged);
      } else {
        FirstEditFirstLine(base, upstream, theirs, e, merged);
      }
    }
  }

  lemma FirstEditFirstLine(base: seq<Bytes>, branch: seq<Bytes>, edits: seq<ByteEdit>, e: ByteEdit,
                           merged: seq<ByteEdit>)
    requires ScriptFor(base, branch, edits) && e in edits && e.start == 0
    requires merged != [] && SameChange(merged[0], e) && Separated(merged, 0, |base|) && InOrder(merged, 0, |base|)
    ensures var parts := Patched(base, 0, merged); parts != [] ==> branch != [] && parts[0] == branch[0]
  {
    var k :| 0 <= k < |edits| && edits[k] == e;
    if k > 0 {
      SeparatedAt(edits[1..], edits[0].end + 1, |base|, k - 1);
    }
    assert |base[0..0]| == |branch[0..e.mark.range.start]|;
    var rest := Patched(base, e.end, merged[1..]);
    if e.replacement == [] && e.end < |base| {
      AfterEdit(base, branch, edits[1..], e.end, e.mark.range.end);
      if merged[1..] == [] {
        assert rest[0] == base[e.end];
      } else {
        assert base[e.end..merged[1..][0].start][0] == base[e.end];
      }
    }
  }
}
