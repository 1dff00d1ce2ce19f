/** Every outcome of the three-way materialization told from the files themselves: which inputs are refused for their
    format, when the work limit is met, which selection is made, and what the evidence rows point at. */
module BslOutcomes {
  import opened Utf8
  import opened Patching
  import opened BslEdits
  import M = Matching
  import opened BslMerge
  import opened BslDocument
  import opened BslReparse
  import opened BslThreeWay

  // --- Limits ---------------------------------------------------------------------------

  /** Unsuitable limits are refused first, then the first file with too many bytes, then the first one that is not a
      document. */
  lemma LimitsExactly(base: Bytes, current: Bytes, upstream: Bytes, maxBytes: int, maxLines: int, k: nat)
    requires k < 3
    ensures var r := ThreeWay(base, current, upstream, maxBytes, maxLines);
      var files := [base, current, upstream];
      && (r == Refused(InvalidLimits) <==> !(1 <= maxBytes <= 16 * 1024 * 1024 && 1 <= maxLines <= 200_000))
      && (r != Refused(InvalidLimits) ==>
        && (|files[k]| > maxBytes && (forall j :: 0 <= j < k ==> |files[j]| <= maxBytes) ==>
             r == Refused(ByteLimit(|files[k]|)))
        && ((forall j :: 0 <= j < 3 ==> |files[j]| <= maxBytes) && Parsing(files[k], maxLines, false).Rejected?
            && (forall j :: 0 <= j < k ==> Parsing(files[j], maxLines, false).Parsed?) ==>
             r == Refused(Malformed(Parsing(files[k], maxLines, false).problem))))
  {
    hide Parsing, Decide;
    var files := [base, current, upstream];
    assert files[0] == base && files[1] == current && files[2] == upstream;
    if Bounded(base, current, upstream, maxBytes, maxLines) {
      var b, c, u :=
        Parsing(base, maxLines, false), Parsing(current, maxLines, false), Parsing(upstream, maxLines, false);
      if b.Parsed? && c.Parsed? && u.Parsed? {
        DecidedWithinLimits(base, current, upstream, b.document, c.document, u.document, maxBytes, maxLines);
      }
    }
  }

  lemma DecidedWithinLimits(base: Bytes, current: Bytes, upstream: Bytes, b: Document, c: Document, u: Document,
                            maxBytes: nat, maxLines: nat)
    ensures Decide(base, current, upstream, b, c, u, maxBytes, maxLines) != Refused(InvalidLimits)
  {
    hide Scripts, Combine, Parsing;
  }

  // --- Formats --------------------------------------------------------------------------

  predicate Marked(raw: Bytes) {
    BOM <= raw
  }

  function Body(raw: Bytes): Bytes {
    if Marked(raw) then raw[|BOM|..] else raw
  }

  /** A CR stands alone in some file. */
  ghost predicate SomeLone(files: seq<Bytes>) {
    exists f :: f in files && LoneCr(Body(f))
  }

  /** Some file has both kinds of line end. */
  ghost predicate SomeMixed(files: seq<Bytes>) {
    exists f :: f in files && HasPair(Body(f)) && BareLf(Body(f))
  }

  /** One file has pairs and another one has bare line feeds. */
  ghost predicate SomeDiffer(files: seq<Bytes>) {
    exists f, g :: f in files && g in files && HasPair(Body(f)) && BareLf(Body(g))
  }

  ghost predicate OneMark(files: seq<Bytes>) {
    forall f, g :: f in files && g in files ==> Marked(f) == Marked(g)
  }

  ghost predicate OneFormat(files: seq<Bytes>) {
    !SomeLone(files) && !SomeMixed(files) && !SomeDiffer(files) && OneMark(files)
  }

  /** Three files within the limits that are read as documents and differ pairwise. */
  ghost predicate Different(base: Bytes, current: Bytes, upstream: Bytes, maxBytes: int, maxLines: int, b: Document,
                            c: Document, u: Document) {
    && Bounded(base, current, upstream, maxBytes, maxLines) && ParsedAs(base, current, upstream, maxLines, b, c, u)
    && current != base && upstream != base && current != upstream
  }

  /** The mark and the newline style of a document, told from its file. */
  ghost predicate ReadAs(raw: Bytes, d: Document) {
    && d.bom == (if Marked(raw) then BOM else [])
    && (d.newline == Unsupported <==> LoneCr(Body(raw)))
    && (!LoneCr(Body(raw)) ==>
         && (d.newline == Mixed <==> HasPair(Body(raw)) && BareLf(Body(raw)))
         && (d.newline == CrLf <==> HasPair(Body(raw)) && !BareLf(Body(raw)))
         && (d.newline == Lf <==> BareLf(Body(raw)) && !HasPair(Body(raw))))
  }

  lemma ReadStyle(raw: Bytes, maxLines: nat, d: Document)
    requires Parsing(raw, maxLines, false) == Parsed(d)
    ensures ReadAs(raw, d)
  {
    hide NewlineStyle, LoneCr, HasPair, BareLf, Valid, LineCount, Lines;
    StyleExactly(Body(raw));
  }

  lemma FormatOf(base: Bytes, current: Bytes, upstream: Bytes, b: Document, c: Document, u: Document)
    requires ReadAs(base, b) && ReadAs(current, c) && ReadAs(upstream, u)
    ensures var files := [base, current, upstream];
      FormatRefusal(b, c, u) ==
        if SomeLone(files) then [UnsupportedNewlines]
        else if SomeMixed(files) then [MixedNewlines]
        else if SomeDiffer(files) then [NewlineStyleChanged]
        else if !OneMark(files) then [BomChanged]
        else []
  {
    hide LoneCr, HasPair, BareLf, Body, Marked;
    var files := [base, current, upstream];
    assert forall f :: f in files <==> f == base || f == current || f == upstream;
  }

  /** Each of the four format refusals is given exactly for its own condition on the files, when none before it
      holds. */
  lemma FormatExactly(base: Bytes, current: Bytes, upstream: Bytes, maxBytes: int, maxLines: int,
                      b: Document, c: Document, u: Document)
    requires Different(base, current, upstream, maxBytes, maxLines, b, c, u)
    ensures var r := ThreeWay(base, current, upstream, maxBytes, maxLines);
      var files := [base, current, upstream];
      && (r == Refused(UnsupportedNewlines) <==> SomeLone(files))
      && (r == Refused(MixedNewlines) <==> !SomeLone(files) && SomeMixed(files))
      && (r == Refused(NewlineStyleChanged) <==> !SomeLone(files) && !SomeMixed(files) && SomeDiffer(files))
      && (r == Refused(BomChanged) <==>
        !SomeLone(files) && !SomeMixed(files) && !SomeDiffer(files) && !OneMark(files))
    ensures CompositeCase(base, current, upstream, maxBytes, maxLines, b, c, u) <==>
      OneFormat([base, current, upstream])
  {
    hide ThreeWay, Compose, FormatRefusal, ReadAs, SomeLone, SomeMixed, SomeDiffer, OneMark, Parsing;
    ReadStyle(base, maxLines, b);
    ReadStyle(current, maxLines, c);
    ReadStyle(upstream, maxLines, u);
    FormatOf(base, current, upstream, b, c, u);
    DifferentIsComposed(base, current, upstream, maxBytes, maxLines, b, c, u);
    RefusedFormats(b, c, u, maxBytes, maxLines);
  }

  lemma DifferentIsComposed(base: Bytes, current: Bytes, upstream: Bytes, maxBytes: int, maxLines: int,
                            b: Document, c: Document, u: Document)
    requires Different(base, current, upstream, maxBytes, maxLines, b, c, u)
    ensures ThreeWay(base, current, upstream, maxBytes, maxLines) == Compose(b, c, u, maxBytes, maxLines)
  {
    hide Compose, Parsing;
  }

  /** Past the format rules no format refusal is given. */
  lemma RefusedFormats(b: Document, c: Document, u: Document, maxBytes: nat, maxLines: nat)
    ensures var r := Compose(b, c, u, maxBytes, maxLines);
      if FormatRefusal(b, c, u) != [] then r == Refused(FormatRefusal(b, c, u)[0])
      else forall f :: f in {UnsupportedNewlines, MixedNewlines, NewlineStyleChanged, BomChanged} ==> r != Refused(f)
  {
    hide FormatRefusal, Scripts;
  }

  // --- Selections -----------------------------------------------------------------------

  /** A mode says which of the three files are equal, and an exact selection has one row over the whole files, or none
      when nothing was changed at all. */
  lemma SelectionExactly(base: Bytes, current: Bytes, upstream: Bytes, maxBytes: int, maxLines: int,
                         b: Document, c: Document, u: Document)
    requires Bounded(base, current, upstream, maxBytes, maxLines)
    requires ParsedAs(base, current, upstream, maxLines, b, c, u)
    ensures var r := ThreeWay(base, current, upstream, maxBytes, maxLines);
      && (r.Ready? && r.mode == Unchanged <==> base == current == upstream)
      && (r.Ready? && r.mode == SameChangeMode <==> current == upstream != base)
      && (r.Ready? && r.mode == TakeUpstream <==> current == base != upstream)
      && (r.Ready? && r.mode == KeepCurrent <==> upstream == base != current)
      && (r.Ready? && r.mode != Composite ==>
        && r.hunks == |r.rows|
        && r.rows == if base == current == upstream then []
          else [ExactSelection(r.mode, Range(0, |b.lines|), Range(0, |c.lines|), Range(0, |u.lines|))])
  {
    hide Parsing, Compose;
    if current != base && upstream != base && current != upstream {
      ComposedMode(b, c, u, maxBytes, maxLines);
    }
  }

  lemma ComposedMode(b: Document, c: Document, u: Document, maxBytes: nat, maxLines: nat)
    ensures var r := Compose(b, c, u, maxBytes, maxLines); r.Ready? ==> r.mode == Composite
  {
    hide FormatRefusal, Scripts, Combine;
  }

  // --- The work limit -------------------------------------------------------------------

  /** The first `p` and the last `s` lines are equal, and no longer margins are. */
  ghost predicate Margins<L>(base: seq<L>, branch: seq<L>, p: nat, s: nat) {
    && p + s <= |base| && p + s <= |branch|
    && base[..p] == branch[..p] && base[|base| - s..] == branch[|branch| - s..]
    && (p < |base| && p < |branch| ==> base[p] != branch[p])
    && (p + s < |base| && p + s < |branch| ==> base[|base| - s - 1] != branch[|branch| - s - 1])
  }

  lemma {:induction false} PrefixIs<L>(base: seq<L>, branch: seq<L>, p: nat, k: nat)
    requires k <= p <= |base| && p <= |branch| && base[..p] == branch[..p]
    requires p < |base| && p < |branch| ==> base[p] != branch[p]
    ensures CommonPrefix(base, branch, k) == p
    decreases p - k
  {
    if k < p {
      assert base[k] == base[..p][k] == branch[..p][k] == branch[k];
      PrefixIs(base, branch, p, k + 1);
    }
  }

  lemma {:induction false} SuffixIs<L>(base: seq<L>, branch: seq<L>, p: nat, s: nat, k: nat)
    requires k <= s && p + s <= |base| && p + s <= |branch| && base[|base| - s..] == branch[|branch| - s..]
    requires p + s < |base| && p + s < |branch| ==> base[|base| - s - 1] != branch[|branch| - s - 1]
    ensures TrimSuffix(base, branch, p, |base| - k, |branch| - k) == (|base| - s, |branch| - s)
    decreases s - k
  {
    if k < s {
      assert base[|base| - s..][s - k - 1] == branch[|branch| - s..][s - k - 1];
      SuffixIs(base, branch, p, s, k + 1);
    }
  }

  /** A diff is refused exactly when what lies between the longest equal margins has more than the allowed number of
      pairs of lines, and the refusal names these lines. */
  lemma WorkLimitExactly<L>(base: seq<L>, branch: seq<L>, source: Source, p: nat, s: nat)
    requires Margins(base, branch, p, s)
    ensures var r := EditScript(base, branch, source);
      && (r.WorkLimit? <==> (|base| - s - p) * (|branch| - s - p) > 4_000_000)
      && (r.WorkLimit? ==> r == WorkLimit(source, Range(p, |base| - s), Range(p, |branch| - s)))
  {
    hide Core, Margins, M.Blocks, M.Opcodes, EditsOf;
    CoreIs(base, branch, p, s);
  }

  lemma CoreIs<L>(base: seq<L>, branch: seq<L>, p: nat, s: nat)
    requires Margins(base, branch, p, s)
    ensures Core(base, branch) == M.Window(p, |base| - s, p, |branch| - s)
  {
    PrefixIs(base, branch, p, 0);
    SuffixIs(base, branch, p, s, 0);
  }

  /** The entry point reports the work limit of current, then that of upstream, and only these. */
  lemma WorkLimitReported(base: Bytes, current: Bytes, upstream: Bytes, maxBytes: int, maxLines: int,
                          b: Document, c: Document, u: Document)
    requires CompositeCase(base, current, upstream, maxBytes, maxLines, b, c, u)
    ensures var r := ThreeWay(base, current, upstream, maxBytes, maxLines);
      var (ours, theirs) := (EditScript(b.lines, c.lines, Current), EditScript(b.lines, u.lines, Upstream));
      && (r.Refused? && r.refusal.DiffWorkLimit? <==> ours.WorkLimit? || theirs.WorkLimit?)
      && (ours.WorkLimit? ==> r == Refused(DiffWorkLimit(Current, ours.base, ours.branch)))
      && (!ours.WorkLimit? && theirs.WorkLimit? ==> r == Refused(DiffWorkLimit(Upstream, theirs.base, theirs.branch)))
  {
    DifferentIsComposed(base, current, upstream, maxBytes, maxLines, b, c, u);
    hide Parsing, FormatRefusal, ThreeWay;
  }

  // --- Evidence -------------------------------------------------------------------------

  /** A row tells what its hunk does to which lines of the base. */
  ghost predicate Tells(row: Row, e: ByteEdit) {
    && row.HunkRow? && 0 <= e.start <= e.end && row.base == Range(e.start, e.end) && row.origin == e.mark
    && (row.kind == Insert <==> e.start == e.end)
    && (row.kind == Delete <==> e.start < e.end && e.replacement == [])
    && (row.kind == Replace <==> e.start < e.end && e.replacement != [])
  }

  /** These lines of one side are what the hunk puts in. */
  ghost predicate Shows(lines: seq<Bytes>, r: Range, e: ByteEdit) {
    r.start <= r.end <= |lines| && lines[r.start..r.end] == e.replacement
  }

  /** The origin of a merged hunk names the side that it comes from, or both, with its lines there. */
  ghost predicate PointsAt(b: Document, c: Document, u: Document, ours: seq<ByteEdit>, theirs: seq<ByteEdit>,
                           e: ByteEdit) {
    match e.mark
    case From(Current, r) => Shows(c.lines, r, e) && Unshared(e, ours, theirs)
    case From(Upstream, r) => Shows(u.lines, r, e) && Unshared(e, theirs, ours)
    case Both(r, x) =>
      Shows(c.lines, r, e) && Shows(u.lines, x, e) && (exists o :: o in ours && SameChange(o, e))
        && exists t :: t in theirs && SameChange(t, e)
  }

  /** The rows of a merged candidate are its first 256 hunks, in order. */
  lemma RowsAreHunks(base: Bytes, current: Bytes, upstream: Bytes, maxBytes: int, maxLines: int,
                     b: Document, c: Document, u: Document, ours: seq<ByteEdit>, theirs: seq<ByteEdit>)
    requires CompositeCase(base, current, upstream, maxBytes, maxLines, b, c, u)
    requires Scripts(b, c, u) == (Script(ours), Script(theirs)) && Combine(ours, theirs).Merged?
    ensures var r := ThreeWay(base, current, upstream, maxBytes, maxLines);
      var edits := Combine(ours, theirs).edits;
      r.Ready? ==>
        && |r.rows| == (if |edits| > 256 then 256 else |edits|)
        && forall k :: 0 <= k < |r.rows| ==> Tells(r.rows[k], edits[k]) && PointsAt(b, c, u, ours, theirs, edits[k])
  {
    DifferentIsComposed(base, current, upstream, maxBytes, maxLines, b, c, u);
    MergedScripts(b, c, u);
    ComposedRows(b, c, u, ours, theirs, maxBytes, maxLines);
    var r := ThreeWay(base, current, upstream, maxBytes, maxLines);
    var edits := Combine(ours, theirs).edits;
    hide ThreeWay, Compose, Scripts, Combine, ParsedAs, FormatRefusal;
    if r.Ready? {
      forall k | 0 <= k < |r.rows| ensures PointsAt(b, c, u, ours, theirs, edits[k]) {
        HunkPoints(b, c, u, ours, theirs, edits[k]);
      }
    }
  }

  lemma EvidenceTells(edits: seq<ByteEdit>)
    requires forall e :: e in edits ==> 0 <= e.start <= e.end
    ensures |Evidence(edits)| == |edits| && forall k :: 0 <= k < |edits| ==> Tells(Evidence(edits)[k], edits[k])
  {
  }

  lemma RebuiltRows(bom: Bytes, parts: seq<Bytes>, rows: seq<Row>, maxBytes: nat, maxLines: nat)
    ensures var r := Rebuilt(bom, parts, rows, maxBytes, maxLines);
      r.Ready? ==>
        |r.rows| == (if |rows| > 256 then 256 else |rows|) && forall k :: 0 <= k < |r.rows| ==> r.rows[k] == rows[k]
  {
    hide Parsing, Join;
  }

  lemma ComposedRows(b: Document, c: Document, u: Document, ours: seq<ByteEdit>, theirs: seq<ByteEdit>,
                     maxBytes: nat, maxLines: nat)
    requires FormatRefusal(b, c, u) == [] && Scripts(b, c, u) == (Script(ours), Script(theirs))
    requires Combine(ours, theirs).Merged? && InOrder(Combine(ours, theirs).edits, 0, |b.lines|)
    requires forall e :: e in Combine(ours, theirs).edits ==> 0 <= e.start <= e.end
    ensures var r := Compose(b, c, u, maxBytes, maxLines);
      var edits := Combine(ours, theirs).edits;
      r.Ready? ==>
        && |r.rows| == (if |edits| > 256 then 256 else |edits|)
        && forall k :: 0 <= k < |r.rows| ==> Tells(r.rows[k], edits[k])
  {
    hide Scripts, Combine, FormatRefusal, Rebuilt, Evidence, Tells, InOrder, Patched;
    var edits := Combine(ours, theirs).edits;
    EvidenceTells(edits);
    RebuiltRows(b.bom, Patched(b.lines, 0, edits), Evidence(edits), maxBytes, maxLines);
    assert Compose(b, c, u, maxBytes, maxLines) ==
      Rebuilt(b.bom, Patched(b.lines, 0, edits), Evidence(edits), maxBytes, maxLines);
  }

  lemma HunkPoints(b: Document, c: Document, u: Document, ours: seq<ByteEdit>, theirs: seq<ByteEdit>, e: ByteEdit)
    requires ScriptFor(b.lines, c.lines, ours) && ScriptFor(b.lines, u.lines, theirs)
    requires EditScript(b.lines, c.lines, Current) == Script(ours)
    requires EditScript(b.lines, u.lines, Upstream) == Script(theirs)
    requires Combine(ours, theirs).Merged? && e in Combine(ours, theirs).edits
    ensures PointsAt(b, c, u, ours, theirs, e)
  {
    MergedExactly(ours, theirs, 0, |b.lines|, e);
    forall o | o in ours ensures o.mark.From? && o.mark.source == Current && Shows(c.lines, o.mark.range, o) {
      ScriptShows(b.lines, c.lines, ours, 0, 0, o);
      ScriptSource(b.lines, c.lines, Current, ours, o);
    }
    forall t | t in theirs ensures t.mark.From? && t.mark.source == Upstream && Shows(u.lines, t.mark.range, t) {
      ScriptShows(b.lines, u.lines, theirs, 0, 0, t);
      ScriptSource(b.lines, u.lines, Upstream, theirs, t);
    }
    hide ScriptFor, EditScript, Combine;
    if SharedBy(e, ours, theirs) {
      var o, t :| o in ours && t in theirs && Shareable(o, t) && e == Shared(o, t);
      assert SameChange(o, e) && SameChange(t, e);
    }
  }

  lemma {:induction false} ScriptShows(base: seq<Bytes>, branch: seq<Bytes>, edits: seq<ByteEdit>, i: nat, j: nat,
                                       e: ByteEdit)
    requires Tiles(base, branch, edits, i, j) && e in edits
    ensures e.mark.From? && Shows(branch, e.mark.range, e)
    decreases |edits|
  {
    if e != edits[0] {
      assert e in edits[1..];
      ScriptShows(base, branch, edits[1..], edits[0].end, edits[0].mark.range.end, e);
    }
  }

  lemma ScriptSource(base: seq<Bytes>, branch: seq<Bytes>, source: Source, edits: seq<ByteEdit>, e: ByteEdit)
    requires EditScript(base, branch, source) == Script(edits) && e in edits
    ensures e.mark.From? && e.mark.source == source
  {
    var w := Core(base, branch);
    EditsSource(branch, M.Opcodes(M.Blocks(base, branch, w), w), source, e);
  }

  lemma {:induction false} EditsSource(branch: seq<Bytes>, ops: seq<M.Opcode>, source: Source, e: ByteEdit)
    requires e in EditsOf(branch, ops, source)
    ensures e.mark.From? && e.mark.source == source
  {
    if e !in EditsOf(branch, ops[1..], source) {
      assert e == EditOf(branch, ops[0], source);
    } else {
      EditsSource(branch, ops[1..], source, e);
    }
  }
}
