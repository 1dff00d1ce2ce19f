/** The whole three-way materialization: bounds, parsing, exact selections, and the composite merge
    with its rebuilt and reparsed candidate. */
module BslThreeWay {
  import opened Utf8
  import opened Patching
  import opened BslEdits
  import M = Matching
  import opened BslMerge
  import opened BslSquare
  import opened BslDocument
  import opened BslReparse

  const MAX_BYTES: nat := 16 * 1024 * 1024
  const MAX_LINES: nat := 200_000
  const MAX_EVIDENCE: nat := 256

  datatype Mode = Unchanged | SameChangeMode | TakeUpstream | KeepCurrent | Composite

  datatype Refusal =
    | InvalidLimits
    | ByteLimit(byteCount: nat)
    | Malformed(problem: Problem)
    | UnsupportedNewlines
    | MixedNewlines
    | NewlineStyleChanged
    | BomChanged
    | DiffWorkLimit(source: Source, base: Range, branch: Range)
    | MergeConflict(sameAnchor: bool, ours: ByteEdit, theirs: ByteEdit)
    | CandidateByteLimit(byteCount: nat)

  datatype Kind = Insert | Replace | Delete

  /** One evidence row: no line content, only kinds and intervals. */
  datatype Row =
    | ExactSelection(mode: Mode, base: Range, current: Range, upstream: Range)
    | HunkRow(kind: Kind, base: Range, origin: Origin)

  datatype Outcome =
    | Ready(mode: Mode, candidate: Bytes, candidateLines: nat, rows: seq<Row>, hunks: nat)
    | Refused(refusal: Refusal)

  function HunkEvidence(e: ByteEdit): Row
    requires 0 <= e.start <= e.end
  {
    HunkRow(if e.Insertion() then Insert else if e.replacement != [] then Replace else Delete, Range(e.start, e.end),
      e.mark)
  }

  function Evidence(edits: seq<ByteEdit>): seq<Row>
    requires forall e :: e in edits ==> 0 <= e.start <= e.end
  {
    seq(|edits|, k requires 0 <= k < |edits| => HunkEvidence(edits[k]))
  }

  function FirstRows(rows: seq<Row>): seq<Row> {
    if |rows| > MAX_EVIDENCE then rows[..MAX_EVIDENCE] else rows
  }

  /** BOM and newline styles that two different branches may not bring together. */
  function FormatRefusal(b: Document, c: Document, u: Document): (r: seq<Refusal>)
    ensures |r| <= 1
  {
    var styles := {b.newline, c.newline, u.newline};
    if Unsupported in styles then [UnsupportedNewlines]
    else if Mixed in styles then [MixedNewlines]
    else if Lf in styles && CrLf in styles then [NewlineStyleChanged]
    else if b.bom != c.bom || b.bom != u.bom then [BomChanged]
    else []
  }

  function Scripts(b: Document, c: Document, u: Document): (ScriptResult<Bytes>, ScriptResult<Bytes>) {
    (EditScript(b.lines, c.lines, Current), EditScript(b.lines, u.lines, Upstream))
  }

  lemma MergedScripts(b: Document, c: Document, u: Document)
    requires var s := Scripts(b, c, u); s.0.Script? && s.1.Script? && Combine(s.0.edits, s.1.edits).Merged?
    ensures var s := Scripts(b, c, u); var merged := Combine(s.0.edits, s.1.edits).edits;
      && ScriptFor(b.lines, c.lines, s.0.edits) && ScriptFor(b.lines, u.lines, s.1.edits)
      && Separated(merged, 0, |b.lines|) && InOrder(merged, 0, |b.lines|)
      && forall e :: e in merged ==> 0 <= e.start <= e.end
  {
    var s := Scripts(b, c, u);
    EditScriptTiles(b.lines, c.lines, Current);
    EditScriptTiles(b.lines, u.lines, Upstream);
    MergedSeparated(s.0.edits, s.1.edits, 0, |b.lines|);
    var merged := Combine(s.0.edits, s.1.edits).edits;
    SeparatedIsInOrder(merged, 0, 0, |b.lines|);
    forall e | e in merged ensures 0 <= e.start <= e.end {
      var k :| 0 <= k < |merged| && merged[k] == e;
      SeparatedAt(merged, 0, |b.lines|, k);
    }
  }

  ghost function Compose(b: Document, c: Document, u: Document, maxBytes: nat, maxLines: nat): Outcome {
    var format := FormatRefusal(b, c, u);
    if format != [] then Refused(format[0])
    else
      var s := Scripts(b, c, u);
      if s.0.WorkLimit? then Refused(DiffWorkLimit(s.0.source, s.0.base, s.0.branch))
      else if s.1.WorkLimit? then Refused(DiffWorkLimit(s.1.source, s.1.base, s.1.branch))
      else
        var merge := Combine(s.0.edits, s.1.edits);
        if merge.Conflict? then Refused(MergeConflict(merge.SameAnchor(), merge.ours, merge.theirs))
        else
          MergedScripts(b, c, u);
          Rebuilt(b.bom, Patched(b.lines, 0, merge.edits), Evidence(merge.edits), maxBytes, maxLines)
  }

  function Rebuilt(bom: Bytes, parts: seq<Bytes>, rows: seq<Row>, maxBytes: nat, maxLines: nat): Outcome {
    var candidate := bom + Join(parts);
    if |candidate| > maxBytes then Refused(CandidateByteLimit(|candidate|))
    else
      match Parsing(candidate, maxLines, true)
      case Rejected(problem) => Refused(Malformed(problem))
      case Parsed(document) => Ready(Composite, candidate, |document.lines|, FirstRows(rows), |rows|)
  }

  function Selection(mode: Mode, raw: Bytes, d: Document, b: Document, c: Document, u: Document): Outcome {
    var rows := if mode.Unchanged? then []
                else [ExactSelection(mode, Range(0, |b.lines|), Range(0, |c.lines|), Range(0, |u.lines|))];
    Ready(mode, raw, |d.lines|, rows, |rows|)
  }

  ghost function ThreeWay(base: Bytes, current: Bytes, upstream: Bytes, maxBytes: int, maxLines: int): Outcome {
    if !(1 <= maxBytes <= MAX_BYTES && 1 <= maxLines <= MAX_LINES) then Refused(InvalidLimits)
    else if |base| > maxBytes then Refused(ByteLimit(|base|))
    else if |current| > maxBytes then Refused(ByteLimit(|current|))
    else if |upstream| > maxBytes then Refused(ByteLimit(|upstream|))
    else
      var b, c, u :=
        Parsing(base, maxLines, false), Parsing(current, maxLines, false), Parsing(upstream, maxLines, false);
      if b.Rejected? then Refused(Malformed(b.problem))
      else if c.Rejected? then Refused(Malformed(c.problem))
      else if u.Rejected? then Refused(Malformed(u.problem))
      else Decide(base, current, upstream, b.document, c.document, u.document, maxBytes, maxLines)
  }

  /** An unchanged or common branch is taken whole; otherwise the branches are merged. */
  ghost function Decide(base: Bytes, current: Bytes, upstream: Bytes, b: Document, c: Document, u: Document,
                        maxBytes: nat, maxLines: nat): Outcome {
    if current == upstream then Selection(if current == base then Unchanged else SameChangeMode, current, c, b, c, u)
    else if current == base then Selection(TakeUpstream, upstream, u, b, c, u)
    else if upstream == base then Selection(KeepCurrent, current, c, b, c, u)
    else Compose(b, c, u, maxBytes, maxLines)
  }

  // --- The procedure --------------------------------------------------------------------

  method Materialize(base: Bytes, current: Bytes, upstream: Bytes, maxBytes: int := MAX_BYTES,
                     maxLines: int := MAX_LINES)
    returns (r: Outcome)
    ensures r == ThreeWay(base, current, upstream, maxBytes, maxLines)
  {
    if !(1 <= maxBytes <= MAX_BYTES && 1 <= maxLines <= MAX_LINES) {
      return Refused(InvalidLimits);
    }
    if |base| > maxBytes { return Refused(ByteLimit(|base|)); }
    if |current| > maxBytes { return Refused(ByteLimit(|current|)); }
    if |upstream| > maxBytes { return Refused(ByteLimit(|upstream|)); }
    var b, c, u :=
      Parsing(base, maxLines, false), Parsing(current, maxLines, false), Parsing(upstream, maxLines, false);
    if b.Rejected? { return Refused(Malformed(b.problem)); }
    if c.Rejected? { return Refused(Malformed(c.problem)); }
    if u.Rejected? { return Refused(Malformed(u.problem)); }
    if current == upstream {
      return Selection(if current == base then Unchanged else SameChangeMode, current, c.document, b.document,
        c.document, u.document);
    } else if current == base {
      return Selection(TakeUpstream, upstream, u.document, b.document, c.document, u.document);
    } else if upstream == base {
      return Selection(KeepCurrent, current, c.document, b.document, c.document, u.document);
    }
    r := MaterializeComposite(b.document, c.document, u.document, maxBytes, maxLines);
  }

  method MaterializeComposite(b: Document, c: Document, u: Document, maxBytes: nat, maxLines: nat) returns (r: Outcome)
    ensures r == Compose(b, c, u, maxBytes, maxLines)
  {
    var format := FormatRefusal(b, c, u);
    if format != [] {
      return Refused(format[0]);
    }
    var ours := ComputeEdits(b.lines, c.lines, Current);
    var theirs := ComputeEdits(b.lines, u.lines, Upstream);
    if ours.WorkLimit? { return Refused(DiffWorkLimit(ours.source, ours.base, ours.branch)); }
    if theirs.WorkLimit? { return Refused(DiffWorkLimit(theirs.source, theirs.base, theirs.branch)); }
    var merge := ComputeMerge(ours.edits, theirs.edits);
    if merge.Conflict? { return Refused(MergeConflict(merge.SameAnchor(), merge.ours, merge.theirs)); }
    MergedScripts(b, c, u);
    var parts := Rebuild(b.lines, merge.edits);
    r := Rebuilt(b.bom, parts, Evidence(merge.edits), maxBytes, maxLines);
  }

  // --- What it promises -----------------------------------------------------------------

  /** What parsing establishes of a document. */
  ghost predicate WellFormed(d: Document) {
    && IsLineList(d.lines) && d.newline == NewlineStyle(Join(d.lines))
    && (d.bom == BOM || (d.bom == [] && !(BOM <= Join(d.lines))))
    && forall line :: line in d.lines ==> Valid(line) && NUL !in line && |line| <= MAX_LINE_BYTES
  }

  lemma ParsedParts(raw: Bytes, maxLines: nat, d: Document)
    requires Parsing(raw, maxLines, false) == Parsed(d)
    ensures |d.bom| <= |raw| && raw == raw[..|d.bom|] + raw[|d.bom|..] && raw[..|d.bom|] == d.bom == BomOf(raw)
    ensures var body := raw[|d.bom|..];
      d.lines == Lines(body) && d.newline == NewlineStyle(body) && Valid(body) && NUL !in body
        && LineCount(body) <= maxLines
    ensures d.bom == BOM || (d.bom == [] && !(BOM <= raw[|d.bom|..]))
    ensures forall line :: line in d.lines ==> |line| <= MAX_LINE_BYTES
  {
    hide Valid, NewlineStyle, LineCount, Lines;
  }

  lemma NulFree(lines: seq<Bytes>)
    requires NUL !in Join(lines)
    ensures forall line :: line in lines ==> NUL !in line
  {
    hide Join;
    forall line | line in lines ensures NUL !in line {
      JoinContains(lines, NUL);
    }
  }

  lemma ParsedWellFormed(raw: Bytes, maxLines: nat, d: Document)
    requires Parsing(raw, maxLines, false) == Parsed(d)
    ensures WellFormed(d) && raw == d.bom + Join(d.lines) && |d.lines| <= maxLines
  {
    ParsedParts(raw, maxLines, d);
    hide Parsing, Valid, NewlineStyle, LineCount, Lines, Join, BomOf, IsLineList;
    var body := raw[|d.bom|..];
    JoinOfLines(body);
    LinesValid(d.lines);
    LineCountIsLength(d.lines);
    NulFree(d.lines);
  }

  /** Three well-formed documents of one format with different lines, and scripts that merge. */
  ghost predicate Mergeable(b: Document, c: Document, u: Document, ours: seq<ByteEdit>, theirs: seq<ByteEdit>) {
    && WellFormed(b) && WellFormed(c) && WellFormed(u) && FormatRefusal(b, c, u) == []
    && b.lines != c.lines && b.lines != u.lines && c.lines != u.lines
    && ScriptFor(b.lines, c.lines, ours) && ScriptFor(b.lines, u.lines, theirs) && Combine(ours, theirs).Merged?
    && InOrder(Combine(ours, theirs).edits, 0, |b.lines|)
  }

  ghost function MergedLines(b: Document, c: Document, u: Document, ours: seq<ByteEdit>,
                             theirs: seq<ByteEdit>): seq<Bytes>
    requires Mergeable(b, c, u, ours, theirs)
  {
    Patched(b.lines, 0, Combine(ours, theirs).edits)
  }

  lemma MergedClean(b: Document, c: Document, u: Document, ours: seq<ByteEdit>, theirs: seq<ByteEdit>)
    requires Mergeable(b, c, u, ours, theirs)
    ensures Separated(Combine(ours, theirs).edits, 0, |b.lines|)
    ensures forall m :: m in Combine(ours, theirs).edits ==> Clean(b.lines, m)
  {
    MergedSeparated(ours, theirs, 0, |b.lines|);
    ScriptClean(b.lines, c.lines, ours, 0, 0, 0);
    ScriptClean(b.lines, u.lines, theirs, 0, 0, 0);
    forall m | m in Combine(ours, theirs).edits ensures Clean(b.lines, m) {
      MergedFromScripts(ours, theirs, |b.lines|, m);
    }
  }

  /** The merged lines are a line list: only the last may be open. */
  lemma MergedLinesAreLines(b: Document, c: Document, u: Document, ours: seq<ByteEdit>, theirs: seq<ByteEdit>)
    requires Mergeable(b, c, u, ours, theirs)
    ensures IsLineList(MergedLines(b, c, u, ours, theirs))
  {
    MergedClean(b, c, u, ours, theirs);
    PatchedLineList(b.lines, 0, Combine(ours, theirs).edits);
  }

  lemma MergedLineFromInput(b: Document, c: Document, u: Document, ours: seq<ByteEdit>, theirs: seq<ByteEdit>,
                            line: Bytes)
    requires Mergeable(b, c, u, ours, theirs) && line in MergedLines(b, c, u, ours, theirs)
    ensures line in b.lines || line in c.lines || line in u.lines
  {
    var merged := Combine(ours, theirs).edits;
    PatchedElements(b.lines, 0, merged, line);
    if line !in b.lines {
      var m :| m in merged && line in m.replacement;
      MergedClean(b, c, u, ours, theirs);
      MergedFromScripts(ours, theirs, |b.lines|, m);
      ScriptReplacements(b.lines, c.lines, ours, 0, 0);
      ScriptReplacements(b.lines, u.lines, theirs, 0, 0);
    }
  }

  /** At least two hunks meet in a composite merge, and a terminated base line survives between them. */
  lemma MergedHunks(b: Document, c: Document, u: Document, ours: seq<ByteEdit>, theirs: seq<ByteEdit>)
    requires Mergeable(b, c, u, ours, theirs)
    ensures |Combine(ours, theirs).edits| >= 2
    ensures exists line :: line in b.lines && line in MergedLines(b, c, u, ours, theirs) && Terminated(line)
  {
    ChangeHasEdits(b.lines, c.lines, ours);
    ChangeHasEdits(b.lines, u.lines, theirs);
    ScriptPatches(b.lines, c.lines, ours);
    ScriptPatches(b.lines, u.lines, theirs);
    if SameChanges(ours, theirs) {
      PatchedIgnoresMarks(b.lines, 0, ours, theirs);
    }
    AtLeastTwoHunks(ours, theirs);
    MergedClean(b, c, u, ours, theirs);
    KeptLine(b.lines, Combine(ours, theirs).edits);
  }

  /** The merged lines keep the newline style of the base. */
  lemma MergedStyle(b: Document, c: Document, u: Document, ours: seq<ByteEdit>, theirs: seq<ByteEdit>)
    requires Mergeable(b, c, u, ours, theirs)
    ensures b.newline in {Lf, CrLf} && NewlineStyle(Join(MergedLines(b, c, u, ours, theirs))) == b.newline
  {
    var parts := MergedLines(b, c, u, ours, theirs);
    MergedLinesAreLines(b, c, u, ours, theirs);
    MergedHunks(b, c, u, ours, theirs);
    forall line | line in parts ensures line in b.lines || line in c.lines || line in u.lines {
      MergedLineFromInput(b, c, u, ours, theirs, line);
    }
    StyleOfMixture(b, c, u, parts);
  }

  lemma StyleOfMixture(b: Document, c: Document, u: Document, parts: seq<Bytes>)
    requires WellFormed(b) && WellFormed(c) && WellFormed(u) && IsLineList(parts) && FormatRefusal(b, c, u) == []
    requires forall line :: line in parts ==> line in b.lines || line in c.lines || line in u.lines
    requires exists line :: line in b.lines && line in parts && Terminated(line)
    ensures b.newline in {Lf, CrLf} && NewlineStyle(Join(parts)) == b.newline
  {
    StyleByLines(b.lines);
    StyleByLines(c.lines);
    StyleByLines(u.lines);
    StyleByLines(parts);
    var kept :| kept in b.lines && kept in parts && Terminated(kept);
    if b.newline == CrLf {
      assert exists line :: line in b.lines && CR in line;
      TerminatedPair(kept);
    }
  }

  /** A terminated line without stray terminators ends in CR LF. */
  lemma TerminatedPair(line: Bytes)
    requires CrLfLine(line) && Terminated(line)
    ensures CR in line
  {
    CountNone(line, LF);
    CountNone(line, CR);
    PairsBound(line);
  }

  /** The merged lines are valid UTF-8 without NUL, and within the line length. */
  lemma MergedBytes(b: Document, c: Document, u: Document, ours: seq<ByteEdit>, theirs: seq<ByteEdit>)
    requires Mergeable(b, c, u, ours, theirs)
    ensures var parts := MergedLines(b, c, u, ours, theirs);
      Valid(Join(parts)) && NUL !in Join(parts) && forall line :: line in parts ==> |line| <= MAX_LINE_BYTES
  {
    var parts := MergedLines(b, c, u, ours, theirs);
    MergedLinesAreLines(b, c, u, ours, theirs);
    forall line | line in parts ensures Valid(line) && NUL !in line && |line| <= MAX_LINE_BYTES {
      MergedLineFromInput(b, c, u, ours, theirs, line);
    }
    LinesValid(parts);
    JoinContains(parts, NUL);
  }

  /** Without a byte order mark on the inputs the merged lines start with none. */
  lemma MergedBom(b: Document, c: Document, u: Document, ours: seq<ByteEdit>, theirs: seq<ByteEdit>)
    requires Mergeable(b, c, u, ours, theirs) && b.bom == []
    ensures !(BOM <= Join(MergedLines(b, c, u, ours, theirs)))
  {
    MergedLinesAreLines(b, c, u, ours, theirs);
    OneBom(b, c, u);
    hide FormatRefusal, IsLineList;
    FirstLine(b.lines, c.lines, u.lines, ours, theirs);
    BomInFirstLine(MergedLines(b, c, u, ours, theirs));
    BomInFirstLine(b.lines);
    BomInFirstLine(c.lines);
    BomInFirstLine(u.lines);
  }

  /** Revalidating the rebuilt candidate gives back exactly the merged lines, with the byte order mark and
      the newline style of the base; it can only fail on the number of lines. */
  lemma CandidateReparses(b: Document, c: Document, u: Document, ours: seq<ByteEdit>, theirs: seq<ByteEdit>,
                          maxLines: nat)
    requires Mergeable(b, c, u, ours, theirs)
    ensures var parts := MergedLines(b, c, u, ours, theirs);
      Parsing(b.bom + Join(parts), maxLines, true) ==
      if |parts| <= maxLines then Parsed(Document(parts, b.bom, b.newline)) else Rejected(LineLimit(true, |parts|))
  {
    var parts := MergedLines(b, c, u, ours, theirs);
    MergedLinesAreLines(b, c, u, ours, theirs);
    MergedStyle(b, c, u, ours, theirs);
    MergedBytes(b, c, u, ours, theirs);
    LinesOfJoin(parts);
    LineCountIsLength(parts);
    var candidate := b.bom + Join(parts);
    if b.bom == [] {
      MergedBom(b, c, u, ours, theirs);
      assert candidate == Join(parts);
    }
    assert candidate[|b.bom|..] == Join(parts);
  }

  // --- The whole procedure --------------------------------------------------------------

  ghost predicate Bounded(base: Bytes, current: Bytes, upstream: Bytes, maxBytes: int, maxLines: int) {
    && 1 <= maxBytes <= MAX_BYTES && 1 <= maxLines <= MAX_LINES
    && |base| <= maxBytes && |current| <= maxBytes && |upstream| <= maxBytes
  }

  ghost predicate ParsedAs(base: Bytes, current: Bytes, upstream: Bytes, maxLines: int, b: Document, c: Document,
                           u: Document) {
    && 0 <= maxLines && Parsing(base, maxLines, false) == Parsed(b)
    && Parsing(current, maxLines, false) == Parsed(c) && Parsing(upstream, maxLines, false) == Parsed(u)
  }

  /** Nothing is materialized without the bounds and the three documents having been checked. */
  lemma ReadyMeansValidated(base: Bytes, current: Bytes, upstream: Bytes, maxBytes: int, maxLines: int)
    requires ThreeWay(base, current, upstream, maxBytes, maxLines).Ready?
    ensures Bounded(base, current, upstream, maxBytes, maxLines)
    ensures exists b, c, u :: ParsedAs(base, current, upstream, maxLines, b, c, u)
  {
    assert ParsedAs(base, current, upstream, maxLines, Parsing(base, maxLines, false).document,
        Parsing(current, maxLines, false).document, Parsing(upstream, maxLines, false).document);
  }

  /** When one branch is unchanged, or both made the same change, the other branch's exact bytes are the
      result; no formatting rule and no diff bound applies. */
  lemma ExactSelectionKeepsBytes(base: Bytes, current: Bytes, upstream: Bytes, maxBytes: int, maxLines: int,
                                 b: Document, c: Document, u: Document)
    requires Bounded(base, current, upstream, maxBytes, maxLines)
    requires ParsedAs(base, current, upstream, maxLines, b, c, u)
    ensures var r := ThreeWay(base, current, upstream, maxBytes, maxLines);
      && (current == base ==> r.Ready? && r.candidate == upstream && r.candidateLines == |u.lines|)
      && (upstream == base ==> r.Ready? && r.candidate == current && r.candidateLines == |c.lines|)
      && (current == upstream ==> r.Ready? && r.candidate == current && r.candidateLines == |c.lines|)
      && (r.Ready? && r.mode.Composite? ==> current != base && upstream != base && current != upstream)
  {
  }

  /** Three bounded documents that differ pairwise go through the composite merge. */
  ghost predicate CompositeCase(base: Bytes, current: Bytes, upstream: Bytes, maxBytes: int, maxLines: int, b: Document,
                                c: Document, u: Document) {
    && Bounded(base, current, upstream, maxBytes, maxLines) && ParsedAs(base, current, upstream, maxLines, b, c, u)
    && current != base && upstream != base && current != upstream && FormatRefusal(b, c, u) == []
  }

  lemma CompositeIsMergeable(base: Bytes, current: Bytes, upstream: Bytes, maxBytes: int, maxLines: int,
                             b: Document, c: Document, u: Document, ours: seq<ByteEdit>, theirs: seq<ByteEdit>)
    requires CompositeCase(base, current, upstream, maxBytes, maxLines, b, c, u)
    requires Scripts(b, c, u) == (Script(ours), Script(theirs)) && Combine(ours, theirs).Merged?
    ensures Mergeable(b, c, u, ours, theirs)
  {
    ThreeWellFormed(base, current, upstream, maxLines, b, c, u);
    MergedScripts(b, c, u);
  }

  lemma OneBom(b: Document, c: Document, u: Document)
    requires FormatRefusal(b, c, u) == []
    ensures b.bom == c.bom == u.bom
  {
  }

  lemma ThreeWellFormed(base: Bytes, current: Bytes, upstream: Bytes, maxLines: nat, b: Document, c: Document,
                        u: Document)
    requires ParsedAs(base, current, upstream, maxLines, b, c, u)
    requires current != base && upstream != base && current != upstream && FormatRefusal(b, c, u) == []
    ensures WellFormed(b) && WellFormed(c) && WellFormed(u)
    ensures b.lines != c.lines && b.lines != u.lines && c.lines != u.lines
  {
    OneBom(b, c, u);
    hide Parsing, FormatRefusal, WellFormed;
    ParsedWellFormed(base, maxLines, b);
    ParsedWellFormed(current, maxLines, c);
    ParsedWellFormed(upstream, maxLines, u);
  }

  lemma ComposeOutcome(b: Document, c: Document, u: Document, ours: seq<ByteEdit>, theirs: seq<ByteEdit>, maxBytes: nat,
                       maxLines: nat)
    requires Mergeable(b, c, u, ours, theirs) && Scripts(b, c, u) == (Script(ours), Script(theirs))
    ensures var parts := MergedLines(b, c, u, ours, theirs);
      var candidate := b.bom + Join(parts);
      var r := Compose(b, c, u, maxBytes, maxLines);
      if |candidate| > maxBytes then r == Refused(CandidateByteLimit(|candidate|))
      else if |parts| > maxLines then r == Refused(Malformed(LineLimit(true, |parts|)))
      else r.Ready? && r.mode == Composite && r.candidate == candidate && r.candidateLines == |parts|
           && r.hunks == |Combine(ours, theirs).edits|
  {
    CandidateReparses(b, c, u, ours, theirs, maxLines);
    MergedScripts(b, c, u);
    var edits := Combine(ours, theirs).edits;
    assert Compose(b, c, u, maxBytes, maxLines) ==
      Rebuilt(b.bom, MergedLines(b, c, u, ours, theirs), Evidence(edits), maxBytes, maxLines);
  }

  /** A composite merge that gets past the format rules, the diff bound and the conflict rule: its only
      remaining refusals are the byte and line bounds of the candidate, and otherwise the candidate is the
      base's byte order mark followed by the merged lines, with every merged hunk counted. */
  lemma CompositeOutcome(base: Bytes, current: Bytes, upstream: Bytes, maxBytes: int, maxLines: int,
                         b: Document, c: Document, u: Document, ours: seq<ByteEdit>, theirs: seq<ByteEdit>)
    requires CompositeCase(base, current, upstream, maxBytes, maxLines, b, c, u)
    requires Scripts(b, c, u) == (Script(ours), Script(theirs)) && Combine(ours, theirs).Merged?
    ensures Mergeable(b, c, u, ours, theirs) && |Combine(ours, theirs).edits| >= 2
    ensures var parts := MergedLines(b, c, u, ours, theirs);
      var candidate := b.bom + Join(parts);
      var r := ThreeWay(base, current, upstream, maxBytes, maxLines);
      if |candidate| > maxBytes then r == Refused(CandidateByteLimit(|candidate|))
      else if |parts| > maxLines then r == Refused(Malformed(LineLimit(true, |parts|)))
      else r.Ready? && r.mode == Composite && r.candidate == candidate && r.candidateLines == |parts|
           && r.hunks == |Combine(ours, theirs).edits|
  {
    CompositeIsMergeable(base, current, upstream, maxBytes, maxLines, b, c, u, ours, theirs);
    MergedHunks(b, c, u, ours, theirs);
    ComposeOutcome(b, c, u, ours, theirs, maxBytes, maxLines);
    assert ThreeWay(base, current, upstream, maxBytes, maxLines) == Compose(b, c, u, maxBytes, maxLines);
  }

  /** The conflict refusal is exact: it is raised if and only if some current edit and some upstream edit overlap or
      touch without being the same non-insertion change, and it reports the first such pair, and whether both insert
      in front of the same line. */
  lemma ConflictIffClash(base: Bytes, current: Bytes, upstream: Bytes, maxBytes: int, maxLines: int,
                         b: Document, c: Document, u: Document, ours: seq<ByteEdit>, theirs: seq<ByteEdit>)
    requires CompositeCase(base, current, upstream, maxBytes, maxLines, b, c, u)
    requires Scripts(b, c, u) == (Script(ours), Script(theirs))
    ensures var r := ThreeWay(base, current, upstream, maxBytes, maxLines);
      && (r.Refused? && r.refusal.MergeConflict? <==>
            exists i, j :: 0 <= i < |ours| && 0 <= j < |theirs| && Clash(ours[i], theirs[j]))
      && (r.Refused? && r.refusal.MergeConflict? ==>
            exists i: nat, j: nat :: FirstClash(ours, theirs, i, j) && r.refusal.ours == ours[i]
              && r.refusal.theirs == theirs[j])
      && (r.Refused? && r.refusal.MergeConflict? ==>
            var (e, f) := (r.refusal.ours, r.refusal.theirs);
            r.refusal.sameAnchor <==> e.Insertion() && f.Insertion() && e.start == f.start)
  {
    EditScriptTiles(b.lines, c.lines, Current);
    EditScriptTiles(b.lines, u.lines, Upstream);
    RefusedIffClash(ours, theirs, 0, |b.lines|);
    if Combine(ours, theirs).Merged? {
      CompositeOutcome(base, current, upstream, maxBytes, maxLines, b, c, u, ours, theirs);
    } else {
      assert ThreeWay(base, current, upstream, maxBytes, maxLines) == Compose(b, c, u, maxBytes, maxLines);
    }
  }

  /** The commuting square of a materialized candidate. */
  lemma CandidateSquare(b: Document, c: Document, u: Document, ours: seq<ByteEdit>, theirs: seq<ByteEdit>)
    requires Mergeable(b, c, u, ours, theirs)
    ensures InOrder(Rebased(theirs, ours, 0), 0, |c.lines|) && InOrder(Rebased(ours, theirs, 0), 0, |u.lines|)
    ensures MergedLines(b, c, u, ours, theirs) == Patched(c.lines, 0, Rebased(theirs, ours, 0))
    ensures MergedLines(b, c, u, ours, theirs) == Patched(u.lines, 0, Rebased(ours, theirs, 0))
  {
    CommutingSquare(b.lines, c.lines, u.lines, ours, theirs);
  }

  // --- Symmetry, and the selections against the merge -----------------------------------

  lemma {:induction false} EditsIgnoreSource(branch: seq<Bytes>, ops: seq<M.Opcode>, x: Source, y: Source)
    ensures SameChanges(EditsOf(branch, ops, x), EditsOf(branch, ops, y))
  {
    if ops != [] {
      EditsIgnoreSource(branch, ops[1..], x, y);
    }
  }

  lemma ScriptIgnoresSource(base: seq<Bytes>, branch: seq<Bytes>, x: Source, y: Source)
    ensures EditScript(base, branch, x).Script? <==> EditScript(base, branch, y).Script?
    ensures EditScript(base, branch, x).Script? ==>
      SameChanges(EditScript(base, branch, x).edits, EditScript(base, branch, y).edits)
  {
    var w := Core(base, branch);
    EditsIgnoreSource(branch, M.Opcodes(M.Blocks(base, branch, w), w), x, y);
  }

  lemma FormatIsSymmetric(b: Document, c: Document, u: Document)
    ensures FormatRefusal(b, c, u) == [] <==> FormatRefusal(b, u, c) == []
  {
    assert {b.newline, c.newline, u.newline} == {b.newline, u.newline, c.newline};
  }

  /** Two outcomes that agree on everything but the labels of the branches. */
  ghost predicate SameCandidate(r: Outcome, x: Outcome) {
    (r.Ready? <==> x.Ready?) &&
    (r.Ready? ==> r.candidate == x.candidate && r.candidateLines == x.candidateLines && r.hunks == x.hunks)
  }

  lemma ComposeCommutes(b: Document, c: Document, u: Document, maxBytes: nat, maxLines: nat)
    ensures SameCandidate(Compose(b, c, u, maxBytes, maxLines), Compose(b, u, c, maxBytes, maxLines))
  {
    FormatIsSymmetric(b, c, u);
    ScriptIgnoresSource(b.lines, c.lines, Current, Upstream);
    ScriptIgnoresSource(b.lines, u.lines, Current, Upstream);
    var s, t := Scripts(b, c, u), Scripts(b, u, c);
    if s.0.Script? && s.1.Script? {
      SameChangesSymmetric(t.0.edits, s.1.edits);
      SameChangesSymmetric(t.1.edits, s.0.edits);
      EditScriptTiles(b.lines, c.lines, Current);
      EditScriptTiles(b.lines, u.lines, Upstream);
      CombineCommutes(s.0.edits, s.1.edits, t.1.edits, t.0.edits, 0, |b.lines|);
      if Combine(s.0.edits, s.1.edits).Merged? {
        MergedScripts(b, c, u);
        MergedScripts(b, u, c);
        PatchedIgnoresMarks(b.lines, 0, Combine(s.0.edits, s.1.edits).edits, Combine(t.0.edits, t.1.edits).edits);
      }
    }
  }

  lemma SameChangesSymmetric(a: seq<ByteEdit>, b: seq<ByteEdit>)
    ensures SameChanges(a, b) <==> SameChanges(b, a)
  {
    assert |a| == |b| ==> forall k :: 0 <= k < |a| ==> (SameChange(a[k], b[k]) <==> SameChange(b[k], a[k]));
  }

  lemma DecideCommutes(base: Bytes, current: Bytes, upstream: Bytes, b: Document, c: Document, u: Document,
                       maxBytes: nat, maxLines: nat)
    requires current == upstream ==> c == u
    ensures SameCandidate(Decide(base, current, upstream, b, c, u, maxBytes, maxLines),
      Decide(base, upstream, current, b, u, c, maxBytes, maxLines))
  {
    ComposeCommutes(b, c, u, maxBytes, maxLines);
    hide Compose;
  }

  /** Exchanging the branches gives the same candidate, or refuses as well. */
  lemma ExchangeBranches(base: Bytes, current: Bytes, upstream: Bytes, maxBytes: int, maxLines: int)
    ensures SameCandidate(ThreeWay(base, current, upstream, maxBytes, maxLines),
      ThreeWay(base, upstream, current, maxBytes, maxLines))
  {
    hide Decide, Parsing;
    if Bounded(base, current, upstream, maxBytes, maxLines) {
      var b, c, u :=
        Parsing(base, maxLines, false), Parsing(current, maxLines, false), Parsing(upstream, maxLines, false);
      if b.Parsed? && c.Parsed? && u.Parsed? {
        DecideCommutes(base, current, upstream, b.document, c.document, u.document, maxBytes, maxLines);
      }
    }
  }

  /** Keeping the only changed branch is what the merge itself would do. */
  lemma KeepingAgreesWithMerging(b: seq<Bytes>, c: seq<Bytes>, ours: seq<ByteEdit>)
    requires EditScript(b, c, Current) == Script(ours)
    ensures EditScript(b, b, Upstream) == Script([])
    ensures Combine(ours, []) == Merged(ours) && InOrder(ours, 0, |b|) && Patched(b, 0, ours) == c
  {
    NoEditsForEqual(b);
    EditScriptTiles(b, c, Current);
    ScriptPatches(b, c, ours);
    assert ours + [] == ours;
  }

  lemma NoEditsForEqual(b: seq<Bytes>)
    ensures EditScript(b, b, Upstream) == Script([])
  {
    PrefixOfSelf(b, 0);
    var w := Core(b, b);
    assert w == M.Window(|b|, |b|, |b|, |b|);
  }

  lemma {:induction false} PrefixOfSelf(b: seq<Bytes>, k: nat)
    requires k <= |b|
    ensures CommonPrefix(b, b, k) == |b|
    decreases |b| - k
  {
    if k < |b| {
      PrefixOfSelf(b, k + 1);
    }
  }

  /** The same change on both sides merges exactly when it inserts nothing; selecting it before merging
      is what makes every identical change acceptable. */
  lemma {:induction false} SameScriptMerges(ours: seq<ByteEdit>, theirs: seq<ByteEdit>, lo: int, n: int)
    requires Separated(ours, lo, n) && SameChanges(ours, theirs)
    ensures Combine(ours, theirs).Merged? <==> forall e :: e in ours ==> !e.Insertion()
    ensures Combine(ours, theirs).Merged? ==> SameChanges(Combine(ours, theirs).edits, ours)
  {
    if ours != [] {
      assert SameChange(ours[0], theirs[0]);
      SameChangesTail(ours, theirs);
      SameScriptMerges(ours[1..], theirs[1..], ours[0].end + 1, n);
      assert forall e :: e in ours <==> e == ours[0] || e in ours[1..];
    }
  }
}
