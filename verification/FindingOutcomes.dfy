/** What reconciling a report comes to, told from the report itself: when each refusal is given, what is stored, and
    when a repeated report is the same one. */
module FindingOutcomes {
  import opened Wrappers
  import opened Sorting
  import opened TextOrder
  import opened Findings
  import opened FindingHistory

  // --- Paths ----------------------------------------------------------------------------

  /** The text between two slashes, or between a slash and an end. */
  ghost predicate Segment(path: string, i: nat, j: nat) {
    && i <= j <= |path| && '/' !in path[i..j]
    && (i == 0 || path[i - 1] == '/') && (j == |path| || path[j] == '/')
  }

  /** Every segment is a proper name. */
  ghost predicate Proper(path: string) {
    forall i: nat, j: nat :: Segment(path, i, j) ==> path[i..j] != "" && path[i..j] != "." && path[i..j] != ".."
  }

  ghost predicate AllProper(parts: seq<string>) {
    forall k :: 0 <= k < |parts| ==> parts[k] != "" && parts[k] != "." && parts[k] != ".."
  }

  /** The components are the segments in order: joined with slashes they give the path. */
  function Slashed(parts: seq<string>): string
    requires parts != []
  {
    if |parts| == 1 then parts[0] else parts[0] + "/" + Slashed(parts[1..])
  }

  lemma {:induction false} ComponentsJoin(path: string)
    ensures Slashed(Components(path)) == path && forall k :: 0 <= k < |Components(path)| ==> '/' !in Components(path)[k]
  {
    if path != "" {
      var rest := Components(path[1..]);
      ComponentsJoin(path[1..]);
      assert path == [path[0]] + path[1..];
      if path[0] == '/' {
        assert Components(path) == [""] + rest;
        assert ([""] + rest)[1..] == rest;
        assert "" + "/" + path[1..] == path;
      } else {
        assert Components(path) == [[path[0]] + rest[0]] + rest[1..];
        assert ([[path[0]] + rest[0]] + rest[1..])[1..] == rest[1..];
      }
    }
  }

  /** The first segment ends where the first slash stands. */
  lemma SegmentShift(part: string, tail: string, i: nat, j: nat)
    requires '/' !in part
    ensures var path := part + "/" + tail;
      Segment(path, i, j) <==>
        (i == 0 && j == |part|) || (i > |part| && j > |part| && Segment(tail, i - |part| - 1, j - |part| - 1))
    ensures var path := part + "/" + tail;
      i > |part| && i <= j <= |path| ==> path[i..j] == tail[i - |part| - 1..j - |part| - 1]
  {
    var path := part + "/" + tail;
    assert path[|part|] == '/';
    assert forall k :: 0 <= k < |part| ==> path[k] == part[k] && path[k] != '/';
    assert forall k :: 0 <= k < |tail| ==> path[|part| + 1 + k] == tail[k];
    if i > |part| && i <= j <= |path| {
      assert path[i..j] == tail[i - |part| - 1..j - |part| - 1];
    }
    if i == 0 && |part| < j <= |path| {
      assert path[0..j][|part|] == '/';
    }
    assert path[0..|part|] == part;
  }

  lemma {:induction false} SlashedProper(parts: seq<string>)
    requires parts != [] && forall k :: 0 <= k < |parts| ==> '/' !in parts[k]
    ensures Proper(Slashed(parts)) <==> AllProper(parts)
  {
    var path := Slashed(parts);
    if |parts| == 1 {
      assert path == parts[0];
      assert forall k :: 0 <= k < |path| ==> path[k] != '/';
      assert Segment(path, 0, |path|) by {
        assert path[0..|path|] == path;
      }
      assert path[0..|path|] == path;
    } else {
      var part, tail := parts[0], Slashed(parts[1..]);
      SlashedProper(parts[1..]);
      forall i: nat, j: nat
        ensures Segment(path, i, j) <==>
          (i == 0 && j == |part|) || (i > |part| && j > |part| && Segment(tail, i - |part| - 1, j - |part| - 1))
        ensures i > |part| && i <= j <= |path| ==> path[i..j] == tail[i - |part| - 1..j - |part| - 1]
      {
        SegmentShift(part, tail, i, j);
      }
      assert path[0..|part|] == part;
      ProperCons(path, part, tail);
      assert AllProper(parts) <==> part != "" && part != "." && part != ".." && AllProper(parts[1..]) by {
        assert forall k :: 1 <= k < |parts| ==> parts[k] == parts[1..][k - 1];
      }
    }
  }

  lemma ProperCons(path: string, part: string, tail: string)
    requires path == part + "/" + tail && path[0..|part|] == part
    requires forall i: nat, j: nat :: Segment(path, i, j) <==>
      (i == 0 && j == |part|) || (i > |part| && j > |part| && Segment(tail, i - |part| - 1, j - |part| - 1))
    requires forall i: nat, j: nat :: i > |part| && i <= j <= |path| ==>
      path[i..j] == tail[i - |part| - 1..j - |part| - 1]
    ensures Proper(path) <==> part != "" && part != "." && part != ".." && Proper(tail)
  {
    var n := |part| + 1;
    if Proper(path) {
      assert Segment(path, 0, |part|);
      forall i: nat, j: nat | Segment(tail, i, j) ensures tail[i..j] != "" && tail[i..j] != "." && tail[i..j] != ".." {
        assert Segment(path, i + n, j + n) && path[i + n..j + n] == tail[i..j];
      }
    }
    if part != "" && part != "." && part != ".." && Proper(tail) {
      forall i: nat, j: nat | Segment(path, i, j) ensures path[i..j] != "" && path[i..j] != "." && path[i..j] != ".." {
        if i > |part| {
          assert Segment(tail, i - n, j - n);
        }
      }
    }
  }

  /** A path is accepted if and only if it has neither backslash nor colon, and every segment of it is a proper name. */
  lemma PathExactly(path: string)
    ensures ValidPath(path) <==> '\\' !in path && ':' !in path && Proper(path)
  {
    hide Proper, Segment, Slashed;
    ComponentsJoin(path);
    SlashedProper(Components(path));
  }

  // --- Refusals of single findings ------------------------------------------------------

  ghost predicate FieldsFit(f: Finding) {
    && 1 <= |f.id.rule| <= 4096 && 1 <= |f.id.path| <= 4096 && 1 <= |f.id.anchor| <= 4096 && 1 <= |f.message| <= 4096
    && f.line >= 1
  }

  ghost predicate PathFits(f: Finding) {
    '\\' !in f.id.path && ':' !in f.id.path && Proper(f.id.path)
  }

  /** What the finding at `k` is refused for, if all before it are accepted. */
  ghost function RefusalAt(findings: seq<Finding>, k: nat): Option<Error>
    requires k < |findings|
  {
    var f := findings[k];
    if !FieldsFit(f) then Some(FindingInvalid)
    else if !PathFits(f) then Some(PathInvalid)
    else if exists j :: 0 <= j < k && findings[j].id == f.id then Some(Duplicate)
    else None
  }

  ghost predicate NoneRefused(findings: seq<Finding>) {
    forall k :: 0 <= k < |findings| ==> RefusalAt(findings, k) == None
  }

  ghost predicate FirstRefused(findings: seq<Finding>, k: int) {
    0 <= k < |findings| && RefusalAt(findings, k).Some? && forall j :: 0 <= j < k ==> RefusalAt(findings, j) == None
  }

  /** The refusal is that of the first finding that is refused. */
  lemma {:induction false} CheckedExactly(findings: seq<Finding>)
    ensures CheckFindings(findings) == None <==> NoneRefused(findings)
    ensures forall k :: FirstRefused(findings, k) ==> CheckFindings(findings) == RefusalAt(findings, k)
  {
    if findings != [] {
      var (before, last) := (findings[..|findings| - 1], findings[|findings| - 1]);
      CheckedExactly(before);
      PathExactly(last.id.path);
      assert last.id in Ids(before) <==> exists j :: 0 <= j < |before| && before[j].id == last.id by {
        if last.id in Ids(before) {
          var j :| 0 <= j < |before| && Ids(before)[j] == last.id;
        }
        if j :| 0 <= j < |before| && before[j].id == last.id {
          assert Ids(before)[j] == last.id;
        }
      }
      forall k | 0 <= k < |before| ensures RefusalAt(before, k) == RefusalAt(findings, k) {
        SameRefusal(findings, k);
      }
      LastRefusal(findings);
      hide RefusalAt, Proper, CheckFinding;
    }
  }

  lemma SameRefusal(findings: seq<Finding>, k: nat)
    requires k < |findings| - 1
    ensures RefusalAt(findings[..|findings| - 1], k) == RefusalAt(findings, k)
  {
    hide FieldsFit, PathFits;
    assert forall j :: 0 <= j <= k ==> findings[..|findings| - 1][j] == findings[j];
  }

  lemma LastRefusal(findings: seq<Finding>)
    requires findings != []
    ensures var (before, last) := (findings[..|findings| - 1], findings[|findings| - 1]);
      RefusalAt(findings, |findings| - 1) ==
        if CheckFinding(last).Some? then CheckFinding(last)
        else if exists j :: 0 <= j < |before| && before[j].id == last.id then Some(Duplicate)
        else None
  {
    var (before, last) := (findings[..|findings| - 1], findings[|findings| - 1]);
    PathExactly(last.id.path);
    hide Proper, ValidPath;
    assert forall j :: 0 <= j < |before| ==> before[j] == findings[j];
  }

  // --- Reconciliation -------------------------------------------------------------------

  /** All identities of the history and the report. */
  ghost function AllIds(records: seq<Record>, findings: seq<Finding>): set<Id> {
    (set k | 0 <= k < |records| :: records[k].finding.id) + (set k | 0 <= k < |findings| :: findings[k].id)
  }

  lemma {:induction false} OnceCounts<T>(values: seq<T>)
    requires Once(values)
    ensures |set v | v in values| == |values|
  {
    if values != [] {
      OnceTail(values);
      OnceCounts(values[1..]);
      assert (set v | v in values) == {values[0]} + set v | v in values[1..];
    }
  }

  lemma KeysCount(records: seq<Record>, findings: seq<Finding>)
    requires Once(RecordIds(records)) && Once(Ids(findings))
    ensures |Keys(records, findings)| == |AllIds(records, findings)|
  {
    KeysAre(records, findings);
    var keys := Keys(records, findings);
    OnceCounts(keys);
    hide Keys, Once, OrderedBy, IdBefore;
    forall id ensures id in keys <==> id in AllIds(records, findings) {
      if id in RecordIds(records) {
        var k :| 0 <= k < |records| && RecordIds(records)[k] == id;
      }
      if id in Ids(findings) {
        var k :| 0 <= k < |findings| && Ids(findings)[k] == id;
      }
      if k :| 0 <= k < |records| && records[k].finding.id == id {
        assert RecordIds(records)[k] == id;
      }
      if k :| 0 <= k < |findings| && findings[k].id == id {
        assert Ids(findings)[k] == id;
      }
    }
    assert (set v | v in keys) == AllIds(records, findings);
  }

  /** The same findings, in whatever order. */
  ghost predicate SameFindings(a: seq<Finding>, b: seq<Finding>) {
    multiset(a) == multiset(b)
  }

  ghost predicate Ascending(findings: seq<Finding>) {
    forall i, j :: 0 <= i < j < |findings| ==> Earlier(findings[i].id, findings[j].id)
  }

  /** By rule, then by path, then by anchor. */
  ghost predicate Earlier(a: Id, b: Id) {
    || Precedes(a.rule, b.rule)
    || (a.rule == b.rule && Precedes(a.path, b.path))
    || (a.rule == b.rule && a.path == b.path && Precedes(a.anchor, b.anchor))
  }

  lemma EarlierIs(a: Id, b: Id)
    ensures IdBefore(a, b) <==> Earlier(a, b)
  {
    FirstDifference(a.rule, b.rule);
    FirstDifference(a.path, b.path);
    FirstDifference(a.anchor, b.anchor);
    hide Less, Precedes;
  }

  lemma FindingOrder()
    ensures StrictOrder((a: Finding, b: Finding) => IdBefore(a.id, b.id))
  {
    hide IdBefore;
    forall x: Finding, y: Finding ensures IdBefore(x.id, y.id) ==> !IdBefore(y.id, x.id) {
      IdOrder(x.id, y.id);
    }
    forall x: Finding, y: Finding, z: Finding | !IdBefore(x.id, y.id) && !IdBefore(y.id, z.id)
      ensures !IdBefore(x.id, z.id)
    {
      IdNotBefore(x.id, y.id, z.id);
    }
  }

  /** What is stored of a report are its findings, each once, in ascending order. */
  lemma SortedAre(findings: seq<Finding>)
    requires Once(Ids(findings))
    ensures SameFindings(SortedFindings(findings), findings) && Ascending(SortedFindings(findings))
    ensures Once(Ids(SortedFindings(findings)))
  {
    FindingOrder();
    SortOrders(findings, (a: Finding, b: Finding) => IdBefore(a.id, b.id));
    var sorted := SortedFindings(findings);
    hide IdBefore, SortBy, SortedFindings, StrictOrder;
    IdsPermute(sorted, findings);
    forall i, j | 0 <= i < j < |sorted| ensures Earlier(sorted[i].id, sorted[j].id) {
      assert Ids(sorted)[i] != Ids(sorted)[j];
      IdOrder(sorted[i].id, sorted[j].id);
      EarlierIs(sorted[i].id, sorted[j].id);
    }
  }

  lemma IdsPermute(a: seq<Finding>, b: seq<Finding>)
    requires multiset(a) == multiset(b) && Once(Ids(b))
    ensures multiset(Ids(a)) == multiset(Ids(b)) && Once(Ids(a))
  {
    MappedPermutes((f: Finding) => f.id, a, b);
    assert Mapped((f: Finding) => f.id, a) == Ids(a) && Mapped((f: Finding) => f.id, b) == Ids(b);
    OncePermutes(Ids(b), Ids(a));
  }

  /** Ascending lists of the same findings are the same list. */
  lemma SameSorted(a: seq<Finding>, b: seq<Finding>)
    requires Once(Ids(a)) && Once(Ids(b))
    ensures SortedFindings(a) == SortedFindings(b) <==> SameFindings(a, b)
  {
    SortedAre(a);
    SortedAre(b);
    hide SortedFindings;
    if SameFindings(a, b) {
      AscendingUnique(SortedFindings(a), SortedFindings(b));
    }
  }

  lemma SortedAlready(findings: seq<Finding>)
    requires Once(Ids(findings)) && Ascending(findings)
    ensures SortedFindings(findings) == findings
  {
    SortedAre(findings);
    hide SortedFindings, Once, Ascending;
    AscendingUnique(SortedFindings(findings), findings);
  }

  lemma EarlierOnce(a: Id, b: Id)
    requires Earlier(a, b)
    ensures !Earlier(b, a) && a != b
  {
    EarlierIs(a, b);
    EarlierIs(b, a);
    IdOrder(a, b);
    hide Earlier, IdBefore;
    if a == b {
      IdOrder(a, a);
    }
  }

  lemma {:induction false} AscendingUnique(a: seq<Finding>, b: seq<Finding>)
    requires Ascending(a) && Ascending(b) && multiset(a) == multiset(b)
    ensures a == b
  {
    hide Earlier;
    if a == [] {
      assert |multiset(b)| == 0;
    } else {
      hide Ascending;
      SameFirstFinding(a, b);
      AscendingTail(a);
      AscendingTail(b);
      AscendingUnique(a[1..], b[1..]);
    }
  }

  lemma AscendingTail(a: seq<Finding>)
    requires a != [] && Ascending(a)
    ensures a == [a[0]] + a[1..] && Ascending(a[1..]) && multiset(a[1..]) == multiset(a) - multiset{a[0]}
  {
    hide Earlier;
    assert a == [a[0]] + a[1..];
  }

  lemma SameFirstFinding(a: seq<Finding>, b: seq<Finding>)
    requires a != [] && Ascending(a) && Ascending(b) && multiset(a) == multiset(b)
    ensures b != [] && a[0] == b[0]
  {
    hide Earlier;
    assert a[0] in multiset(b);
    var i :| 0 <= i < |b| && b[i] == a[0];
    assert b[0] in multiset(a);
    var j :| 0 <= j < |a| && a[j] == b[0];
    if i > 0 && j > 0 {
      EarlierOnce(b[0].id, b[i].id);
    }
  }

  lemma NoneRefusedOnce(findings: seq<Finding>)
    requires NoneRefused(findings)
    ensures Once(Ids(findings))
  {
    CheckedExactly(findings);
    CheckedOnce(findings);
    hide NoneRefused, CheckFindings, Once;
  }

  /** A report is accepted if and only if it is complete, names profile and scope, keeps the limit in its findings and
      together with the history, holds findings that are all accepted, and has the context of the history; if it
      repeats the commit of the last report, it must hold the same findings. Each refusal is given for its own
      reason, in this order. */
  lemma ReconciledExactly(previous: Option<State>, report: Report, maxRecords: int)
    requires Kept(RecordsOf(previous))
    requires previous.Some? ==> previous.value.report.complete && Once(Ids(previous.value.report.findings))
    requires previous.Some? ==> Ascending(previous.value.report.findings)
    ensures var r := Reconciled(previous, report, maxRecords);
      if !report.complete then r == Err(Incomplete)
      else if report.context.profile == "" || report.context.scope == "" then r == Err(ContextInvalid)
      else if maxRecords < 1 || |report.findings| > maxRecords then r == Err(Limit)
      else if !NoneRefused(report.findings) then r.Err? && Some(r.error) == CheckFindings(report.findings)
      else if previous.Some? && previous.value.report.context != report.context then r == Err(ContextChanged)
      else if |AllIds(RecordsOf(previous), report.findings)| > maxRecords then r == Err(Limit)
      else if previous.Some? && previous.value.report.commit == report.commit then
        if SameFindings(report.findings, previous.value.report.findings) then r == Ok(Update(previous.value, []))
        else r == Err(ReplayConflict)
      else r.Ok?
  {
    CheckedExactly(report.findings);
    hide NoneRefused, CheckFindings, Keys, SortedFindings, AllIds, NextRecords, NextEvents, Once, Ascending;
    if NoneRefused(report.findings) {
      NoneRefusedOnce(report.findings);
      KeysCount(RecordsOf(previous), report.findings);
      if previous.Some? {
        SortedAlready(previous.value.report.findings);
        SameSorted(report.findings, previous.value.report.findings);
      }
    }
  }

  /** What an accepted new report leaves behind is that report: its context, its commit, and exactly its findings, in
      ascending order. */
  lemma ReportIsStored(previous: Option<State>, report: Report, maxRecords: int)
    requires Reconciled(previous, report, maxRecords).Ok? && !Replay(previous, report)
    ensures var stored := Reconciled(previous, report, maxRecords).value.state.report;
      && stored.context == report.context && stored.commit == report.commit && stored.complete
      && SameFindings(stored.findings, report.findings) && Ascending(stored.findings)
  {
    CheckedOnce(report.findings);
    SortedAre(report.findings);
    hide CheckFindings, Keys, SortedFindings, NextRecords, NextEvents, Once;
  }

  // --- Over runs ------------------------------------------------------------------------

  /** What a run keeps of its last report. */
  ghost predicate LastKept(s: Story, maxRecords: int) {
    s.state.Some? ==>
      && s.log != []
      && var (last, stored) := (s.log[|s.log| - 1], s.state.value.report);
         && last.complete && last.context.profile != "" && last.context.scope != "" && NoneRefused(last.findings)
         && maxRecords >= 1 && |last.findings| <= maxRecords && |s.state.value.records| <= maxRecords
         && stored == last.(findings := SortedFindings(last.findings))
  }

  lemma {:induction false} NextRecordsWithin(keys: seq<Id>, records: seq<Record>, findings: seq<Finding>,
                                             commit: string)
    ensures |NextRecords(keys, records, findings, commit)| <= |keys|
  {
    if keys != [] {
      NextRecordsWithin(keys[1..], records, findings, commit);
      hide NextRecord, FindRecord, FindFinding;
    }
  }

  lemma StepKeepsLast(s: Story, report: Report, maxRecords: int)
    requires LastKept(s, maxRecords) && Reconciled(s.state, report, maxRecords).Ok?
    ensures var u := Reconciled(s.state, report, maxRecords).value;
      LastKept(Story(Some(u.state), if Replay(s.state, report) then s.log else s.log + [report], s.events + u.events),
        maxRecords)
  {
    CheckedExactly(report.findings);
    hide NoneRefused, CheckFindings, SortedFindings;
    var records := RecordsOf(s.state);
    NextRecordsWithin(Keys(records, report.findings), records, report.findings, report.commit);
    hide Keys, NextRecords, NextEvents;
  }

  lemma {:induction false} RunKeepsLast(reports: seq<Report>, maxRecords: int)
    requires Run(reports, maxRecords).Some?
    ensures LastKept(Run(reports, maxRecords).value, maxRecords)
  {
    if reports != [] {
      var before := reports[..|reports| - 1];
      RunKeepsLast(before, maxRecords);
      hide LastKept, Reconciled;
      StepKeepsLast(Run(before, maxRecords).value, reports[|reports| - 1], maxRecords);
    }
  }

  lemma PermutedAccepted(a: seq<Finding>, b: seq<Finding>)
    requires NoneRefused(a) && SameFindings(a, b)
    ensures NoneRefused(b)
  {
    NoneRefusedOnce(a);
    IdsPermute(b, a);
    forall k | 0 <= k < |b| ensures RefusalAt(b, k) == None {
      assert b[k] in multiset(a);
      var i :| 0 <= i < |a| && a[i] == b[k];
      assert RefusalAt(a, i) == None;
      forall j | 0 <= j < k ensures b[j].id != b[k].id {
        assert Ids(b)[j] != Ids(b)[k];
      }
    }
  }

  /** The identities of the last report are among the records. */
  lemma LastIsRecorded(s: Story, id: Id)
    requires Tracks(s.state, s.log) && s.state.Some? && id in Ids(s.log[|s.log| - 1].findings)
    ensures id in RecordIds(RecordsOf(s.state))
  {
    FindingIs(s.log[|s.log| - 1].findings, id);
    OpenIffInLastReport(s.state, s.log, id);
    RecordIs(RecordsOf(s.state), id);
    hide Tracks, FindRecord, FindFinding;
  }

  lemma RecordsCount(s: Story, findings: seq<Finding>)
    requires Tracks(s.state, s.log) && s.state.Some? && SameFindings(findings, s.log[|s.log| - 1].findings)
    ensures |AllIds(RecordsOf(s.state), findings)| == |RecordsOf(s.state)|
  {
    var records := RecordsOf(s.state);
    assert Once(RecordIds(records));
    OnceCounts(RecordIds(records));
    hide Once;
    forall k | 0 <= k < |findings| ensures findings[k].id in RecordIds(records) {
      var last := s.log[|s.log| - 1].findings;
      assert findings[k] in multiset(last);
      var i :| 0 <= i < |last| && last[i] == findings[k];
      assert Ids(last)[i] == findings[k].id;
      LastIsRecorded(s, findings[k].id);
    }
    hide Tracks;
    assert AllIds(records, findings) == set v | v in RecordIds(records) by {
      assert forall k :: 0 <= k < |records| ==> RecordIds(records)[k] == records[k].finding.id;
    }
  }

  /** A complete report in the context of the last one, within the limits, whose findings are all accepted. */
  ghost predicate Acceptable(s: Story, report: Report, maxRecords: int)
    requires s.log != []
  {
    && report.complete && report.context == s.log[|s.log| - 1].context && NoneRefused(report.findings)
    && |AllIds(RecordsOf(s.state), report.findings)| <= maxRecords && |report.findings| <= maxRecords
  }

  /** After any run, a second report of the last commit is accepted if and only if it is complete, has the same context
      and the same findings in whatever order; it then changes nothing. A complete report of the same context whose
      findings are accepted, but are others, conflicts. */
  lemma RepeatedExactly(reports: seq<Report>, maxRecords: int, report: Report)
    requires Run(reports, maxRecords).Some? && Run(reports, maxRecords).value.log != []
    requires var log := Run(reports, maxRecords).value.log; report.commit == log[|log| - 1].commit
    ensures var s := Run(reports, maxRecords).value;
      var last := s.log[|s.log| - 1];
      var r := Reconciled(s.state, report, maxRecords);
      && (r.Ok? <==> report.complete && report.context == last.context && SameFindings(report.findings, last.findings))
      && (r.Ok? ==> r.value == Update(s.state.value, []))
      && (Acceptable(s, report, maxRecords) && !SameFindings(report.findings, last.findings) ==>
           r == Err(ReplayConflict))
  {
    RunTracks(reports, maxRecords);
    RunKeepsLast(reports, maxRecords);
    var s := Run(reports, maxRecords).value;
    var last := s.log[|s.log| - 1];
    NoneRefusedOnce(last.findings);
    SortedAre(last.findings);
    hide Run, NoneRefused, Reconciled, AllIds, SortedFindings, Once, Ascending, Ids;
    assert Kept(RecordsOf(s.state));
    ReconciledExactly(s.state, report, maxRecords);
    if SameFindings(report.findings, last.findings) {
      PermutedAccepted(last.findings, report.findings);
      assert |multiset(report.findings)| == |multiset(last.findings)|;
      RecordsCount(s, report.findings);
    }
  }

  // --- Records and events ---------------------------------------------------------------

  ghost predicate IdsAscend(ids: seq<Id>) {
    forall i, j :: 0 <= i < j < |ids| ==> Earlier(ids[i], ids[j])
  }

  function EventIds(events: seq<Event>): seq<Id> {
    seq(|events|, k requires 0 <= k < |events| => events[k].id)
  }

  lemma KeysAscend(records: seq<Record>, findings: seq<Finding>)
    requires Once(RecordIds(records)) && Once(Ids(findings))
    ensures IdsAscend(Keys(records, findings))
  {
    KeysAre(records, findings);
    var keys := Keys(records, findings);
    hide Keys, IdBefore, Earlier;
    forall i, j | 0 <= i < j < |keys| ensures Earlier(keys[i], keys[j]) {
      assert !IdBefore(keys[j], keys[i]);
      IdOrder(keys[i], keys[j]);
      EarlierIs(keys[i], keys[j]);
    }
  }

  lemma {:induction false} NextRecordIds(keys: seq<Id>, records: seq<Record>, findings: seq<Finding>, commit: string)
    requires forall id :: id in keys ==> id in RecordIds(records) || id in Ids(findings)
    ensures RecordIds(NextRecords(keys, records, findings, commit)) == keys
  {
    if keys != [] {
      NextRecordIds(keys[1..], records, findings, commit);
      assert keys[0] in keys;
      RecordIs(records, keys[0]);
      FindingIs(findings, keys[0]);
      var next := NextRecord(FindRecord(records, keys[0]), FindFinding(findings, keys[0]), commit);
      var rest := NextRecords(keys[1..], records, findings, commit);
      hide NextRecords, FindRecord, FindFinding;
      assert RecordIds([next.value] + rest) == [keys[0]] + RecordIds(rest);
    }
  }

  /** The events of a report, told from the history and the report. */
  ghost predicate Happens(records: seq<Record>, findings: seq<Finding>, commit: string, e: Event) {
    && e.commit == commit
    && var (prior, item) := (FindRecord(records, e.id), FindFinding(findings, e.id));
       match e.kind
       case New => prior == None && item.Some?
       case Reopened => item.Some? && prior.Some? && prior.value.resolvedAt.Some?
       case Resolved => item == None && prior.Some? && prior.value.resolvedAt == None
  }

  lemma HappensIs(records: seq<Record>, findings: seq<Finding>, commit: string, e: Event)
    ensures Happens(records, findings, commit, e) <==>
      e.commit == commit && NextEvent(FindRecord(records, e.id), FindFinding(findings, e.id)) == Some(e.kind)
  {
    hide FindRecord, FindFinding;
  }

  /** These are the events of the given identities. */
  ghost predicate EventsOf(keys: seq<Id>, records: seq<Record>, findings: seq<Finding>, commit: string,
                           events: seq<Event>) {
    && IdsAscend(EventIds(events)) && (forall k :: 0 <= k < |events| ==> events[k].id in keys)
    && forall e :: e in events <==> e.id in keys && Happens(records, findings, commit, e)
  }

  lemma {:induction false} NextEventsAre(keys: seq<Id>, records: seq<Record>, findings: seq<Finding>, commit: string)
    requires IdsAscend(keys)
    ensures EventsOf(keys, records, findings, commit, NextEvents(keys, records, findings, commit))
  {
    hide EventsOf, FindRecord, FindFinding, NextEvent, Earlier;
    if keys == [] {
      NoEvents(records, findings, commit);
    } else {
      NextEventsAre(keys[1..], records, findings, commit);
      var kind := NextEvent(FindRecord(records, keys[0]), FindFinding(findings, keys[0]));
      var rest := NextEvents(keys[1..], records, findings, commit);
      if kind.Some? {
        ConsEvent(keys, records, findings, commit, rest, kind.value);
      } else {
        SkipEvent(keys, records, findings, commit, rest);
        assert [] + rest == rest;
      }
    }
  }

  lemma NoEvents(records: seq<Record>, findings: seq<Finding>, commit: string)
    ensures EventsOf([], records, findings, commit, [])
  {
    hide Happens, Earlier;
  }

  lemma ConsEvent(keys: seq<Id>, records: seq<Record>, findings: seq<Finding>, commit: string, rest: seq<Event>,
                  kind: Kind)
    requires keys != [] && IdsAscend(keys) && EventsOf(keys[1..], records, findings, commit, rest)
    requires NextEvent(FindRecord(records, keys[0]), FindFinding(findings, keys[0])) == Some(kind)
    ensures EventsOf(keys, records, findings, commit, [Event(kind, keys[0], commit)] + rest)
  {
    hide Happens, FindRecord, FindFinding, NextEvent, Earlier;
    var head := Event(kind, keys[0], commit);
    var events := [head] + rest;
    assert keys == [keys[0]] + keys[1..];
    NotAgain(keys);
    forall i, j | 0 <= i < j < |events| ensures Earlier(EventIds(events)[i], EventIds(events)[j]) {
      if i == 0 {
        assert rest[j - 1].id in keys[1..];
      } else {
        assert Earlier(EventIds(rest)[i - 1], EventIds(rest)[j - 1]);
      }
    }
    forall e ensures e in events <==> e.id in keys && Happens(records, findings, commit, e) {
      HappensIs(records, findings, commit, e);
    }
  }

  lemma SkipEvent(keys: seq<Id>, records: seq<Record>, findings: seq<Finding>, commit: string, rest: seq<Event>)
    requires keys != [] && IdsAscend(keys) && EventsOf(keys[1..], records, findings, commit, rest)
    requires NextEvent(FindRecord(records, keys[0]), FindFinding(findings, keys[0])) == None
    ensures EventsOf(keys, records, findings, commit, rest)
  {
    hide Happens, FindRecord, FindFinding, NextEvent, Earlier, IdsAscend;
    assert keys == [keys[0]] + keys[1..];
    forall e ensures e in rest <==> e.id in keys && Happens(records, findings, commit, e) {
      HappensIs(records, findings, commit, e);
    }
  }

  lemma NotAgain(keys: seq<Id>)
    requires IdsAscend(keys) && keys != []
    ensures keys[0] !in keys[1..]
  {
    hide Earlier;
    if keys[0] in keys[1..] {
      var j :| 1 <= j < |keys| && keys[j] == keys[0];
      EarlierOnce(keys[0], keys[j]);
    }
  }

  /** An accepted new report leaves the records of history and report in ascending order, and exactly the events that
      happen, in the same order. */
  lemma UpdateExactly(previous: Option<State>, report: Report, maxRecords: int)
    requires Reconciled(previous, report, maxRecords).Ok? && !Replay(previous, report) && Kept(RecordsOf(previous))
    ensures var u := Reconciled(previous, report, maxRecords).value;
      && IdsAscend(RecordIds(u.state.records)) && IdsAscend(EventIds(u.events))
      && (forall id :: id in RecordIds(u.state.records) <==>
        id in RecordIds(RecordsOf(previous)) || id in Ids(report.findings))
      && forall e :: e in u.events <==> Happens(RecordsOf(previous), report.findings, report.commit, e)
  {
    var (records, findings) := (RecordsOf(previous), report.findings);
    CheckedOnce(findings);
    KeysAre(records, findings);
    KeysAscend(records, findings);
    var keys := Keys(records, findings);
    NextRecordIds(keys, records, findings, report.commit);
    NextEventsAre(keys, records, findings, report.commit);
    hide CheckFindings, Keys, NextRecords, NextEvents, SortedFindings, IdsAscend, OrderedBy, FindRecord, FindFinding;
    forall e | Happens(records, findings, report.commit, e) ensures e.id in keys {
      RecordIs(records, e.id);
      FindingIs(findings, e.id);
    }
  }
}
