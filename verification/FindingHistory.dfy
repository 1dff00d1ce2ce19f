/** What a run of accepted reports means: every record is the history of its identity, and the events of an
    identity tell that history again. */
module FindingHistory {
  import opened Wrappers
  import opened Sorting
  import opened Findings
  import opened TextOrder

  // --- Looking up -----------------------------------------------------------------------

  predicate Once<T(==)>(values: seq<T>) {
    forall i, j :: 0 <= i < j < |values| ==> values[i] != values[j]
  }

  lemma {:induction false} RecordIs(records: seq<Record>, id: Id)
    ensures FindRecord(records, id).Some? <==> id in RecordIds(records)
    ensures FindRecord(records, id).Some? ==> FindRecord(records, id).value.finding.id == id
  {
    if records != [] {
      RecordIs(records[1..], id);
      assert RecordIds(records) == [records[0].finding.id] + RecordIds(records[1..]);
    }
  }

  lemma {:induction false} FindingIs(findings: seq<Finding>, id: Id)
    ensures FindFinding(findings, id).Some? <==> id in Ids(findings)
    ensures FindFinding(findings, id).Some? ==> FindFinding(findings, id).value.id == id
  {
    if findings != [] {
      FindingIs(findings[1..], id);
      assert Ids(findings) == [findings[0].id] + Ids(findings[1..]);
    }
  }

  lemma {:induction false} CheckedOnce(findings: seq<Finding>)
    requires CheckFindings(findings) == None
    ensures Once(Ids(findings))
  {
    if findings != [] {
      var before := findings[..|findings| - 1];
      CheckedOnce(before);
      assert Ids(findings) == Ids(before) + [findings[|findings| - 1].id];
    }
  }

  lemma {:induction false} FreshHolds(records: seq<Record>, findings: seq<Finding>, id: Id)
    ensures id in Fresh(records, findings) <==> id in Ids(findings) && id !in RecordIds(records)
  {
    if findings != [] {
      FreshHolds(records, findings[1..], id);
      RecordIs(records, findings[0].id);
      assert Ids(findings) == [findings[0].id] + Ids(findings[1..]);
    }
  }

  lemma OnceTail<T>(values: seq<T>)
    requires Once(values) && values != []
    ensures Once(values[1..]) && values[0] !in values[1..]
  {
  }

  lemma {:induction false} FreshOnce(records: seq<Record>, findings: seq<Finding>)
    requires Once(Ids(findings))
    ensures Once(Fresh(records, findings))
  {
    if findings != [] {
      assert Ids(findings) == [findings[0].id] + Ids(findings[1..]);
      OnceTail(Ids(findings));
      FreshOnce(records, findings[1..]);
      FreshHolds(records, findings[1..], findings[0].id);
    }
  }

  lemma OncePermutes<T>(a: seq<T>, b: seq<T>)
    requires multiset(a) == multiset(b) && Once(a)
    ensures Once(b)
  {
    forall i, j | 0 <= i < j < |b| ensures b[i] != b[j] {
      if b[i] == b[j] {
        Without(b, i);
        assert (b[..i] + b[i + 1..])[j - 1] == b[j];
        assert multiset(b)[b[i]] >= 2;
        AtMostOnce(a, b[i]);
      }
    }
  }

  lemma {:induction false} AtMostOnce<T>(values: seq<T>, x: T)
    requires Once(values)
    ensures multiset(values)[x] <= 1
  {
    if values != [] {
      AtMostOnce(values[1..], x);
      assert values == [values[0]] + values[1..];
      if values[0] == x {
        assert x !in values[1..];
      }
    }
  }

  lemma ConcatOnce<T>(a: seq<T>, b: seq<T>)
    requires Once(a) && Once(b) && forall x :: x in b ==> x !in a
    ensures Once(a + b)
  {
    forall i, j | 0 <= i < j < |a + b| ensures (a + b)[i] != (a + b)[j] {
      if i < |a| <= j {
        assert b[j - |a|] in b && a[i] in a;
      }
    }
  }

  lemma IdOrder(a: Id, b: Id)
    ensures IdBefore(a, b) ==> !IdBefore(b, a)
    ensures !IdBefore(a, b) && !IdBefore(b, a) ==> a == b
  {
    LessOrder(a.rule, b.rule);
    LessOrder(a.path, b.path);
    LessOrder(a.anchor, b.anchor);
    hide Less;
  }

  lemma IdNotBefore(a: Id, b: Id, c: Id)
    requires !IdBefore(a, b) && !IdBefore(b, c)
    ensures !IdBefore(a, c)
  {
    NotLessTransitive(a.rule, b.rule, c.rule);
    NotLessTransitive(a.path, b.path, c.path);
    NotLessTransitive(a.anchor, b.anchor, c.anchor);
    LessOrder(a.rule, b.rule);
    LessOrder(b.rule, c.rule);
    LessOrder(a.path, b.path);
    LessOrder(b.path, c.path);
    hide Less;
  }

  lemma IdOrderStrict()
    ensures StrictOrder((a, b) => IdBefore(a, b))
  {
    forall x: Id, y: Id ensures IdBefore(x, y) ==> !IdBefore(y, x) {
      IdOrder(x, y);
    }
    forall x: Id, y: Id, z: Id | !IdBefore(x, y) && !IdBefore(y, z) ensures !IdBefore(x, z) {
      IdNotBefore(x, y, z);
    }
  }

  /** The sorted keys are the identities of history and report, each once. */
  lemma KeysAre(records: seq<Record>, findings: seq<Finding>)
    requires Once(RecordIds(records)) && Once(Ids(findings))
    ensures Once(Keys(records, findings))
    ensures forall id :: id in Keys(records, findings) <==> id in RecordIds(records) || id in Ids(findings)
    ensures OrderedBy(Keys(records, findings), (a, b) => IdBefore(a, b))
  {
    var all := RecordIds(records) + Fresh(records, findings);
    IdOrderStrict();
    hide IdBefore;
    SortOrders(all, (a, b) => IdBefore(a, b));
    FreshOnce(records, findings);
    forall id ensures id in Fresh(records, findings) <==> id in Ids(findings) && id !in RecordIds(records) {
      FreshHolds(records, findings, id);
    }
    hide Fresh, StrictOrder, OrderedBy, SortBy;
    ConcatOnce(RecordIds(records), Fresh(records, findings));
    var keys := Keys(records, findings);
    OncePermutes(all, keys);
    forall id ensures id in keys <==> id in all {
      assert id in keys <==> id in multiset(keys);
      assert id in all <==> id in multiset(all);
    }
  }

  // --- One report -----------------------------------------------------------------------

  lemma {:induction false} NextLookup(keys: seq<Id>, records: seq<Record>, findings: seq<Finding>, commit: string,
                                      id: Id)
    requires Once(keys)
    ensures FindRecord(NextRecords(keys, records, findings, commit), id)
         == if id in keys then NextRecord(FindRecord(records, id), FindFinding(findings, id), commit) else None
  {
    if keys != [] {
      OnceTail(keys);
      NextLookup(keys[1..], records, findings, commit, id);
      NextKeepsId(records, findings, commit, keys[0]);
      var next := NextRecord(FindRecord(records, keys[0]), FindFinding(findings, keys[0]), commit);
      hide NextRecord;
      var rest := NextRecords(keys[1..], records, findings, commit);
      if next.Some? {
        assert ([next.value] + rest)[1..] == rest;
      } else {
        assert [] + rest == rest;
        assert NextRecords(keys, records, findings, commit) == rest;
      }
    }
  }

  lemma NextKeepsId(records: seq<Record>, findings: seq<Finding>, commit: string, id: Id)
    ensures var next := NextRecord(FindRecord(records, id), FindFinding(findings, id), commit);
      next.Some? ==> next.value.finding.id == id
  {
    RecordIs(records, id);
    FindingIs(findings, id);
  }

  ghost predicate Within(ids: seq<Id>, keys: seq<Id>) {
    Once(ids) && forall id :: id in ids ==> id in keys
  }

  lemma WithinCons(keys: seq<Id>, next: Option<Record>, rest: seq<Record>)
    requires Once(keys) && keys != [] && Within(RecordIds(rest), keys[1..])
    requires next.Some? ==> next.value.finding.id == keys[0]
    ensures Within(RecordIds(One(next) + rest), keys)
  {
    OnceTail(keys);
    assert forall id :: id in keys[1..] ==> id in keys;
    if next.Some? {
      assert RecordIds([next.value] + rest) == [keys[0]] + RecordIds(rest);
      ConcatOnce([keys[0]], RecordIds(rest));
    } else {
      assert [] + rest == rest;
    }
  }

  lemma {:induction false} NextOnce(keys: seq<Id>, records: seq<Record>, findings: seq<Finding>, commit: string)
    requires Once(keys)
    ensures Within(RecordIds(NextRecords(keys, records, findings, commit)), keys)
  {
    if keys == [] {
    } else {
      hide NextRecord, FindRecord, FindFinding, Within, Once;
      OnceTail(keys);
      NextOnce(keys[1..], records, findings, commit);
      NextKeepsId(records, findings, commit, keys[0]);
      WithinCons(keys, NextRecord(FindRecord(records, keys[0]), FindFinding(findings, keys[0]), commit),
        NextRecords(keys[1..], records, findings, commit));
    }
  }

  ghost predicate Kept(records: seq<Record>) {
    Once(RecordIds(records))
  }

  function RecordsOf(previous: Option<State>): seq<Record> {
    if previous.Some? then previous.value.records else []
  }

  ghost predicate Replay(previous: Option<State>, report: Report) {
    previous.Some? && previous.value.report.commit == report.commit
  }

  /** A replay is accepted only for the same report, and changes nothing at all. */
  lemma ReplayChangesNothing(previous: Option<State>, report: Report, maxRecords: int)
    requires Reconciled(previous, report, maxRecords).Ok? && Replay(previous, report)
    ensures Reconciled(previous, report, maxRecords).value == Update(previous.value, [])
    ensures previous.value.report == Canonical(report)
  {
    hide CheckFindings, Keys, SortedFindings;
  }

  /** After a new report every record is the next one of its identity. */
  lemma ReportAdvances(previous: Option<State>, report: Report, maxRecords: int, id: Id)
    requires Reconciled(previous, report, maxRecords).Ok? && !Replay(previous, report) && Kept(RecordsOf(previous))
    ensures var u := Reconciled(previous, report, maxRecords).value;
      && u.state.report == Canonical(report) && Kept(u.state.records)
      && FindRecord(u.state.records, id) ==
        NextRecord(FindRecord(RecordsOf(previous), id), FindFinding(report.findings, id), report.commit)
  {
    var (records, findings) := (RecordsOf(previous), report.findings);
    CheckedOnce(findings);
    KeysAre(records, findings);
    var keys := Keys(records, findings);
    NextLookup(keys, records, findings, report.commit, id);
    NextOnce(keys, records, findings, report.commit);
    assert Once(RecordIds(NextRecords(keys, records, findings, report.commit)));
    RecordIs(records, id);
    FindingIs(findings, id);
    hide CheckFindings, Keys, NextRecords, NextEvents, SortedFindings, FindRecord, FindFinding;
  }

  // --- A run of reports -----------------------------------------------------------------

  /** The first and the last report that hold an identity. */
  ghost function FirstSight(log: seq<Report>, id: Id): Option<nat> {
    if log == [] then None
    else
      var before := FirstSight(log[..|log| - 1], id);
      if before.Some? then before else if FindFinding(log[|log| - 1].findings, id).Some? then Some(|log| - 1) else None
  }

  ghost function LastSight(log: seq<Report>, id: Id): (r: Option<nat>)
    ensures r.Some? ==> r.value < |log| && FindFinding(log[r.value].findings, id).Some?
    ensures forall k :: 0 <= k < |log| && (r.None? || k > r.value) ==> FindFinding(log[k].findings, id) == None
  {
    if log == [] then None
    else if FindFinding(log[|log| - 1].findings, id).Some? then Some(|log| - 1)
    else LastSight(log[..|log| - 1], id)
  }

  lemma {:induction false} FirstSightIs(log: seq<Report>, id: Id)
    ensures FirstSight(log, id).Some? <==> LastSight(log, id).Some?
    ensures FirstSight(log, id).Some? ==>
      var first := FirstSight(log, id).value;
      first < |log| && FindFinding(log[first].findings, id).Some? && forall k :: 0 <= k < first ==>
        FindFinding(log[k].findings, id) == None
  {
    if log != [] {
      FirstSightIs(log[..|log| - 1], id);
    }
  }

  /** The record of an identity, read off the whole log of reports. */
  ghost function Expected(log: seq<Report>, id: Id): Option<Record> {
    var last := LastSight(log, id);
    if last == None || FirstSight(log, id) == None then None
    else
      FirstSightIs(log, id);
      Some(Record(
        FindFinding(log[last.value].findings, id).value, log[FirstSight(log, id).value].commit, log[last.value].commit,
        if last.value == |log| - 1 then None else Some(log[last.value + 1].commit)))
  }

  /** Reading one more report changes the expectation as the reconciliation changes the record. */
  lemma ExpectedAdvances(log: seq<Report>, r: Report, id: Id)
    ensures Expected(log + [r], id) == NextRecord(Expected(log, id), FindFinding(r.findings, id), r.commit)
  {
    var longer := log + [r];
    assert longer[..|longer| - 1] == log;
    FirstSightIs(log, id);
    FirstSightIs(longer, id);
    hide FindFinding;
  }

  ghost predicate Tracks(previous: Option<State>, log: seq<Report>) {
    && (previous == None <==> log == [])
    && (previous.Some? ==> previous.value.report == Canonical(log[|log| - 1]))
    && Kept(RecordsOf(previous))
    && forall id :: FindRecord(RecordsOf(previous), id) == Expected(log, id)
  }

  /** The reports that were not replays, and the events of all. */
  datatype Story = Story(state: Option<State>, log: seq<Report>, events: seq<Event>)

  /** Reconciles the reports one after another; nothing once one is refused. */
  ghost function Run(reports: seq<Report>, maxRecords: int): Option<Story> {
    if reports == [] then Some(Story(None, [], []))
    else
      var before := Run(reports[..|reports| - 1], maxRecords);
      if before == None then None
      else
        var (s, report) := (before.value, reports[|reports| - 1]);
        var r := Reconciled(s.state, report, maxRecords);
        if r.Err? then None
        else Some(Story(Some(r.value.state), if Replay(s.state, report) then s.log else s.log + [report],
          s.events + r.value.events))
  }

  lemma StepTracks(s: Story, report: Report, maxRecords: int)
    requires Tracks(s.state, s.log) && Reconciled(s.state, report, maxRecords).Ok?
    ensures Tracks(Some(Reconciled(s.state, report, maxRecords).value.state),
      if Replay(s.state, report) then s.log else s.log + [report])
  {
    if Replay(s.state, report) {
      ReplayChangesNothing(s.state, report, maxRecords);
      hide Reconciled, Expected, FindRecord;
    } else {
      var u := Reconciled(s.state, report, maxRecords).value;
      hide Reconciled, Expected, FindRecord, NextRecord, Canonical;
      forall id ensures FindRecord(u.state.records, id) == Expected(s.log + [report], id) {
        ReportAdvances(s.state, report, maxRecords, id);
        ExpectedAdvances(s.log, report, id);
      }
      ReportAdvances(s.state, report, maxRecords, Id("", "", ""));
    }
  }

  /** Over any run of accepted reports, every record says when its identity was first seen, last seen, and
      first missed since; it is open exactly when the last report holds it. */
  lemma {:induction false} RunTracks(reports: seq<Report>, maxRecords: int)
    requires Run(reports, maxRecords).Some?
    ensures Tracks(Run(reports, maxRecords).value.state, Run(reports, maxRecords).value.log)
  {
    if reports == [] {
    } else {
      RunTracks(reports[..|reports| - 1], maxRecords);
      hide Tracks, Reconciled;
      StepTracks(Run(reports[..|reports| - 1], maxRecords).value, reports[|reports| - 1], maxRecords);
    }
  }

  ghost predicate Open(records: seq<Record>, id: Id) {
    FindRecord(records, id).Some? && FindRecord(records, id).value.resolvedAt == None
  }

  /** A finding is open exactly when the last report holds it. */
  lemma OpenIffInLastReport(previous: Option<State>, log: seq<Report>, id: Id)
    requires Tracks(previous, log) && log != []
    ensures Open(RecordsOf(previous), id) <==> FindFinding(log[|log| - 1].findings, id).Some?
  {
    assert FindRecord(RecordsOf(previous), id) == Expected(log, id);
    FirstSightIs(log, id);
    hide FindRecord, FindFinding, Kept, Canonical;
  }

  // --- Events ---------------------------------------------------------------------------

  /** The kinds of the events of one identity, in order. */
  function KindsOf(events: seq<Event>, id: Id): seq<Kind> {
    if events == [] then [] else (if events[0].id == id then [events[0].kind] else []) + KindsOf(events[1..], id)
  }

  lemma {:induction false} KindsConcat(a: seq<Event>, b: seq<Event>, id: Id)
    ensures KindsOf(a + b, id) == KindsOf(a, id) + KindsOf(b, id)
  {
    if a == [] {
      assert a + b == b;
    } else {
      KindsConcat(a[1..], b, id);
      assert (a + b)[1..] == a[1..] + b;
    }
  }

  /** A report says at most one thing about an identity: how its record changes. */
  lemma {:induction false} NextKinds(keys: seq<Id>, records: seq<Record>, findings: seq<Finding>, commit: string,
                                     id: Id)
    requires Once(keys)
    ensures KindsOf(NextEvents(keys, records, findings, commit), id)
         == if id in keys then One(NextEvent(FindRecord(records, id), FindFinding(findings, id))) else []
  {
    if keys != [] {
      OnceTail(keys);
      NextKinds(keys[1..], records, findings, commit, id);
      var kind := NextEvent(FindRecord(records, keys[0]), FindFinding(findings, keys[0]));
      hide NextEvent;
      var (head, rest) := (One(EventOf(kind, keys[0], commit)), NextEvents(keys[1..], records, findings, commit));
      assert NextEvents(keys, records, findings, commit) == head + rest;
      KindsConcat(head, rest, id);
      KindsOfOne(kind, keys[0], commit, id);
    }
  }

  lemma KindsOfOne(kind: Option<Kind>, key: Id, commit: string, id: Id)
    ensures KindsOf(One(EventOf(kind, key, commit)), id) == if id == key then One(kind) else []
  {
    if kind.Some? {
      assert [Event(kind.value, key, commit)][1..] == [];
    }
  }

  lemma ReportKinds(previous: Option<State>, report: Report, maxRecords: int, id: Id)
    requires Reconciled(previous, report, maxRecords).Ok? && !Replay(previous, report) && Kept(RecordsOf(previous))
    ensures KindsOf(Reconciled(previous, report, maxRecords).value.events, id)
         == One(NextEvent(FindRecord(RecordsOf(previous), id), FindFinding(report.findings, id)))
  {
    var (records, findings) := (RecordsOf(previous), report.findings);
    CheckedOnce(findings);
    KeysAre(records, findings);
    NextKinds(Keys(records, findings), records, findings, report.commit, id);
    RecordIs(records, id);
    FindingIs(findings, id);
    hide CheckFindings, Keys, NextRecords, NextEvents, SortedFindings, FindRecord, FindFinding;
  }

  /** New, then resolved and reopened in turn. */
  ghost predicate Alternates(kinds: seq<Kind>) {
    forall k :: 0 <= k < |kinds| ==> kinds[k] == if k == 0 then New else if k % 2 == 1 then Resolved else Reopened
  }

  /** The events of an identity so far agree with its record: none before it is seen, an odd number while it
      is open, an even number while it is resolved. */
  ghost predicate Told(kinds: seq<Kind>, record: Option<Record>) {
    && Alternates(kinds)
    && (record == None <==> kinds == [])
    && (record.Some? ==> (record.value.resolvedAt == None <==> |kinds| % 2 == 1))
  }

  lemma ToldAdvances(kinds: seq<Kind>, record: Option<Record>, item: Option<Finding>, commit: string)
    requires Told(kinds, record)
    ensures Told(kinds + One(NextEvent(record, item)), NextRecord(record, item, commit))
  {
  }

  ghost predicate AllTold(s: Story) {
    forall id :: Told(KindsOf(s.events, id), FindRecord(RecordsOf(s.state), id))
  }

  lemma StepTold(s: Story, report: Report, maxRecords: int, id: Id)
    requires Tracks(s.state, s.log) && AllTold(s) && Reconciled(s.state, report, maxRecords).Ok?
    ensures var u := Reconciled(s.state, report, maxRecords).value;
      Told(KindsOf(s.events + u.events, id), FindRecord(u.state.records, id))
  {
    assert Told(KindsOf(s.events, id), FindRecord(RecordsOf(s.state), id));
    assert Kept(RecordsOf(s.state));
    hide Tracks, AllTold, Reconciled, FindRecord, FindFinding, KindsOf, Told, NextRecord, NextEvent, Kept;
    var u := Reconciled(s.state, report, maxRecords).value;
    KindsConcat(s.events, u.events, id);
    if Replay(s.state, report) {
      ReplayChangesNothing(s.state, report, maxRecords);
      assert s.events + [] == s.events;
    } else {
      ReportAdvances(s.state, report, maxRecords, id);
      ReportKinds(s.state, report, maxRecords, id);
      ToldAdvances(KindsOf(s.events, id), FindRecord(RecordsOf(s.state), id), FindFinding(report.findings, id),
        report.commit);
    }
  }

  /** Over any run the events of every identity alternate, beginning with `New`, and replaying them tells
      exactly which findings are open. */
  lemma {:induction false} RunIsTold(reports: seq<Report>, maxRecords: int)
    requires Run(reports, maxRecords).Some?
    ensures AllTold(Run(reports, maxRecords).value)
  {
    if reports == [] {
    } else {
      var before := reports[..|reports| - 1];
      RunIsTold(before, maxRecords);
      RunTracks(before, maxRecords);
      var (s, report) := (Run(before, maxRecords).value, reports[|reports| - 1]);
      hide Tracks, Told, Reconciled;
      forall id ensures Told(KindsOf(Run(reports, maxRecords).value.events, id),
        FindRecord(RecordsOf(Run(reports, maxRecords).value.state), id)) {
        StepTold(s, report, maxRecords, id);
      }
    }
  }
}
