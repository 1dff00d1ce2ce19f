/** Reconciling complete analysis reports: which findings are open, since when, and what changed. */
module Findings {
  import opened Wrappers
  import opened Sorting
  import opened TextOrder

  type Result<T> = Fallible<T, Error>

  datatype Error =
    | Incomplete | ContextInvalid | Limit | FindingInvalid | PathInvalid | Duplicate | ContextChanged | ReplayConflict

  /** The stable anchor of a finding; message and line do not identify it. */
  datatype Id = Id(rule: string, path: string, anchor: string)

  datatype Finding = Finding(id: Id, message: string, line: int)

  datatype Context = Context(repository: string, ref: Option<string>, profile: string, scope: string)

  datatype Report = Report(context: Context, commit: string, complete: bool, findings: seq<Finding>)

  datatype Record = Record(finding: Finding, firstSeen: string, lastSeen: string, resolvedAt: Option<string>)

  datatype State = State(report: Report, records: seq<Record>)

  datatype Kind = New | Resolved | Reopened

  datatype Event = Event(kind: Kind, id: Id, commit: string)

  datatype Update = Update(state: State, events: seq<Event>)

  const MAX_TEXT: nat := 4096

  // --- Validation -----------------------------------------------------------------------

  /** The components between slashes. */
  function Components(path: string): (parts: seq<string>)
    ensures parts != []
  {
    if path == "" then [""]
    else
      var rest := Components(path[1..]);
      if path[0] == '/' then [""] + rest else [[path[0]] + rest[0]] + rest[1..]
  }

  /** A normalized relative path that stays inside its repository. */
  predicate ValidPath(path: string) {
    && '\\' !in path && ':' !in path
    && forall k :: 0 <= k < |Components(path)| ==>
      Components(path)[k] != "" && Components(path)[k] != "." && Components(path)[k] != ".."
  }

  predicate ValidText(s: string) {
    0 < |s| <= MAX_TEXT
  }

  function CheckFinding(f: Finding): Option<Error> {
    if !ValidText(f.id.rule) || !ValidText(f.id.path) || !ValidText(f.id.anchor) || !ValidText(f.message) || f.line < 1
      then Some(FindingInvalid)
    else if !ValidPath(f.id.path) then Some(PathInvalid)
    else None
  }

  function Ids(findings: seq<Finding>): seq<Id> {
    seq(|findings|, k requires 0 <= k < |findings| => findings[k].id)
  }

  /** The first refusal among the findings, in order. */
  function CheckFindings(findings: seq<Finding>): Option<Error> {
    if findings == [] then None
    else
      var (before, last) := (findings[..|findings| - 1], findings[|findings| - 1]);
      if CheckFindings(before).Some? then CheckFindings(before)
      else if CheckFinding(last).Some? then CheckFinding(last)
      else if last.id in Ids(before) then Some(Duplicate)
      else None
  }

  // --- Order ----------------------------------------------------------------------------

  predicate IdBefore(a: Id, b: Id) {
    Less(a.rule, b.rule) ||
    (a.rule == b.rule && (Less(a.path, b.path) || (a.path == b.path && Less(a.anchor, b.anchor))))
  }

  function SortedFindings(findings: seq<Finding>): seq<Finding> {
    SortBy(findings, (a: Finding, b: Finding) => IdBefore(a.id, b.id))
  }

  function Canonical(report: Report): Report {
    report.(complete := true, findings := SortedFindings(report.findings))
  }

  // --- Reconciliation -------------------------------------------------------------------

  function FindRecord(records: seq<Record>, id: Id): Option<Record> {
    if records == [] then None else if records[0].finding.id == id then Some(records[0])
      else FindRecord(records[1..], id)
  }

  function FindFinding(findings: seq<Finding>, id: Id): Option<Finding> {
    if findings == [] then None else if findings[0].id == id then Some(findings[0]) else FindFinding(findings[1..], id)
  }

  function RecordIds(records: seq<Record>): seq<Id> {
    seq(|records|, k requires 0 <= k < |records| => records[k].finding.id)
  }

  /** The identities that no record has yet. */
  function Fresh(records: seq<Record>, findings: seq<Finding>): seq<Id> {
    if findings == [] then []
    else (if FindRecord(records, findings[0].id) == None then [findings[0].id] else []) + Fresh(records, findings[1..])
  }

  function Keys(records: seq<Record>, findings: seq<Finding>): seq<Id> {
    SortBy(RecordIds(records) + Fresh(records, findings), (a, b) => IdBefore(a, b))
  }

  /** The next record of an identity that is in the history or in the report. */
  function NextRecord(prior: Option<Record>, item: Option<Finding>, commit: string): Option<Record> {
    if item.Some? then Some(Record(item.value, if prior.Some? then prior.value.firstSeen else commit, commit, None))
    else if prior.Some? && prior.value.resolvedAt == None then Some(prior.value.(resolvedAt := Some(commit)))
    else prior
  }

  function NextEvent(prior: Option<Record>, item: Option<Finding>): Option<Kind> {
    if item.Some? then
      if prior == None then Some(New) else if prior.value.resolvedAt.Some? then Some(Reopened) else None
    else if prior.Some? && prior.value.resolvedAt == None then Some(Resolved)
    else None
  }

  function NextRecords(keys: seq<Id>, records: seq<Record>, findings: seq<Finding>, commit: string): seq<Record> {
    if keys == [] then []
    else
      var next := NextRecord(FindRecord(records, keys[0]), FindFinding(findings, keys[0]), commit);
      (if next.Some? then [next.value] else []) + NextRecords(keys[1..], records, findings, commit)
  }

  function NextEvents(keys: seq<Id>, records: seq<Record>, findings: seq<Finding>, commit: string): seq<Event> {
    if keys == [] then []
    else
      var kind := NextEvent(FindRecord(records, keys[0]), FindFinding(findings, keys[0]));
      (if kind.Some? then [Event(kind.value, keys[0], commit)] else [])
        + NextEvents(keys[1..], records, findings, commit)
  }

  /** What reconciling a report returns. */
  function Reconciled(previous: Option<State>, report: Report, maxRecords: int): Result<Update> {
    if !report.complete then Err(Incomplete)
    else if report.context.profile == "" || report.context.scope == "" then Err(ContextInvalid)
    else if maxRecords < 1 || |report.findings| > maxRecords then Err(Limit)
    else if CheckFindings(report.findings).Some? then Err(CheckFindings(report.findings).value)
    else if previous.Some? && previous.value.report.context != report.context then Err(ContextChanged)
    else
      var records := if previous.Some? then previous.value.records else [];
      var keys := Keys(records, report.findings);
      if |keys| > maxRecords then Err(Limit)
      else if previous.Some? && previous.value.report.commit == report.commit then
        if previous.value.report != Canonical(report) then Err(ReplayConflict) else Ok(Update(previous.value, []))
      else
        Ok(Update(
          State(Canonical(report), NextRecords(keys, records, report.findings, report.commit)),
          NextEvents(keys, records, report.findings, report.commit)))
  }

  // --- The loops ------------------------------------------------------------------------

  method Validate(findings: seq<Finding>) returns (r: Option<Error>)
    ensures r == CheckFindings(findings)
  {
    var seen: set<Id> := {};
    for k := 0 to |findings|
      invariant CheckFindings(findings[..k]) == None
      invariant forall id :: id in seen <==> id in Ids(findings[..k])
    {
      var item := findings[k];
      assert findings[..k + 1][..k] == findings[..k];
      if CheckFinding(item).Some? {
        RefusalStays(findings, k + 1);
        return CheckFinding(item);
      }
      if item.id in seen {
        RefusalStays(findings, k + 1);
        return Some(Duplicate);
      }
      assert Ids(findings[..k + 1]) == Ids(findings[..k]) + [item.id];
      seen := seen + {item.id};
    }
    assert findings[..|findings|] == findings;
    return None;
  }

  lemma {:induction false} RefusalStays(findings: seq<Finding>, k: nat)
    requires k <= |findings| && CheckFindings(findings[..k]).Some?
    ensures CheckFindings(findings) == CheckFindings(findings[..k])
    decreases |findings| - k
  {
    if k == |findings| {
      assert findings[..k] == findings;
    } else {
      assert findings[..k + 1][..k] == findings[..k];
      RefusalStays(findings, k + 1);
    }
  }

  function One<T>(value: Option<T>): seq<T> {
    if value.Some? then [value.value] else []
  }

  function EventOf(kind: Option<Kind>, id: Id, commit: string): Option<Event> {
    if kind.Some? then Some(Event(kind.value, id, commit)) else None
  }

  lemma KeyStep(keys: seq<Id>, k: nat, past: seq<Record>, findings: seq<Finding>, commit: string, records: seq<Record>,
                events: seq<Event>)
    requires k < |keys|
    ensures var (prior, item) := (FindRecord(past, keys[k]), FindFinding(findings, keys[k]));
      && records + NextRecords(keys[k..], past, findings, commit)
         == (records + One(NextRecord(prior, item, commit))) + NextRecords(keys[k + 1..], past, findings, commit)
      && events + NextEvents(keys[k..], past, findings, commit)
         == (events + One(EventOf(NextEvent(prior, item), keys[k], commit)))
           + NextEvents(keys[k + 1..], past, findings, commit)
  {
    assert keys[k..][1..] == keys[k + 1..] && keys[k..][0] == keys[k];
    hide FindRecord, FindFinding, NextRecord, NextEvent;
  }

  /** One pass over the sorted identities, appending records and events. */
  method Step(keys: seq<Id>, past: seq<Record>, findings: seq<Finding>, commit: string)
    returns (records: seq<Record>, events: seq<Event>)
    ensures records == NextRecords(keys, past, findings, commit) && events == NextEvents(keys, past, findings, commit)
  {
    hide NextRecords, NextEvents;
    records, events := [], [];
    assert keys[0..] == keys;
    for k := 0 to |keys|
      invariant records + NextRecords(keys[k..], past, findings, commit) == NextRecords(keys, past, findings, commit)
      invariant events + NextEvents(keys[k..], past, findings, commit) == NextEvents(keys, past, findings, commit)
    {
      var prior, item := FindRecord(past, keys[k]), FindFinding(findings, keys[k]);
      KeyStep(keys, k, past, findings, commit, records, events);
      var change: Option<Kind>, record: Option<Record> := None, None;
      if item.Some? {
        if prior == None || prior.value.resolvedAt.Some? {
          change := Some(if prior == None then New else Reopened);
        }
        record := Some(Record(item.value, if prior.Some? then prior.value.firstSeen else commit, commit, None));
      } else if prior.Some? {
        if prior.value.resolvedAt == None {
          change := Some(Resolved);
          record := Some(prior.value.(resolvedAt := Some(commit)));
        } else {
          record := prior;
        }
      }
      records, events := records + One(record), events + One(EventOf(change, keys[k], commit));
    }
    NothingLeft(keys, past, findings, commit);
  }

  lemma NothingLeft(keys: seq<Id>, past: seq<Record>, findings: seq<Finding>, commit: string)
    ensures NextRecords(keys[|keys|..], past, findings, commit) == []
    ensures NextEvents(keys[|keys|..], past, findings, commit) == []
  {
  }

  method ReconcileFindings(previous: Option<State>, report: Report, maxRecords: int) returns (r: Result<Update>)
    ensures r == Reconciled(previous, report, maxRecords)
  {
    hide CheckFindings, SortBy, NextRecords, NextEvents, Fresh;
    if !report.complete {
      return Err(Incomplete);
    }
    if report.context.profile == "" || report.context.scope == "" {
      return Err(ContextInvalid);
    }
    if maxRecords < 1 || |report.findings| > maxRecords {
      return Err(Limit);
    }
    var refused := Validate(report.findings);
    if refused.Some? {
      return Err(refused.value);
    }
    if previous.Some? && previous.value.report.context != report.context {
      return Err(ContextChanged);
    }
    var records := if previous.Some? then previous.value.records else [];
    var keys := Keys(records, report.findings);
    if |keys| > maxRecords {
      return Err(Limit);
    }
    if previous.Some? && previous.value.report.commit == report.commit {
      return if previous.value.report != Canonical(report) then Err(ReplayConflict) else Ok(Update(previous.value, []));
    }
    var next, events := Step(keys, records, report.findings, report.commit);
    return Ok(Update(State(Canonical(report), next), events));
  }
}
