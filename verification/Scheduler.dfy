/** The scheduler loop over a journal: whatever its callbacks do, a run that has begun is not left running. */
module Scheduler {
  import opened Wrappers
  import opened Watcher

  datatype Phase = Running | Recovered | Idle

  datatype Document = Document(phase: Phase, run: string, cycle: nat, failures: nat)

  const MAX_COUNTER: nat := 0x1F_FFFF_FFFF_FFFF

  const MAX_RETAINED: nat := 1000

  predicate InBounds(cycle: int, failures: int) {
    0 <= cycle <= MAX_COUNTER && 0 <= failures <= MAX_COUNTER
  }

  /** The stored document; writes themselves are taken to succeed. */
  class Journal {
    var document: Option<Document>

    constructor ()
      ensures document == None
    {
      document := None;
    }

    predicate Active(run: string)
      reads this
    {
      document.Some? && document.value.phase == Running && document.value.run == run
    }

    method Begin(run: string) returns (r: Result<()>)
      modifies this
      ensures r.Ok? <==> !(old(document).Some? && old(document).value.phase == Running)
      ensures r.Err? ==> r.error == RecoveryRequired
      ensures document == if r.Ok? then Some(Document(Running, run, 0, 0)) else old(document)
    {
      if document.Some? && document.value.phase == Running {
        return Err(RecoveryRequired);
      }
      document := Some(Document(Running, run, 0, 0));
      return Ok(());
    }

    method MarkRunning(run: string, cycle: nat, failures: nat) returns (r: Result<()>)
      modifies this
      ensures r.Ok? <==> cycle <= 0x1F_FFFF_FFFF_FFFF && failures <= 0x1F_FFFF_FFFF_FFFF && old(Active(run))
      ensures r.Err? ==> r.error == if InBounds(cycle, failures) then RecoveryRequired else Invalid
      ensures document == if r.Ok? then Some(Document(Running, run, cycle, failures)) else old(document)
    {
      if !InBounds(cycle, failures) {
        return Err(Invalid);
      }
      if !Active(run) {
        return Err(RecoveryRequired);
      }
      document := Some(Document(Running, run, cycle, failures));
      return Ok(());
    }

    /** `recordable` events are objects within the size limit. */
    method Record(run: string, cycle: nat, failures: nat, recordable: bool, keepRunning: bool) returns (r: Result<()>)
      modifies this
      ensures r.Ok? <==>
        recordable && cycle <= 0x1F_FFFF_FFFF_FFFF && failures <= 0x1F_FFFF_FFFF_FFFF && old(Active(run))
      ensures recordable && r.Err? ==> r.error == if old(Active(run)) then Invalid else RecoveryRequired
      ensures document == if r.Ok? then Some(Document(if keepRunning then Running else Idle, run, cycle, failures))
        else old(document)
    {
      if !Active(run) {
        return Err(RecoveryRequired);
      }
      if !recordable || !InBounds(cycle, failures) {
        return Err(Invalid);
      }
      document := Some(Document(if keepRunning then Running else Idle, run, cycle, failures));
      return Ok(());
    }

    method Stop(run: string, cycle: nat, failures: nat) returns (r: Result<()>)
      modifies this
      ensures r.Ok? <==> InBounds(cycle, failures) && old(Active(run))
      ensures document == if r.Ok? then Some(Document(Idle, run, cycle, failures)) else old(document)
    {
      r := Record(run, cycle, failures, true, false);
    }

    /** An interrupted run is closed explicitly, keeping its counters. */
    method Recover() returns (r: Result<()>)
      modifies this
      ensures r.Ok? <==> old(document).Some? && old(document).value.phase == Running
      ensures document == if r.Ok? then Some(old(document).value.(phase := Recovered)) else old(document)
    {
      if document == None || document.value.phase != Running {
        return Err(RecoveryRequired);
      }
      document := Some(document.value.(phase := Recovered));
      return Ok(());
    }
  }

  // --- What the callbacks do ------------------------------------------------------------

  datatype Choice = No | Yes | Raises

  /** One tick: an event, a refusal that is retried, a refusal that ends the run, or anything else raised. */
  datatype Tick = Event(recordable: bool) | Retried | Refused | Crashed

  datatype Cycle = Cycle(stopBefore: Choice, tick: Tick, enqueueOk: bool, stopAfter: Choice, sleepOk: bool)

  /** The failures since the last success, after `n` cycles. */
  function Trailing(script: seq<Cycle>, n: nat): (t: nat)
    requires n <= |script|
    ensures t <= n
  {
    if n == 0 || !script[n - 1].tick.Retried? then 0 else Trailing(script, n - 1) + 1
  }

  datatype Outcome = Finished | Raised | NotBegun

  /** The numbers of the last cycles, at most `MAX_RETAINED` of them. */
  predicate Retained(events: seq<nat>, cycles: nat) {
    && |events| == Minimum(cycles, MAX_RETAINED)
    && forall k :: 0 <= k < |events| ==> events[k] == cycles - |events| + k
  }

  /** Every delay is the backoff of the failures before it. */
  ghost predicate Delays(delays: seq<nat>, script: seq<Cycle>, interval: nat, maxBackoff: nat) {
    forall k :: 0 <= k < |delays| ==>
      k < |script| && delays[k] == Minimum(maxBackoff, interval * Power2(Trailing(script, k + 1)))
  }

  // --- How far a script leads -----------------------------------------------------------

  /** How a run ends, after how many cycles, and how many times it slept. */
  datatype Ending = Ending(outcome: Outcome, cycles: nat, slept: nat)

  /** What follows a cycle: the next one, or the end, with or without a tick that counts and a last sleep. */
  datatype Sequel = Onward | Over(outcome: Outcome, ticked: bool, slept: bool)

  /** What follows a tick that gave an event, as the cycle that is then counted. */
  function AfterEvent(now: Cycle, maxCycles: Option<nat>, cycles: nat): Sequel {
    if now.tick == Event(false) || cycles > MAX_COUNTER || !now.enqueueOk then Over(Raised, true, false)
    else if maxCycles.Some? && cycles >= maxCycles.value then Over(Finished, true, false)
    else if now.stopAfter != No then Over(if now.stopAfter == Raises then Raised else Finished, true, false)
    else if !now.sleepOk then Over(Raised, true, true)
    else Onward
  }

  /** What follows a cycle that begins after `n` others. */
  function AfterCycle(now: Cycle, maxCycles: Option<nat>, n: nat): Sequel {
    if now.stopBefore != No then Over(if now.stopBefore == Raises then Raised else Finished, false, false)
    else if now.tick.Crashed? || now.tick.Refused? then Over(Raised, false, false)
    else AfterEvent(now, maxCycles, n + 1)
  }

  /** The ending of a run that has `n` full cycles behind it; at the end of the script it is asked to stop. */
  function Course(script: seq<Cycle>, maxCycles: Option<nat>, n: nat): (e: Ending)
    requires n <= |script|
    decreases |script| - n
  {
    if n == |script| || (maxCycles.Some? && n >= maxCycles.value) then Ending(Finished, n, n)
    else
      match AfterCycle(script[n], maxCycles, n)
      case Over(outcome, ticked, slept) => Ending(outcome, if ticked then n + 1 else n, if slept then n + 1 else n)
      case Onward => Course(script, maxCycles, n + 1)
  }

  /** A cycle begins, and its tick is not the last. */
  predicate Ticks(now: Cycle) {
    now.stopBefore == No && (now.tick.Event? || now.tick.Retried?)
  }

  /** A cycle after which the next one begins, the bounds on cycles permitting. */
  predicate GoesOn(now: Cycle) {
    Ticks(now) && now.tick != Event(false) && now.enqueueOk && now.stopAfter == No && now.sleepOk
  }

  /** The script leads past the counter: without a bound on cycles, every cycle before the last number goes on,
      and the cycle at that number still ticks. */
  predicate RunsOut(script: seq<Cycle>, maxCycles: Option<nat>) {
    && maxCycles == None && |script| > MAX_COUNTER
    && (forall k :: 0 <= k < MAX_COUNTER ==> GoesOn(script[k])) && Ticks(script[MAX_COUNTER])
  }

  /** Cycle `k` begins, counting from `n`, exactly when everything before it goes on. */
  lemma {:induction false} CourseReaches(script: seq<Cycle>, n: nat, k: nat)
    requires n <= k <= MAX_COUNTER && k < |script|
    ensures Course(script, None, n).cycles > k <==> (forall j :: n <= j < k ==> GoesOn(script[j])) && Ticks(script[k])
    decreases k - n
  {
    CourseGrows(script, None, n);
    if n < k {
      CourseReaches(script, n + 1, k);
    } else if GoesOn(script[n]) && n + 1 <= MAX_COUNTER {
      CourseGrows(script, None, n + 1);
    }
  }

  lemma {:induction false} CourseGrows(script: seq<Cycle>, maxCycles: Option<nat>, n: nat)
    requires n <= |script|
    ensures var e := Course(script, maxCycles, n);
      n <= e.cycles <= |script| && e.slept <= e.cycles <= e.slept + 1
    ensures var e := Course(script, maxCycles, n);
      n <= MAX_COUNTER ==> e.cycles <= MAX_COUNTER + 1 && (e.cycles > MAX_COUNTER ==> e.outcome == Raised)
    ensures maxCycles.Some? && n <= maxCycles.value ==> Course(script, maxCycles, n).cycles <= maxCycles.value
    decreases |script| - n
  {
    if n < |script| && n + 1 <= MAX_COUNTER {
      CourseGrows(script, maxCycles, n + 1);
    }
  }

  /** The counter runs out exactly on the scripts that lead past it. */
  lemma RunsOutExactly(script: seq<Cycle>, maxCycles: Option<nat>)
    requires maxCycles.Some? ==> maxCycles.value <= MAX_COUNTER
    ensures Course(script, maxCycles, 0).cycles > MAX_COUNTER <==> RunsOut(script, maxCycles)
  {
    CourseGrows(script, maxCycles, 0);
    if maxCycles == None && |script| > MAX_COUNTER {
      CourseReaches(script, 0, MAX_COUNTER);
    }
  }

  /** Such a script exists: nothing but retried refusals. */
  lemma EndlessRetriesRunOut()
    ensures RunsOut(seq(MAX_COUNTER + 1, k => Cycle(No, Retried, true, No, true)), None)
  {
  }

  /** Cycle `k` begins: the cycles before it go on, and neither bound is reached. */
  predicate Begins(script: seq<Cycle>, maxCycles: Option<nat>, k: nat) {
    && k < |script| && k <= MAX_COUNTER && (maxCycles.Some? ==> k < maxCycles.value)
    && forall j :: 0 <= j < k ==> GoesOn(script[j])
  }

  /** The cycle that begins after `k` others ends the run with an exception: a callback raises, or the counter is
      exhausted, or the event cannot be recorded. A call that is not made cannot raise. */
  predicate Breaks(now: Cycle, maxCycles: Option<nat>, k: nat) {
    || now.stopBefore == Raises
    || (now.stopBefore == No && (now.tick.Crashed? || now.tick.Refused?))
    || (Ticks(now) && (now.tick == Event(false) || k == MAX_COUNTER || !now.enqueueOk))
    || (Ticks(now) && maxCycles != Some(k + 1) && (now.stopAfter == Raises || (now.stopAfter == No && !now.sleepOk)))
  }

  /** After the cycle that begins after `k` others none begins. */
  predicate Last(now: Cycle, maxCycles: Option<nat>, k: nat) {
    !GoesOn(now) || maxCycles == Some(k + 1) || k == MAX_COUNTER
  }

  /** The cycle that begins after `k` others comes to its sleep, which may raise. */
  predicate Sleeps(now: Cycle, maxCycles: Option<nat>, k: nat) {
    && Ticks(now) && now.tick != Event(false) && now.enqueueOk && now.stopAfter == No
    && maxCycles != Some(k + 1) && k < MAX_COUNTER
  }

  /** How the last cycle that begins ends the run: with an exception or without, counted if it ticked, and with a
      last sleep or without. */
  lemma {:induction false} EndsAt(script: seq<Cycle>, maxCycles: Option<nat>, n: nat, k: nat)
    requires n <= k && Begins(script, maxCycles, k) && Last(script[k], maxCycles, k)
    ensures var now := script[k];
      Course(script, maxCycles, n) == Ending(
        if Breaks(now, maxCycles, k) then Raised else Finished,
        if Ticks(now) then k + 1 else k,
        if Sleeps(now, maxCycles, k) then k + 1 else k)
    decreases k - n
  {
    if n < k {
      assert GoesOn(script[n]);
      EndsAt(script, maxCycles, n + 1, k);
    }
  }

  /** A run ends with an exception exactly when some cycle that begins breaks. */
  lemma RaisedExactly(script: seq<Cycle>, maxCycles: Option<nat>)
    ensures Course(script, maxCycles, 0).outcome == Raised <==>
      exists k: nat :: Begins(script, maxCycles, k) && Breaks(script[k], maxCycles, k)
  {
    RaisedFrom(script, maxCycles, 0);
    if k: nat :| Begins(script, maxCycles, k) && Breaks(script[k], maxCycles, k) {
      EndsAt(script, maxCycles, 0, k);
    }
  }

  lemma {:induction false} RaisedFrom(script: seq<Cycle>, maxCycles: Option<nat>, n: nat)
    requires n <= |script| && n <= MAX_COUNTER && forall j :: 0 <= j < n ==> GoesOn(script[j])
    ensures Course(script, maxCycles, n).outcome != NotBegun
    ensures Course(script, maxCycles, n).outcome == Raised ==>
      exists k: nat :: Begins(script, maxCycles, k) && Breaks(script[k], maxCycles, k)
    decreases |script| - n
  {
    if n < |script| && (maxCycles.Some? ==> n < maxCycles.value) {
      assert Begins(script, maxCycles, n);
      if AfterCycle(script[n], maxCycles, n).Onward? {
        RaisedFrom(script, maxCycles, n + 1);
      }
    }
  }

  /** A run whose cycles all go on finishes at the end of its script or at its bound, having slept after each cycle
      but the one that reaches the bound. */
  lemma {:induction false} AllGoOn(script: seq<Cycle>, maxCycles: Option<nat>, n: nat)
    requires n <= |script| <= MAX_COUNTER && forall j :: n <= j < |script| ==> GoesOn(script[j])
    requires maxCycles.Some? ==> n < maxCycles.value
    ensures Course(script, maxCycles, n) ==
      if maxCycles.Some? && maxCycles.value <= |script|
        then Ending(Finished, maxCycles.value, maxCycles.value - 1) else Ending(Finished, |script|, |script|)
    decreases |script| - n
  {
    if n < |script| && maxCycles != Some(n + 1) {
      AllGoOn(script, maxCycles, n + 1);
    }
  }

  /** A whole run. The callbacks follow a script, at whose end they ask to stop; any of them may raise at any
      point. Its ending is that of the script; the journal is left running exactly when the script leads past the
      counter, and otherwise says how far the run came. */
  method Run(journal: Journal, run: string, script: seq<Cycle>, maxCycles: Option<nat>, interval: nat, maxBackoff: nat)
    returns (outcome: Outcome, cycles: nat, events: seq<nat>, delays: seq<nat>)
    requires 5 <= interval <= maxBackoff <= MAX_INTERVAL
    requires maxCycles.Some? ==> 1 <= maxCycles.value <= 10000
    modifies journal
    ensures outcome == NotBegun <==> old(journal.document).Some? && old(journal.document).value.phase == Running
    ensures outcome == NotBegun ==> journal.document == old(journal.document)
    ensures outcome != NotBegun ==> Ending(outcome, cycles, |delays|) == Course(script, maxCycles, 0)
    ensures outcome != NotBegun ==> cycles <= |script| && journal.document == Some(
      if RunsOut(script, maxCycles) then Document(Running, run, MAX_COUNTER, Trailing(script, MAX_COUNTER))
      else Document(Idle, run, cycles, Trailing(script, cycles)))
    ensures Retained(events, cycles) && Delays(delays, script, interval, maxBackoff)
  {
    hide Kept, Delays, Retained, Trailing, Power2, AfterCycle, RunsOut;
    outcome, cycles, events, delays := Finished, 0, [], [];
    KeptNothing(script, interval, maxBackoff);
    var begun := journal.Begin(run);
    if begun.Err? {
      return NotBegun, 0, [], [];
    }
    CourseGrows(script, maxCycles, 0);
    RunsOutExactly(script, maxCycles);
    var failures, going, handled := 0, true, false;
    while going && (maxCycles == None || cycles < maxCycles.value)
      invariant cycles <= |script| && cycles <= MAX_COUNTER + 1
      invariant Kept(script, interval, maxBackoff, cycles, failures, events, delays)
      invariant outcome != NotBegun && (handled ==> outcome == Raised) && (going ==> outcome == Finished)
      invariant going ==>
        Course(script, maxCycles, cycles) == Course(script, maxCycles, 0) && |delays| == cycles <= MAX_COUNTER
      invariant !going ==> Ending(outcome, cycles, |delays|) == Course(script, maxCycles, 0)
      invariant handled ==> cycles <= MAX_COUNTER && journal.document == Some(Document(Idle, run, cycles, failures))
      invariant !handled ==> journal.Active(run)
      invariant cycles > MAX_COUNTER ==>
        journal.document == Some(Document(Running, run, MAX_COUNTER, Trailing(script, MAX_COUNTER)))
      decreases |script| - cycles, going
    {
      hide Course;
      KeptCounts(script, interval, maxBackoff, cycles, failures, events, delays);
      CourseNext(script, maxCycles, cycles);
      var now := NowOr(script, cycles);
      var before := cycles;
      var ticked, slept;
      going, outcome, ticked, handled, slept :=
        RunCycle(journal, run, now, cycles, failures, maxCycles, interval, maxBackoff);
      if ticked {
        KeptTicks(script, interval, maxBackoff, before, failures, events, delays);
        failures := if now.tick.Retried? then failures + 1 else 0;
        cycles := cycles + 1;
        events := Retain(events + [before]);
      }
      if slept.Some? {
        KeptSleeps(script, interval, maxBackoff, cycles, failures, events, delays, slept.value);
        delays := delays + [slept.value];
      }
    }
    KeptCounts(script, interval, maxBackoff, cycles, failures, events, delays);
    if !handled {
      Conclude(journal, run, outcome, cycles, failures);
    }
  }

  /** Whatever ended the run, the journal is closed if its counters can be written. */
  method Conclude(journal: Journal, run: string, outcome: Outcome, cycles: nat, failures: nat)
    requires journal.Active(run)
    modifies journal
    ensures journal.document == if InBounds(cycles, failures) then Some(Document(Idle, run, cycles, failures))
      else old(journal.document)
  {
    if outcome == Raised {
      var recorded := journal.Record(run, cycles, failures, true, false);
    } else {
      var stopped := journal.Stop(run, cycles, failures);
    }
  }

  /** The next cycle of the script; after the last one the run is asked to stop. */
  function NowOr(script: seq<Cycle>, n: nat): Cycle {
    if n < |script| then script[n] else Cycle(Yes, Crashed, true, Yes, true)
  }

  /** What a run has written down after some cycles: the failures since the last success, the newest events, and the
      delays. */
  ghost predicate Kept(script: seq<Cycle>, interval: nat, maxBackoff: nat, cycles: nat, failures: nat, events: seq<nat>,
                       delays: seq<nat>) {
    && cycles <= |script| && failures == Trailing(script, cycles) && Retained(events, cycles)
    && Delays(delays, script, interval, maxBackoff)
  }

  lemma KeptNothing(script: seq<Cycle>, interval: nat, maxBackoff: nat)
    ensures Kept(script, interval, maxBackoff, 0, 0, [], [])
    ensures Retained([], 0) && Delays([], script, interval, maxBackoff)
  {
  }

  lemma KeptCounts(script: seq<Cycle>, interval: nat, maxBackoff: nat, cycles: nat, failures: nat, events: seq<nat>,
                   delays: seq<nat>)
    requires Kept(script, interval, maxBackoff, cycles, failures, events, delays)
    ensures failures == Trailing(script, cycles) && failures <= cycles <= |script|
    ensures Retained(events, cycles) && Delays(delays, script, interval, maxBackoff)
  {
  }

  lemma KeptTicks(script: seq<Cycle>, interval: nat, maxBackoff: nat, cycles: nat, failures: nat, events: seq<nat>,
                  delays: seq<nat>)
    requires Kept(script, interval, maxBackoff, cycles, failures, events, delays) && cycles < |script|
    ensures Kept(script, interval, maxBackoff, cycles + 1, if script[cycles].tick.Retried? then failures + 1 else 0,
      Retain(events + [cycles]), delays)
  {
    RetainNext(events, cycles);
    hide Retained, Delays;
  }

  lemma KeptSleeps(script: seq<Cycle>, interval: nat, maxBackoff: nat, cycles: nat, failures: nat, events: seq<nat>,
                   delays: seq<nat>, delay: nat)
    requires Kept(script, interval, maxBackoff, cycles, failures, events, delays) && |delays| + 1 == cycles
    requires delay == Minimum(maxBackoff, interval * Power2(failures))
    ensures Kept(script, interval, maxBackoff, cycles, failures, events, delays + [delay])
  {
    hide Retained, Power2;
    NextDelay(delays, script, interval, maxBackoff, delay);
    hide Delays;
  }

  lemma CourseNext(script: seq<Cycle>, maxCycles: Option<nat>, n: nat)
    requires n <= |script| && (maxCycles.Some? ==> n < maxCycles.value)
    ensures AfterCycle(NowOr(script, n), maxCycles, n).Onward? ==> n < |script| && n < MAX_COUNTER
    ensures AfterCycle(NowOr(script, n), maxCycles, n).Over? ==>
      AfterCycle(NowOr(script, n), maxCycles, n).outcome != NotBegun
    ensures n < |script| ==> NowOr(script, n) == script[n]
    ensures Course(script, maxCycles, n) ==
      match AfterCycle(NowOr(script, n), maxCycles, n)
      case Over(outcome, ticked, slept) => Ending(outcome, if ticked then n + 1 else n, if slept then n + 1 else n)
      case Onward => Course(script, maxCycles, n + 1)
    ensures AfterCycle(NowOr(script, n), maxCycles, n).Over? && AfterCycle(NowOr(script, n), maxCycles, n).ticked ==>
      n < |script|
  {
  }

  /** One cycle; `handled` tells that its refusal has closed the journal already. */
  method RunCycle(journal: Journal, run: string, now: Cycle, cycles: nat, failures: nat, maxCycles: Option<nat>,
                  interval: nat, maxBackoff: nat)
    returns (going: bool, outcome: Outcome, ticked: bool, handled: bool, slept: Option<nat>)
    requires 5 <= interval <= maxBackoff <= MAX_INTERVAL && journal.Active(run) && failures <= cycles <= MAX_COUNTER
    modifies journal
    ensures match AfterCycle(now, maxCycles, cycles)
      case Onward => going && outcome == Finished && ticked && slept.Some?
      case Over(last, ticks, sleeps) => !going && outcome == last && ticked == ticks && slept.Some? == sleeps
    ensures ticked ==> now.tick.Event? || now.tick.Retried?
    ensures handled ==> outcome == Raised && !ticked && journal.document == Some(Document(Idle, run, cycles, failures))
    ensures !handled ==> journal.Active(run)
    ensures ticked && cycles == MAX_COUNTER ==> journal.document == Some(Document(Running, run, cycles, failures))
    ensures slept.Some? ==>
      slept.value == Minimum(maxBackoff, interval * Power2(if now.tick.Retried? then failures + 1 else 0))
  {
    going, outcome, ticked, handled, slept := false, Finished, false, false, None;
    if now.stopBefore != No {
      outcome := if now.stopBefore == Raises then Raised else Finished;
      return;
    }
    var marked := journal.MarkRunning(run, cycles, failures);
    if marked.Err? || now.tick.Crashed? {
      outcome := Raised;
    } else if now.tick.Refused? {
      outcome, handled := Raised, true;
      var recorded := journal.Record(run, cycles, failures, true, false);
    } else {
      ticked := true;
      going, outcome, slept :=
        AfterTick(journal, run, now, cycles + 1, if now.tick.Retried? then failures + 1 else 0, maxCycles, interval,
          maxBackoff);
    }
  }

  /** The rest of a cycle whose tick gave an event: it is recorded and announced, and then the run ends or sleeps. */
  method AfterTick(journal: Journal, run: string, now: Cycle, cycles: nat, failures: nat, maxCycles: Option<nat>,
                   interval: nat, maxBackoff: nat)
    returns (going: bool, outcome: Outcome, slept: Option<nat>)
    requires 5 <= interval <= maxBackoff <= MAX_INTERVAL && journal.Active(run) && failures <= cycles
    requires now.tick.Event? || now.tick.Retried?
    modifies journal
    ensures journal.document ==
      if now.tick != Event(false) && cycles <= MAX_COUNTER then Some(Document(Running, run, cycles, failures))
        else old(journal.document)
    ensures match AfterEvent(now, maxCycles, cycles)
      case Onward => going && outcome == Finished && slept.Some?
      case Over(last, ticks, sleeps) => !going && outcome == last && ticks && slept.Some? == sleeps
    ensures slept.Some? ==> slept.value == Minimum(maxBackoff, interval * Power2(failures))
  {
    going, outcome, slept := false, Finished, None;
    var recorded := journal.Record(run, cycles, failures, now.tick.Retried? || now.tick.recordable, true);
    if recorded.Err? || !now.enqueueOk {
      outcome := Raised;
    } else if maxCycles.Some? && cycles >= maxCycles.value {
    } else if now.stopAfter != No {
      outcome := if now.stopAfter == Raises then Raised else Finished;
    } else {
      var delay := BackoffDelay(interval, maxBackoff, failures);
      slept, going := Some(delay), now.sleepOk;
      outcome := if now.sleepOk then Finished else Raised;
    }
  }

  lemma RetainNext(events: seq<nat>, cycles: nat)
    requires Retained(events, cycles)
    ensures Retained(Retain(events + [cycles]), cycles + 1)
  {
  }

  lemma NextDelay(delays: seq<nat>, script: seq<Cycle>, interval: nat, maxBackoff: nat, delay: nat)
    requires Delays(delays, script, interval, maxBackoff) && |delays| < |script|
    requires delay == Minimum(maxBackoff, interval * Power2(Trailing(script, |delays| + 1)))
    ensures Delays(delays + [delay], script, interval, maxBackoff)
  {
  }

  function Retain(events: seq<nat>): seq<nat> {
    if |events| > MAX_RETAINED then events[|events| - MAX_RETAINED..] else events
  }
}
