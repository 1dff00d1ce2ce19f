/** Operations whose commit acknowledgement may be lost: after an exception the receipt is read back by the name of
    the operation. Any number of attempts interleave, and every boundary may fail or be interrupted. */
module Acknowledgement {
  import opened Wrappers

  /** What the protocol knows of a store with states `S` and requests `Q`: one attempt with the state it commits, what
      reading back finds for a request, the names of operations and whether one is taken, what others do to the
      store, and its invariant. Refusals for which `passes` holds are passed on without reading back; of those
      met while reading back, only the ones for which `reports` holds. */
  datatype Service<!S, !Q, R, !E> = Service(
    attempt: (S, Q) -> (Fallible<R, E>, S), find: (S, Q) -> Fallible<Option<R>, E>,
    name: Q -> string, taken: (S, string) -> bool, drifts: (S, S) -> bool, sound: S -> bool,
    passes: E -> bool, reports: E -> bool, forbidden: E)

  /** What has a receipt keeps it, and names stay taken. */
  ghost predicate Preserves<S, Q(!new), R, E>(v: Service<S, Q, R, E>, s: S, t: S) {
    && (forall q :: Receipt(v, s, q) ==> v.find(t, q) == v.find(s, q))
    && (forall n :: v.taken(s, n) ==> v.taken(t, n))
  }

  ghost predicate Receipt<S, Q, R, E>(v: Service<S, Q, R, E>, s: S, q: Q) {
    v.find(s, q).Ok? && v.find(s, q).value.Some?
  }

  /** An attempt is refused without a trace, or its receipt can be read back; it changes the store only for an
      operation whose name was free. */
  ghost predicate AttemptKeeps<S, Q(!new), R, E>(v: Service<S, Q, R, E>, s: S, q: Q) {
    var (r, t) := v.attempt(s, q);
    && v.sound(t) && Preserves(v, s, t) && (r.Err? ==> t == s) && (r.Ok? ==> v.find(t, q) == Ok(Some(r.value)))
    && (t != s ==> !v.taken(s, v.name(q)) && v.taken(t, v.name(q)))
  }

  ghost predicate Lawful<S(!new), Q(!new), R, E>(v: Service<S, Q, R, E>) {
    && (forall s, q {:trigger v.attempt(s, q)} :: v.sound(s) ==> AttemptKeeps(v, s, q))
    && (forall s, t {:trigger v.drifts(s, t)} :: v.sound(s) && v.drifts(s, t) ==> v.sound(t) && Preserves(v, s, t))
  }

  // --- One operation --------------------------------------------------------------------

  /** `Refused` comes from the attempt or from reading back, `Unconfirmed` reports an interrupt without a receipt,
      `Original` raises the first exception again, and `Struck` is an exception that nobody handles. */
  datatype Failure<E> = Refused(error: E) | Unknown | Unconfirmed | Original | Struck

  /** `durable` is history only: whether this process itself changed the store. */
  datatype Phase<R, E> =
    | Ready
    | Uncertain(interrupted: bool, durable: bool)
    | Returned(receipt: R)
    | Failed(failure: Failure<E>, durable: bool)

  datatype Process<Q, R, E> = Process(request: Q, phase: Phase<R, E>)

  /** The attempt comes back as the store answers it... */
  ghost predicate Answers<S, Q, R, E>(v: Service<S, Q, R, E>, s: S, p: Process<Q, R, E>, s': S, p': Process<Q, R, E>) {
    var (r, t) := v.attempt(s, p.request);
    && p.phase.Ready? && s' == t
    && p' == p.(phase := match r
      case Ok(receipt) => Returned(receipt)
      case Err(e) => if v.passes(e) then Failed(Refused(e), false) else Uncertain(false, false))
  }

  /** ...or an exception or an interrupt comes instead, before its commit became durable or after it. */
  ghost predicate Loses<S, Q, R, E>(v: Service<S, Q, R, E>, s: S, p: Process<Q, R, E>, s': S, p': Process<Q, R, E>) {
    && p.phase.Ready? && (s' == s || s' == v.attempt(s, p.request).1)
    && (p' == p.(phase := Uncertain(true, s' != s)) || p' == p.(phase := Uncertain(false, s' != s)))
  }

  /** The receipt is read back. */
  ghost predicate Reads<S, Q, R, E>(v: Service<S, Q, R, E>, s: S, p: Process<Q, R, E>, s': S, p': Process<Q, R, E>) {
    && p.phase.Uncertain? && s' == s
    && p' == p.(phase := match v.find(s, p.request)
      case Ok(Some(receipt)) => Returned(receipt)
      case Ok(None) => Failed(if p.phase.interrupted then Unconfirmed else Original, p.phase.durable)
      case Err(e) => Failed(Reported(v, e), p.phase.durable))
  }

  /** Reading back fails: by an exception, or because the permission is gone by now. */
  ghost predicate Misses<S, Q, R, E>(v: Service<S, Q, R, E>, s: S, p: Process<Q, R, E>, s': S, p': Process<Q, R, E>) {
    && p.phase.Uncertain? && s' == s
    && (p' == p.(phase := Failed(Unknown, p.phase.durable))
      || p' == p.(phase := Failed(Reported(v, v.forbidden), p.phase.durable)))
  }

  ghost function Reported<S, Q, R, E>(v: Service<S, Q, R, E>, e: E): Failure<E> {
    if v.reports(e) then Refused(e) else Unknown
  }

  /** An exit that no handler takes: during the attempt, or an interrupt while the receipt is read back. */
  ghost predicate Breaks<S, Q, R, E>(v: Service<S, Q, R, E>, s: S, p: Process<Q, R, E>, s': S, p': Process<Q, R, E>) {
    || (p.phase.Ready? && (s' == s || s' == v.attempt(s, p.request).1) && p' == p.(phase := Failed(Struck, s' != s)))
    || (p.phase.Uncertain? && s' == s && p' == p.(phase := Failed(Struck, p.phase.durable)))
  }

  // --- All operations -------------------------------------------------------------------

  datatype World<S, Q, R, E> = World(store: S, processes: map<nat, Process<Q, R, E>>)

  ghost predicate ProcessStep<S, Q, R, E>(v: Service<S, Q, R, E>, w: World<S, Q, R, E>, w': World<S, Q, R, E>,
                                          id: nat) {
    && id in w.processes && id in w'.processes && w'.processes == w.processes[id := w'.processes[id]]
    && Moves(v, w.store, w.processes[id], w'.store, w'.processes[id])
  }

  ghost predicate Moves<S, Q, R, E>(v: Service<S, Q, R, E>, s: S, p: Process<Q, R, E>, s': S, p': Process<Q, R, E>) {
    Answers(v, s, p, s', p') || Loses(v, s, p, s', p') || Reads(v, s, p, s', p') || Misses(v, s, p, s', p')
      || Breaks(v, s, p, s', p')
  }

  ghost predicate OtherStep<S, Q, R, E>(v: Service<S, Q, R, E>, w: World<S, Q, R, E>, w': World<S, Q, R, E>) {
    v.drifts(w.store, w'.store) && w'.processes == w.processes
  }

  ghost predicate EnterStep<S, Q, R, E>(w: World<S, Q, R, E>, w': World<S, Q, R, E>, id: nat) {
    && id !in w.processes && id in w'.processes && w' == w.(processes := w.processes[id := w'.processes[id]])
    && w'.processes[id].phase == Ready
  }

  ghost predicate Next<S, Q, R, E>(v: Service<S, Q, R, E>, w: World<S, Q, R, E>, w': World<S, Q, R, E>) {
    (exists id :: ProcessStep(v, w, w', id)) || OtherStep(v, w, w') || (exists id :: EnterStep(w, w', id))
  }

  ghost predicate Behaviour<S(!new), Q(!new), R, E>(v: Service<S, Q, R, E>, trace: seq<World<S, Q, R, E>>) {
    && Lawful(v) && trace != [] && v.sound(trace[0].store) && trace[0].processes == map[]
    && forall k :: 0 <= k < |trace| - 1 ==> Next(v, trace[k], trace[k + 1])
  }

  // --- The invariant --------------------------------------------------------------------

  ghost predicate ProcessOk<S, Q, R, E>(v: Service<S, Q, R, E>, s: S, p: Process<Q, R, E>) {
    match p.phase
    case Ready => true
    case Uncertain(_, durable) => durable ==> Receipt(v, s, p.request)
    case Returned(receipt) => v.find(s, p.request) == Ok(Some(receipt))
    case Failed(f, durable) => durable ==> Receipt(v, s, p.request) && (f == Struck || Outcome(v, f))
  }

  /** How reading back fails over a receipt that is there. */
  ghost predicate Outcome<S, Q, R, E>(v: Service<S, Q, R, E>, f: Failure<E>) {
    f == Unknown || (v.reports(v.forbidden) && f == Refused(v.forbidden))
  }

  ghost predicate WorldOk<S, Q, R, E>(v: Service<S, Q, R, E>, w: World<S, Q, R, E>) {
    v.sound(w.store) && forall id :: id in w.processes ==> ProcessOk(v, w.store, w.processes[id])
  }

  lemma PreservedProcess<S(!new), Q(!new), R, E>(v: Service<S, Q, R, E>, s: S, t: S, p: Process<Q, R, E>)
    requires Preserves(v, s, t) && ProcessOk(v, s, p)
    ensures ProcessOk(v, t, p)
  {
  }

  lemma AttemptLaw<S(!new), Q(!new), R, E>(v: Service<S, Q, R, E>, s: S, q: Q)
    requires Lawful(v) && v.sound(s)
    ensures AttemptKeeps(v, s, q)
  {
    var answer := v.attempt(s, q);
  }

  lemma PreservesSelf<S(!new), Q(!new), R, E>(v: Service<S, Q, R, E>, s: S)
    ensures Preserves(v, s, s)
  {
  }

  lemma PreservesOn<S(!new), Q(!new), R, E>(v: Service<S, Q, R, E>, s: S, t: S, u: S)
    requires Preserves(v, s, t) && Preserves(v, t, u)
    ensures Preserves(v, s, u)
  {
  }

  lemma MoveKeeps<S(!new), Q(!new), R, E>(v: Service<S, Q, R, E>, s: S, p: Process<Q, R, E>, s': S,
                                          p': Process<Q, R, E>)
    requires Lawful(v) && v.sound(s) && ProcessOk(v, s, p) && Moves(v, s, p, s', p')
    ensures v.sound(s') && Preserves(v, s, s') && ProcessOk(v, s', p') && p'.request == p.request
    ensures s' != s ==> p.phase.Ready? && !v.taken(s, v.name(p.request)) && v.taken(s', v.name(p.request))
  {
    AttemptLaw(v, s, p.request);
    PreservesSelf(v, s);
    hide Lawful, Preserves;
  }

  lemma StepKeeps<S(!new), Q(!new), R, E>(v: Service<S, Q, R, E>, w: World<S, Q, R, E>, w': World<S, Q, R, E>)
    requires Lawful(v) && WorldOk(v, w) && Next(v, w, w')
    ensures WorldOk(v, w') && Preserves(v, w.store, w'.store)
    ensures forall id :: id in w.processes ==> id in w'.processes && w'.processes[id].request == w.processes[id].request
  {
    hide ProcessOk, Moves, Preserves, Lawful;
    PreservesSelf(v, w.store);
    if id :| ProcessStep(v, w, w', id) {
      MoveKeeps(v, w.store, w.processes[id], w'.store, w'.processes[id]);
    } else if OtherStep(v, w, w') {
      DriftLaw(v, w.store, w'.store);
    }
    forall id | id in w'.processes ensures ProcessOk(v, w'.store, w'.processes[id]) {
      if id in w.processes && w'.processes[id] == w.processes[id] {
        PreservedProcess(v, w.store, w'.store, w.processes[id]);
      } else if id !in w.processes {
        ReadyIsOk(v, w'.store, w'.processes[id]);
      }
    }
  }

  lemma ReadyIsOk<S, Q, R, E>(v: Service<S, Q, R, E>, s: S, p: Process<Q, R, E>)
    requires p.phase == Ready
    ensures ProcessOk(v, s, p)
  {
  }

  lemma DriftLaw<S(!new), Q(!new), R, E>(v: Service<S, Q, R, E>, s: S, t: S)
    requires Lawful(v) && v.sound(s) && v.drifts(s, t)
    ensures v.sound(t) && Preserves(v, s, t)
  {
  }

  /** Between any two states of a behaviour the invariant holds and receipts are kept. */
  lemma {:induction false} BehaviourKeeps<S(!new), Q(!new), R, E>(v: Service<S, Q, R, E>, trace: seq<World<S, Q, R, E>>,
      i: nat, j: nat)
    requires Behaviour(v, trace) && i <= j < |trace|
    ensures WorldOk(v, trace[i]) && WorldOk(v, trace[j]) && Preserves(v, trace[i].store, trace[j].store)
    ensures forall id :: id in trace[i].processes ==>
      id in trace[j].processes && trace[j].processes[id].request == trace[i].processes[id].request
    decreases j
  {
    hide Lawful, Next, Preserves, ProcessOk;
    if j == 0 {
      PreservesSelf(v, trace[0].store);
    } else {
      assert Next(v, trace[j - 1], trace[j - 1 + 1]);
      BehaviourKeeps(v, trace, if i < j then i else j - 1, j - 1);
      StepKeeps(v, trace[j - 1], trace[j]);
      if i < j {
        PreservesOn(v, trace[i].store, trace[j - 1].store, trace[j].store);
      } else {
        PreservesSelf(v, trace[j].store);
      }
    }
  }

  /** What is returned is durable: from then on the store gives exactly this receipt for the request. */
  lemma ReturnedIsDurable<S(!new), Q(!new), R, E>(v: Service<S, Q, R, E>, trace: seq<World<S, Q, R, E>>, k: nat, j: nat,
                                                  id: nat)
    requires Behaviour(v, trace) && k <= j < |trace| && id in trace[k].processes
    requires trace[k].processes[id].phase.Returned?
    ensures v.find(trace[j].store, trace[k].processes[id].request) == Ok(Some(trace[k].processes[id].phase.receipt))
  {
    hide Behaviour;
    BehaviourKeeps(v, trace, k, j);
    var p := trace[k].processes[id];
    assert ProcessOk(v, trace[k].store, p);
    assert Receipt(v, trace[k].store, p.request);
  }

  // --- At most one commit ---------------------------------------------------------------

  /** In this step the process commits: it changes the store. */
  ghost predicate CommitStep<S, Q, R, E>(v: Service<S, Q, R, E>, w: World<S, Q, R, E>, w': World<S, Q, R, E>, id: nat) {
    ProcessStep(v, w, w', id) && w'.store != w.store
  }

  /** However often an operation is attempted, and whatever happens to its attempts, it commits at most once. */
  lemma CommitsOnce<S(!new), Q(!new), R, E>(v: Service<S, Q, R, E>, trace: seq<World<S, Q, R, E>>, i: nat, j: nat,
                                            a: nat, b: nat)
    requires Behaviour(v, trace) && i < j < |trace| - 1
    requires CommitStep(v, trace[i], trace[i + 1], a) && CommitStep(v, trace[j], trace[j + 1], b)
    ensures v.name(trace[i].processes[a].request) != v.name(trace[j].processes[b].request)
  {
    hide Next, Moves, ProcessOk;
    BehaviourKeeps(v, trace, i, i);
    BehaviourKeeps(v, trace, i + 1, j);
    MoveKeeps(v, trace[i].store, trace[i].processes[a], trace[i + 1].store, trace[i + 1].processes[a]);
    MoveKeeps(v, trace[j].store, trace[j].processes[b], trace[j + 1].store, trace[j + 1].processes[b]);
  }

  // --- How a committed operation can fail -----------------------------------------------

  ghost predicate BreakStep<S, Q, R, E>(v: Service<S, Q, R, E>, w: World<S, Q, R, E>, w': World<S, Q, R, E>, id: nat) {
    && id in w.processes && id in w'.processes && w'.processes == w.processes[id := w'.processes[id]]
    && Breaks(v, w.store, w.processes[id], w'.store, w'.processes[id])
  }

  /** The operation was broken off by an exit that no handler takes, at some step before `k`. */
  ghost predicate BrokenBefore<S, Q, R, E>(v: Service<S, Q, R, E>, trace: seq<World<S, Q, R, E>>, k: nat, id: nat)
    requires k < |trace|
  {
    exists j :: 0 <= j < k && BreakStep(v, trace[j], trace[j + 1], id)
  }

  lemma FailedStays<S, Q, R, E>(v: Service<S, Q, R, E>, w: World<S, Q, R, E>, w': World<S, Q, R, E>, id: nat)
    requires Next(v, w, w') && id in w.processes && w.processes[id].phase.Failed?
    ensures id in w'.processes && w'.processes[id] == w.processes[id] && !BreakStep(v, w, w', id)
  {
  }

  lemma {:induction false} FailedForGood<S(!new), Q(!new), R, E>(v: Service<S, Q, R, E>, trace: seq<World<S, Q, R, E>>,
      i: nat, j: nat, id: nat)
    requires Behaviour(v, trace) && i <= j < |trace| && id in trace[i].processes && trace[i].processes[id].phase.Failed?
    ensures id in trace[j].processes && trace[j].processes[id] == trace[i].processes[id]
    decreases j - i
  {
    hide Next, Lawful;
    if i < j {
      FailedForGood(v, trace, i, j - 1, id);
      assert Next(v, trace[j - 1], trace[j - 1 + 1]);
      FailedStays(v, trace[j - 1], trace[j], id);
    }
  }

  /** An operation that has not failed was not broken off. */
  lemma NotBrokenYet<S(!new), Q(!new), R, E>(v: Service<S, Q, R, E>, trace: seq<World<S, Q, R, E>>, j: nat, k: nat,
                                             id: nat)
    requires Behaviour(v, trace) && j < k < |trace|
    requires id in trace[k].processes ==> !trace[k].processes[id].phase.Failed?
    ensures !BreakStep(v, trace[j], trace[j + 1], id)
  {
    hide Behaviour;
    if BreakStep(v, trace[j], trace[j + 1], id) {
      FailedForGood(v, trace, j + 1, k, id);
      assert false;
    }
  }

  /** The step in which an operation fails although it is durable. */
  lemma DurableFailure<S(!new), Q(!new), R, E>(v: Service<S, Q, R, E>, w: World<S, Q, R, E>, w': World<S, Q, R, E>,
                                               id: nat)
    requires Lawful(v) && WorldOk(v, w) && Next(v, w, w')
    requires id in w'.processes && w'.processes[id].phase.Failed? && w'.processes[id].phase.durable
    requires id in w.processes ==> !w.processes[id].phase.Failed?
    ensures w'.processes[id].phase.failure == Struck <==> BreakStep(v, w, w', id)
  {
    hide Lawful, Moves, Breaks, ProcessOk;
    assert ProcessStep(v, w, w', id) by {
      if i :| ProcessStep(v, w, w', i) {
        assert i == id;
      }
    }
    DurableMove(v, w.store, w.processes[id], w'.store, w'.processes[id]);
  }

  lemma DurableMove<S, Q, R, E>(v: Service<S, Q, R, E>, s: S, p: Process<Q, R, E>, s': S, p': Process<Q, R, E>)
    requires Moves(v, s, p, s', p') && p'.phase.Failed? && p'.phase.durable
    ensures p'.phase.failure == Struck <==> Breaks(v, s, p, s', p')
  {
  }

  lemma {:induction false} DurableFailures<S(!new), Q(!new), R, E>(v: Service<S, Q, R, E>,
      trace: seq<World<S, Q, R, E>>, k: nat, id: nat)
    requires Behaviour(v, trace) && k < |trace| && id in trace[k].processes
    requires trace[k].processes[id].phase.Failed? && trace[k].processes[id].phase.durable
    ensures trace[k].processes[id].phase.failure == Struck <==> BrokenBefore(v, trace, k, id)
    decreases k
  {
    hide Lawful, Next, BreakStep, WorldOk;
    if k > 0 {
      assert Next(v, trace[k - 1], trace[k - 1 + 1]);
      var (w, w') := (trace[k - 1], trace[k]);
      if id in w.processes && w.processes[id].phase.Failed? {
        FailedStays(v, w, w', id);
        DurableFailures(v, trace, k - 1, id);
      } else {
        BehaviourKeeps(v, trace, k - 1, k - 1);
        DurableFailure(v, w, w', id);
        forall j | 0 <= j < k - 1 ensures !BreakStep(v, trace[j], trace[j + 1], id) {
          NotBrokenYet(v, trace, j, k - 1, id);
        }
      }
    }
  }

  /** An operation that has committed is never reported as unconfirmed, nor by its first exception or a refusal of its
      attempt: it fails as broken off exactly when it was, and otherwise with an unknown outcome, or with the
      missing permission where that is reported. Its receipt is there from then on. */
  lemma CommittedIsNotDenied<S(!new), Q(!new), R, E>(v: Service<S, Q, R, E>, trace: seq<World<S, Q, R, E>>, k: nat,
                                                     j: nat, id: nat)
    requires Behaviour(v, trace) && k <= j < |trace| && id in trace[k].processes
    requires trace[k].processes[id].phase.Failed? && trace[k].processes[id].phase.durable
    ensures Receipt(v, trace[j].store, trace[k].processes[id].request)
    ensures var f := trace[k].processes[id].phase.failure;
      if BrokenBefore(v, trace, k, id) then f == Struck
      else f == Unknown || (v.reports(v.forbidden) && f == Refused(v.forbidden))
  {
    hide Behaviour, BrokenBefore;
    BehaviourKeeps(v, trace, k, j);
    DurableFailures(v, trace, k, id);
    assert ProcessOk(v, trace[k].store, trace[k].processes[id]);
  }

  // --- Each of these failures occurs ----------------------------------------------------

  /** One operation on its own. */
  ghost function Alone<S, Q, R, E>(s: S, q: Q, phase: Phase<R, E>): World<S, Q, R, E> {
    World(s, map[0 := Process(q, phase)])
  }

  /** From every store on which a request would commit there are behaviours in which it commits and then fails in
      each of the ways that remain, interrupted or not. */
  lemma CommittedFails<S(!new), Q(!new), R, E>(v: Service<S, Q, R, E>, s: S, q: Q, f: Failure<E>, interrupted: bool)
    returns (trace: seq<World<S, Q, R, E>>)
    requires Lawful(v) && v.sound(s) && v.attempt(s, q).1 != s && (f == Struck || Outcome(v, f))
    ensures Behaviour(v, trace) && trace[|trace| - 1] == Alone(v.attempt(s, q).1, q, Failed(f, true))
  {
    hide Lawful;
    var t := v.attempt(s, q).1;
    var start, ready: World<S, Q, R, E> := World(s, map[]), Alone(s, q, Ready);
    var uncertain: World<S, Q, R, E> := Alone(t, q, Uncertain(interrupted, true));
    var failed: World<S, Q, R, E> := Alone(t, q, Failed(f, true));
    trace := [start, ready, uncertain, failed];
    assert start.processes[0 := ready.processes[0]] == ready.processes;
    assert ready.processes[0 := uncertain.processes[0]] == uncertain.processes;
    assert uncertain.processes[0 := failed.processes[0]] == failed.processes;
    assert EnterStep(start, ready, 0) && ProcessStep(v, ready, uncertain, 0) && ProcessStep(v, uncertain, failed, 0);
    assert Next(v, start, ready) && Next(v, ready, uncertain) && Next(v, uncertain, failed);
  }
}
