/** The accounting of one read operation: cumulative work that is never refunded, and leases over resources
    that are held until their owner has really released them. */
module ReadBudget {
  import opened Wrappers

  type Result<T> = Fallible<T, Error>

  datatype Error = SessionInvalid | LimitExceeded | DeadlineExceeded | Cancelled | Corrupt | Failed

  datatype Work = CopiedBytes | SourceEntries | InventoryItems | RowBytes | VmSteps

  datatype Kind = ImageBytes | Descriptors | Cursors

  /** A handle to reserved resources. `id` stands for the identity of the lease object; the handle is open
      while the budget lists it. */
  datatype Lease = Lease(id: nat, kind: Kind, amount: nat)

  type Leases = map<nat, Lease>

  /** What the open leases below `n` hold. */
  ghost function Sum(open: Leases, kind: Kind, n: nat): nat {
    if n == 0 then 0
    else Sum(open, kind, n - 1) + if n - 1 in open && open[n - 1].kind == kind then open[n - 1].amount else 0
  }

  lemma {:induction false} SumIgnores(open: Leases, kind: Kind, n: nat, id: nat, lease: Lease)
    requires id >= n
    ensures Sum(open[id := lease], kind, n) == Sum(open, kind, n)
  {
    if n > 0 {
      SumIgnores(open, kind, n - 1, id, lease);
    }
  }

  lemma SumOpen(open: Leases, kind: Kind, lease: Lease)
    requires lease.id !in open
    ensures Sum(open[lease.id := lease], kind, lease.id + 1) == Sum(open, kind, lease.id) + if lease.kind == kind
      then lease.amount else 0
  {
    SumIgnores(open, kind, lease.id, lease.id, lease);
  }

  lemma {:induction false} SumClose(open: Leases, kind: Kind, n: nat, lease: Lease)
    requires lease.id < n && lease.id in open && open[lease.id] == lease
    ensures Sum(open - {lease.id}, kind, n) + (if lease.kind == kind then lease.amount else 0) == Sum(open, kind, n)
  {
    if n - 1 == lease.id {
      SumBelow(open, kind, n - 1, lease.id);
    } else {
      SumClose(open, kind, n - 1, lease);
    }
  }

  lemma {:induction false} SumBelow(open: Leases, kind: Kind, n: nat, id: nat)
    requires id >= n
    ensures Sum(open - {id}, kind, n) == Sum(open, kind, n)
  {
    if n > 0 {
      SumBelow(open, kind, n - 1, id);
    }
  }

  /** An open lease is part of what is held. */
  lemma {:induction false} SumHolds(open: Leases, kind: Kind, n: nat, id: nat)
    requires id < n && id in open && open[id].kind == kind
    ensures Sum(open, kind, n) >= open[id].amount
  {
    if id < n - 1 {
      SumHolds(open, kind, n - 1, id);
    }
  }

  /** Held amounts are the sum of the open leases, within limits and never above their peaks. */
  ghost predicate Balanced(open: Leases, next: nat, held: map<Kind, nat>, peaks: map<Kind, nat>,
                           limits: map<Kind, nat>) {
    && (forall k: Kind ::
          k in limits && k in held && k in peaks && held[k] == Sum(open, k, next) && held[k] <= peaks[k] <= limits[k])
    && (forall id :: id in open ==> id < next && open[id].id == id)
  }

  ghost predicate WorkWithin(used: map<Work, nat>, limits: map<Work, nat>) {
    forall w: Work :: w in limits && w in used && used[w] <= limits[w]
  }

  ghost predicate NothingHeld(held: map<Kind, nat>) {
    forall k: Kind :: k in held && held[k] == 0
  }

  function Raised(peaks: map<Kind, nat>, kind: Kind, amount: nat): map<Kind, nat>
    requires kind in peaks
  {
    peaks[kind := if peaks[kind] < amount then amount else peaks[kind]]
  }

  /** No peak has fallen, and one has risen to the amount now held if it was below. */
  ghost predicate Peaked(peaks: map<Kind, nat>, peaks': map<Kind, nat>, kind: Kind, amount: nat) {
    && (forall k: Kind :: k in peaks && k in peaks' && peaks[k] <= peaks'[k] && (k != kind ==> peaks'[k] == peaks[k]))
    && amount <= peaks'[kind] && (peaks'[kind] == amount || peaks'[kind] == peaks[kind])
  }

  lemma RaisedIsPeaked(peaks: map<Kind, nat>, kind: Kind, amount: nat)
    requires forall k: Kind :: k in peaks
    ensures Peaked(peaks, Raised(peaks, kind, amount), kind, amount)
  {
  }

  /** Why an amount is not granted: for want of room only if nothing else is wrong. */
  function Refusal(closed: bool, fault: Option<Error>, amount: int): Error {
    if closed then SessionInvalid else if fault.Some? then fault.value
    else if amount < 0 then SessionInvalid else LimitExceeded
  }

  lemma OpenBalanced(open: Leases, held: map<Kind, nat>, peaks: map<Kind, nat>, limits: map<Kind, nat>, lease: Lease)
    requires Balanced(open, lease.id, held, peaks, limits) && held[lease.kind] + lease.amount <= limits[lease.kind]
    ensures lease.id !in open
    ensures var total := held[lease.kind] + lease.amount;
      Balanced(open[lease.id := lease], lease.id + 1, held[lease.kind := total], Raised(peaks, lease.kind, total),
        limits)
  {
    forall k: Kind
      ensures Sum(open[lease.id := lease], k, lease.id + 1) == Sum(open, k, lease.id) + if lease.kind == k
        then lease.amount else 0 {
      SumOpen(open, k, lease);
    }
    hide Sum;
  }

  lemma CloseBalanced(open: Leases, next: nat, held: map<Kind, nat>, peaks: map<Kind, nat>, limits: map<Kind, nat>,
                      lease: Lease)
    requires Balanced(open, next, held, peaks, limits) && lease.id in open && open[lease.id] == lease
    ensures held[lease.kind] >= lease.amount
    ensures Balanced(open - {lease.id}, next, held[lease.kind := held[lease.kind] - lease.amount], peaks, limits)
  {
    forall k: Kind
      ensures Sum(open - {lease.id}, k, next) + (if lease.kind == k then lease.amount else 0) == Sum(open, k, next) {
      SumClose(open, k, next, lease);
    }
    hide Sum;
  }

  // --- The budget -----------------------------------------------------------------------

  class Budget {
    const workLimits: map<Work, nat>
    const limits: map<Kind, nat>
    var used: map<Work, nat>
    var held: map<Kind, nat>
    var peaks: map<Kind, nat>
    var owners: set<nat>
    var acknowledged: nat
    var closed: bool
    var open: Leases
    var next: nat

    ghost predicate Valid()
      reads this
    {
      WorkWithin(used, workLimits) && Balanced(open, next, held, peaks, limits)
        && (closed ==> owners == {} && NothingHeld(held))
    }

    constructor (workLimits: map<Work, nat>, limits: map<Kind, nat>)
      requires (forall w: Work :: w in workLimits) && (forall k: Kind :: k in limits)
      ensures Valid() && this.workLimits == workLimits && this.limits == limits
      ensures open == map[] && owners == {} && !closed && acknowledged == 0
      ensures forall w: Work :: w in used && used[w] == 0
      ensures forall k: Kind :: k in held && held[k] == 0 && k in peaks && peaks[k] == 0
    {
      this.workLimits, this.limits := workLimits, limits;
      used := map[CopiedBytes := 0, SourceEntries := 0, InventoryItems := 0, RowBytes := 0, VmSteps := 0];
      held := map[ImageBytes := 0, Descriptors := 0, Cursors := 0];
      peaks := map[ImageBytes := 0, Descriptors := 0, Cursors := 0];
      owners, acknowledged, closed := {}, 0, false;
      open, next := map[], 0;
      new;
      forall w: Work ensures w in used && used[w] == 0 {
        match w case CopiedBytes => case SourceEntries => case InventoryItems => case RowBytes => case VmSteps =>
      }
      forall k: Kind ensures k in held && k in peaks && held[k] == 0 && peaks[k] == 0 && Sum(open, k, next) == 0 {
        match k case ImageBytes => case Descriptors => case Cursors =>
      }
    }

    /** The deadline or the cancellation may strike at any checkpoint; `fault` is what it finds. */
    method Checkpoint(fault: Option<Error>) returns (r: Result<()>)
      ensures r == if closed then Err(SessionInvalid) else if fault.Some? then Err(fault.value) else Ok(())
    {
      if closed {
        return Err(SessionInvalid);
      }
      return if fault.Some? then Err(fault.value) else Ok(());
    }

    /** Work is charged before it is done, and stays charged. */
    method Charge(work: Work, amount: int, fault: Option<Error>) returns (r: Result<()>)
      requires Valid()
      modifies this`used
      ensures Valid()
      ensures r.Ok? <==> !closed && fault == None && amount >= 0 && old(used)[work] + amount <= workLimits[work]
      ensures r.Err? ==> r.error == Refusal(closed, fault, amount)
      ensures used == if r.Ok? then old(used)[work := old(used)[work] + amount] else old(used)
    {
      r := Checkpoint(fault);
      if r.Ok? {
        if amount < 0 {
          r := Err(SessionInvalid);
        } else if used[work] + amount > workLimits[work] {
          r := Err(LimitExceeded);
        } else {
          used := used[work := used[work] + amount];
        }
      }
    }

    /** Reserves before the resource is acquired. */
    method Reserve(kind: Kind, amount: int, fault: Option<Error>) returns (r: Result<Lease>)
      requires Valid()
      modifies this`held, this`peaks, this`open, this`next
      ensures Valid()
      ensures r.Ok? <==> !closed && fault == None && amount >= 0 && old(held)[kind] + amount <= limits[kind]
      ensures r.Err? ==> r.error == Refusal(closed, fault, amount)
      ensures r.Ok? ==>
        && r.value.kind == kind && r.value.amount == amount && old(next) <= r.value.id < next
        && r.value.id !in old(open)
        && open == old(open)[r.value.id := r.value] && held == old(held)[kind := old(held)[kind] + amount]
        && Peaked(old(peaks), peaks, kind, held[kind])
      ensures r.Err? ==> open == old(open) && held == old(held) && peaks == old(peaks) && next == old(next)
    {
      var checked := Checkpoint(fault);
      if checked.Err? {
        return Err(checked.error);
      }
      if amount < 0 {
        return Err(SessionInvalid);
      }
      if held[kind] + amount > limits[kind] {
        return Err(LimitExceeded);
      }
      var lease := Take(kind, amount);
      r := Ok(lease);
    }

    /** The bookkeeping of a reservation that fits. */
    method Take(kind: Kind, amount: nat) returns (lease: Lease)
      requires Valid() && !closed && held[kind] + amount <= limits[kind]
      modifies this`held, this`peaks, this`open, this`next
      ensures Valid() && lease.kind == kind && lease.amount == amount && lease.id == old(next) < next
      ensures lease.id !in old(open)
      ensures open == old(open)[lease.id := lease] && held == old(held)[kind := old(held)[kind] + amount]
      ensures Peaked(old(peaks), peaks, kind, held[kind])
    {
      hide Sum, Raised, NothingHeld, Peaked, WorkWithin, Balanced;
      HeldIsKnown();
      PeaksAreKnown();
      lease := Lease(next, kind, amount);
      OpenBalanced(open, held, peaks, limits, lease);
      RaisedIsPeaked(peaks, kind, held[kind] + amount);
      open, next := open[next := lease], next + 1;
      held := held[kind := held[kind] + amount];
      peaks := Raised(peaks, kind, held[kind]);
    }

    /** Closing a handle refunds it once; a second close does nothing. */
    method Release(lease: Lease) returns (r: Result<()>)
      requires Valid() && (lease.id in open ==> open[lease.id] == lease)
      modifies this`held, this`open
      ensures Valid()
      ensures r == if lease.id in old(open) && closed then Err(SessionInvalid) else Ok(())
      ensures r.Ok? ==> open == old(open) - {lease.id}
      ensures r.Ok? && lease.id in old(open) ==>
        forall k: Kind :: k in held && k in old(held)
          && held[k] + (if k == lease.kind then lease.amount else 0) == old(held)[k]
      ensures r.Ok? && lease.id !in old(open) ==> held == old(held)
      ensures r.Err? ==> open == old(open) && held == old(held)
    {
      if lease.id !in open {
        assert open - {lease.id} == open;
        return Ok(());
      }
      if closed {
        return Err(SessionInvalid);
      }
      CloseBalanced(open, next, held, peaks, limits, lease);
      open := open - {lease.id};
      held := held[lease.kind := held[lease.kind] - lease.amount];
      return Ok(());
    }

    method OwnerOpened(owner: nat, fault: Option<Error>) returns (r: Result<()>)
      requires Valid()
      modifies this`owners
      ensures Valid()
      ensures r.Ok? <==> !closed && fault == None && owner !in old(owners)
      ensures owners == if r.Ok? then old(owners) + {owner} else old(owners)
    {
      r := Checkpoint(fault);
      if r.Ok? {
        if owner in owners {
          r := Err(SessionInvalid);
        } else {
          owners := owners + {owner};
        }
      }
    }

    /** Acknowledges an owner; possible after deadline and cancellation. */
    method OwnerClosed(owner: nat) returns (r: Result<()>)
      requires Valid()
      modifies this`owners, this`acknowledged
      ensures Valid()
      ensures r == if closed || owner !in old(owners) then Err(SessionInvalid) else Ok(())
      ensures owners == if r.Ok? then old(owners) - {owner} else old(owners)
      ensures acknowledged == if r.Ok? then old(acknowledged) + 1 else old(acknowledged)
    {
      if closed || owner !in owners {
        return Err(SessionInvalid);
      }
      owners, acknowledged := owners - {owner}, acknowledged + 1;
      return Ok(());
    }

    /** Ends the operation, unless an owner or a held resource is left. */
    method Finish() returns (r: Result<()>)
      requires Valid()
      modifies this`closed
      ensures Valid()
      ensures r.Ok? <==> !old(closed) && owners == {} && NothingHeld(held)
      ensures r.Err? ==> r.error == SessionInvalid
      ensures closed == (old(closed) || r.Ok?)
      ensures r.Ok? ==> forall id :: id in open ==> open[id].amount == 0
    {
      if closed || owners != {} || held[ImageBytes] != 0 || held[Descriptors] != 0 || held[Cursors] != 0 {
        return Err(SessionInvalid);
      }
      forall k: Kind ensures held[k] == 0 {
        match k case ImageBytes => case Descriptors => case Cursors =>
      }
      NothingOpen();
      closed := true;
      return Ok(());
    }

    lemma IdsBelow()
      requires Valid()
      ensures forall id :: id in open ==> id < next
    {
    }

    lemma HeldIsKnown()
      requires Valid()
      ensures (forall k: Kind :: k in held && k in limits) && forall w: Work :: w in used && w in workLimits
    {
    }

    lemma PeaksAreKnown()
      requires Valid()
      ensures forall k: Kind :: k in peaks
    {
    }

    /** While something is held the budget is not closed. */
    lemma OpenMeansRunning(lease: Lease)
      requires Valid() && lease.id in open && open[lease.id] == lease && lease.amount > 0
      ensures !closed
    {
      if closed {
        ClosedHoldsNothing();
        assert false;
      }
    }

    lemma OwnerMeansRunning(owner: nat)
      requires Valid() && owner in owners
      ensures !closed
    {
    }

    /** Once closed, nothing is held. */
    lemma ClosedHoldsNothing()
      requires Valid() && closed
      ensures owners == {} && forall id :: id in open ==> open[id].amount == 0
    {
      NothingOpen();
    }

    lemma NothingOpen()
      requires Valid() && NothingHeld(held)
      ensures forall id :: id in open ==> open[id].amount == 0
    {
      forall id | id in open ensures open[id].amount == 0 {
        SumHolds(open, open[id].kind, next, id);
        assert held[open[id].kind] == 0;
      }
    }

    method Close(fault: Option<Error>) returns (r: Result<()>)
      requires Valid()
      modifies this`closed
      ensures Valid()
      ensures r.Ok? <==> !old(closed) && fault == None && owners == {} && NothingHeld(held)
      ensures r.Err? ==> r.error == if !old(closed) && fault.Some? then fault.value else SessionInvalid
      ensures closed == (old(closed) || r.Ok?)
      ensures r.Ok? ==> forall id :: id in open ==> open[id].amount == 0
    {
      r := Checkpoint(fault);
      if r.Ok? {
        r := Finish();
      }
    }
  }
}
