/** The foreground watcher loop: its journal, its notification queue and its backoff. */
module Watcher {
  import opened Wrappers

  type Result<T> = Fallible<T, Error>

  datatype Error = RecoveryRequired | Invalid | NotificationInvalid | NotificationLimit | NotificationRecovery

  // --- Backoff --------------------------------------------------------------------------

  function Power2(n: nat): nat {
    if n == 0 then 1 else 2 * Power2(n - 1)
  }

  function Minimum(a: int, b: int): int {
    if a < b then a else b
  }

  const MAX_INTERVAL: nat := 86400

  lemma {:induction false} Power2Grows(n: nat, m: nat)
    requires n <= m
    ensures Power2(n) <= Power2(m)
  {
    if n < m {
      Power2Grows(n, m - 1);
    }
  }

  lemma {:induction false} Power2Large(n: nat)
    requires n >= 32
    ensures Power2(n) >= MAX_INTERVAL
  {
    Power2Grows(17, n);
    assert Power2(9) == 512;
    assert Power2(17) == 131072;
  }

  /** The undisturbed delay after `n` failures. */
  function Doubled(interval: nat, n: nat): nat {
    interval * Power2(n)
  }

  lemma DoubledStep(interval: nat, n: nat)
    ensures Doubled(interval, n + 1) == 2 * Doubled(interval, n)
  {
  }

  lemma DoubledGrows(interval: nat, n: nat, m: nat)
    requires n <= m
    ensures Doubled(interval, n) <= Doubled(interval, m)
  {
    Power2Grows(n, m);
    hide Power2;
  }

  lemma DoubledLarge(interval: nat, n: nat)
    requires interval >= 1 && n >= 32
    ensures Doubled(interval, n) >= MAX_INTERVAL
  {
    Power2Large(n);
    hide Power2;
  }

  /** The delay doubles with every failure up to the maximum, for every number of failures: the cap on the
      number of doublings never shows. */
  method BackoffDelay(interval: nat, maxBackoff: nat, failures: nat) returns (delay: nat)
    requires 5 <= interval <= maxBackoff <= MAX_INTERVAL
    ensures delay == Minimum(maxBackoff, interval * Power2(failures))
    ensures delay <= maxBackoff && delay <= interval * Power2(failures)
    ensures delay == maxBackoff || delay == interval * Power2(failures)
  {
    assert Doubled(interval, 0) == interval && Doubled(interval, failures) == interval * Power2(failures);
    hide Doubled, Power2;
    delay := interval;
    var remaining := if failures < 32 then failures else 32;
    ghost var done := 0;
    while remaining > 0 && delay < maxBackoff
      invariant 0 <= remaining && done + remaining == if failures < 32 then failures else 32
      invariant delay == Minimum(maxBackoff, Doubled(interval, done))
    {
      DoubledStep(interval, done);
      delay := if maxBackoff < delay * 2 then maxBackoff else delay * 2;
      remaining, done := remaining - 1, done + 1;
    }
    if done >= 32 {
      DoubledLarge(interval, done);
    }
    DoubledGrows(interval, done, failures);
  }

  // --- The notification queue -----------------------------------------------------------

  const MAX_EVENTS: nat := 1000
  const MAX_ID: nat := 0x8000_0000_0000_0000

  datatype Item = Item(id: nat, event: string)

  predicate Ascending(ids: seq<nat>) {
    forall i, j :: 0 <= i < j < |ids| ==> ids[i] < ids[j]
  }

  predicate InOrder(events: seq<Item>) {
    forall i, j :: 0 <= i < j < |events| ==> events[i].id < events[j].id
  }

  predicate Queued(events: seq<Item>, id: int) {
    exists k :: 0 <= k < |events| && events[k].id == id
  }

  class Outbox {
    var nextId: nat
    var events: seq<Item>
    ghost var issued: seq<nat>

    /** Issued identifiers strictly increase and never come back; what is queued was issued, in order. */
    ghost predicate Valid()
      reads this
    {
      && nextId >= 1 && |events| <= MAX_EVENTS
      && Ascending(issued) && (forall k :: 0 <= k < |issued| ==> 1 <= issued[k] < nextId)
      && InOrder(events) && (forall k :: 0 <= k < |events| ==> events[k].id in issued)
    }

    /** The counter is acceptable to the reader. */
    predicate Readable()
      reads this
    {
      nextId <= MAX_ID
    }

    constructor ()
      ensures Valid() && events == [] && issued == [] && nextId == 1
    {
      nextId, events, issued := 1, [], [];
    }

    /** The stored queue is read back, or refused: its counter may not pass 2^63. */
    method Read() returns (r: Result<seq<Item>>)
      requires Valid()
      ensures r == if Readable() then Ok(events) else Err(NotificationRecovery)
      ensures r.Ok? <==> nextId <= 0x8000_0000_0000_0000
    {
      if nextId > MAX_ID || |events| > MAX_EVENTS {
        return Err(NotificationRecovery);
      }
      var previous := 0;
      for k := 0 to |events|
        invariant k == 0 ==> previous == 0
        invariant k > 0 ==> previous == events[k - 1].id
      {
        assert events[k].id in issued && (k > 0 ==> events[k - 1].id < events[k].id);
        if !(previous < events[k].id < nextId) {
          return Err(NotificationRecovery);
        }
        previous := events[k].id;
      }
      return Ok(events);
    }

    method Enqueue(event: string, fits: bool) returns (r: Result<nat>)
      requires Valid()
      modifies this
      ensures Valid()
      ensures r.Ok? <==> old(Readable()) && |old(events)| < 1000 && fits
      ensures fits && r.Err? ==> r.error == if old(Readable()) then NotificationLimit else NotificationRecovery
      ensures old(Readable()) && |old(events)| < 1000 && r.Err? ==> r.error == NotificationInvalid
      ensures r.Ok? ==> (Readable() <==> old(nextId) < MAX_ID)
      ensures r.Ok? ==>
        && r.value == old(nextId) && nextId == old(nextId) + 1
        && events == old(events) + [Item(r.value, event)] && issued == old(issued) + [r.value]
      ensures r.Err? ==> nextId == old(nextId) && events == old(events) && issued == old(issued)
    {
      var read := Read();
      if read.Err? {
        return Err(read.error);
      }
      if |events| >= MAX_EVENTS {
        return Err(NotificationLimit);
      }
      if !fits {
        return Err(NotificationInvalid);
      }
      forall k | 0 <= k < |events| ensures events[k].id < nextId {
        assert events[k].id in issued;
      }
      r := Ok(nextId);
      events, issued, nextId := events + [Item(nextId, event)], issued + [nextId], nextId + 1;
    }

    method Peek(limit: int) returns (r: Result<seq<Item>>)
      requires Valid()
      ensures r.Ok? <==> 1 <= limit <= 1000 && Readable()
      ensures r.Err? ==> r.error == if 1 <= limit <= 1000 then NotificationRecovery else NotificationInvalid
      ensures r.Ok? ==> r.value == events[..if limit < |events| then limit else |events|]
    {
      if !(1 <= limit <= MAX_EVENTS) {
        return Err(NotificationInvalid);
      }
      var read := Read();
      if read.Err? {
        return read;
      }
      return Ok(events[..if limit < |events| then limit else |events|]);
    }

    /** Removes exactly the acknowledged item; the others keep their order. */
    method Ack(id: int) returns (r: Result<()>)
      requires Valid()
      modifies this`events
      ensures Valid()
      ensures r.Ok? <==>
        Readable() && 1 <= id <= 0x8000_0000_0000_0000 && exists item :: item in old(events) && item.id == id
      ensures r.Err? ==> (r.error == NotificationRecovery <==> 1 <= id <= 0x8000_0000_0000_0000 && !Readable())
      ensures r.Err? ==> r.error == NotificationRecovery || r.error == NotificationInvalid
      ensures r.Ok? ==> events == Without(old(events), id) && forall item :: item in events <==>
        item in old(events) && item.id != id
      ensures r.Err? ==> events == old(events)
    {
      if !(1 <= id <= MAX_ID) {
        return Err(NotificationInvalid);
      }
      var read := Read();
      if read.Err? {
        return Err(read.error);
      }
      if !Queued(events, id) {
        return Err(NotificationInvalid);
      }
      WithoutKeeps(events, id);
      forall item ensures item in Without(events, id) <==> item in events && item.id != id {
        WithoutHolds(events, id, item);
      }
      forall k | 0 <= k < |Without(events, id)| ensures Without(events, id)[k].id in issued {
        assert Without(events, id)[k] in events;
      }
      events := Without(events, id);
      return Ok(());
    }
  }

  /** The last identifier can be issued, and then the queue can never be read again: every operation on it is
      refused and leaves it as it is. */
  method IssueLast(outbox: Outbox, event: string, next: string, id: int, limit: int)
    returns (last: Result<nat>, read: Result<seq<Item>>)
    requires outbox.Valid() && outbox.nextId == MAX_ID && |outbox.events| < MAX_EVENTS
    modifies outbox
    ensures last == Ok(MAX_ID) && read == Err(NotificationRecovery)
    ensures outbox.events == old(outbox.events) + [Item(MAX_ID, event)] && !outbox.Readable()
  {
    last := outbox.Enqueue(event, true);
    var enqueued := outbox.Enqueue(next, true);
    var acknowledged := outbox.Ack(id);
    var peeked := outbox.Peek(limit);
    read := outbox.Read();
  }

  function Without(events: seq<Item>, id: int): seq<Item> {
    if events == [] then [] else (if events[0].id == id then [] else [events[0]]) + Without(events[1..], id)
  }

  lemma {:induction false} WithoutHolds(events: seq<Item>, id: int, item: Item)
    ensures item in Without(events, id) <==> item in events && item.id != id
  {
    if events != [] {
      WithoutHolds(events[1..], id, item);
      assert events == [events[0]] + events[1..];
    }
  }

  lemma {:induction false} WithoutKeeps(events: seq<Item>, id: int)
    requires InOrder(events)
    ensures |Without(events, id)| <= |events| && InOrder(Without(events, id)) && !Queued(Without(events, id), id)
    ensures forall item :: item in Without(events, id) ==> item in events
  {
    if events != [] {
      WithoutKeeps(events[1..], id);
      var rest := Without(events[1..], id);
      forall k | 0 <= k < |rest| ensures rest[k] in events && events[0].id < rest[k].id {
        assert rest[k] in events[1..];
      }
    }
  }
}
