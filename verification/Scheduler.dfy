/**
  The fast-path scheduler: each class of traffic walks the workers round robin, a whole chunk of packets
  at a time, and the snapshot of the workers is renewed only between chunks.
*/
module Scheduler {
  import opened Common
  import opened Arithmetic

  function Index(kind: PacketClass): (i: nat)
    ensures i < 3
  {
    match kind
    case Small => 0
    case Medium => 1
    case Bulk => 2
  }

  function Chunk(kind: PacketClass): (c: nat)
    ensures c > 0
  {
    match kind
    case Small => 4
    case Medium => 16
    case Bulk => 32
  }

  datatype Cursor = Cursor(currentWorker: nat, remaining: nat)

  datatype Ticket = Ticket(startSlot: nat, kind: PacketClass)

  const FRESH: Cursor := Cursor(0, 0)

  /** The slot of the k-th packet of a class (from 0) among `n` workers. */
  function Slot(n: nat, chunk: nat, k: nat): nat
    requires n > 0 && chunk > 0
  {
    (k / chunk) % n
  }

  /** The cursor of a class that has served `k` packets to `n` workers. */
  predicate CursorAfter(cursor: Cursor, n: nat, chunk: nat, k: nat)
    requires chunk > 0
  {
    if n == 0 then cursor == FRESH && k == 0
    else
      && cursor.currentWorker == Slot(n, chunk, k)
      && cursor.remaining == (if k % chunk == 0 then 0 else chunk - k % chunk)
  }

  /** The last packet of a chunk moves the cursor on, any other only uses up the chunk. */
  lemma CursorMoves(cursor: Cursor, n: nat, chunk: nat, k: nat)
    requires n > 0 && chunk > 0 && CursorAfter(cursor, n, chunk, k)
    ensures cursor.currentWorker == Slot(n, chunk, k) < n
    ensures var left := (if cursor.remaining == 0 then chunk else cursor.remaining) - 1;
            if left > 0 then CursorAfter(Cursor(cursor.currentWorker, left), n, chunk, k + 1)
            else
              var next := if cursor.currentWorker + 1 == n then 0 else cursor.currentWorker + 1;
              CursorAfter(Cursor(next, 0), n, chunk, k + 1)
  {
    NextQuotient(chunk, k);
    NextResidue(k / chunk, n);
  }

  lemma FreshCursors(n: nat)
    ensures forall kind: PacketClass :: CursorAfter(FRESH, n, Chunk(kind), 0)
  {
  }

  // ---------------------------------------------------------------------------------------------
  // The scheduler.
  // ---------------------------------------------------------------------------------------------

  class FastPathScheduler<W> {
    var workers: seq<W>
    var workerCount: nat
    var cursors: seq<Cursor>
    /** Packets of each class served since the cursors were last reset. */
    ghost var served: seq<nat>

    ghost predicate Valid()
      reads this
    {
      && |cursors| == |served| == 3
      && forall kind: PacketClass :: CursorAfter(cursors[Index(kind)], workerCount, Chunk(kind), served[Index(kind)])
    }

    constructor ()
      ensures Valid() && workers == [] && workerCount == 0 && served == [0, 0, 0]
    {
      workers, workerCount, cursors, served := [], 0, [FRESH, FRESH, FRESH], [0, 0, 0];
      FreshCursors(0);
    }

    method SyncWorkerCount(count: nat)
      requires Valid()
      modifies this`workerCount, this`cursors, this`served
      ensures Valid() && workerCount == count
      ensures count == old(workerCount) ==> served == old(served) && cursors == old(cursors)
      ensures count != old(workerCount) ==> served == [0, 0, 0]
    {
      hide CursorAfter;
      FreshCursors(count);
      if workerCount != count {
        workerCount, cursors := count, [FRESH, FRESH, FRESH];
        served := [0, 0, 0];
      }
    }

    method BeginForClass(count: nat, kind: PacketClass) returns (ticket: Option<Ticket>)
      requires Valid()
      modifies this`workerCount, this`cursors, this`served
      ensures Valid()
      ensures count == 0 ==>
                && ticket.None? && workerCount == old(workerCount)
                && served == old(served) && cursors == old(cursors)
      ensures count > 0 ==>
                var start := if count == old(workerCount) then old(served) else [0, 0, 0];
                && workerCount == count
                && ticket == Some(Ticket(Slot(count, Chunk(kind), start[Index(kind)]), kind))
                && ticket.value.startSlot < count
                && (kind.Small? ==> ticket.value.startSlot == (start[0] / 4) % count)
                && (kind.Medium? ==> ticket.value.startSlot == (start[1] / 16) % count)
                && (kind.Bulk? ==> ticket.value.startSlot == (start[2] / 32) % count)
                && served == start[Index(kind) := start[Index(kind)] + 1]
    {
      if count == 0 {
        return None;
      }
      if workerCount != count {
        SyncWorkerCount(count);
      }
      hide CursorAfter, Slot;
      assert CursorAfter(cursors[Index(kind)], count, Chunk(kind), served[Index(kind)]);
      var cursor := cursors[Index(kind)];
      ghost var k := served[Index(kind)];
      CursorMoves(cursor, count, Chunk(kind), k);
      if cursor.remaining == 0 {
        cursor := cursor.(remaining := Chunk(kind));
      }
      var startSlot := cursor.currentWorker;
      cursor := cursor.(remaining := cursor.remaining - 1);
      if cursor.remaining == 0 {
        cursor := cursor.(currentWorker := cursor.currentWorker + 1);
        if cursor.currentWorker == count {
          cursor := cursor.(currentWorker := 0);
        }
      }
      assert CursorAfter(cursor, count, Chunk(kind), k + 1);
      cursors := cursors[Index(kind) := cursor];
      served := served[Index(kind) := k + 1];
      return Some(Ticket(startSlot, kind));
    }

    /**
      The slot is always a worker of the snapshot. The snapshot is renewed only when the class being
      served is between chunks, and all classes start over only when the number of workers changed.
    */
    method Begin(source: seq<W>, kind: PacketClass) returns (ticket: Option<Ticket>)
      requires Valid() && workerCount == |workers|
      modifies this
      ensures Valid() && workerCount == |workers|
      ensures workers == if old(served)[Index(kind)] % Chunk(kind) == 0 then source else old(workers)
      ensures ticket.None? <==> |workers| == 0
      ensures ticket.Some? ==>
                var start := if |workers| == |old(workers)| then old(served) else [0, 0, 0];
                && ticket.value == Ticket(Slot(|workers|, Chunk(kind), start[Index(kind)]), kind)
                && ticket.value.startSlot < |workers|
                && served == start[Index(kind) := start[Index(kind)] + 1]
    {
      assert CursorAfter(cursors[Index(kind)], workerCount, Chunk(kind), served[Index(kind)]);
      if cursors[Index(kind)].remaining == 0 {
        workers := source;
        SyncWorkerCount(|workers|);
      }
      ticket := BeginForClass(workerCount, kind);
    }
  }

  // ---------------------------------------------------------------------------------------------
  // Fairness.
  // ---------------------------------------------------------------------------------------------

  function CountOf(kinds: seq<PacketClass>, kind: PacketClass): nat
  {
    if kinds == [] then 0 else CountOf(kinds[..|kinds| - 1], kind) + if kinds[|kinds| - 1] == kind then 1 else 0
  }

  /** How many of the packets of one class the worker in `slot` gets. */
  function Share(kinds: seq<PacketClass>, slots: seq<nat>, kind: PacketClass, slot: nat): nat
    requires |kinds| == |slots|
  {
    if kinds == [] then 0
    else
      var last := |kinds| - 1;
      Share(kinds[..last], slots[..last], kind, slot) + if kinds[last] == kind && slots[last] == slot then 1 else 0
  }

  /** How many of the first `k` packets of a class go to `slot`. */
  function FairShare(n: nat, chunk: nat, k: nat, slot: nat): nat
    requires n > 0 && chunk > 0
  {
    if k == 0 then 0 else FairShare(n, chunk, k - 1, slot) + if Slot(n, chunk, k - 1) == slot then 1 else 0
  }

  function Counts(kinds: seq<PacketClass>): seq<nat>
  {
    [CountOf(kinds, Small), CountOf(kinds, Medium), CountOf(kinds, Bulk)]
  }

  lemma OneMoreCounted(kinds: seq<PacketClass>, i: nat)
    requires i < |kinds|
    ensures Counts(kinds[..i])[Index(kinds[i])] == CountOf(kinds[..i], kinds[i])
    ensures Counts(kinds[..i + 1]) == Counts(kinds[..i])[Index(kinds[i]) := CountOf(kinds[..i], kinds[i]) + 1]
  {
    assert kinds[..i + 1][..i] == kinds[..i];
  }

  /** However the classes interleave, each class alone decides where its own packets go. */
  method ServeAll<W>(workers: seq<W>, kinds: seq<PacketClass>) returns (slots: seq<nat>)
    requires workers != []
    ensures |slots| == |kinds|
    ensures SlotsFollow(|workers|, kinds, slots)
    ensures forall kind: PacketClass, slot: nat ::
              Share(kinds, slots, kind, slot) == FairShare(|workers|, Chunk(kind), CountOf(kinds, kind), slot)
  {
    hide FastPathScheduler.Valid, Counts, Slot, Chunk, Index, SlotsFollow;
    var scheduler := new FastPathScheduler<W>();
    slots := [];
    NothingServed(|workers|, kinds);
    for i := 0 to |kinds|
      invariant scheduler.Valid() && |slots| == i && fresh(scheduler)
      invariant scheduler.workerCount == |scheduler.workers|
      invariant scheduler.workers == if i == 0 then [] else workers
      invariant scheduler.served == Counts(kinds[..i])
      invariant SlotsFollow(|workers|, kinds, slots)
    {
      OneMoreCounted(kinds, i);
      var ticket := scheduler.Begin(workers, kinds[i]);
      OneMoreSlot(|workers|, kinds, slots, ticket.value.startSlot);
      slots := slots + [ticket.value.startSlot];
    }
    assert kinds[..|kinds|] == kinds;
    AllSharesFollowSlots(|workers|, kinds, slots);
  }

  /** Each packet served so far has the slot of its place among the packets of its class. */
  predicate SlotsFollow(n: nat, kinds: seq<PacketClass>, slots: seq<nat>)
    requires n > 0
  {
    && |slots| <= |kinds|
    && forall i | 0 <= i < |slots| ::
         slots[i] < n && slots[i] == Slot(n, Chunk(kinds[i]), CountOf(kinds[..i], kinds[i]))
  }

  lemma OneMoreSlot(n: nat, kinds: seq<PacketClass>, slots: seq<nat>, slot: nat)
    requires n > 0 && SlotsFollow(n, kinds, slots) && |slots| < |kinds|
    requires var i := |slots|; slot < n && slot == Slot(n, Chunk(kinds[i]), CountOf(kinds[..i], kinds[i]))
    ensures SlotsFollow(n, kinds, slots + [slot])
  {
  }

  lemma NothingServed(n: nat, kinds: seq<PacketClass>)
    requires n > 0
    ensures Counts(kinds[..0]) == [0, 0, 0] && SlotsFollow(n, kinds, [])
  {
  }

  lemma AllSharesFollowSlots(n: nat, kinds: seq<PacketClass>, slots: seq<nat>)
    requires n > 0 && |kinds| == |slots| && SlotsFollow(n, kinds, slots)
    ensures forall kind: PacketClass, slot: nat ::
              Share(kinds, slots, kind, slot) == FairShare(n, Chunk(kind), CountOf(kinds, kind), slot)
  {
    hide Slot;
    forall kind: PacketClass, slot: nat
      ensures Share(kinds, slots, kind, slot) == FairShare(n, Chunk(kind), CountOf(kinds, kind), slot)
    {
      SharesFollowSlots(n, kinds, slots, kind, slot);
    }
  }

  lemma {:induction false} SharesFollowSlots(n: nat, kinds: seq<PacketClass>, slots: seq<nat>, kind: PacketClass,
      slot: nat)
    requires n > 0 && |kinds| == |slots|
    requires forall i | 0 <= i < |slots| :: slots[i] == Slot(n, Chunk(kinds[i]), CountOf(kinds[..i], kinds[i]))
    ensures Share(kinds, slots, kind, slot) == FairShare(n, Chunk(kind), CountOf(kinds, kind), slot)
  {
    hide Slot;
    if kinds != [] {
      var last := |kinds| - 1;
      forall i | 0 <= i < last ensures kinds[..last][..i] == kinds[..i] {
      }
      SharesFollowSlots(n, kinds[..last], slots[..last], kind, slot);
    }
  }

  lemma {:induction false} WithinOneChunk(n: nat, chunk: nat, round: nat, r: nat, slot: nat)
    requires n > 0 && chunk > 0 && r <= chunk
    ensures FairShare(n, chunk, chunk * round + r, slot)
         == FairShare(n, chunk, chunk * round, slot) + if round % n == slot then r else 0
  {
    hide Slot;
    if r > 0 {
      WithinOneChunk(n, chunk, round, r - 1, slot);
      SlotIs(n, chunk, round, r - 1);
    }
  }

  lemma SlotIs(n: nat, chunk: nat, round: nat, r: nat)
    requires n > 0 && r < chunk
    ensures Slot(n, chunk, chunk * round + r) == round % n
  {
    QuotientIs(chunk * round + r, chunk, round, r);
  }

  /** `turns` chunks in the current lap have been dealt out. */
  lemma {:induction false} WithinOneLap(n: nat, chunk: nat, lap: nat, turns: nat, slot: nat)
    requires chunk > 0 && slot < n && turns <= n
    ensures FairShare(n, chunk, chunk * (n * lap + turns), slot)
         == FairShare(n, chunk, chunk * (n * lap), slot) + if slot < turns then chunk else 0
  {
    hide Slot;
    if turns > 0 {
      WithinOneLap(n, chunk, lap, turns - 1, slot);
      var round := n * lap + turns - 1;
      WithinOneChunk(n, chunk, round, chunk, slot);
      QuotientIs(round, n, lap, turns - 1);
      NextMultiple(chunk, round);
    }
  }

  /** Every whole number of laps gives each worker exactly one chunk per lap. */
  lemma {:induction false} WholeLapsAreEven(n: nat, chunk: nat, laps: nat, slot: nat)
    requires chunk > 0 && slot < n
    ensures FairShare(n, chunk, chunk * (n * laps), slot) == laps * chunk
  {
    if laps > 0 {
      WholeLapsAreEven(n, chunk, laps - 1, slot);
      WithinOneLap(n, chunk, laps - 1, n, slot);
      assert n * (laps - 1) + n == n * laps;
      assert (laps - 1) * chunk + chunk == laps * chunk;
    } else {
      assert chunk * (n * 0) == 0;
    }
  }

  lemma {:induction false} ShareGrows(n: nat, chunk: nat, a: nat, b: nat, slot: nat)
    requires n > 0 && chunk > 0 && a <= b
    ensures FairShare(n, chunk, a, slot) <= FairShare(n, chunk, b, slot)
    decreases b
  {
    if a < b {
      ShareGrows(n, chunk, a, b - 1, slot);
    }
  }

  /** At any moment two workers are at most one chunk apart. */
  lemma NeverMoreThanOneChunkApart(n: nat, chunk: nat, k: nat, slot: nat, other: nat)
    requires chunk > 0 && slot < n && other < n
    ensures FairShare(n, chunk, k, slot) <= FairShare(n, chunk, k, other) + chunk
  {
    var laps := LapsBefore(n, chunk, k);
    ShareGrows(n, chunk, chunk * (n * laps), k, other);
    ShareGrows(n, chunk, k, chunk * (n * (laps + 1)), slot);
    WholeLapsAreEven(n, chunk, laps, other);
    WholeLapsAreEven(n, chunk, laps + 1, slot);
    assert (laps + 1) * chunk == laps * chunk + chunk;
  }

  lemma LapsBefore(n: nat, chunk: nat, k: nat) returns (laps: nat)
    requires n > 0 && chunk > 0
    ensures chunk * (n * laps) <= k <= chunk * (n * (laps + 1))
  {
    var rounds := k / chunk;
    laps := rounds / n;
    Euclid(k, chunk);
    Euclid(rounds, n);
    NextMultiple(n, laps);
    Monotone(chunk, n * laps, rounds);
    Monotone(chunk, rounds + 1, n * (laps + 1));
    NextMultiple(chunk, rounds);
  }
}
