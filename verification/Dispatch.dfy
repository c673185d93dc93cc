/**
  Where a packet goes: a lane of the scheduled worker, of a neighbour when that one refuses, or, when
  every inspected lane refuses, the shortest healthy lane, whose oldest packet may have to leave.
*/
module Dispatch {
  import opened Arithmetic
  import opened Common
  import opened PacketQueue

  type Packet = nat

  datatype Worker = Worker(healthy: bool, latency: Deque<Packet>, priority: Deque<Packet>, bulk: Deque<Packet>) {
    function Lane(kind: PacketClass): Deque<Packet>
    {
      match kind
      case Small => latency
      case Medium => priority
      case Bulk => bulk
    }

    function WithLane(kind: PacketClass, lane: Deque<Packet>): Worker
    {
      match kind
      case Small => this.(latency := lane)
      case Medium => this.(priority := lane)
      case Bulk => this.(bulk := lane)
    }

    predicate Accepts(kind: PacketClass)
    {
      healthy && Takes(Lane(kind)) && |Lane(kind).contents| < Lane(kind).capacity
    }

    /** Less than half full; a lane without any capacity never counts as congested. */
    predicate Clear(kind: PacketClass)
    {
      Lane(kind).capacity == 0 || 2 * |Lane(kind).contents| < Lane(kind).capacity
    }
  }

  /** What became of a packet; `victim` is the packet it pushed out, if any. */
  datatype Fate = Placed(slot: nat, victim: Option<Packet>) | Dropped

  // ---------------------------------------------------------------------------------------------
  // What dispatching must do.
  // ---------------------------------------------------------------------------------------------

  /** How many workers are inspected: three when the scheduled one is healthy, otherwise all. */
  function Search(workers: seq<Worker>, start: nat): nat
  {
    var n := |workers|;
    if start < n && workers[start].healthy then 1 + (if n - 1 < 2 then n - 1 else 2) else n
  }

  function At(workers: seq<Worker>, start: nat, offset: nat): nat
    requires workers != []
  {
    (start + offset) % |workers|
  }

  function Inspected(workers: seq<Worker>, start: nat, offset: nat): Worker
    requires workers != []
  {
    workers[At(workers, start, offset)]
  }

  /** Where the copy of a packet starts its search: half the table further on. */
  function Alternate(workers: seq<Worker>, start: nat): nat
    requires workers != []
  {
    (start + |workers| / 2) % |workers|
  }

  predicate NoneAccepts(workers: seq<Worker>, start: nat, kind: PacketClass, limit: nat)
    requires workers != []
  {
    forall o | 0 <= o < limit :: !Inspected(workers, start, o).Accepts(kind)
  }

  predicate NoneClear(workers: seq<Worker>, start: nat, kind: PacketClass, limit: nat)
    requires workers != []
  {
    forall o | 0 <= o < limit ::
      !(Inspected(workers, start, o).Accepts(kind) && Inspected(workers, start, o).Clear(kind))
  }

  /** The lane to use: the first clear one that accepts; without any, the first one that accepts. */
  predicate Picks(workers: seq<Worker>, start: nat, kind: PacketClass, offset: nat)
    requires workers != []
  {
    && offset < Search(workers, start)
    && Inspected(workers, start, offset).Accepts(kind)
    && (if Inspected(workers, start, offset).Clear(kind) then NoneClear(workers, start, kind, offset)
        else NoneClear(workers, start, kind, Search(workers, start)) && NoneAccepts(workers, start, kind, offset))
  }

  function Appended(workers: seq<Worker>, slot: nat, kind: PacketClass, packet: Packet): seq<Worker>
    requires slot < |workers|
  {
    var lane := workers[slot].Lane(kind);
    workers[slot := workers[slot].WithLane(kind, lane.(contents := lane.contents + [packet]))]
  }

  /** The oldest packet of a full lane makes room. */
  function Replaced(workers: seq<Worker>, slot: nat, kind: PacketClass, packet: Packet): seq<Worker>
    requires slot < |workers| && workers[slot].Lane(kind).contents != []
  {
    var lane := workers[slot].Lane(kind);
    workers[slot := workers[slot].WithLane(kind, lane.(contents := lane.contents[1..] + [packet]))]
  }

  /** Among the first `limit` workers: the first healthy one whose lane is as short as any healthy one's. */
  predicate ShortestAmong(workers: seq<Worker>, kind: PacketClass, slot: nat, limit: nat)
    requires limit <= |workers|
  {
    && slot < limit && workers[slot].healthy
    && (forall i | 0 <= i < limit && workers[i].healthy ::
          |workers[slot].Lane(kind).contents| <= |workers[i].Lane(kind).contents|)
    && (forall i | 0 <= i < slot && workers[i].healthy ::
          |workers[slot].Lane(kind).contents| < |workers[i].Lane(kind).contents|)
  }

  predicate FirstShortest(workers: seq<Worker>, kind: PacketClass, slot: nat)
  {
    ShortestAmong(workers, kind, slot, |workers|)
  }

  predicate NoneHealthy(workers: seq<Worker>)
  {
    forall i | 0 <= i < |workers| :: !workers[i].healthy
  }

  // ---------------------------------------------------------------------------------------------
  // The lanes and the operations on them.
  // ---------------------------------------------------------------------------------------------

  class Lanes {
    var workers: seq<Worker>

    constructor (workers: seq<Worker>)
      ensures this.workers == workers
    {
      this.workers := workers;
    }

    method Send(slot: nat, kind: PacketClass, packet: Packet, force: bool) returns (outcome: Outcome<Packet>)
      requires slot < |workers|
      modifies this
      ensures var op := if force then ForceSend(packet) else TrySend(packet);
              var (lane, result) := DequeStep(old(workers[slot].Lane(kind)), op);
              outcome == result && workers == old(workers)[slot := old(workers[slot]).WithLane(kind, lane)]
    {
      var (lane, result) := DequeStep(workers[slot].Lane(kind), if force then ForceSend(packet) else TrySend(packet));
      workers := workers[slot := workers[slot].WithLane(kind, lane)];
      outcome := result;
    }

    /** Two passes over the inspected workers: congested lanes are skipped in the first. */
    method EnqueueSelected(start: nat, kind: PacketClass, packet: Packet) returns (fate: Fate)
      modifies this
      ensures fate.Dropped? ==> workers == old(workers)
      ensures fate.Dropped? <==>
                || old(workers) == []
                || NoneAccepts(old(workers), start, kind, Search(old(workers), start))
      ensures fate.Placed? ==>
                && fate.slot < |old(workers)| && fate.victim == None
                && (exists o: nat :: Picks(old(workers), start, kind, o) && fate.slot == At(old(workers), start, o))
                && workers == Appended(old(workers), fate.slot, kind, packet)
    {
      var n := |workers|;
      if n == 0 {
        return Dropped;
      }
      var search := Search(workers, start);
      ghost var before := workers;
      for pass := 0 to 2
        invariant workers == before
        invariant pass > 0 ==> NoneClear(before, start, kind, search)
        invariant pass > 1 ==> NoneAccepts(before, start, kind, search)
      {
        var preferClear := pass == 0;
        for offset := 0 to search
          invariant workers == before
          invariant NoneClear(before, start, kind, offset)
          invariant pass > 0 ==> NoneClear(before, start, kind, search) && NoneAccepts(before, start, kind, offset)
        {
          var slot := At(workers, start, offset);
          if workers[slot].healthy && (!preferClear || workers[slot].Clear(kind)) {
            var outcome := Send(slot, kind, packet, false);
            if outcome.accepted {
              assert Picks(before, start, kind, offset);
              return Placed(slot, None);
            }
            SameLane(before[slot], kind);
            assert before[slot := before[slot]] == before;
          }
        }
      }
      return Dropped;
    }

    method ReplaceOldest(kind: PacketClass, packet: Packet) returns (fate: Fate)
      modifies this
      ensures NoneHealthy(old(workers)) ==> fate.Dropped?
      ensures fate.Dropped? ==> workers == old(workers)
      ensures forall slot: nat :: FirstShortest(old(workers), kind, slot) ==>
                ReplaceOutcome(old(workers), workers, slot, kind, packet, fate)
    {
      var best: nat := |workers|;
      for i := 0 to |workers|
        invariant if best == |workers| then forall j | 0 <= j < i :: !workers[j].healthy
                  else best < i && ShortestAmong(workers, kind, best, i)
      {
        if workers[i].healthy &&
           (best == |workers| || |workers[i].Lane(kind).contents| < |workers[best].Lane(kind).contents|) {
          best := i;
        }
      }
      if best == |workers| {
        return Dropped;
      }
      ghost var before := workers;
      var outcome := Send(best, kind, packet, true);
      SameLane(before[best], kind);
      assert before[best := before[best]] == before;
      forall slot: nat | FirstShortest(before, kind, slot) ensures slot == best {
        OneFirstShortest(before, kind, slot, best);
      }
      if !outcome.accepted {
        return Dropped;
      }
      fate := Placed(best, if outcome.returned == [] then None else Some(outcome.returned[0]));
    }

    /**
      One dispatch. The packet ends in exactly one lane of its class or is dropped; a packet is pushed
      out only when every inspected healthy lane refused, and then it is the oldest of a shortest
      healthy lane; a lane that is half full is used only when no inspected clear lane accepts.
    */
    method DispatchPacket(start: nat, kind: PacketClass, packet: Packet) returns (fate: Fate)
      modifies this
      ensures Dispatched(old(workers), workers, start, kind, packet, fate)
    {
      hide NoneAccepts, Picks, FirstShortest, ReplaceOutcome;
      ghost var before := workers;
      fate := EnqueueSelected(start, kind, packet);
      if fate.Dropped? {
        fate := ReplaceOldest(kind, packet);
        if !NoneHealthy(before) {
          ghost var slot := SomeFirstShortest(before, kind);
          assert ReplaceOutcome(before, workers, slot, kind, packet, fate);
        }
      }
    }

    /** The copy of a packet worth sending twice is best effort: it never pushes anything out. */
    method DispatchNow(start: nat, kind: PacketClass, packet: Packet, spare: Option<Packet>)
    returns (fate: Fate, spareFate: Fate, ghost between: seq<Worker>)
      modifies this
      ensures Dispatched(old(workers), between, start, kind, packet, fate)
      ensures spareFate.Dropped? ==> workers == between
      ensures spareFate.Dropped? <==>
                || spare.None? || |between| <= 1
                || NoneAccepts(between, Alternate(between, start), kind, Search(between, Alternate(between, start)))
      ensures spareFate.Placed? ==>
                && spare.Some? && |between| > 1 && spareFate.slot < |between| && spareFate.victim == None
                && (exists o: nat :: Picks(between, Alternate(between, start), kind, o) &&
                                     spareFate.slot == At(between, Alternate(between, start), o))
                && workers == Appended(between, spareFate.slot, kind, spare.value)
    {
      hide NoneAccepts, Picks, Dispatched, Appended, Search;
      fate := DispatchPacket(start, kind, packet);
      between := workers;
      spareFate := Dropped;
      var n := |workers|;
      if spare.Some? && n > 1 {
        spareFate := EnqueueSelected(Alternate(workers, start), kind, spare.value);
      }
    }

    method Redispatch(kind: PacketClass, packet: Packet) returns (fate: Fate)
      modifies this
      ensures Dispatched(old(workers), workers, 0, kind, packet, fate)
    {
      if workers == [] {
        return Dropped;
      }
      fate := DispatchPacket(0, kind, packet);
    }
  }

  lemma SameLane(worker: Worker, kind: PacketClass)
    ensures worker.WithLane(kind, worker.Lane(kind)) == worker
  {
  }

  lemma OneFirstShortest(workers: seq<Worker>, kind: PacketClass, a: nat, b: nat)
    requires FirstShortest(workers, kind, a) && FirstShortest(workers, kind, b)
    ensures a == b
  {
  }

  lemma SomeFirstShortest(workers: seq<Worker>, kind: PacketClass) returns (slot: nat)
    requires !NoneHealthy(workers)
    ensures FirstShortest(workers, kind, slot)
  {
    var i: nat :| i < |workers| && workers[i].healthy;
    slot := ShortestUpTo(workers, kind, i, |workers|);
  }

  lemma {:induction false} ShortestUpTo(workers: seq<Worker>, kind: PacketClass, i: nat, limit: nat) returns (slot: nat)
    requires i < limit <= |workers| && workers[i].healthy
    ensures ShortestAmong(workers, kind, slot, limit)
    decreases limit
  {
    var last := limit - 1;
    if j: nat :| j < last && workers[j].healthy {
      slot := ShortestUpTo(workers, kind, j, last);
      if workers[last].healthy && |workers[last].Lane(kind).contents| < |workers[slot].Lane(kind).contents| {
        slot := last;
      }
    } else {
      slot := last;
    }
  }

  predicate ReplaceOutcome(before: seq<Worker>, after: seq<Worker>, slot: nat, kind: PacketClass, packet: Packet,
      fate: Fate)
  {
    && slot < |before|
    && var lane := before[slot].Lane(kind);
    if !Takes(lane) then fate.Dropped?
    else if |lane.contents| < lane.capacity || lane.contents == [] then
      fate == Placed(slot, None) && after == Appended(before, slot, kind, packet)
    else fate == Placed(slot, Some(lane.contents[0])) && after == Replaced(before, slot, kind, packet)
  }

  /** The whole effect of one dispatch. */
  ghost predicate Dispatched(before: seq<Worker>, after: seq<Worker>, start: nat, kind: PacketClass, packet: Packet,
      fate: Fate)
  {
    if before == [] then fate.Dropped? && after == before
    else if !NoneAccepts(before, start, kind, Search(before, start)) then
      && fate.Placed? && fate.victim == None && fate.slot < |before|
      && (exists o: nat :: Picks(before, start, kind, o) && fate.slot == At(before, start, o))
      && after == Appended(before, fate.slot, kind, packet)
    else if NoneHealthy(before) then fate.Dropped? && after == before
    else
      && (fate.Dropped? ==> after == before)
      && exists slot: nat :: FirstShortest(before, kind, slot) &&
           ReplaceOutcome(before, after, slot, kind, packet, fate)
  }

  // ---------------------------------------------------------------------------------------------
  // What follows for one dispatch.
  // ---------------------------------------------------------------------------------------------

  predicate Bounded(workers: seq<Worker>, kind: PacketClass)
  {
    forall i | 0 <= i < |workers| ::
      0 < workers[i].Lane(kind).capacity && |workers[i].Lane(kind).contents| <= workers[i].Lane(kind).capacity
  }

  /**
    A packet is dropped exactly when every inspected worker refused it and there is no healthy worker,
    or the lane of the first shortest healthy one takes nothing at all.
  */
  lemma DroppedExactly(before: seq<Worker>, after: seq<Worker>, start: nat, kind: PacketClass, packet: Packet,
      fate: Fate)
    requires Dispatched(before, after, start, kind, packet, fate)
    ensures fate.Dropped? <==>
              || before == []
              || (&& NoneAccepts(before, start, kind, Search(before, start))
                  && (|| NoneHealthy(before)
                      || exists slot: nat :: FirstShortest(before, kind, slot) && !Takes(before[slot].Lane(kind))))
    ensures fate.Dropped? ==> after == before
  {
    hide NoneAccepts, NoneHealthy, Search, Picks, FirstShortest;
    if before != [] && NoneAccepts(before, start, kind, Search(before, start)) && !NoneHealthy(before) {
      var slot: nat :| FirstShortest(before, kind, slot) && ReplaceOutcome(before, after, slot, kind, packet, fate);
      forall other: nat | FirstShortest(before, kind, other) ensures other == slot {
        OneFirstShortest(before, kind, other, slot);
      }
    }
  }

  /** While every healthy lane takes packets, a packet is dropped only for want of a healthy worker. */
  lemma DroppedOnlyWithoutHealthyWorkers(before: seq<Worker>, after: seq<Worker>, start: nat, kind: PacketClass,
                                         packet: Packet, fate: Fate)
    requires Dispatched(before, after, start, kind, packet, fate)
    requires forall i | 0 <= i < |before| && before[i].healthy :: Takes(before[i].Lane(kind))
    ensures fate.Dropped? <==> NoneHealthy(before)
  {
    DroppedExactly(before, after, start, kind, packet, fate);
    if NoneHealthy(before) && before != [] {
      assert NoneAccepts(before, start, kind, Search(before, start));
    }
  }

  /**
    The first lane is closed: its writer has ended, but its worker has not been marked unhealthy yet. Being empty it is
    the shortest, so the dispatcher, whose two neighbours are full, drops a packet the fourth worker has room for.
  */
  lemma DropsDespiteRoom(packet: Packet, fate: Fate, after: seq<Worker>)
    ensures var closed, full := Deque(2, true, false, []), Deque(2, true, true, [1, 2]);
            var half := Deque(2, true, true, [3]);
            var before := [AllLanes(closed), AllLanes(full), AllLanes(full), AllLanes(half)];
            && before[3].Accepts(Bulk)
            && (Dispatched(before, after, 0, Bulk, packet, fate) ==> fate.Dropped?)
  {
    var closed, full, half := Deque(2, true, false, []), Deque(2, true, true, [1, 2]), Deque(2, true, true, [3]);
    var before := [AllLanes(closed), AllLanes(full), AllLanes(full), AllLanes(half)];
    if Dispatched(before, after, 0, Bulk, packet, fate) {
      assert Search(before, 0) == 3;
      assert NoneAccepts(before, 0, Bulk, 3);
      assert FirstShortest(before, Bulk, 0);
      DroppedExactly(before, after, 0, Bulk, packet, fate);
    }
  }

  /** A healthy worker with this lane for every class. */
  function AllLanes(lane: Deque<Packet>): Worker
  {
    Worker(true, lane, lane, lane)
  }

  /** Only the lane of its own class of one healthy worker changes, and it ends with the packet. */
  lemma LandsInOneLane(before: seq<Worker>, after: seq<Worker>, start: nat, kind: PacketClass, packet: Packet,
      fate: Fate)
    requires Dispatched(before, after, start, kind, packet, fate) && fate.Placed?
    ensures |after| == |before| && fate.slot < |before| && before[fate.slot].healthy
    ensures forall i | 0 <= i < |before| && i != fate.slot :: after[i] == before[i]
    ensures var was, now := before[fate.slot], after[fate.slot];
            && now.healthy == was.healthy
            && (kind.Small? || now.latency == was.latency)
            && (kind.Medium? || now.priority == was.priority)
            && (kind.Bulk? || now.bulk == was.bulk)
    ensures var was, now := before[fate.slot].Lane(kind).contents, after[fate.slot].Lane(kind).contents;
            now == (if fate.victim.Some? then was[1..] else was) + [packet]
  {
    if !NoneAccepts(before, start, kind, Search(before, start)) {
      var o: nat :| Picks(before, start, kind, o) && fate.slot == At(before, start, o);
      assert Inspected(before, start, o).Accepts(kind);
    }
  }

  /** The lane takes packets and holds fewer than this. */
  predicate HoldsFewer(worker: Worker, kind: PacketClass, limit: nat)
  {
    worker.healthy && worker.Lane(kind).open && worker.Lane(kind).active && |worker.Lane(kind).contents| < limit
  }

  predicate HasRoom(worker: Worker, kind: PacketClass)
  {
    HoldsFewer(worker, kind, worker.Lane(kind).capacity)
  }

  predicate UnderHalf(worker: Worker, kind: PacketClass)
  {
    HoldsFewer(worker, kind, (worker.Lane(kind).capacity + 1) / 2)
  }

  /** The workers looked at: the scheduled one and two after it while it is healthy, otherwise all. */
  function Reach(workers: seq<Worker>, start: nat): nat
  {
    if start < |workers| && workers[start].healthy && |workers| > 3 then 3 else |workers|
  }

  predicate NoneHasRoom(workers: seq<Worker>, start: nat, kind: PacketClass, limit: nat)
    requires workers != []
  {
    forall o | 0 <= o < limit :: !HasRoom(Inspected(workers, start, o), kind)
  }

  predicate NoneUnderHalf(workers: seq<Worker>, start: nat, kind: PacketClass, limit: nat)
    requires workers != []
  {
    forall o | 0 <= o < limit :: !UnderHalf(Inspected(workers, start, o), kind)
  }

  /** The search in plain numbers. */
  lemma SearchInNumbers(workers: seq<Worker>, start: nat, kind: PacketClass, limit: nat)
    requires workers != []
    ensures Search(workers, start) == Reach(workers, start) > 0
    ensures NoneAccepts(workers, start, kind, limit) <==> NoneHasRoom(workers, start, kind, limit)
    ensures NoneClear(workers, start, kind, limit) <==> NoneUnderHalf(workers, start, kind, limit)
  {
    hide Inspected, Worker.Lane, Worker.Accepts, Worker.Clear, HasRoom, UnderHalf;
    forall o: nat ensures Accepting(Inspected(workers, start, o), kind) {
      AcceptsInNumbers(Inspected(workers, start, o), kind);
    }
  }

  predicate Accepting(worker: Worker, kind: PacketClass)
  {
    && (worker.Accepts(kind) <==> HasRoom(worker, kind))
    && (worker.Accepts(kind) && worker.Clear(kind) <==> UnderHalf(worker, kind))
  }

  lemma AcceptsInNumbers(worker: Worker, kind: PacketClass)
    ensures Accepting(worker, kind)
  {
  }

  /** The copy looks at the workers from half the table further on, in order and around the end. */
  lemma CopyLooksHalfwayOn(workers: seq<Worker>, start: nat, o: nat)
    requires workers != []
    ensures Inspected(workers, Alternate(workers, start), o) == workers[(start + |workers| / 2 + o) % |workers|]
  {
    SumResidue(start + |workers| / 2, o, |workers|);
  }

  /** The first worker in reach with a lane under half takes the packet, whatever the others hold. */
  lemma FirstUnderHalfTakesIt(before: seq<Worker>, after: seq<Worker>, start: nat, kind: PacketClass, packet: Packet,
                              fate: Fate, o: nat)
    requires before != [] && Dispatched(before, after, start, kind, packet, fate)
    requires o < Reach(before, start) && UnderHalf(before[(start + o) % |before|], kind)
    requires NoneUnderHalf(before, start, kind, o)
    ensures fate == Placed((start + o) % |before|, None)
  {
    hide NoneAccepts, NoneHasRoom, Worker.Accepts, Worker.Clear, HasRoom, UnderHalf, Search, Reach, Appended;
    SearchInNumbers(before, start, kind, o);
    SearchInNumbers(before, start, kind, Search(before, start));
    AcceptsInNumbers(Inspected(before, start, o), kind);
    assert Picks(before, start, kind, o);
    Accepted(before, start, kind, o);
    var picked: nat :| Picks(before, start, kind, picked) && fate.slot == At(before, start, picked);
    OnePick(before, start, kind, o, picked);
  }

  /** Without any lane under half in reach, the first one with room takes it. */
  lemma FirstWithRoomTakesIt(before: seq<Worker>, after: seq<Worker>, start: nat, kind: PacketClass, packet: Packet,
                             fate: Fate, o: nat)
    requires before != [] && Dispatched(before, after, start, kind, packet, fate)
    requires NoneUnderHalf(before, start, kind, Reach(before, start))
    requires o < Reach(before, start) && HasRoom(before[(start + o) % |before|], kind)
    requires NoneHasRoom(before, start, kind, o)
    ensures fate == Placed((start + o) % |before|, None)
  {
    hide Worker.Accepts, Worker.Clear, HasRoom, UnderHalf, Search, Reach, Appended;
    SearchInNumbers(before, start, kind, o);
    SearchInNumbers(before, start, kind, Search(before, start));
    AcceptsInNumbers(Inspected(before, start, o), kind);
    assert Picks(before, start, kind, o);
    Accepted(before, start, kind, o);
    var picked: nat :| Picks(before, start, kind, picked) && fate.slot == At(before, start, picked);
    OnePick(before, start, kind, o, picked);
  }

  lemma Accepted(workers: seq<Worker>, start: nat, kind: PacketClass, o: nat)
    requires workers != [] && Picks(workers, start, kind, o)
    ensures !NoneAccepts(workers, start, kind, Search(workers, start))
  {
    hide Worker.Accepts, Worker.Clear, Search, Inspected;
  }

  lemma OnePick(workers: seq<Worker>, start: nat, kind: PacketClass, a: nat, b: nat)
    requires workers != [] && Picks(workers, start, kind, a) && Picks(workers, start, kind, b)
    ensures a == b
  {
    hide Worker.Accepts, Worker.Clear, Search, Inspected;
  }

  /**
    Without any room in reach the oldest packet of the shortest healthy lane anywhere leaves for it, provided that lane
    is full and takes packets.
  */
  lemma FullLanesGiveUpTheOldest(before: seq<Worker>, after: seq<Worker>, start: nat, kind: PacketClass,
                                 packet: Packet, fate: Fate, slot: nat)
    requires before != [] && Dispatched(before, after, start, kind, packet, fate)
    requires NoneHasRoom(before, start, kind, Reach(before, start))
    requires FirstShortest(before, kind, slot) && before[slot].Lane(kind).open && before[slot].Lane(kind).active
    requires before[slot].Lane(kind).contents != []
    ensures var was := before[slot].Lane(kind);
            fate == Placed(slot, if |was.contents| >= was.capacity then Some(was.contents[0]) else None)
  {
    hide NoneAccepts, NoneHasRoom, Search, Reach, Appended, Replaced, FirstShortest;
    SearchInNumbers(before, start, kind, Search(before, start));
    ShortestIsHealthy(before, kind, slot);
    var other: nat :| FirstShortest(before, kind, other) && ReplaceOutcome(before, after, other, kind, packet, fate);
    OneFirstShortest(before, kind, slot, other);
  }

  lemma ShortestIsHealthy(workers: seq<Worker>, kind: PacketClass, slot: nat)
    requires FirstShortest(workers, kind, slot)
    ensures !NoneHealthy(workers)
  {
  }

  /**
    A packet is pushed out only after every inspected worker refused; it is the oldest of a lane that is
    full and no longer than any other healthy lane, and all healthy lanes of the class are then at least
    as long.
  */
  lemma EvictsOnlyAsALastResort(before: seq<Worker>, after: seq<Worker>, start: nat, kind: PacketClass,
                                packet: Packet, fate: Fate)
    requires Dispatched(before, after, start, kind, packet, fate) && fate.Placed? && fate.victim.Some?
    ensures before != [] && NoneHasRoom(before, start, kind, Reach(before, start))
    ensures fate.slot < |before| && FirstShortest(before, kind, fate.slot)
    ensures var was := before[fate.slot].Lane(kind);
            was.contents != [] && fate.victim.value == was.contents[0] && |was.contents| >= was.capacity
  {
    hide NoneAccepts, NoneHasRoom, FirstShortest, Search, Reach;
    SearchInNumbers(before, start, kind, Search(before, start));
  }

  /** A lane that is at least half full is used only when no inspected lane below half accepts. */
  lemma CongestedLanesComeLast(before: seq<Worker>, after: seq<Worker>, start: nat, kind: PacketClass,
                               packet: Packet, fate: Fate)
    requires Dispatched(before, after, start, kind, packet, fate) && fate.Placed?
    requires fate.slot < |before| && !before[fate.slot].Clear(kind)
    ensures NoneUnderHalf(before, start, kind, Reach(before, start))
  {
    hide Worker.Accepts, Worker.Clear, HasRoom, UnderHalf, Search, Reach, NoneHasRoom;
    SearchInNumbers(before, start, kind, Search(before, start));
    if !NoneAccepts(before, start, kind, Search(before, start)) {
      var o: nat :| Picks(before, start, kind, o) && fate.slot == At(before, start, o);
      assert !Inspected(before, start, o).Clear(kind);
    }
  }

  /** Lanes stay within their capacity. */
  lemma DispatchKeepsBounds(before: seq<Worker>, after: seq<Worker>, start: nat, kind: PacketClass, packet: Packet,
      fate: Fate)
    requires Dispatched(before, after, start, kind, packet, fate) && Bounded(before, kind)
    ensures Bounded(after, kind)
  {
    if before != [] && !NoneAccepts(before, start, kind, Search(before, start)) {
      var o: nat :| Picks(before, start, kind, o) && fate.slot == At(before, start, o);
      assert Inspected(before, start, o).Accepts(kind);
    }
  }
}
