/**
  The loop that feeds a session's writer from its three lanes. A batch holds packets of one lane only,
  in that lane's order, and stops early when a more urgent lane has something waiting.
*/
module WriterLanes {
  import opened Common
  import opened RtpSequence
  import opened Writer

  function BatchLimit(lane: PacketClass): nat
  {
    match lane
    case Small => LATENCY_BATCH_LIMIT
    case Medium => PRIORITY_BATCH_LIMIT
    case Bulk => BULK_BATCH_LIMIT
  }

  predicate BatchCanExtend(lane: PacketClass, latencyPending: bool, priorityPending: bool)
  {
    match lane
    case Small => true
    case Medium => !latencyPending
    case Bulk => !latencyPending && !priorityPending
  }

  predicate MoreUrgent(a: PacketClass, b: PacketClass)
  {
    (a.Small? && !b.Small?) || (a.Medium? && b.Bulk?)
  }

  /** A packet taken from a lane. */
  datatype Taken = Taken(lane: PacketClass, packet: Packet)

  function Packets(log: seq<Taken>): seq<Packet>
  {
    if log == [] then [] else Packets(log[..|log| - 1]) + [log[|log| - 1].packet]
  }

  lemma {:induction false} PacketsLength(log: seq<Taken>)
    ensures |Packets(log)| == |log|
  {
    if log != [] {
      PacketsLength(log[..|log| - 1]);
    }
  }

  /** One queue of packets for each lane. */
  datatype PerLane = PerLane(small: seq<Packet>, medium: seq<Packet>, bulk: seq<Packet>) {
    function At(lane: PacketClass): seq<Packet>
    {
      match lane
      case Small => small
      case Medium => medium
      case Bulk => bulk
    }

    function Put(lane: PacketClass, packets: seq<Packet>): PerLane
    {
      match lane
      case Small => this.(small := packets)
      case Medium => this.(medium := packets)
      case Bulk => this.(bulk := packets)
    }

    function Append(more: PerLane): PerLane
    {
      PerLane(small + more.small, medium + more.medium, bulk + more.bulk)
    }
  }

  ghost predicate Grown(before: PerLane, now: PerLane)
  {
    before.small <= now.small && before.medium <= now.medium && before.bulk <= now.bulk
  }

  ghost predicate MoreUrgentWaiting(queued: PerLane, lane: PacketClass)
  {
    exists other :: MoreUrgent(other, lane) && queued.At(other) != []
  }

  /** A batch is extended exactly while no more urgent lane has anything. */
  lemma ExtendsUnlessMoreUrgentWaits(queued: PerLane, lane: PacketClass)
    ensures BatchCanExtend(lane, queued.small != [], queued.medium != []) <==> !MoreUrgentWaiting(queued, lane)
  {
    assert queued.At(Small) == queued.small && queued.At(Medium) == queued.medium;
    assert MoreUrgent(Small, Medium) && MoreUrgent(Small, Bulk) && MoreUrgent(Medium, Bulk);
  }

  lemma StillWaiting(before: PerLane, now: PerLane, lane: PacketClass)
    requires Grown(before, now)
    ensures MoreUrgentWaiting(before, lane) ==> MoreUrgentWaiting(now, lane)
  {
    if MoreUrgentWaiting(before, lane) {
      var other :| MoreUrgent(other, lane) && before.At(other) != [];
      assert now.At(other) != [];
    }
  }

  /** What was taken, lane by lane. */
  function Split(taken: seq<Taken>): PerLane
  {
    if taken == [] then PerLane([], [], [])
    else
      var last := taken[|taken| - 1];
      var earlier := Split(taken[..|taken| - 1]);
      earlier.Put(last.lane, earlier.At(last.lane) + [last.packet])
  }

  lemma OneMoreTaken(log: seq<Taken>, t: Taken)
    ensures Packets(log + [t]) == Packets(log) + [t.packet]
    ensures Split(log + [t]) == Split(log).Put(t.lane, Split(log).At(t.lane) + [t.packet])
  {
    assert (log + [t])[..|log|] == log;
  }

  lemma AppendAssociative(a: PerLane, b: PerLane, c: PerLane)
    ensures a.Append(b).Append(c) == a.Append(b.Append(c))
  {
    assert a.small + b.small + c.small == a.small + (b.small + c.small);
    assert a.medium + b.medium + c.medium == a.medium + (b.medium + c.medium);
    assert a.bulk + b.bulk + c.bulk == a.bulk + (b.bulk + c.bulk);
  }

  lemma HeadMoves(taken: PerLane, queued: PerLane, lane: PacketClass)
    requires queued.At(lane) != []
    ensures taken.Put(lane, taken.At(lane) + [queued.At(lane)[0]]).Append(queued.Put(lane, queued.At(lane)[1..])) ==
              taken.Append(queued)
  {
    var waiting := queued.At(lane);
    assert taken.At(lane) + [waiting[0]] + waiting[1..] == taken.At(lane) + waiting;
  }

  /** All that a script of arrivals brings, lane by lane. */
  function AllOf(arrivals: seq<PerLane>): PerLane
  {
    if arrivals == [] then PerLane([], [], [])
    else AllOf(arrivals[..|arrivals| - 1]).Append(arrivals[|arrivals| - 1])
  }

  /** What the lanes hold when somebody looks at them: the next arrivals have come in. */
  function Look(queued: PerLane, arrivals: seq<PerLane>): PerLane
  {
    if arrivals == [] then queued else queued.Append(arrivals[0])
  }

  lemma NextArrival(script: seq<PerLane>, n: nat)
    requires n < |script|
    ensures AllOf(script[..n + 1]) == AllOf(script[..n]).Append(script[n])
    ensures script[n..][0] == script[n] && script[n..][1..] == script[n + 1..]
  {
    assert script[..n + 1][..n] == script[..n];
  }

  /**
    The receiving ends of the lanes. Other tasks push while the writer works: `arrivals` says what
    comes in before each look at a lane; it is the rest of `script`. `offered` and `taken` record the lanes' histories.
  */
  class Lanes {
    var queued: PerLane
    var arrivals: seq<PerLane>
    ghost const script: seq<PerLane>
    ghost var offered: PerLane
    ghost var taken: seq<Taken>

    /** Each lane is first in, first out: what was taken, then what is queued, is what has arrived so far. */
    ghost predicate Valid()
      reads this
    {
      Scripted() && offered == Split(taken).Append(queued)
    }

    ghost predicate Scripted()
      reads `arrivals, `offered
    {
      && |arrivals| <= |script| && arrivals == script[|script| - |arrivals|..]
      && offered == AllOf(script[..|script| - |arrivals|])
    }

    constructor (arrivals: seq<PerLane>)
      ensures Valid() && taken == [] && this.arrivals == arrivals && script == arrivals
      ensures queued == PerLane([], [], [])
    {
      this.arrivals, script := arrivals, arrivals;
      queued, offered, taken := PerLane([], [], []), PerLane([], [], []), [];
    }

    method OthersPush()
      requires Valid()
      modifies this`queued, this`arrivals, this`offered
      ensures Valid()
      ensures queued == Look(old(queued), old(arrivals))
      ensures arrivals == if old(arrivals) == [] then [] else old(arrivals)[1..]
      ensures Grown(old(queued), queued) && Grown(old(offered), offered)
    {
      if arrivals != [] {
        NextArrival(script, |script| - |arrivals|);
        AppendAssociative(Split(taken), queued, arrivals[0]);
        queued, offered, arrivals := queued.Append(arrivals[0]), offered.Append(arrivals[0]), arrivals[1..];
      }
    }

    method TryReceive(lane: PacketClass) returns (packet: Option<Packet>)
      requires Valid()
      modifies this`queued, this`taken
      ensures Valid()
      ensures packet.None? ==> queued.At(lane) == [] && queued == old(queued) && taken == old(taken)
      ensures packet.Some? ==>
                && old(queued).At(lane) == [packet.value] + queued.At(lane)
                && queued == old(queued).Put(lane, queued.At(lane))
                && taken == old(taken) + [Taken(lane, packet.value)]
    {
      hide Scripted;
      var waiting := queued.At(lane);
      if waiting == [] {
        return None;
      }
      OneMoreTaken(taken, Taken(lane, waiting[0]));
      HeadMoves(Split(taken), queued, lane);
      packet := Some(waiting[0]);
      taken := taken + [Taken(lane, waiting[0])];
      queued := queued.Put(lane, waiting[1..]);
    }
  }

  ghost predicate NothingWaits(queued: PerLane)
  {
    forall lane: PacketClass :: queued.At(lane) == []
  }

  /** The head of the most urgent lane that has something. */
  ghost predicate MostUrgent(first: Taken, queued: PerLane)
  {
    && queued.At(first.lane) != [] && first.packet == queued.At(first.lane)[0]
    && forall lane :: MoreUrgent(lane, first.lane) ==> queued.At(lane) == []
  }

  /** The first packet is taken from the most urgent lane that has one. */
  method NextWriterPacket(lanes: Lanes) returns (next: Option<Taken>)
    requires lanes.Valid()
    modifies lanes`queued, lanes`taken
    ensures lanes.Valid()
    ensures next.None? <==> NothingWaits(old(lanes.queued))
    ensures next.None? ==> lanes.taken == old(lanes.taken) && lanes.queued == old(lanes.queued)
    ensures next.Some? ==> lanes.taken == old(lanes.taken) + [next.value] && MostUrgent(next.value, old(lanes.queued))
  {
    var packet := lanes.TryReceive(Small);
    if packet.Some? {
      assert old(lanes.queued).At(Small) != [];
      return Some(Taken(Small, packet.value));
    }
    packet := lanes.TryReceive(Medium);
    if packet.Some? {
      assert old(lanes.queued).At(Medium) != [];
      return Some(Taken(Medium, packet.value));
    }
    packet := lanes.TryReceive(Bulk);
    if packet.Some? {
      assert old(lanes.queued).At(Bulk) != [];
      return Some(Taken(Bulk, packet.value));
    }
    return None;
  }

  /** What a batch may be: packets of one lane, and why it ended. */
  ghost predicate OneLane(batch: seq<Taken>, first: Taken)
  {
    && 0 < |batch| <= BatchLimit(first.lane) && batch[0] == first
    && forall i | 0 <= i < |batch| :: batch[i].lane == first.lane
  }

  lemma StartsLane(first: Taken)
    ensures OneLane([first], first)
  {
  }

  lemma OneMoreInLane(batch: seq<Taken>, first: Taken, packet: Packet)
    requires OneLane(batch, first) && 0 < |batch| < BatchLimit(first.lane)
    ensures OneLane(batch + [Taken(first.lane, packet)], first)
    ensures (batch + [Taken(first.lane, packet)])[1..] == batch[1..] + [Taken(first.lane, packet)]
  {
  }

  /** A batch ends at the limit, when the lane is empty, or as soon as a more urgent lane has a packet. */
  ghost predicate Ended(batch: seq<Taken>, lane: PacketClass, left: PerLane)
  {
    |batch| < BatchLimit(lane) ==> left.At(lane) == [] || MoreUrgentWaiting(left, lane)
  }

  /** Queues the packet already taken and then the following packets of the same lane. */
  method GatherBatch(writer: TransportWriter, first: Taken, lanes: Lanes) returns (ghost batch: seq<Taken>)
    requires lanes.Valid()
    requires writer.pending == []
    modifies lanes, writer`pending
    ensures OneLane(batch, first)
    ensures lanes.Valid() && lanes.taken == old(lanes.taken) + batch[1..]
    ensures Ended(batch, first.lane, lanes.queued)
    ensures MoreUrgentWaiting(old(lanes.queued), first.lane) ==> |batch| == 1
    ensures writer.pending == Packets(batch)
  {
    hide MoreUrgentWaiting, BatchCanExtend, Grown, OneLane, Lanes.Valid, PerLane.Put;
    var limit := BatchLimit(first.lane);
    batch := [first];
    assert [first][..0] == [];
    StartsLane(first);
    writer.QueueData(first.packet);
    var sent := 1;
    while sent < limit
      invariant 1 <= sent == |batch|
      invariant OneLane(batch, first)
      invariant lanes.Valid() && lanes.taken == old(lanes.taken) + batch[1..]
      invariant writer.pending == Packets(batch) && |writer.pending| == sent
      invariant sent == 1 ==> lanes.queued == old(lanes.queued)
      invariant MoreUrgentWaiting(old(lanes.queued), first.lane) ==> sent == 1
    {
      lanes.OthersPush();
      ExtendsUnlessMoreUrgentWaits(lanes.queued, first.lane);
      if sent == 1 {
        StillWaiting(old(lanes.queued), lanes.queued, first.lane);
      }
      if !BatchCanExtend(first.lane, lanes.queued.small != [], lanes.queued.medium != []) {
        break;
      }
      var packet := lanes.TryReceive(first.lane);
      if packet.None? {
        break;
      }
      OneMoreTaken(batch, Taken(first.lane, packet.value));
      OneMoreInLane(batch, first, packet.value);
      writer.QueueData(packet.value);
      batch := batch + [Taken(first.lane, packet.value)];
      sent := sent + 1;
    }
  }

  /** A batch is gathered and flushed: what it holds goes out in its lane's order, numbered consecutively. */
  method SendWriterBatch(writer: TransportWriter, first: Taken, lanes: Lanes)
    returns (ok: bool, ghost batch: seq<Taken>)
    requires lanes.Valid()
    requires writer.pending == [] && writer.batch == []
    modifies lanes, writer`pending, writer`batch, writer.allocation`wire, writer.allocation`events, writer.state
    ensures OneLane(batch, first)
    ensures lanes.Valid() && lanes.taken == old(lanes.taken) + batch[1..]
    ensures Ended(batch, first.lane, lanes.queued)
    ensures ok ==> writer.allocation.ready && AllSendable(Packets(batch))
    ensures && writer.allocation.ready && AllSendable(Packets(batch))
            && 2 * |batch| <= Willing(old(writer.allocation.events))
            ==> ok
    ensures Willing(writer.allocation.events) + 2 * |batch| >= Willing(old(writer.allocation.events))
    ensures WireExtends(old(writer.allocation.wire), writer.allocation.wire, [], ok,
                        Packets(batch), writer.state.initialSequence, old(writer.state.count), writer.chosen)
    ensures ok ==> writer.pending == [] && writer.batch == []
    ensures ok ==> writer.state.count == CountAfter(old(writer.state.count), |batch|)
  {
    hide WireExtends, OnWire, OneLane, Lanes.Valid, AllSendable, Ended;
    batch := GatherBatch(writer, first, lanes);
    PacketsLength(batch);
    StartsWithFirst(batch, first);
    ok := writer.FlushQueuedData();
  }

  // ---------------------------------------------------------------------------------------------
  // Whole runs, with the commands that share the writer.
  // ---------------------------------------------------------------------------------------------

  /** Bytes to send outside the lanes; `acquired` and `fits` say whether they get a buffer that holds them. */
  datatype Command = Command(packet: Packet, acquired: bool, fits: bool)

  /** What the sender of a command is told; a command may fail before or after it has taken a number. */
  datatype Completion = Done | FailedUnnumbered | FailedNumbered

  /** What became of one number. */
  datatype Slot = FromLane(taken: Taken) | FromCommand(packet: Packet) | Skipped

  function PacketOf(slot: Slot): Packet
    requires !slot.Skipped?
  {
    if slot.FromLane? then slot.taken.packet else slot.packet
  }

  function PacketsOf(log: seq<Slot>): seq<Packet>
  {
    if log == [] then []
    else (if log[0].Skipped? then [] else [PacketOf(log[0])]) + PacketsOf(log[1..])
  }

  function TakenOf(log: seq<Slot>): seq<Taken>
  {
    if log == [] then [] else (if log[0].FromLane? then [log[0].taken] else []) + TakenOf(log[1..])
  }

  function Skips(log: seq<Slot>): nat
  {
    if log == [] then 0 else (if log[0].Skipped? then 1 else 0) + Skips(log[1..])
  }

  function Failures(completions: seq<Completion>): nat
  {
    if completions == [] then 0
    else Failures(completions[..|completions| - 1]) + if completions[|completions| - 1].FailedNumbered? then 1 else 0
  }

  /**
    `wire` is the log put on the wire, one number for each slot from `count` on: a packet once and possibly its
    duplicate behind it, and nothing for a skipped number.
  */
  predicate Carries(wire: seq<Datagram>, log: seq<Slot>, initial: u16, count: u64, chosen: (Packet, u64) -> bool)
    decreases |log|
  {
    if log == [] then wire == []
    else if log[0].Skipped? then Carries(wire, log[1..], initial, WrappingIncrement(count), chosen)
    else
      && wire != [] && wire[0] == Primary(PacketOf(log[0]), initial, count)
      && (|| Carries(wire[1..], log[1..], initial, WrappingIncrement(count), chosen)
          || (chosen(PacketOf(log[0]), count) && |wire| > 1 && wire[1] == wire[0].(duplicate := true) &&
              Carries(wire[2..], log[1..], initial, WrappingIncrement(count), chosen)))
  }

  /** The primaries a log puts on the wire. */
  function NumberedLog(log: seq<Slot>, initial: u16, count: u64): seq<Datagram>
  {
    if log == [] then []
    else
      var rest := NumberedLog(log[1..], initial, WrappingIncrement(count));
      if log[0].Skipped? then rest else [Primary(PacketOf(log[0]), initial, count)] + rest
  }

  /** Read off the wire: the primaries are the logged packets in order, each once and under its own number. */
  lemma {:induction false} CarriedInOrder(wire: seq<Datagram>, log: seq<Slot>, initial: u16, count: u64,
                                          chosen: (Packet, u64) -> bool)
    requires Carries(wire, log, initial, count, chosen)
    ensures Primaries(wire) == NumberedLog(log, initial, count)
    decreases |log|
  {
    if log != [] {
      var next := WrappingIncrement(count);
      if log[0].Skipped? {
        CarriedInOrder(wire, log[1..], initial, next, chosen);
      } else if Carries(wire[1..], log[1..], initial, next, chosen) {
        CarriedInOrder(wire[1..], log[1..], initial, next, chosen);
      } else {
        CarriedInOrder(wire[2..], log[1..], initial, next, chosen);
        assert wire[1..][1..] == wire[2..];
      }
    }
  }

  lemma {:induction false} CarriedDuplicatesFollow(wire: seq<Datagram>, log: seq<Slot>, initial: u16, count: u64,
                                                   chosen: (Packet, u64) -> bool, i: nat)
    requires Carries(wire, log, initial, count, chosen) && i < |wire| && wire[i].duplicate
    ensures i > 0 && wire[i] == wire[i - 1].(duplicate := true) && !wire[i - 1].duplicate
    decreases |log|
  {
    var next := WrappingIncrement(count);
    if log[0].Skipped? {
      CarriedDuplicatesFollow(wire, log[1..], initial, next, chosen, i);
    } else if Carries(wire[1..], log[1..], initial, next, chosen) {
      CarriedDuplicatesFollow(wire[1..], log[1..], initial, next, chosen, i - 1);
    } else if i > 1 {
      CarriedDuplicatesFollow(wire[2..], log[1..], initial, next, chosen, i - 2);
    }
  }

  lemma {:induction false} CarriesJoin(first: seq<Datagram>, second: seq<Datagram>, log: seq<Slot>, more: seq<Slot>,
                                       initial: u16, count: u64, chosen: (Packet, u64) -> bool)
    requires Carries(first, log, initial, count, chosen)
    requires Carries(second, more, initial, CountAfter(count, |log|), chosen)
    ensures Carries(first + second, log + more, initial, count, chosen)
    decreases |log|
  {
    if log == [] {
      assert first + second == second && log + more == more;
    } else {
      assert (log + more)[1..] == log[1..] + more;
      var next := WrappingIncrement(count);
      CountStep(count, |log| - 1);
      if log[0].Skipped? {
        CarriesJoin(first, second, log[1..], more, initial, next, chosen);
      } else if Carries(first[1..], log[1..], initial, next, chosen) {
        CarriesJoin(first[1..], second, log[1..], more, initial, next, chosen);
        assert (first + second)[1..] == first[1..] + second;
      } else {
        CarriesJoin(first[2..], second, log[1..], more, initial, next, chosen);
        assert (first + second)[2..] == first[2..] + second;
      }
    }
  }

  /** The log of a batch. */
  function Logged(batch: seq<Taken>): seq<Slot>
  {
    if batch == [] then [] else Logged(batch[..|batch| - 1]) + [FromLane(batch[|batch| - 1])]
  }

  lemma {:induction false} LoggedBatch(batch: seq<Taken>)
    ensures |Logged(batch)| == |batch| && Skips(Logged(batch)) == 0
    ensures TakenOf(Logged(batch)) == batch && PacketsOf(Logged(batch)) == Packets(batch)
  {
    if batch != [] {
      LoggedBatch(batch[..|batch| - 1]);
      var earlier, last := Logged(batch[..|batch| - 1]), [FromLane(batch[|batch| - 1])];
      SkipsJoin(earlier, last);
      TakenJoins(earlier, last);
      PacketsJoin(earlier, last);
      assert last[1..] == [];
      assert batch == batch[..|batch| - 1] + [batch[|batch| - 1]];
    }
  }

  lemma {:induction false} SkipsJoin(log: seq<Slot>, more: seq<Slot>)
    ensures Skips(log + more) == Skips(log) + Skips(more)
  {
    if log == [] {
      assert log + more == more;
    } else {
      SkipsJoin(log[1..], more);
      assert (log + more)[1..] == log[1..] + more;
    }
  }

  lemma {:induction false} TakenJoins(log: seq<Slot>, more: seq<Slot>)
    ensures TakenOf(log + more) == TakenOf(log) + TakenOf(more)
  {
    if log == [] {
      assert log + more == more;
    } else {
      TakenJoins(log[1..], more);
      assert (log + more)[1..] == log[1..] + more && (log + more)[0] == log[0];
      var head := if log[0].FromLane? then [log[0].taken] else [];
      assert head + (TakenOf(log[1..]) + TakenOf(more)) == head + TakenOf(log[1..]) + TakenOf(more);
    }
  }

  lemma {:induction false} PacketsJoin(log: seq<Slot>, more: seq<Slot>)
    ensures PacketsOf(log + more) == PacketsOf(log) + PacketsOf(more)
  {
    if log == [] {
      assert log + more == more;
    } else {
      PacketsJoin(log[1..], more);
      assert (log + more)[1..] == log[1..] + more && (log + more)[0] == log[0];
      var head := if log[0].Skipped? then [] else [PacketOf(log[0])];
      assert head + (PacketsOf(log[1..]) + PacketsOf(more)) == head + PacketsOf(log[1..]) + PacketsOf(more);
    }
  }

  /** Packets that all went out are a log without skips. */
  lemma {:induction false} OnWireIsCarried(wire: seq<Datagram>, log: seq<Slot>, initial: u16, count: u64,
                                           chosen: (Packet, u64) -> bool)
    requires Skips(log) == 0 && OnWire(wire, PacketsOf(log), initial, count, chosen)
    ensures Carries(wire, log, initial, count, chosen)
    decreases |log|
  {
    if log != [] {
      var next := WrappingIncrement(count);
      assert PacketsOf(log)[1..] == PacketsOf(log[1..]);
      if OnWire(wire[1..], PacketsOf(log[1..]), initial, next, chosen) {
        OnWireIsCarried(wire[1..], log[1..], initial, next, chosen);
      } else {
        OnWireIsCarried(wire[2..], log[1..], initial, next, chosen);
      }
    }
  }

  lemma NothingCarried(initial: u16, count: u64, chosen: (Packet, u64) -> bool)
    ensures Carries([], [], initial, count, chosen)
    ensures Carries([], [Skipped], initial, count, chosen)
  {
    assert [Skipped][1..] == [];
  }

  /** How many numbers were skipped before the packet in slot `j` is a multiple of the 16-bit span. */
  predicate GapFree(log: seq<Slot>, gap: nat)
  {
    forall j | 0 <= j < |log| && !log[j].Skipped? :: (gap + Skips(log[..j])) % U16_SPAN == 0
  }

  lemma GapFreeStep(log: seq<Slot>, gap: nat)
    requires log != []
    ensures GapFree(log, gap) <==>
              && (log[0].Skipped? || gap % U16_SPAN == 0)
              && GapFree(log[1..], gap + if log[0].Skipped? then 1 else 0)
  {
    var more := gap + if log[0].Skipped? then 1 else 0;
    forall j | 0 < j < |log| ensures gap + Skips(log[..j]) == more + Skips(log[1..][..j - 1]) {
      assert log[..j][1..] == log[1..][..j - 1];
    }
    assert log[..0] == [];
    if GapFree(log, gap) {
      forall j | 0 <= j < |log[1..]| && !log[1..][j].Skipped? ensures (more + Skips(log[1..][..j])) % U16_SPAN == 0 {
        assert !log[j + 1].Skipped?;
      }
    }
  }

  lemma SameSequenceExactly(initial: u16, count: u64, gap: nat)
    ensures SequenceAt(initial, CountAfter(count, gap)) == SequenceAt(initial, count) <==> gap % U16_SPAN == 0
  {
    hide SequenceAt;
    SequencesStayConsecutive(initial, count, gap);
    var s := SequenceAt(initial, count);
    var low := gap % U16_SPAN;
    assert (s + gap) % U16_SPAN == if s + low < U16_SPAN then s + low else s + low - U16_SPAN;
  }

  lemma {:induction false} GapsShow(log: seq<Slot>, initial: u16, count: u64, gap: nat)
    ensures NumberedLog(log, initial, CountAfter(count, gap)) == Numbered(PacketsOf(log), initial, count) <==>
              GapFree(log, gap)
    decreases |log|
  {
    hide GapFree, SequenceAt;
    if log == [] {
      EmptyIsGapFree(gap);
    } else {
      GapFreeStep(log, gap);
      CountStep(count, gap);
      if log[0].Skipped? {
        GapsShow(log[1..], initial, count, gap + 1);
        assert PacketsOf(log) == PacketsOf(log[1..]);
      } else {
        GapsShow(log[1..], initial, WrappingIncrement(count), gap);
        SameSequenceExactly(initial, count, gap);
        HeadsAndTails(Primary(PacketOf(log[0]), initial, CountAfter(count, gap)),
                      NumberedLog(log[1..], initial, CountAfter(count, gap + 1)),
                      Primary(PacketOf(log[0]), initial, count),
                      Numbered(PacketsOf(log[1..]), initial, WrappingIncrement(count)));
        assert PacketsOf(log) == [PacketOf(log[0])] + PacketsOf(log[1..]);
        assert PacketsOf(log)[1..] == PacketsOf(log[1..]);
      }
    }
  }

  lemma EmptyIsGapFree(gap: nat)
    ensures GapFree([], gap)
  {
  }

  lemma HeadsAndTails(a: Datagram, rest: seq<Datagram>, b: Datagram, bs: seq<Datagram>)
    ensures [a] + rest == [b] + bs <==> a == b && rest == bs
  {
    if [a] + rest == [b] + bs {
      assert ([a] + rest)[0] == a && ([b] + bs)[0] == b;
      assert ([a] + rest)[1..] == rest && ([b] + bs)[1..] == bs;
    }
  }

  /**
    Exactly when the wire numbers its packets consecutively: if and only if before every packet the number of skipped
    numbers is a multiple of 2^16. Without a skip that is so; with fewer than 2^16 skips it is so only if no packet
    follows one.
  */
  lemma ConsecutiveExactly(wire: seq<Datagram>, log: seq<Slot>, initial: u16, count: u64, chosen: (Packet, u64) -> bool)
    requires Carries(wire, log, initial, count, chosen)
    ensures Primaries(wire) == Numbered(PacketsOf(log), initial, count) <==> GapFree(log, 0)
    ensures Skips(log) == 0 ==> GapFree(log, 0)
    ensures Skips(log) < U16_SPAN ==>
              (GapFree(log, 0) <==> forall i, j | 0 <= i < j < |log| && log[i].Skipped? :: log[j].Skipped?)
  {
    CarriedInOrder(wire, log, initial, count, chosen);
    GapsShow(log, initial, count, 0);
    FewSkips(log);
  }

  lemma {:induction false} SkipsGrow(log: seq<Slot>, i: nat, j: nat)
    requires i <= j <= |log|
    ensures Skips(log[..i]) <= Skips(log[..j]) <= Skips(log)
    ensures i < j && log[i].Skipped? ==> Skips(log[..i]) < Skips(log[..j])
  {
    assert log[..j] == log[..i] + log[i..j] && log == log[..j] + log[j..];
    SkipsJoin(log[..i], log[i..j]);
    SkipsJoin(log[..j], log[j..]);
  }

  lemma {:induction false} SomeSkip(log: seq<Slot>) returns (i: nat)
    requires Skips(log) > 0
    ensures i < |log| && log[i].Skipped?
  {
    if log[0].Skipped? {
      i := 0;
    } else {
      i := SomeSkip(log[1..]);
      i := i + 1;
    }
  }

  lemma FewSkips(log: seq<Slot>)
    ensures Skips(log) == 0 ==> GapFree(log, 0)
    ensures Skips(log) < U16_SPAN ==>
              (GapFree(log, 0) <==> forall i, j | 0 <= i < j < |log| && log[i].Skipped? :: log[j].Skipped?)
  {
    forall j | 0 <= j < |log| ensures Skips(log[..j]) <= Skips(log) {
      SkipsGrow(log, j, j);
    }
    forall i, j | 0 <= i < j < |log| && log[i].Skipped? ensures Skips(log[..j]) > 0 {
      SkipsGrow(log, i, j);
    }
    forall j | 0 <= j < |log| && Skips(log[..j]) > 0 ensures exists i :: 0 <= i < j && log[i].Skipped? {
      var i := SomeSkip(log[..j]);
      assert log[i].Skipped?;
    }
  }

  /** A command goes straight to the wire; it takes a number unless it fails before that. */
  method HandleCommand(writer: TransportWriter, command: Command)
    returns (completion: Completion, ghost tail: seq<Datagram>)
    modifies writer.allocation`wire, writer.allocation`events, writer.state
    ensures completion.FailedUnnumbered? <==> !command.acquired || !command.fits || command.packet.empty
    ensures completion.Done? <==>
              && command.acquired && command.fits && Sendable(command.packet)
              && writer.allocation.ready && Room(old(writer.allocation.events)) > 0
    ensures Willing(writer.allocation.events) + 2 >= Willing(old(writer.allocation.events))
    ensures writer.state.count ==
            if completion.FailedUnnumbered? then old(writer.state.count) else WrappingIncrement(old(writer.state.count))
    ensures writer.allocation.wire == old(writer.allocation.wire) + tail
    ensures if completion.Done? then
              OnWire(tail, [command.packet], writer.state.initialSequence, old(writer.state.count), writer.chosen)
            else tail == []
  {
    hide OnWire, WireExtends;
    tail := [];
    if !command.acquired || !command.fits {
      return FailedUnnumbered, [];
    }
    ghost var before, count := writer.allocation.wire, writer.state.count;
    var ok := writer.SendData(command.packet);
    if ok {
      tail := Sent(before, writer.allocation.wire, [command.packet], writer.state.initialSequence, count,
          writer.chosen);
    }
    completion := if ok then Done else if command.packet.empty then FailedUnnumbered else FailedNumbered;
  }

  /** One slot for a command that took a number. */
  function CommandLog(command: Command, completion: Completion): seq<Slot>
  {
    match completion
    case Done => [FromCommand(command.packet)]
    case FailedUnnumbered => []
    case FailedNumbered => [Skipped]
  }

  lemma CommandIsCarried(command: Command, completion: Completion, tail: seq<Datagram>, initial: u16, count: u64,
                         chosen: (Packet, u64) -> bool)
    requires if completion.Done? then OnWire(tail, [command.packet], initial, count, chosen) else tail == []
    ensures Carries(tail, CommandLog(command, completion), initial, count, chosen)
    ensures TakenOf(CommandLog(command, completion)) == []
    ensures Skips(CommandLog(command, completion)) == if completion.FailedNumbered? then 1 else 0
  {
    NothingCarried(initial, count, chosen);
    if completion.Done? {
      assert [FromCommand(command.packet)][1..] == [];
      OnWireIsCarried(tail, CommandLog(command, completion), initial, count, chosen);
    }
  }

  /** What one round did: it answered a command, flushed a batch, or found nothing to do. */
  datatype Outcome = Answer(command: Command, completion: Completion) | Flushed(batch: seq<Taken>) | Quiet

  /** The moment before a round: the lanes, what is still to arrive, and the coming socket attempts. */
  datatype Moment = Moment(queued: PerLane, arrivals: seq<PerLane>, events: seq<SocketEvent>)

  ghost function Now(writer: TransportWriter, lanes: Lanes): Moment
    reads lanes, writer.allocation
  {
    Moment(lanes.queued, lanes.arrivals, writer.allocation.events)
  }

  function AddedBy(outcome: Outcome): seq<Slot>
  {
    match outcome
    case Answer(command, completion) => CommandLog(command, completion)
    case Flushed(batch) => Logged(batch)
    case Quiet => []
  }

  function LogOf(outcomes: seq<Outcome>): seq<Slot>
  {
    if outcomes == [] then [] else LogOf(outcomes[..|outcomes| - 1]) + AddedBy(outcomes[|outcomes| - 1])
  }

  /** A batch that starts with the most urgent packet seen, stays in its lane and ended for a reason. */
  ghost predicate Gathered(batch: seq<Taken>, seen: PerLane, left: PerLane)
  {
    && batch != [] && OneLane(batch, batch[0])
    && MostUrgent(batch[0], seen)
    && Ended(batch, batch[0].lane, left)
  }

  /** The batch needs no luck: everything in it can be sent and the socket takes something often enough. */
  predicate GoesThrough(ready: bool, batch: seq<Taken>, events: seq<SocketEvent>)
  {
    ready && AllSendable(Packets(batch)) && 2 * |batch| <= Willing(events)
  }

  /** What the sender of a command is told, and when. */
  predicate Answered(ready: bool, command: Command, completion: Completion, events: seq<SocketEvent>)
  {
    && (completion.FailedUnnumbered? <==> !command.acquired || !command.fits || command.packet.empty)
    && (completion.Done? <==>
          command.acquired && command.fits && Sendable(command.packet) && ready && Room(events) > 0)
  }

  /**
    The right outcome of a round that went well: a waiting command is answered and the lanes are left alone; otherwise
    a batch goes out unless every lane is empty.
  */
  ghost predicate RoundDone(ready: bool, command: Option<Command>, before: Moment, outcome: Outcome, after: Moment)
  {
    var seen := Look(before.queued, before.arrivals);
    match command
    case Some(c) =>
      && outcome.Answer? && outcome.command == c && Answered(ready, c, outcome.completion, before.events)
      && after.queued == seen && Willing(after.events) + 2 >= Willing(before.events)
    case None =>
      if NothingWaits(seen) then outcome == Quiet && after.queued == seen && after.events == before.events
      else
        && outcome.Flushed? && Gathered(outcome.batch, seen, after.queued)
        && ready && AllSendable(Packets(outcome.batch))
        && Willing(after.events) + 2 * |outcome.batch| >= Willing(before.events)
  }

  /** The writer gives up in a round only over a batch, and only if something keeps that batch from going through. */
  ghost predicate RoundFails(ready: bool, command: Option<Command>, before: Moment, batch: seq<Taken>, left: PerLane)
  {
    && command.None?
    && Gathered(batch, Look(before.queued, before.arrivals), left)
    && !GoesThrough(ready, batch, before.events)
  }

  /** One round: a waiting command first, else a batch; `tail` is what it puts on the wire. */
  method Round(writer: TransportWriter, lanes: Lanes, command: Option<Command>)
    returns (ok: bool, completion: Option<Completion>, ghost outcome: Outcome, ghost tail: seq<Datagram>)
    requires lanes.Valid()
    requires writer.pending == [] && writer.batch == []
    modifies lanes, writer`pending, writer`batch, writer.allocation`wire, writer.allocation`events, writer.state
    ensures lanes.Valid()
    ensures completion == if outcome.Answer? then Some(outcome.completion) else None
    ensures outcome.Answer? == command.Some? && (outcome.Answer? ==> outcome.command == command.value)
    ensures !ok ==> outcome.Flushed? && old(writer.allocation.wire) <= writer.allocation.wire
    ensures !ok ==> RoundFails(writer.allocation.ready, command, old(Now(writer, lanes)), outcome.batch, lanes.queued)
    ensures ok ==>
              && writer.pending == [] && writer.batch == []
              && RoundDone(writer.allocation.ready, command, old(Now(writer, lanes)), outcome, Now(writer, lanes))
              && writer.allocation.wire == old(writer.allocation.wire) + tail
              && lanes.taken == old(lanes.taken) + TakenOf(AddedBy(outcome))
              && writer.state.count == CountAfter(old(writer.state.count), |AddedBy(outcome)|)
              && Carries(tail, AddedBy(outcome), writer.state.initialSequence, old(writer.state.count), writer.chosen)
              && Skips(AddedBy(outcome)) == if completion == Some(FailedNumbered) then 1 else 0
  {
    hide WireExtends, OnWire, OneLane, MoreUrgent, Lanes.Valid, Grown, PerLane.Put, PerLane.Append, PerLane.At, Look;
    hide NothingWaits, MostUrgent, Ended, AllSendable, Sendable;
    ghost var start, before, taken := writer.state.count, writer.allocation.wire, lanes.taken;
    NothingCarried(writer.state.initialSequence, start, writer.chosen);
    ok, completion, outcome, tail := true, None, Quiet, [];
    lanes.OthersPush();
    if command.Some? {
      var done, sent := HandleCommand(writer, command.value);
      completion, outcome, tail := Some(done), Answer(command.value, done), sent;
      CommandIsCarried(command.value, done, tail, writer.state.initialSequence, start, writer.chosen);
      assert lanes.taken == taken + [];
      return;
    }
    var next := NextWriterPacket(lanes);
    if next.None? {
      assert lanes.taken == taken + [] && writer.allocation.wire == before + [];
      return;
    }
    ghost var batch;
    ok, batch := SendWriterBatch(writer, next.value, lanes);
    StartsWithFirst(batch, next.value);
    outcome := Flushed(batch);
    if ok {
      tail := BatchSent(before, writer.allocation.wire, batch, writer.state.initialSequence, start, writer.chosen);
      BatchFollowsTaken(taken, next.value, batch);
    } else {
      StillBegins(before, writer.allocation.wire, Packets(batch), writer.state.initialSequence, start, writer.chosen);
    }
  }

  lemma StartsWithFirst(batch: seq<Taken>, first: Taken)
    requires OneLane(batch, first)
    ensures batch != [] && batch[0] == first
  {
  }

  /** One completion for each command among the rounds, in order. */
  predicate AllAnswered(rounds: seq<Option<Command>>, outcomes: seq<Outcome>, completions: seq<Completion>)
    requires |outcomes| == |rounds|
  {
    if rounds == [] then completions == []
    else
      var n := |rounds| - 1;
      if rounds[n].None? then AllAnswered(rounds[..n], outcomes[..n], completions)
      else
        && completions != [] && outcomes[n] == Answer(rounds[n].value, completions[|completions| - 1])
        && AllAnswered(rounds[..n], outcomes[..n], completions[..|completions| - 1])
  }

  /** Every round did its work, from one moment to the next. */
  ghost predicate RoundsDone(ready: bool, rounds: seq<Option<Command>>, outcomes: seq<Outcome>, moments: seq<Moment>)
    requires |outcomes| <= |rounds| && |moments| == |outcomes| + 1
  {
    forall i | 0 <= i < |outcomes| :: RoundDone(ready, rounds[i], moments[i], outcomes[i], moments[i + 1])
  }

  /**
    The writer over a whole run, one command or batch a round. Every round does its work; whatever is taken from the
    lanes or commanded reaches the wire in that order under one numbering; a number is skipped exactly for each command
    that failed after taking it. It ends early only in a round whose batch could not go through.
  */
  method WriterLoop(writer: TransportWriter, lanes: Lanes, rounds: seq<Option<Command>>)
    returns (ok: bool, completions: seq<Completion>, ghost outcomes: seq<Outcome>, ghost moments: seq<Moment>,
             ghost more: seq<Datagram>)
    requires lanes.Valid() && lanes.taken == []
    requires writer.pending == [] && writer.batch == []
    modifies lanes, writer`pending, writer`batch, writer.allocation`wire, writer.allocation`events, writer.state
    ensures lanes.Valid()
    ensures |outcomes| <= |rounds| && |moments| == |outcomes| + 1 && moments[0] == old(Now(writer, lanes))
    ensures RoundsDone(writer.allocation.ready, rounds, outcomes, moments)
    ensures AllAnswered(rounds[..|outcomes|], outcomes, completions)
    ensures Carries(more, LogOf(outcomes), writer.state.initialSequence, old(writer.state.count), writer.chosen)
    ensures old(writer.allocation.wire) + more <= writer.allocation.wire
    ensures Skips(LogOf(outcomes)) == Failures(completions)
    ensures ok ==>
              && |outcomes| == |rounds| && moments[|rounds|] == Now(writer, lanes)
              && writer.allocation.wire == old(writer.allocation.wire) + more
              && TakenOf(LogOf(outcomes)) == lanes.taken
              && writer.state.count == CountAfter(old(writer.state.count), |LogOf(outcomes)|)
    ensures !ok ==>
              && |outcomes| < |rounds|
              && exists batch :: RoundFails(writer.allocation.ready, rounds[|outcomes|], moments[|outcomes|], batch,
                                            lanes.queued)
  {
    hide Lanes.Valid, RoundDone, RoundFails, Carries, AddedBy, RoundsDone, AllAnswered, LogOf, Failures, Skips;
    ghost var count, before := writer.state.count, writer.allocation.wire;
    ok, completions, outcomes, moments, more := true, [], [], [Now(writer, lanes)], [];
    NothingCarried(writer.state.initialSequence, count, writer.chosen);
    NothingDone(writer.allocation.ready, rounds, Now(writer, lanes));
    for i := 0 to |rounds|
      invariant lanes.Valid() && writer.pending == [] && writer.batch == []
      invariant |outcomes| == i && |moments| == i + 1
      invariant moments[0] == old(Now(writer, lanes)) && moments[i] == Now(writer, lanes)
      invariant RoundsDone(writer.allocation.ready, rounds, outcomes, moments)
      invariant AllAnswered(rounds[..i], outcomes, completions)
      invariant ok && writer.allocation.wire == before + more
      invariant writer.state.count == CountAfter(count, |LogOf(outcomes)|)
      invariant TakenOf(LogOf(outcomes)) == lanes.taken && Skips(LogOf(outcomes)) == Failures(completions)
      invariant Carries(more, LogOf(outcomes), writer.state.initialSequence, count, writer.chosen)
    {
      var completion: Option<Completion>;
      ghost var outcome: Outcome, tail: seq<Datagram>;
      ok, completion, outcome, tail := Round(writer, lanes, rounds[i]);
      if !ok {
        return;
      }
      OneMoreOutcome(outcomes, outcome, count);
      OneMoreAnswer(rounds, i, outcomes, completions, outcome);
      OneMoreDone(writer.allocation.ready, rounds, outcomes, moments, outcome, Now(writer, lanes));
      if completion.Some? {
        completions := completions + [completion.value];
      }
      CarriesJoin(more, tail, LogOf(outcomes), AddedBy(outcome), writer.state.initialSequence, count, writer.chosen);
      assert before + more + tail == before + (more + tail);
      outcomes, moments, more := outcomes + [outcome], moments + [Now(writer, lanes)], more + tail;
    }
    assert rounds[..|rounds|] == rounds;
  }

  lemma NothingDone(ready: bool, rounds: seq<Option<Command>>, now: Moment)
    ensures RoundsDone(ready, rounds, [], [now]) && AllAnswered(rounds[..0], [], [])
    ensures LogOf([]) == [] && Skips([]) == Failures([]) == 0
  {
  }

  lemma OneMoreOutcome(outcomes: seq<Outcome>, outcome: Outcome, count: u64)
    ensures var log, added := LogOf(outcomes), AddedBy(outcome);
            && LogOf(outcomes + [outcome]) == log + added
            && TakenOf(log + added) == TakenOf(log) + TakenOf(added)
            && Skips(log + added) == Skips(log) + Skips(added)
            && CountAfter(CountAfter(count, |log|), |added|) == CountAfter(count, |log + added|)
  {
    assert (outcomes + [outcome])[..|outcomes|] == outcomes;
    CountsAddUp(count, |LogOf(outcomes)|, |AddedBy(outcome)|);
    SkipsJoin(LogOf(outcomes), AddedBy(outcome));
    TakenJoins(LogOf(outcomes), AddedBy(outcome));
  }

  lemma OneMoreAnswer(rounds: seq<Option<Command>>, i: nat, outcomes: seq<Outcome>, completions: seq<Completion>,
                      outcome: Outcome)
    requires i < |rounds| && |outcomes| == i && AllAnswered(rounds[..i], outcomes, completions)
    requires outcome.Answer? == rounds[i].Some? && (outcome.Answer? ==> outcome.command == rounds[i].value)
    ensures var now := if outcome.Answer? then completions + [outcome.completion] else completions;
            && AllAnswered(rounds[..i + 1], outcomes + [outcome], now)
            && Failures(now) ==
                 Failures(completions) + if outcome.Answer? && outcome.completion.FailedNumbered? then 1 else 0
  {
    assert rounds[..i + 1][..i] == rounds[..i] && (outcomes + [outcome])[..i] == outcomes;
    if outcome.Answer? {
      assert (completions + [outcome.completion])[..|completions|] == completions;
    }
  }

  lemma OneMoreDone(ready: bool, rounds: seq<Option<Command>>, outcomes: seq<Outcome>, moments: seq<Moment>,
                    outcome: Outcome, now: Moment)
    requires |outcomes| < |rounds| && |moments| == |outcomes| + 1 && RoundsDone(ready, rounds, outcomes, moments)
    requires RoundDone(ready, rounds[|outcomes|], moments[|outcomes|], outcome, now)
    ensures RoundsDone(ready, rounds, outcomes + [outcome], moments + [now])
  {
    hide RoundDone;
  }

  lemma StillBegins(before: seq<Datagram>, now: seq<Datagram>, packets: seq<Packet>, initial: u16, count: u64,
                    chosen: (Packet, u64) -> bool)
    requires WireExtends(before, now, [], false, packets, initial, count, chosen)
    ensures before <= now
  {
  }

  lemma BatchSent(before: seq<Datagram>, now: seq<Datagram>, batch: seq<Taken>, initial: u16, count: u64,
                  chosen: (Packet, u64) -> bool) returns (tail: seq<Datagram>)
    requires WireExtends(before, now, [], true, Packets(batch), initial, count, chosen)
    ensures now == before + tail && Carries(tail, Logged(batch), initial, count, chosen)
    ensures |Logged(batch)| == |batch| && Skips(Logged(batch)) == 0 && TakenOf(Logged(batch)) == batch
  {
    tail := Sent(before, now, Packets(batch), initial, count, chosen);
    LoggedBatch(batch);
    OnWireIsCarried(tail, Logged(batch), initial, count, chosen);
  }

  lemma BatchFollowsTaken(taken: seq<Taken>, first: Taken, batch: seq<Taken>)
    requires OneLane(batch, first)
    ensures taken + [first] + batch[1..] == taken + batch
  {
  }

  lemma Sent(before: seq<Datagram>, now: seq<Datagram>, packets: seq<Packet>, initial: u16, count: u64,
             chosen: (Packet, u64) -> bool) returns (tail: seq<Datagram>)
    requires WireExtends(before, now, [], true, packets, initial, count, chosen)
    ensures now == before + tail && OnWire(tail, packets, initial, count, chosen)
  {
    var more, n :| 0 <= n <= |packets| && OnWire(more, packets[..n], initial, count, chosen) && n == |packets| &&
                   now == before + [] + more;
    assert packets[..n] == packets && before + [] == before;
    tail := more;
  }

  lemma {:induction false} CountsAddUp(count: u64, a: nat, b: nat)
    ensures CountAfter(CountAfter(count, a), b) == CountAfter(count, a + b)
  {
    if b > 0 {
      CountsAddUp(count, a, b - 1);
    }
  }
}
