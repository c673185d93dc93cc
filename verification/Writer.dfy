/**
  The sending side of a session: queued packets are numbered, some are sent twice, the others go out
  in kernel batches that may be accepted piecemeal. Whatever happens, the wire shows the packets in
  queue order.
*/
module Writer {
  import opened Arithmetic
  import opened Common
  import opened RtpSequence

  const MAX_DATAGRAMS: nat := 128
  const BULK_BATCH_LIMIT: nat := 128
  const PRIORITY_BATCH_LIMIT: nat := 64
  const LATENCY_BATCH_LIMIT: nat := 16

  /** A packet to send; `wraps` and `frames` say whether the headers still fit into its buffer. */
  datatype Packet = Packet(id: nat, empty: bool, wraps: bool, frames: bool)

  datatype Datagram = Datagram(packet: Packet, sequence: u16, duplicate: bool)

  /** What one attempt of the socket brings: some prefix accepted, nothing yet, or an error. */
  datatype SocketEvent = Accepts(count: nat) | WouldBlock | Fails

  // ---------------------------------------------------------------------------------------------
  // What the wire must show.
  // ---------------------------------------------------------------------------------------------

  /** The packet count `k` packets later; it wraps at 64 bits. */
  function CountAfter(count: u64, k: nat): u64
  {
    if k == 0 then count else WrappingIncrement(CountAfter(count, k - 1))
  }

  lemma {:induction false} CountStep(count: u64, k: nat)
    ensures CountAfter(WrappingIncrement(count), k) == CountAfter(count, k + 1)
  {
    if k > 0 {
      CountStep(count, k - 1);
    }
  }

  lemma NextSequence(initial: u16, count: u64)
    ensures SequenceAt(initial, WrappingIncrement(count)) == (SequenceAt(initial, count) + 1) % U16_SPAN
  {
    if count == U64_MAX {
      assert count % U16_SPAN == 0xffff;
    } else {
      var low := count % U16_SPAN;
      assert (count + 1) % U16_SPAN == if low == 0xffff then 0 else low + 1;
    }
  }

  /** The wrap of the count does not show on the wire: sequences stay consecutive modulo 2^16. */
  lemma {:induction false} SequencesStayConsecutive(initial: u16, count: u64, k: nat)
    ensures SequenceAt(initial, CountAfter(count, k)) == (SequenceAt(initial, count) + k) % U16_SPAN
  {
    if k > 0 {
      SequencesStayConsecutive(initial, count, k - 1);
      NextSequence(initial, CountAfter(count, k - 1));
      NextResidue(SequenceAt(initial, count) + k - 1, U16_SPAN);
    }
  }

  function Primary(packet: Packet, initial: u16, count: u64): Datagram
  {
    Datagram(packet, SequenceAt(initial, count), false)
  }

  /**
    `wire` is the packets in order, numbered consecutively from `count`, each once, and behind a
    packet chosen for duplication possibly its duplicate.
  */
  predicate OnWire(wire: seq<Datagram>, packets: seq<Packet>, initial: u16, count: u64, chosen: (Packet, u64) -> bool)
    decreases |packets|
  {
    if packets == [] then wire == []
    else
      && wire != [] && wire[0] == Primary(packets[0], initial, count)
      && (|| OnWire(wire[1..], packets[1..], initial, WrappingIncrement(count), chosen)
          || (chosen(packets[0], count) && |wire| > 1 && wire[1] == wire[0].(duplicate := true) &&
              OnWire(wire[2..], packets[1..], initial, WrappingIncrement(count), chosen)))
  }

  function Primaries(wire: seq<Datagram>): seq<Datagram>
  {
    if wire == [] then []
    else if wire[0].duplicate then Primaries(wire[1..])
    else [wire[0]] + Primaries(wire[1..])
  }

  function Numbered(packets: seq<Packet>, initial: u16, count: u64): seq<Datagram>
  {
    if packets == [] then []
    else [Primary(packets[0], initial, count)] + Numbered(packets[1..], initial, WrappingIncrement(count))
  }

  lemma {:induction false} NumberedAt(packets: seq<Packet>, initial: u16, count: u64, i: nat)
    requires i < |packets|
    ensures |Numbered(packets, initial, count)| == |packets|
    ensures Numbered(packets, initial, count)[i] == Primary(packets[i], initial, CountAfter(count, i))
  {
    CountStep(count, if i == 0 then 0 else i - 1);
    if |packets| > 1 {
      NumberedAt(packets[1..], initial, WrappingIncrement(count), if i == 0 then 0 else i - 1);
    }
  }

  /** Read off the wire: the primaries are exactly the packets, in order, with consecutive sequences. */
  lemma {:induction false} PrimariesInOrder(wire: seq<Datagram>, packets: seq<Packet>, initial: u16, count: u64,
                                            chosen: (Packet, u64) -> bool)
    requires OnWire(wire, packets, initial, count, chosen)
    ensures Primaries(wire) == Numbered(packets, initial, count)
    decreases |packets|
  {
    if packets != [] {
      if OnWire(wire[1..], packets[1..], initial, WrappingIncrement(count), chosen) {
        PrimariesInOrder(wire[1..], packets[1..], initial, WrappingIncrement(count), chosen);
      } else {
        PrimariesInOrder(wire[2..], packets[1..], initial, WrappingIncrement(count), chosen);
        assert wire[1..][1..] == wire[2..];
      }
    }
  }

  /** A duplicate always stands right behind the primary it repeats. */
  lemma {:induction false} DuplicatesFollowTheirPrimary(wire: seq<Datagram>, packets: seq<Packet>, initial: u16,
                                                        count: u64, chosen: (Packet, u64) -> bool, i: nat)
    requires OnWire(wire, packets, initial, count, chosen) && i < |wire| && wire[i].duplicate
    ensures i > 0 && wire[i] == wire[i - 1].(duplicate := true) && !wire[i - 1].duplicate
    decreases |packets|
  {
    if OnWire(wire[1..], packets[1..], initial, WrappingIncrement(count), chosen) {
      DuplicatesFollowTheirPrimary(wire[1..], packets[1..], initial, WrappingIncrement(count), chosen, i - 1);
    } else if i > 1 {
      DuplicatesFollowTheirPrimary(wire[2..], packets[1..], initial, WrappingIncrement(count), chosen, i - 2);
    }
  }

  /** What follows on the wire continues the numbering. */
  lemma {:induction false} WiresJoin(first: seq<Datagram>, second: seq<Datagram>, packets: seq<Packet>,
                                     more: seq<Packet>, initial: u16, count: u64, chosen: (Packet, u64) -> bool)
    requires OnWire(first, packets, initial, count, chosen)
    requires OnWire(second, more, initial, CountAfter(count, |packets|), chosen)
    ensures OnWire(first + second, packets + more, initial, count, chosen)
    decreases |packets|
  {
    CountStep(count, |packets|);
    if packets == [] {
      assert first + second == second && packets + more == more;
    } else {
      assert (packets + more)[1..] == packets[1..] + more;
      CountStep(count, |packets| - 1);
      if OnWire(first[1..], packets[1..], initial, WrappingIncrement(count), chosen) {
        WiresJoin(first[1..], second, packets[1..], more, initial, WrappingIncrement(count), chosen);
        assert (first + second)[1..] == first[1..] + second;
      } else {
        WiresJoin(first[2..], second, packets[1..], more, initial, WrappingIncrement(count), chosen);
        assert (first + second)[2..] == first[2..] + second;
      }
    }
  }

  lemma OneMoreOnWire(wire: seq<Datagram>, packets: seq<Packet>, packet: Packet, initial: u16, count: u64,
                      chosen: (Packet, u64) -> bool)
    requires OnWire(wire, packets, initial, count, chosen)
    ensures var primary := Primary(packet, initial, CountAfter(count, |packets|));
            && OnWire(wire + [primary], packets + [packet], initial, count, chosen)
            && (chosen(packet, CountAfter(count, |packets|)) ==>
                  OnWire(wire + [primary, primary.(duplicate := true)], packets + [packet], initial, count, chosen))
  {
    var primary := Primary(packet, initial, CountAfter(count, |packets|));
    CountStep(count, |packets|);
    assert [packet][1..] == [];
    assert [primary][1..] == [];
    WiresJoin(wire, [primary], packets, [packet], initial, count, chosen);
    if chosen(packet, CountAfter(count, |packets|)) {
      var both := [primary, primary.(duplicate := true)];
      assert both[2..] == [];
      WiresJoin(wire, both, packets, [packet], initial, count, chosen);
    }
  }

  lemma PiecesJoin(s: seq<Datagram>, i: nat, j: nat, n: nat)
    requires i <= j <= |s| && n <= j - i
    ensures s[..i] + s[i..j][..n] == s[..i + n]
    ensures s[i..j][..j - i] == s[i..j]
    ensures forall before: seq<Datagram> :: before + s[..i] + s[i..j][..n] == before + s[..i + n]
  {
    assert s[..i] + s[i..j][..n] == s[..i + n];
    forall before: seq<Datagram> ensures before + s[..i] + s[i..j][..n] == before + s[..i + n] {
      assert before + s[..i] + s[i..j][..n] == before + (s[..i] + s[i..j][..n]);
    }
  }

  // ---------------------------------------------------------------------------------------------
  // The transport.
  // ---------------------------------------------------------------------------------------------

  /** How many datagrams the socket takes before it fails. */
  function Room(events: seq<SocketEvent>): nat
  {
    if events == [] || events[0].Fails? then 0
    else (if events[0].Accepts? then events[0].count else 0) + Room(events[1..])
  }

  /** How many attempts take something before the socket fails. */
  function Willing(events: seq<SocketEvent>): nat
  {
    if events == [] || events[0].Fails? then 0
    else (if events[0].Accepts? && events[0].count > 0 then 1 else 0) + Willing(events[1..])
  }

  /** What is left of the script when `n` datagrams are sent. */
  function After(events: seq<SocketEvent>, n: nat): seq<SocketEvent>
  {
    if n == 0 || events == [] then events
    else match events[0]
      case Accepts(count) => After(events[1..], if count > n then 0 else n - count)
      case WouldBlock => After(events[1..], n)
      case Fails => events[1..]
  }

  /** The next attempt takes something. */
  predicate Takes(events: seq<SocketEvent>)
  {
    events != [] && events[0].Accepts? && events[0].count > 0
  }

  /** Willing attempts are room, and sending uses up at most one of them a datagram. */
  lemma {:induction false} SendingCosts(events: seq<SocketEvent>, n: nat)
    ensures Willing(events) <= Room(events)
    ensures Willing(After(events, n)) + n >= Willing(events)
  {
    if events != [] && !events[0].Fails? {
      SendingCosts(events[1..], n);
      if events[0].Accepts? {
        SendingCosts(events[1..], if events[0].count > n then 0 else n - events[0].count);
      }
    }
  }

  predicate AllFrame(datagrams: seq<Datagram>)
  {
    forall i | 0 <= i < |datagrams| :: datagrams[i].packet.frames
  }

  /** Nothing about the packet itself keeps it from the wire. */
  predicate Sendable(packet: Packet)
  {
    !packet.empty && packet.wraps && packet.frames
  }

  predicate AllSendable(packets: seq<Packet>)
  {
    forall i | 0 <= i < |packets| :: Sendable(packets[i])
  }

  class Allocation {
    const udp: bool
    /** The allocation is open and has a bound channel. */
    var ready: bool
    var wire: seq<Datagram>
    /** What the coming socket attempts bring; when it runs out the socket has failed. */
    var events: seq<SocketEvent>

    constructor (udp: bool, ready: bool, events: seq<SocketEvent>)
      ensures this.udp == udp && this.ready == ready && wire == [] && this.events == events
    {
      this.udp, this.ready, this.wire, this.events := udp, ready, [], events;
    }

    method NextEvent() returns (event: SocketEvent)
      modifies this`events
      ensures event == if old(events) == [] then Fails else old(events)[0]
      ensures events == if old(events) == [] then [] else old(events)[1..]
    {
      if events == [] {
        return Fails;
      }
      event := events[0];
      events := events[1..];
    }

    /**
      `send_connected`: keeps offering the rest of the batch until all of it is accepted. It succeeds exactly when the
      socket takes that many datagrams before it fails.
    */
    method SendConnected(datagrams: seq<Datagram>) returns (ok: bool)
      modifies this`wire, this`events
      ensures ok <==> |datagrams| <= MAX_DATAGRAMS && |datagrams| <= Room(old(events))
      ensures ok ==> wire == old(wire) + datagrams
      ensures !ok ==> exists n | 0 <= n < |datagrams| :: wire == old(wire) + datagrams[..n]
      ensures |datagrams| <= MAX_DATAGRAMS ==> events == After(old(events), |datagrams|)
      ensures Willing(events) + |datagrams| >= Willing(old(events))
    {
      assert wire == old(wire) + datagrams[..0];
      if |datagrams| > MAX_DATAGRAMS {
        return false;
      }
      SendingCosts(events, |datagrams|);
      var sent := 0;
      while sent < |datagrams|
        invariant 0 <= sent <= |datagrams| && wire == old(wire) + datagrams[..sent]
        invariant After(events, |datagrams| - sent) == After(old(events), |datagrams|)
        invariant |datagrams| <= Room(old(events)) <==> |datagrams| - sent <= Room(events)
        decreases |events|
      {
        var event := NextEvent();
        match event {
          case Accepts(count) =>
            var n := if count > |datagrams| - sent then |datagrams| - sent else count;
            wire := wire + datagrams[sent..sent + n];
            assert datagrams[..sent] + datagrams[sent..sent + n] == datagrams[..sent + n];
            sent := sent + n;
          case WouldBlock =>
          case Fails => return false;
        }
      }
      assert datagrams[..sent] == datagrams;
      return true;
    }

    /**
      The datagram goes out exactly when the transport is ready, it fits its frame and the socket takes it. Over UDP a
      chosen one is repeated once, and only if the very next attempt takes it.
    */
    method SendWithDuplicate(datagram: Datagram, duplicate: bool) returns (ok: bool)
      modifies this`wire, this`events
      ensures ok <==> ready && datagram.packet.frames && Room(old(events)) > 0
      ensures ok ==>
                var repeated := udp && duplicate && Takes(After(old(events), 1));
                wire == old(wire) + if repeated then [datagram, datagram.(duplicate := true)] else [datagram]
      ensures !ok ==> wire == old(wire)
      ensures Willing(events) + (if udp && duplicate then 2 else 1) >= Willing(old(events))
    {
      if !ready || !datagram.packet.frames {
        return false;
      }
      ok := SendConnected([datagram]);
      if !ok {
        assert [datagram][..0] == [];
        return;
      }
      if udp && duplicate {
        var event := NextEvent();
        if event.Accepts? && event.count > 0 {
          wire := wire + [datagram.(duplicate := true)];
        }
      }
    }

    /**
      Everything is framed before anything is sent; then the batch goes out in chunks. A stream takes the
      packets out of the batch while it writes them, datagrams stay in it. It succeeds only if the transport is ready
      and everything fits, and then it does when the socket takes something often enough.
    */
    method SendDataBatch(datagrams: seq<Datagram>) returns (ok: bool, left: seq<Datagram>)
      modifies this`wire, this`events
      ensures ok ==> wire == old(wire) + datagrams
      ensures !ok ==> exists n | 0 <= n < |datagrams| :: wire == old(wire) + datagrams[..n]
      ensures left == datagrams || (!udp && left == [])
      ensures ok ==> AllFrame(datagrams) && (datagrams == [] || ready)
      ensures AllFrame(datagrams) && ready && |datagrams| <= Willing(old(events)) ==> ok
      ensures Willing(events) + |datagrams| >= Willing(old(events))
    {
      assert wire == old(wire) + datagrams[..0];
      if datagrams == [] {
        return true, [];
      }
      if !ready || exists i | 0 <= i < |datagrams| :: !datagrams[i].packet.frames {
        return false, datagrams;
      }
      var chunk := if udp then MAX_DATAGRAMS else 1;
      left := if udp then datagrams else [];
      var sent := 0;
      while sent < |datagrams|
        invariant 0 <= sent <= |datagrams| && wire == old(wire) + datagrams[..sent]
        invariant Willing(events) + sent >= Willing(old(events))
      {
        var next := if sent + chunk < |datagrams| then sent + chunk else |datagrams|;
        SendingCosts(events, 0);
        var accepted := SendConnected(datagrams[sent..next]);
        if !accepted {
          ghost var n: nat :| n < next - sent && wire == old(wire) + datagrams[..sent] + datagrams[sent..next][..n];
          PiecesJoin(datagrams, sent, next, n);
          assert wire == old(wire) + datagrams[..sent + n];
          return false, left;
        }
        PiecesJoin(datagrams, sent, next, next - sent);
        assert wire == old(wire) + datagrams[..next];
        sent := next;
      }
      assert datagrams[..sent] == datagrams;
      return true, left;
    }
  }

  // ---------------------------------------------------------------------------------------------
  // The writer.
  // ---------------------------------------------------------------------------------------------

  /**
    `now` is `before`, then `held`, then the packets: all of them when `ok`, else it stops somewhere on
    the way.
  */
  ghost predicate WireExtends(before: seq<Datagram>, now: seq<Datagram>, held: seq<Datagram>, ok: bool,
                              packets: seq<Packet>, initial: u16, count: u64, chosen: (Packet, u64) -> bool)
  {
    exists more, n | 0 <= n <= |packets| ::
      && OnWire(more, packets[..n], initial, count, chosen)
      && (if ok then n == |packets| && now == before + held + more
          else before <= now <= before + held + more)
  }

  class TransportWriter {
    const allocation: Allocation
    const state: SequenceState
    /** The decision to send a packet twice, from the packet and the count it is prepared under. */
    const chosen: (Packet, u64) -> bool
    var pending: seq<Packet>
    var batch: seq<Datagram>

    constructor (allocation: Allocation, state: SequenceState, chosen: (Packet, u64) -> bool)
      ensures this.allocation == allocation && this.state == state && this.chosen == chosen
      ensures pending == [] && batch == []
    {
      this.allocation, this.state, this.chosen := allocation, state, chosen;
      pending, batch := [], [];
    }

    /** Takes the next number for the packet, unless it is empty; wrapping may still fail after that. */
    method PreparePacket(packet: Packet) returns (prepared: Option<Datagram>, duplicate: bool)
      modifies state
      ensures prepared == if !packet.empty && packet.wraps then
                            Some(Primary(packet, state.initialSequence, old(state.count)))
                          else None
      ensures duplicate == chosen(packet, old(state.count))
      ensures state.count == if packet.empty then old(state.count) else WrappingIncrement(old(state.count))
    {
      duplicate := chosen(packet, state.count);
      if packet.empty {
        return None, duplicate;
      }
      var sequence, _ := state.Next();
      prepared := if packet.wraps then Some(Datagram(packet, sequence, false)) else None;
    }

    method QueueData(packet: Packet)
      requires |pending| < BULK_BATCH_LIMIT
      modifies this`pending
      ensures pending == old(pending) + [packet]
    {
      pending := pending + [packet];
    }

    method FlushBatch() returns (ok: bool)
      modifies this`batch, allocation`wire, allocation`events
      ensures ok ==> batch == [] && allocation.wire == old(allocation.wire) + old(batch)
      ensures !ok ==> old(allocation.wire) <= allocation.wire <= old(allocation.wire) + old(batch)
      ensures ok ==> AllFrame(old(batch)) && (old(batch) == [] || allocation.ready)
      ensures AllFrame(old(batch)) && allocation.ready && |old(batch)| <= Willing(old(allocation.events)) ==> ok
      ensures Willing(allocation.events) + |old(batch)| >= Willing(old(allocation.events))
    {
      if batch == [] {
        return true;
      }
      ok, batch := allocation.SendDataBatch(batch);
      if ok {
        batch := [];
      }
    }

    /** A packet that is sent twice first pushes out everything queued before it. */
    method FlushThenSendTwice(datagram: Datagram) returns (ok: bool, ghost tail: seq<Datagram>)
      modifies this`batch, allocation`wire, allocation`events
      ensures ok ==> batch == [] && allocation.wire == old(allocation.wire) + old(batch) + tail
      ensures tail == [datagram] || tail == [datagram, datagram.(duplicate := true)]
      ensures !ok ==> old(allocation.wire) <= allocation.wire <= old(allocation.wire) + old(batch)
      ensures ok ==> AllFrame(old(batch)) && datagram.packet.frames && allocation.ready
      ensures && AllFrame(old(batch)) && datagram.packet.frames && allocation.ready
              && |old(batch)| + 1 <= Willing(old(allocation.events))
              ==> ok
      ensures Willing(allocation.events) + |old(batch)| + 2 >= Willing(old(allocation.events))
    {
      tail := [datagram];
      ok := FlushBatch();
      if !ok {
        return;
      }
      ghost var flushed := allocation.wire;
      SendingCosts(allocation.events, 0);
      ok := allocation.SendWithDuplicate(datagram, true);
      if ok && allocation.wire != flushed + tail {
        tail := [datagram, datagram.(duplicate := true)];
      }
    }

    /** A prepared packet is sent twice at once, or it joins the batch, which goes out when it is full. */
    method PassOn(datagram: Datagram, duplicate: bool) returns (ok: bool, ghost tail: seq<Datagram>)
      modifies this`batch, allocation`wire, allocation`events
      ensures tail == [datagram] || (duplicate && tail == [datagram, datagram.(duplicate := true)])
      ensures ok ==> allocation.wire + batch == old(allocation.wire) + old(batch) + tail
      ensures old(allocation.wire) <= allocation.wire
      ensures !ok ==> allocation.wire <= old(allocation.wire) + old(batch) + tail
      ensures ok && AllFrame(batch) ==> AllFrame(old(batch)) && datagram.packet.frames
      ensures ok ==> batch != [] || allocation.ready
      ensures ok && |old(batch)| < BULK_BATCH_LIMIT ==> |batch| < BULK_BATCH_LIMIT
      ensures AllFrame(old(batch)) && datagram.packet.frames ==> AllFrame(batch) || !ok
      ensures && AllFrame(old(batch)) && datagram.packet.frames && allocation.ready
              && |old(batch)| + 2 <= Willing(old(allocation.events))
              ==> ok
      ensures Willing(allocation.events) + |old(batch)| + 2 >= Willing(old(allocation.events))
      ensures ok ==> Willing(allocation.events) + |old(batch)| + 2 >= Willing(old(allocation.events)) + |batch|
    {
      if duplicate {
        ok, tail := FlushThenSendTwice(datagram);
        return;
      }
      tail := [datagram];
      assert allocation.wire + (batch + [datagram]) == allocation.wire + batch + [datagram];
      batch := batch + [datagram];
      assert batch[..|batch| - 1] == old(batch) && batch[|batch| - 1] == datagram;
      assert AllFrame(batch) <==> AllFrame(old(batch)) && datagram.packet.frames by {
        if AllFrame(batch) {
          forall i | 0 <= i < |old(batch)| ensures old(batch)[i].packet.frames {
            assert batch[i].packet.frames;
          }
        }
      }
      ok := true;
      if |batch| == BULK_BATCH_LIMIT {
        ok := FlushBatch();
      }
    }

    /** The shortcut for a single queued packet. */
    method SendData(packet: Packet) returns (ok: bool)
      modifies allocation`wire, allocation`events, state
      ensures WireExtends(old(allocation.wire), allocation.wire, [], ok, [packet],
                          state.initialSequence, old(state.count), chosen)
      ensures !ok ==> allocation.wire == old(allocation.wire)
      ensures ok <==> Sendable(packet) && allocation.ready && Room(old(allocation.events)) > 0
      ensures Willing(allocation.events) + 2 >= Willing(old(allocation.events))
      ensures state.count == if packet.empty then old(state.count) else WrappingIncrement(old(state.count))
    {
      ghost var count, before := state.count, allocation.wire;
      var prepared, duplicate := PreparePacket(packet);
      OneMoreOnWire([], [], packet, state.initialSequence, count, chosen);
      assert [] + [packet] == [packet] && [packet][..1] == [packet] && [packet][..0] == [];
      if prepared.None? {
        StoppedOnTheWay(before, allocation.wire, [], [], [packet], 0, state.initialSequence, count, chosen);
        return false;
      }
      ok := allocation.SendWithDuplicate(prepared.value, duplicate);
      if !ok {
        StoppedOnTheWay(before, allocation.wire, [], [], [packet], 0, state.initialSequence, count, chosen);
      } else {
        ghost var more := allocation.wire[|before|..];
        assert [] + more == more && before + [] == before;
        WentThrough(before, allocation.wire, [], more, [packet], state.initialSequence, count, chosen);
      }
    }

    /**
      Queued packets reach the wire in queue order, numbered consecutively, each primary once and each
      duplicate right behind its primary, however the socket chops the batches.
    */
    method FlushQueuedData() returns (ok: bool)
      modifies this`pending, this`batch, allocation`wire, allocation`events, state
      ensures WireExtends(old(allocation.wire), allocation.wire, if |old(pending)| == 1 then [] else old(batch), ok,
                          old(pending), state.initialSequence, old(state.count), chosen)
      ensures ok ==> pending == [] && batch == (if |old(pending)| == 1 then old(batch) else [])
      ensures ok ==> state.count == CountAfter(old(state.count), |old(pending)|)
      ensures ok ==> AllSendable(old(pending)) && (old(pending) == [] || allocation.ready)
      ensures && AllFrame(old(batch)) && AllSendable(old(pending)) && allocation.ready
              && |old(batch)| + 2 * |old(pending)| <= Willing(old(allocation.events))
              ==> ok
      ensures Willing(allocation.events) + |old(batch)| + 2 * |old(pending)| >= Willing(old(allocation.events))
    {
      hide OnWire, WireExtends, Primary, AllSendable, AllFrame;
      ghost var packets, before, count, willing := pending, allocation.wire, state.count, Willing(allocation.events);
      NothingToFrame(packets);
      if |pending| == 1 {
        assert AllSendable(packets) <==> Sendable(packets[0]) by {
          OneMoreSendable(packets, 0);
          assert packets[..1] == packets && packets[..0] == [];
        }
        var packet := pending[0];
        pending := pending[1..];
        assert packets == [packet];
        SendingCosts(allocation.events, 0);
        ok := SendData(packet);
        return;
      }
      ghost var held, more, n := batch, [], 0;
      NothingOnWire(packets, state.initialSequence, count, chosen);
      while pending != []
        invariant 0 <= n <= |packets| && pending == packets[n..]
        invariant state.count == CountAfter(count, n)
        invariant OnWire(more, packets[..n], state.initialSequence, count, chosen)
        invariant allocation.wire + batch == before + held + more && before <= allocation.wire
        invariant Willing(allocation.events) + |held| + 2 * n >= willing + |batch|
        invariant AllFrame(held) && AllSendable(packets[..n]) ==> AllFrame(batch)
        invariant AllFrame(batch) ==> AllSendable(packets[..n])
        invariant n > 0 ==> batch != [] || allocation.ready
        decreases |pending|
      {
        var packet := pending[0];
        pending := pending[1..];
        OneMoreSendable(packets, n);
        var prepared, duplicate := PreparePacket(packet);
        assert prepared.Some? ==> prepared.value.packet == packet by {
          PrimaryOf(packet, state.initialSequence, CountAfter(count, n));
        }
        if prepared.None? {
          StoppedOnTheWay(before, allocation.wire, held, more, packets, n, state.initialSequence, count, chosen);
          return false;
        }
        OneMoreOnWire(more, packets[..n], packet, state.initialSequence, count, chosen);
        assert packets[..n] + [packet] == packets[..n + 1];
        ghost var sofar := allocation.wire + batch;
        var sent, tail := PassOn(prepared.value, duplicate);
        assert sofar + tail == before + held + (more + tail);
        if !sent {
          StoppedOnTheWay(before, allocation.wire, held, more + tail, packets, n + 1, state.initialSequence, count,
                          chosen);
          return false;
        }
        more, n := more + tail, n + 1;
      }
      assert packets[..n] == packets;
      ok := FlushBatch();
      if ok {
        WentThrough(before, allocation.wire, held, more, packets, state.initialSequence, count, chosen);
      } else {
        StoppedOnTheWay(before, allocation.wire, held, more, packets, n, state.initialSequence, count, chosen);
      }
    }
  }

  lemma OneMoreSendable(packets: seq<Packet>, n: nat)
    requires n < |packets|
    ensures AllSendable(packets[..n + 1]) <==> AllSendable(packets[..n]) && Sendable(packets[n])
    ensures AllSendable(packets) ==> Sendable(packets[n]) && AllSendable(packets[..n])
  {
    if AllSendable(packets[..n + 1]) {
      assert packets[..n + 1][n] == packets[n];
      forall i | 0 <= i < n ensures Sendable(packets[..n][i]) {
        assert packets[..n + 1][i] == packets[..n][i];
      }
    }
  }

  lemma StoppedOnTheWay(before: seq<Datagram>, now: seq<Datagram>, held: seq<Datagram>, more: seq<Datagram>,
                        packets: seq<Packet>, n: nat, initial: u16, count: u64, chosen: (Packet, u64) -> bool)
    requires n <= |packets| && OnWire(more, packets[..n], initial, count, chosen)
    requires before <= now <= before + held + more
    ensures WireExtends(before, now, held, false, packets, initial, count, chosen)
  {
  }

  lemma WentThrough(before: seq<Datagram>, now: seq<Datagram>, held: seq<Datagram>, more: seq<Datagram>,
                    packets: seq<Packet>, initial: u16, count: u64, chosen: (Packet, u64) -> bool)
    requires OnWire(more, packets, initial, count, chosen) && now == before + held + more
    ensures WireExtends(before, now, held, true, packets, initial, count, chosen)
  {
    assert packets[..|packets|] == packets;
  }

  lemma PrimaryOf(packet: Packet, initial: u16, count: u64)
    ensures Primary(packet, initial, count).packet == packet
  {
  }

  lemma NothingToFrame(packets: seq<Packet>)
    ensures AllSendable(packets[..0]) && AllFrame([])
  {
  }

  lemma NothingOnWire(packets: seq<Packet>, initial: u16, count: u64, chosen: (Packet, u64) -> bool)
    ensures OnWire([], packets[..0], initial, count, chosen)
  {
  }
}
