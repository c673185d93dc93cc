/**
  The same queue run by one thread at a time: it behaves as a bounded deque, and every packet that
  does not stay in the queue is handed back or dropped exactly once.
*/
module PacketQueue {
  import opened Common
  import opened EpochQueue

  // ---------------------------------------------------------------------------------------------
  // The deque.
  // ---------------------------------------------------------------------------------------------

  datatype Deque<P> = Deque(capacity: nat, active: bool, open: bool, contents: seq<P>)

  datatype Op<P> = TrySend(packet: P) | ForceSend(packet: P) | TryReceive | Suspend | Resume | Purge

  /** What the caller gets, and the packets whose buffers went back to the pool. */
  datatype Outcome<P> = Outcome(accepted: bool, received: Option<P>, returned: seq<P>)

  predicate Takes<P>(d: Deque<P>)
  {
    d.open && d.active
  }

  function DequeStep<P>(d: Deque<P>, op: Op<P>): (Deque<P>, Outcome<P>)
  {
    match op
    case TrySend(p) =>
      if Takes(d) && |d.contents| < d.capacity then (d.(contents := d.contents + [p]), Outcome(true, None, []))
      else (d, Outcome(false, None, [p]))
    case ForceSend(p) =>
      if !Takes(d) then (d, Outcome(false, None, [p]))
      else if |d.contents| < d.capacity || d.contents == [] then
        (d.(contents := d.contents + [p]), Outcome(true, None, []))
      else (d.(contents := d.contents[1..] + [p]), Outcome(true, None, [d.contents[0]]))
    case TryReceive =>
      if d.contents == [] then (d, Outcome(true, None, []))
      else (d.(contents := d.contents[1..]), Outcome(true, Some(d.contents[0]), []))
    case Suspend => (d.(active := false, contents := []), Outcome(true, None, d.contents))
    case Resume => (d.(active := true, contents := []), Outcome(true, None, d.contents))
    case Purge => (d.(contents := []), Outcome(true, None, d.contents))
  }

  function DequeRun<P>(d: Deque<P>, ops: seq<Op<P>>): (Deque<P>, seq<Outcome<P>>)
  {
    if ops == [] then (d, [])
    else
      var (before, outcomes) := DequeRun(d, ops[..|ops| - 1]);
      var (after, outcome) := DequeStep(before, ops[|ops| - 1]);
      (after, outcomes + [outcome])
  }

  lemma DequeRunStep<P>(d: Deque<P>, ops: seq<Op<P>>, i: nat)
    requires i < |ops|
    ensures var (before, outcomes) := DequeRun(d, ops[..i]);
            var (after, outcome) := DequeStep(before, ops[i]);
            DequeRun(d, ops[..i + 1]) == (after, outcomes + [outcome])
  {
    assert ops[..i + 1][..i] == ops[..i] && ops[..i + 1][i] == ops[i];
  }

  function SentBy<P>(op: Op<P>): multiset<P>
  {
    if op.TrySend? || op.ForceSend? then multiset{op.packet} else multiset{}
  }

  function ReleasedBy<P>(outcome: Outcome<P>): multiset<P>
  {
    multiset(outcome.returned) + if outcome.received.Some? then multiset{outcome.received.value} else multiset{}
  }

  function Sent<P>(ops: seq<Op<P>>): multiset<P>
  {
    if ops == [] then multiset{} else Sent(ops[..|ops| - 1]) + SentBy(ops[|ops| - 1])
  }

  /** Everything received or handed back. */
  function Released<P>(outcomes: seq<Outcome<P>>): multiset<P>
  {
    if outcomes == [] then multiset{} else Released(outcomes[..|outcomes| - 1]) + ReleasedBy(outcomes[|outcomes| - 1])
  }

  lemma SplitHead<P>(s: seq<P>)
    requires s != []
    ensures multiset(s) == multiset{s[0]} + multiset(s[1..])
  {
    assert s == [s[0]] + s[1..];
  }

  lemma SplitLast<P>(s: seq<P>, p: P)
    ensures multiset(s + [p]) == multiset(s) + multiset{p}
  {
  }

  lemma ReplacingTheOldest<P>(s: seq<P>, p: P)
    requires s != []
    ensures multiset(s) + multiset{p} == multiset([s[0]]) + multiset{} + multiset(s[1..] + [p])
  {
    SplitHead(s);
    SplitLast(s[1..], p);
    assert multiset([s[0]]) == multiset{s[0]};
  }

  lemma TrySendConserves<P>(d: Deque<P>, p: P)
    ensures var (after, outcome) := DequeStep(d, TrySend(p));
            multiset(d.contents) + multiset{p} == ReleasedBy(outcome) + multiset(after.contents)
  {
    SplitLast(d.contents, p);
    var (after, outcome) := DequeStep(d, TrySend(p));
    if outcome.accepted {
      assert ReleasedBy(outcome) == multiset{};
    } else {
      assert ReleasedBy(outcome) == multiset{p};
    }
  }

  lemma ForceSendConserves<P>(d: Deque<P>, p: P)
    ensures var (after, outcome) := DequeStep(d, ForceSend(p));
            multiset(d.contents) + multiset{p} == ReleasedBy(outcome) + multiset(after.contents)
  {
    SplitLast(d.contents, p);
    var (after, outcome) := DequeStep(d, ForceSend(p));
    if !outcome.accepted {
      assert ReleasedBy(outcome) == multiset{p};
    } else if outcome.returned == [] {
      assert ReleasedBy(outcome) == multiset{};
    } else {
      ReplacingTheOldest(d.contents, p);
    }
  }

  lemma StepConservesPackets<P>(d: Deque<P>, op: Op<P>)
    ensures var (after, outcome) := DequeStep(d, op);
            multiset(d.contents) + SentBy(op) == ReleasedBy(outcome) + multiset(after.contents)
  {
    match op
    case TrySend(p) => TrySendConserves(d, p);
    case ForceSend(p) => ForceSendConserves(d, p);
    case TryReceive =>
      if d.contents != [] {
        SplitHead(d.contents);
      }
    case _ =>
  }

  lemma Regroup<P>(a: multiset<P>, b: multiset<P>, c: multiset<P>, d: multiset<P>, e: multiset<P>, f: multiset<P>)
    requires a == b + c && c + d == e + f
    ensures a + d == b + e + f
  {
    assert a + d == b + (c + d);
  }

  /** Over any trace each packet sent is received, handed back, or still queued, as often as it was sent. */
  lemma {:induction false} TraceConservesPackets<P>(d: Deque<P>, ops: seq<Op<P>>)
    requires d.contents == []
    ensures var (after, outcomes) := DequeRun(d, ops);
            Sent(ops) == Released(outcomes) + multiset(after.contents)
  {
    if ops != [] {
      var prefix := ops[..|ops| - 1];
      TraceConservesPackets(d, prefix);
      var (before, outcomes) := DequeRun(d, prefix);
      var last := ops[|ops| - 1];
      StepConservesPackets(before, last);
      var (after, outcome) := DequeStep(before, last);
      Regroup(Sent(prefix), Released(outcomes), multiset(before.contents), SentBy(last), ReleasedBy(outcome),
              multiset(after.contents));
      assert (outcomes + [outcome])[..|outcomes|] == outcomes;
    }
  }

  /** The queue never outgrows its capacity, and nothing is held while it is inactive. */
  lemma {:induction false} TraceStaysBounded<P>(d: Deque<P>, ops: seq<Op<P>>)
    requires d.contents == [] && d.capacity > 0
    ensures var after := DequeRun(d, ops).0;
            |after.contents| <= d.capacity && after.capacity == d.capacity && (!after.active ==> after.contents == [])
  {
    if ops != [] {
      TraceStaysBounded(d, ops[..|ops| - 1]);
    }
  }

  // ---------------------------------------------------------------------------------------------
  // The queue.
  // ---------------------------------------------------------------------------------------------

  datatype Queued<P> = Queued(packet: P, epoch: nat)

  function Packets<P>(queue: seq<Queued<P>>): seq<P>
  {
    seq(|queue|, i requires 0 <= i < |queue| => queue[i].packet)
  }

  /** Where the first packet of the current epoch sits; the length of the queue when there is none. */
  function FirstOfEpoch<P>(queue: seq<Queued<P>>, word: u64): (k: nat)
    ensures k <= |queue|
    ensures k < |queue| ==> IsActive(word) && queue[k].epoch == Epoch(word)
    ensures forall i | 0 <= i < k :: !(IsActive(word) && queue[i].epoch == Epoch(word))
  {
    if queue == [] || (IsActive(word) && queue[0].epoch == Epoch(word)) then 0
    else 1 + FirstOfEpoch(queue[1..], word)
  }

  class Queue<P> {
    const capacity: nat
    var queue: seq<Queued<P>>
    var word: u64
    var receiverOpen: bool

    /** Run sequentially, no packet of an older epoch ever stays in the queue. */
    ghost predicate Valid()
      reads this
    {
      && 0 < capacity && |queue| <= capacity
      && (forall i | 0 <= i < |queue| :: queue[i].epoch == Epoch(word))
      && (!IsActive(word) ==> queue == [])
    }

    ghost function View(): Deque<P>
      reads this
    {
      Deque(capacity, IsActive(word), receiverOpen, Packets(queue))
    }

    constructor (capacity: nat, active: bool)
      ensures Valid() && View() == Deque(if capacity == 0 then 1 else capacity, active, true, [])
    {
      this.capacity := if capacity == 0 then 1 else capacity;
      queue := [];
      word := Word(0, active);
      receiverOpen := true;
    }

    method Send(packet: P, force: bool) returns (outcome: Outcome<P>)
      requires Valid()
      modifies this
      ensures Valid()
      ensures (View(), outcome) == DequeStep(old(View()), if force then Op.ForceSend(packet) else Op.TrySend(packet))
      ensures outcome.accepted <==> receiverOpen && IsActive(word) && (|old(queue)| < capacity || force)
      ensures !outcome.accepted ==> queue == old(queue) && outcome.returned == [packet]
      ensures outcome.accepted ==>
                && queue != [] && queue[|queue| - 1].packet == packet
                && queue[..|queue| - 1] == (if |old(queue)| < capacity then old(queue) else old(queue)[1..])
                && outcome.returned == (if |old(queue)| < capacity then [] else [old(queue)[0].packet])
    {
      if !receiverOpen {
        return Outcome(false, None, [packet]);
      }
      if !IsActive(word) {
        return Outcome(false, None, [packet]);
      }
      var queued := Queued(packet, Epoch(word));
      if |queue| < capacity {
        queue := queue + [queued];
        assert Packets(queue) == Packets(old(queue)) + [packet];
        return Outcome(true, None, []);
      }
      if force {
        var replaced := queue[0].packet;
        queue := queue[1..] + [queued];
        assert Packets(queue) == Packets(old(queue))[1..] + [packet];
        return Outcome(true, None, [replaced]);
      }
      return Outcome(false, None, [packet]);
    }

    /** Pops until a packet of the current epoch turns up; stale ones are dropped on the way. */
    method TryReceive() returns (outcome: Outcome<P>)
      modifies this`queue
      ensures var k := FirstOfEpoch(old(queue), word);
              && outcome.returned == Packets(old(queue)[..k])
              && outcome.received == (if k < |old(queue)| then Some(old(queue)[k].packet) else None)
              && queue == if k < |old(queue)| then old(queue)[k + 1..] else []
      ensures old(Valid()) ==> Valid() && (View(), outcome) == DequeStep(old(View()), Op.TryReceive)
    {
      var stale: seq<P> := [];
      assert old(queue)[..0] == [];
      while queue != []
        invariant |stale| <= |old(queue)| && queue == old(queue)[|stale|..]
        invariant stale == Packets(old(queue)[..|stale|])
        invariant FirstOfEpoch(old(queue), word) == |stale| + FirstOfEpoch(queue, word)
        decreases |queue|
      {
        var queued := queue[0];
        queue := queue[1..];
        if IsActive(word) && queued.epoch == Epoch(word) {
          assert old(Valid()) ==> Packets(queue) == Packets(old(queue))[1..];
          return Outcome(true, Some(queued.packet), stale);
        }
        assert Packets(old(queue)[..|stale| + 1]) == stale + [queued.packet];
        stale := stale + [queued.packet];
      }
      assert old(queue)[..|stale|] == old(queue);
      return Outcome(true, None, stale);
    }

    method Drain() returns (dropped: seq<P>)
      modifies this`queue
      ensures queue == [] && dropped == Packets(old(queue))
    {
      dropped := [];
      while queue != []
        invariant dropped + Packets(queue) == Packets(old(queue))
        decreases |queue|
      {
        assert Packets(queue) == [queue[0].packet] + Packets(queue[1..]);
        dropped := dropped + [queue[0].packet];
        queue := queue[1..];
      }
    }

    method PurgeQueue() returns (outcome: Outcome<P>)
      requires Valid()
      modifies this`queue
      ensures Valid()
      ensures (View(), outcome) == DequeStep(old(View()), Op.Purge)
      ensures queue == [] && outcome.returned == Packets(old(queue))
    {
      var dropped := Drain();
      assert Packets(queue) == [];
      outcome := Outcome(true, None, dropped);
    }

    /** Opens the next epoch: inactive while the old packets are purged, active afterwards. */
    method Resume() returns (outcome: Outcome<P>)
      requires Valid()
      modifies this
      ensures Valid()
      ensures (View(), outcome) == DequeStep(old(View()), Op.Resume)
      ensures queue == [] && outcome.returned == Packets(old(queue))
      ensures IsActive(word) && Epoch(word) == (Epoch(old(word)) + 1) % EPOCHS && receiverOpen == old(receiverOpen)
    {
      var epoch := SaturatingAdd(Epoch(word), 1);
      WordParts(epoch, false);
      WordParts(epoch, true);
      word := Word(epoch, false);
      var dropped := Drain();
      word := Word(epoch, true);
      assert Packets(queue) == [];
      outcome := Outcome(true, None, dropped);
    }

    method Suspend() returns (outcome: Outcome<P>)
      requires Valid()
      modifies this
      ensures Valid()
      ensures (View(), outcome) == DequeStep(old(View()), Op.Suspend)
      ensures queue == [] && outcome.returned == Packets(old(queue))
      ensures !IsActive(word) && Epoch(word) == Epoch(old(word)) && receiverOpen == old(receiverOpen)
    {
      WordParts(Epoch(word), false);
      word := Word(Epoch(word), false);
      var dropped := Drain();
      assert Packets(queue) == [];
      outcome := Outcome(true, None, dropped);
    }

    /** The queue answers any trace of operations as the deque does. */
    method RunTrace(ops: seq<Op<P>>) returns (outcomes: seq<Outcome<P>>)
      requires Valid()
      modifies this
      ensures Valid()
      ensures (View(), outcomes) == DequeRun(old(View()), ops)
    {
      outcomes := [];
      for i := 0 to |ops|
        invariant Valid()
        invariant (View(), outcomes) == DequeRun(old(View()), ops[..i])
      {
        DequeRunStep(old(View()), ops, i);
        var outcome;
        match ops[i] {
          case TrySend(p) => outcome := Send(p, false);
          case ForceSend(p) => outcome := Send(p, true);
          case TryReceive => outcome := TryReceive();
          case Suspend => outcome := Suspend();
          case Resume => outcome := Resume();
          case Purge => outcome := PurgeQueue();
        }
        outcomes := outcomes + [outcome];
      }
      assert ops[..|ops|] == ops;
    }
  }
}
