/**
  The log writer under concurrency. Producers push lines into two bounded streams, replacing the
  oldest line when a stream is full; one writer hands them to the sinks, protocol lines in bounded
  bursts and equal diagnostics merged. Every atomic operation is a step of its own and steps
  interleave in any order.
*/
module Logging {
  import opened Common

  const PROTOCOL_BURST: nat := 32
  const COALESCE_BATCH: nat := 64
  const PUSH_ATTEMPTS: nat := 4

  /** `id` numbers the lines of a stream as they are logged, `ticket` as they are pushed. */
  datatype Line = Line(id: nat, value: string, ticket: nat)

  /** Where a producer stands in replacing the oldest line. */
  datatype ProducerPc =
    | Idle
    | Holding(line: Line, attempt: nat)
    | Refused(line: Line, attempt: nat)
    | Evicted(line: Line, attempt: nat)
    | Counting(line: Line, attempt: nat)
    | GivingUp(line: Line)
    | GaveUp

  /** One record in a sink: a line and how often it is repeated. */
  datatype Record = Record(value: string, repetitions: nat)

  /** `logged`, `lost` and `handed` are history: lines logged, lines dropped, lines given to the sink. */
  datatype Stream = Stream(
    capacity: nat,
    queue: seq<Line>,
    outstanding: int,
    dropped: nat,
    producers: seq<ProducerPc>,
    logged: nat,
    pushes: nat,
    lost: seq<Line>,
    handed: seq<Line>,
    sink: seq<Record>,
    disabled: bool)

  datatype WriterPc =
    | Asking
    | AskingDiagnostic
    | Coalescing(line: Line, absorbed: seq<Line>)
    | Absorbed(line: Line, absorbed: seq<Line>)
    | Ready(line: Line, absorbed: seq<Line>)
    | Written
    | LastResort
    | WritingProtocol(line: Line, nextBurst: nat)
    | ProtocolWritten(nextBurst: nat)

  datatype State = State(protocol: Stream, diagnostic: Stream, writer: WriterPc, burst: nat, pending: Option<Line>)

  datatype Step =
    | LogProtocol(thread: nat, value: string)
    | LogDiagnostic(thread: nat, value: string)
    | Write(works: bool)
    | FlushFails(diagnostic: bool)

  function InitialStream(capacity: nat, threads: nat): Stream
  {
    Stream(if capacity == 0 then 1 else capacity, [], 0, 0, seq(threads, _ => Idle), 0, 0, [], [], [], false)
  }

  function Initial(protocolCapacity: nat, diagnosticCapacity: nat, threads: nat): State
  {
    State(InitialStream(protocolCapacity, threads), InitialStream(diagnosticCapacity, threads), Asking, 0, None)
  }

  // ---------------------------------------------------------------------------------------------
  // The steps.
  // ---------------------------------------------------------------------------------------------

  function NextAttempt(line: Line, attempt: nat): ProducerPc
  {
    if attempt + 1 < PUSH_ATTEMPTS then Holding(line, attempt + 1) else GivingUp(line)
  }

  /** The next atomic operation of one producer; `value` matters when it starts on a new line. */
  function Produce(st: Stream, thread: nat, value: string): Stream
    requires thread < |st.producers|
  {
    var here := st.producers;
    match here[thread]
    case Idle =>
      st.(outstanding := st.outstanding + 1, logged := st.logged + 1,
          producers := here[thread := Holding(Line(st.logged, value, 0), 0)])
    case Holding(line, attempt) =>
      if |st.queue| < st.capacity then
        st.(queue := st.queue + [line.(ticket := st.pushes)], pushes := st.pushes + 1,
            producers := here[thread := Idle])
      else st.(producers := here[thread := Refused(line, attempt)])
    case Refused(line, attempt) =>
      if st.queue == [] then st.(producers := here[thread := NextAttempt(line, attempt)])
      else
        st.(queue := st.queue[1..], lost := st.lost + [st.queue[0]],
            producers := here[thread := Evicted(line, attempt)])
    case Evicted(line, attempt) =>
      st.(outstanding := st.outstanding - 1, producers := here[thread := Counting(line, attempt)])
    case Counting(line, attempt) =>
      st.(dropped := st.dropped + 1, producers := here[thread := NextAttempt(line, attempt)])
    case GivingUp(line) =>
      st.(outstanding := st.outstanding - 1, lost := st.lost + [line], producers := here[thread := GaveUp])
    case GaveUp =>
      st.(dropped := st.dropped + 1, producers := here[thread := Idle])
  }

  function Pop(st: Stream): Stream
    requires st.queue != []
  {
    st.(queue := st.queue[1..])
  }

  function Subtract(st: Stream): Stream
  {
    st.(outstanding := st.outstanding - 1)
  }

  /** A sink that fails once is disabled for good; lines handed to it after that are not shown. */
  function Hand(st: Stream, lines: seq<Line>, value: string, works: bool): Stream
  {
    if st.disabled then st.(handed := st.handed + lines)
    else if !works then st.(handed := st.handed + lines, disabled := true)
    else st.(handed := st.handed + lines, sink := st.sink + [Record(value, |lines|)])
  }

  /** The next atomic operation of the writer; `works` matters when it writes to a sink. */
  function WriterStep(s: State, works: bool): State
  {
    match s.writer
    case Asking =>
      if s.burst < PROTOCOL_BURST && s.protocol.queue != [] then
        s.(protocol := Pop(s.protocol), writer := WritingProtocol(s.protocol.queue[0], s.burst + 1))
      else s.(writer := AskingDiagnostic)
    case WritingProtocol(line, nextBurst) =>
      s.(protocol := Hand(s.protocol, [line], line.value, works), writer := ProtocolWritten(nextBurst))
    case ProtocolWritten(nextBurst) =>
      s.(protocol := Subtract(s.protocol), burst := nextBurst, writer := Asking)
    case AskingDiagnostic =>
      if s.pending.Some? then s.(pending := None, writer := Coalescing(s.pending.value, []))
      else if s.diagnostic.queue != [] then
        s.(diagnostic := Pop(s.diagnostic), writer := Coalescing(s.diagnostic.queue[0], []))
      else s.(writer := LastResort)
    case Coalescing(line, absorbed) =>
      if 1 + |absorbed| == COALESCE_BATCH || s.diagnostic.queue == [] then s.(writer := Ready(line, absorbed))
      else
        var next := s.diagnostic.queue[0];
        if next.value == line.value then
          s.(diagnostic := Pop(s.diagnostic), writer := Absorbed(line, absorbed + [next]))
        else s.(diagnostic := Pop(s.diagnostic), pending := Some(next), writer := Ready(line, absorbed))
    case Absorbed(line, absorbed) =>
      s.(diagnostic := Subtract(s.diagnostic), writer := Coalescing(line, absorbed))
    case Ready(line, absorbed) =>
      s.(diagnostic := Hand(s.diagnostic, [line] + absorbed, line.value, works), writer := Written)
    case Written =>
      s.(diagnostic := Subtract(s.diagnostic), burst := 0, writer := Asking)
    case LastResort =>
      if s.protocol.queue != [] then
        s.(protocol := Pop(s.protocol), writer := WritingProtocol(s.protocol.queue[0], 1))
      else s.(writer := Asking)
  }

  function Apply(s: State, step: Step): State
  {
    match step
    case LogProtocol(t, value) =>
      if t < |s.protocol.producers| then s.(protocol := Produce(s.protocol, t, value)) else s
    case LogDiagnostic(t, value) =>
      if t < |s.diagnostic.producers| then s.(diagnostic := Produce(s.diagnostic, t, value)) else s
    case Write(works) => WriterStep(s, works)
    case FlushFails(diagnostic) =>
      if diagnostic then s.(diagnostic := s.diagnostic.(disabled := true))
      else s.(protocol := s.protocol.(disabled := true))
  }

  function Run(s: State, steps: seq<Step>): State
  {
    if steps == [] then s else Apply(Run(s, steps[..|steps| - 1]), steps[|steps| - 1])
  }

  // ---------------------------------------------------------------------------------------------
  // One stream.
  // ---------------------------------------------------------------------------------------------

  /** How often the line with this id stands in `lines`. */
  function Count(lines: seq<Line>, id: nat): nat
  {
    if lines == [] then 0 else Count(lines[..|lines| - 1], id) + if lines[|lines| - 1].id == id then 1 else 0
  }

  function InHand(pc: ProducerPc, id: nat): nat
  {
    if !pc.Idle? && !pc.GaveUp? && pc.line.id == id then 1 else 0
  }

  /** The share of `outstanding` this producer has added and not yet given back. */
  function Owed(pc: ProducerPc): nat
  {
    match pc
    case Idle => 0
    case GaveUp => 0
    case Evicted(_, _) => 2
    case _ => 1
  }

  /** Lines this producer has dropped and not yet counted. */
  function Uncounted(pc: ProducerPc): nat
  {
    if pc.Evicted? || pc.Counting? || pc.GaveUp? then 1 else 0
  }

  function Hands(producers: seq<ProducerPc>, id: nat): nat
  {
    if producers == [] then 0 else Hands(producers[..|producers| - 1], id) + InHand(producers[|producers| - 1], id)
  }

  function AllOwed(producers: seq<ProducerPc>): nat
  {
    if producers == [] then 0 else AllOwed(producers[..|producers| - 1]) + Owed(producers[|producers| - 1])
  }

  function AllUncounted(producers: seq<ProducerPc>): nat
  {
    if producers == [] then 0 else AllUncounted(producers[..|producers| - 1]) + Uncounted(producers[|producers| - 1])
  }

  lemma {:induction false} HandChanges(producers: seq<ProducerPc>, t: nat, pc: ProducerPc, id: nat)
    requires t < |producers|
    ensures Hands(producers[t := pc], id) + InHand(producers[t], id) == Hands(producers, id) + InHand(pc, id)
  {
    hide InHand;
    var n := |producers| - 1;
    if t < n {
      HandChanges(producers[..n], t, pc, id);
      assert producers[t := pc][..n] == producers[..n][t := pc];
    } else {
      assert producers[t := pc][..n] == producers[..n];
    }
  }

  lemma {:induction false} ShareChanges(producers: seq<ProducerPc>, t: nat, pc: ProducerPc)
    requires t < |producers|
    ensures AllOwed(producers[t := pc]) + Owed(producers[t]) == AllOwed(producers) + Owed(pc)
    ensures AllUncounted(producers[t := pc]) + Uncounted(producers[t]) == AllUncounted(producers) + Uncounted(pc)
  {
    hide Owed, Uncounted;
    var n := |producers| - 1;
    if t < n {
      ShareChanges(producers[..n], t, pc);
      assert producers[t := pc][..n] == producers[..n][t := pc];
    } else {
      assert producers[t := pc][..n] == producers[..n];
    }
  }

  lemma {:induction false} CountJoins(a: seq<Line>, b: seq<Line>, id: nat)
    ensures Count(a + b, id) == Count(a, id) + Count(b, id)
  {
    if b == [] {
      assert a + b == a;
    } else {
      CountJoins(a, b[..|b| - 1], id);
      assert (a + b)[..|a + b| - 1] == a + b[..|b| - 1];
    }
  }

  predicate Ascending(lines: seq<Line>, bound: nat)
  {
    && (forall i, j | 0 <= i < j < |lines| :: lines[i].ticket < lines[j].ticket)
    && (forall i | 0 <= i < |lines| :: lines[i].ticket < bound)
  }

  function Values(lines: seq<Line>): seq<string>
  {
    if lines == [] then [] else Values(lines[..|lines| - 1]) + [lines[|lines| - 1].value]
  }

  function Copies(value: string, n: nat): seq<string>
  {
    if n == 0 then [] else Copies(value, n - 1) + [value]
  }

  /** What a sink shows once each repetition is written out. */
  function Expanded(sink: seq<Record>): seq<string>
  {
    if sink == [] then []
    else Expanded(sink[..|sink| - 1]) + Copies(sink[|sink| - 1].value, sink[|sink| - 1].repetitions)
  }

  /** In how many places the line with this id is; `held` are the lines the writer has in hand. */
  function Places(st: Stream, held: seq<Line>, id: nat): nat
  {
    Count(st.handed, id) + Count(held, id) + Count(st.queue, id) + Count(st.lost, id) + Hands(st.producers, id)
  }

  /** Every line logged is in exactly one place, and no other line is anywhere. */
  ghost predicate Conserved(st: Stream, held: seq<Line>)
  {
    forall id: nat :: Places(st, held, id) == if id < st.logged then 1 else 0
  }

  /** The counters; `owes` is what the writer has taken and not yet subtracted. */
  predicate Counted(st: Stream, owes: nat)
  {
    && st.outstanding == |st.queue| + owes + AllOwed(st.producers)
    && st.dropped + AllUncounted(st.producers) == |st.lost|
  }

  ghost predicate Good(st: Stream, held: seq<Line>, owes: nat)
  {
    && |st.queue| <= st.capacity
    && Conserved(st, held)
    && Counted(st, owes)
    && Ascending(st.handed + held + st.queue, st.pushes)
    && Shown(st)
  }

  /** The sink shows the lines handed over, all of them as long as it works. */
  predicate Shown(st: Stream)
  {
    Expanded(st.sink) <= Values(st.handed) && (st.disabled || Expanded(st.sink) == Values(st.handed))
  }

  lemma HeadLeaves(queue: seq<Line>, id: nat)
    requires queue != []
    ensures Count(queue, id) == Count([queue[0]], id) + Count(queue[1..], id)
  {
    CountJoins([queue[0]], queue[1..], id);
    assert queue == [queue[0]] + queue[1..];
  }

  lemma SingleCount(line: Line, id: nat)
    ensures Count([line], id) == if line.id == id then 1 else 0
  {
    assert [line][..0] == [];
  }

  /** How many lines with this id stand in the queue, among the lost, or in a producer's hand. */
  function OnTheWay(st: Stream, id: nat): nat
  {
    Count(st.queue, id) + Count(st.lost, id) + Hands(st.producers, id)
  }

  lemma EvictingMoves(st: Stream, t: nat, value: string, id: nat)
    requires t < |st.producers| && st.producers[t].Refused? && st.queue != []
    ensures OnTheWay(Produce(st, t, value), id) == OnTheWay(st, id)
  {
    var next := Produce(st, t, value);
    HeadLeaves(st.queue, id);
    CountJoins(st.lost, [st.queue[0]], id);
    HandChanges(st.producers, t, next.producers[t], id);
  }

  lemma PushingMoves(st: Stream, t: nat, value: string, id: nat)
    requires t < |st.producers| && st.producers[t].Holding? && |st.queue| < st.capacity
    ensures OnTheWay(Produce(st, t, value), id) == OnTheWay(st, id)
  {
    var next, line := Produce(st, t, value), st.producers[t].line;
    CountJoins(st.queue, [line.(ticket := st.pushes)], id);
    SingleCount(line.(ticket := st.pushes), id);
    HandChanges(st.producers, t, next.producers[t], id);
  }

  lemma OtherStepsMove(st: Stream, t: nat, value: string, id: nat)
    requires t < |st.producers| && !(st.producers[t].Refused? && st.queue != [])
    requires !(st.producers[t].Holding? && |st.queue| < st.capacity)
    ensures var next := Produce(st, t, value);
            OnTheWay(next, id) == OnTheWay(st, id) + if st.logged <= id < next.logged then 1 else 0
  {
    var next := Produce(st, t, value);
    if st.producers[t].GivingUp? {
      CountJoins(st.lost, [st.producers[t].line], id);
      SingleCount(st.producers[t].line, id);
    }
    HandChanges(st.producers, t, next.producers[t], id);
  }

  /** One producer step moves lines between places; only a newly logged line appears. */
  lemma ProducePlaces(st: Stream, held: seq<Line>, t: nat, value: string, id: nat)
    requires t < |st.producers|
    ensures var next := Produce(st, t, value);
            Places(next, held, id) == Places(st, held, id) + if st.logged <= id < next.logged then 1 else 0
  {
    hide OnTheWay;
    PlacesOnTheWay(st, held, id);
    PlacesOnTheWay(Produce(st, t, value), held, id);
    if st.producers[t].Refused? && st.queue != [] {
      EvictingMoves(st, t, value, id);
    } else if st.producers[t].Holding? && |st.queue| < st.capacity {
      PushingMoves(st, t, value, id);
    } else {
      OtherStepsMove(st, t, value, id);
    }
  }

  lemma PlacesOnTheWay(st: Stream, held: seq<Line>, id: nat)
    ensures Places(st, held, id) == Count(st.handed, id) + Count(held, id) + OnTheWay(st, id)
  {
  }

  lemma ProduceConserves(st: Stream, held: seq<Line>, t: nat, value: string)
    requires t < |st.producers| && Conserved(st, held)
    ensures Conserved(Produce(st, t, value), held)
  {
    hide Places;
    var next := Produce(st, t, value);
    forall id: nat ensures Places(next, held, id) == if id < next.logged then 1 else 0 {
      ProducePlaces(st, held, t, value, id);
    }
  }

  lemma ProduceCountsOutstanding(st: Stream, t: nat, value: string)
    requires t < |st.producers|
    ensures var next := Produce(st, t, value);
            next.outstanding - |next.queue| - AllOwed(next.producers) ==
                st.outstanding - |st.queue| - AllOwed(st.producers)
  {
    var next := Produce(st, t, value);
    assert next.producers == st.producers[t := next.producers[t]];
    ShareChanges(st.producers, t, next.producers[t]);
  }

  lemma ProduceCountsDropped(st: Stream, t: nat, value: string)
    requires t < |st.producers|
    ensures var next := Produce(st, t, value);
            next.dropped + AllUncounted(next.producers) - |next.lost| ==
                st.dropped + AllUncounted(st.producers) - |st.lost|
  {
    hide Owed;
    var next := Produce(st, t, value);
    assert next.producers == st.producers[t := next.producers[t]];
    ShareChanges(st.producers, t, next.producers[t]);
  }

  lemma ProduceCounts(st: Stream, owes: nat, t: nat, value: string)
    requires t < |st.producers| && Counted(st, owes)
    ensures Counted(Produce(st, t, value), owes)
  {
    hide Produce;
    ProduceCountsOutstanding(st, t, value);
    ProduceCountsDropped(st, t, value);
  }

  lemma ProduceKeepsOrder(st: Stream, held: seq<Line>, t: nat, value: string)
    requires t < |st.producers| && Ascending(st.handed + held + st.queue, st.pushes)
    ensures var next := Produce(st, t, value); Ascending(next.handed + held + next.queue, next.pushes)
  {
    var next := Produce(st, t, value);
    var front := st.handed + held;
    if st.producers[t].Refused? && st.queue != [] {
      OneLeaves(front, st.queue, st.pushes);
    } else if st.producers[t].Holding? && |st.queue| < st.capacity {
      assert next.handed + held + next.queue == front + st.queue + [next.queue[|st.queue|]];
    }
  }

  lemma OneLeaves(front: seq<Line>, queue: seq<Line>, bound: nat)
    requires queue != [] && Ascending(front + queue, bound)
    ensures Ascending(front + queue[1..], bound)
  {
    var was, now := front + queue, front + queue[1..];
    assert forall i | 0 <= i < |now| :: now[i] == was[if i < |front| then i else i + 1];
  }

  lemma ProduceKeeps(st: Stream, held: seq<Line>, owes: nat, t: nat, value: string)
    requires t < |st.producers| && Good(st, held, owes)
    ensures Good(Produce(st, t, value), held, owes)
  {
    hide Conserved, Counted, Ascending;
    ProduceConserves(st, held, t, value);
    ProduceCounts(st, owes, t, value);
    ProduceKeepsOrder(st, held, t, value);
  }

  lemma PopKeeps(st: Stream, held: seq<Line>, owes: nat)
    requires Good(st, held, owes) && st.queue != []
    ensures Good(Pop(st), held + [st.queue[0]], owes + 1)
  {
    hide Ascending;
    forall id: nat ensures Places(Pop(st), held + [st.queue[0]], id) == if id < st.logged then 1 else 0 {
      HeadLeaves(st.queue, id);
      CountJoins(held, [st.queue[0]], id);
      assert Places(st, held, id) == if id < st.logged then 1 else 0;
    }
    assert st.handed + (held + [st.queue[0]]) + st.queue[1..] == st.handed + held + st.queue;
  }

  lemma SubtractKeeps(st: Stream, held: seq<Line>, owes: nat)
    requires Good(st, held, owes + 1)
    ensures Good(Subtract(st), held, owes) && Subtract(st).outstanding >= 0
  {
    hide Ascending;
    forall id: nat ensures Places(Subtract(st), held, id) == if id < st.logged then 1 else 0 {
      assert Places(st, held, id) == if id < st.logged then 1 else 0;
    }
  }

  lemma {:induction false} SameValues(lines: seq<Line>, value: string)
    requires forall i | 0 <= i < |lines| :: lines[i].value == value
    ensures Values(lines) == Copies(value, |lines|)
  {
    if lines != [] {
      SameValues(lines[..|lines| - 1], value);
    }
  }

  lemma {:induction false} ValuesJoin(a: seq<Line>, b: seq<Line>)
    ensures Values(a + b) == Values(a) + Values(b)
  {
    if b == [] {
      assert a + b == a && Values(a) + [] == Values(a);
    } else {
      ValuesJoin(a, b[..|b| - 1]);
      assert (a + b)[..|a + b| - 1] == a + b[..|b| - 1];
    }
  }

  lemma HandConserves(st: Stream, lines: seq<Line>, held: seq<Line>, value: string,
                      works: bool)
    requires Conserved(st, lines + held)
    ensures Conserved(Hand(st, lines, value, works), held)
  {
    var next := Hand(st, lines, value, works);
    forall id: nat ensures Places(next, held, id) == if id < next.logged then 1 else 0 {
      CountJoins(lines, held, id);
      CountJoins(st.handed, lines, id);
      assert Places(st, lines + held, id) == if id < st.logged then 1 else 0;
    }
  }

  lemma HandKeeps(st: Stream, lines: seq<Line>, held: seq<Line>, owes: nat, value: string, works: bool)
    requires Good(st, lines + held, owes)
    requires forall i | 0 <= i < |lines| :: lines[i].value == value
    ensures Good(Hand(st, lines, value, works), held, owes)
  {
    hide Ascending, Conserved;
    HandConserves(st, lines, held, value, works);
    assert st.handed + (lines + held) + st.queue == st.handed + lines + held + st.queue;
    SameValues(lines, value);
    ValuesJoin(st.handed, lines);
    assert (st.sink + [Record(value, |lines|)])[..|st.sink|] == st.sink;
  }

  // ---------------------------------------------------------------------------------------------
  // The whole machine.
  // ---------------------------------------------------------------------------------------------

  function AsSeq(line: Option<Line>): seq<Line>
  {
    if line.None? then [] else [line.value]
  }

  function ProtocolHeld(s: State): seq<Line>
  {
    if s.writer.WritingProtocol? then [s.writer.line] else []
  }

  function ProtocolOwes(s: State): nat
  {
    if s.writer.WritingProtocol? || s.writer.ProtocolWritten? then 1 else 0
  }

  function DiagnosticHeld(s: State): seq<Line>
  {
    if s.writer.Coalescing? || s.writer.Absorbed? || s.writer.Ready? then
      [s.writer.line] + s.writer.absorbed + AsSeq(s.pending)
    else AsSeq(s.pending)
  }

  function DiagnosticOwes(s: State): nat
  {
    |AsSeq(s.pending)|
    + (if s.writer.Coalescing? || s.writer.Ready? || s.writer.Written? then 1 else if s.writer.Absorbed? then 2 else 0)
  }

  predicate GoodWriter(s: State)
  {
    && s.burst <= PROTOCOL_BURST
    && match s.writer
       case Coalescing(line, absorbed) => s.pending.None? && Mergeable(line, absorbed)
       case Absorbed(line, absorbed) => s.pending.None? && Mergeable(line, absorbed)
       case Ready(line, absorbed) => Mergeable(line, absorbed)
       case WritingProtocol(_, nextBurst) => 0 < nextBurst <= PROTOCOL_BURST
       case ProtocolWritten(nextBurst) => 0 < nextBurst <= PROTOCOL_BURST
       case _ => true
  }

  predicate Mergeable(line: Line, absorbed: seq<Line>)
  {
    1 + |absorbed| <= COALESCE_BATCH && forall i | 0 <= i < |absorbed| :: absorbed[i].value == line.value
  }

  ghost predicate Invariant(s: State)
  {
    && GoodWriter(s)
    && Good(s.protocol, ProtocolHeld(s), ProtocolOwes(s))
    && Good(s.diagnostic, DiagnosticHeld(s), DiagnosticOwes(s))
  }

  lemma InitialInvariant(protocolCapacity: nat, diagnosticCapacity: nat, threads: nat)
    ensures Invariant(Initial(protocolCapacity, diagnosticCapacity, threads))
  {
    AllIdle(threads);
  }

  lemma {:induction false} AllIdle(threads: nat)
    ensures var idle := seq(threads, _ => Idle);
            AllOwed(idle) == 0 && AllUncounted(idle) == 0 && forall id :: Hands(idle, id) == 0
  {
    if threads > 0 {
      AllIdle(threads - 1);
      assert seq(threads, _ => Idle)[..threads - 1] == seq(threads - 1, _ => Idle);
    }
  }

  lemma ProtocolBranchKeeps(s: State, works: bool)
    requires Invariant(s)
    requires s.writer.Asking? || s.writer.LastResort? || s.writer.WritingProtocol? || s.writer.ProtocolWritten?
    ensures Invariant(WriterStep(s, works))
  {
    hide Good;
    if s.writer.WritingProtocol? {
      var line := s.writer.line;
      assert [line] + [] == [line];
      HandKeeps(s.protocol, [line], [], 1, line.value, works);
    } else if s.writer.ProtocolWritten? {
      SubtractKeeps(s.protocol, [], 0);
    } else if s.protocol.queue != [] {
      assert [] + [s.protocol.queue[0]] == [s.protocol.queue[0]];
      PopKeeps(s.protocol, [], 0);
    }
  }

  lemma CoalescingKeeps(s: State, works: bool)
    requires Invariant(s) && s.writer.Coalescing?
    ensures Invariant(WriterStep(s, works))
  {
    hide Good;
    var line, absorbed := s.writer.line, s.writer.absorbed;
    assert [line] + absorbed + [] == [line] + absorbed;
    if s.diagnostic.queue != [] {
      var next := s.diagnostic.queue[0];
      PopKeeps(s.diagnostic, [line] + absorbed, 1);
      assert [line] + (absorbed + [next]) + [] == [line] + absorbed + [next];
    }
  }

  lemma DiagnosticBranchKeeps(s: State, works: bool)
    requires Invariant(s)
    requires s.writer.AskingDiagnostic? || s.writer.Absorbed? || s.writer.Ready? || s.writer.Written?
    ensures Invariant(WriterStep(s, works))
  {
    hide Good;
    if s.writer.Absorbed? {
      SubtractKeeps(s.diagnostic, DiagnosticHeld(s), 1);
    } else if s.writer.Ready? {
      HandKeeps(s.diagnostic, [s.writer.line] + s.writer.absorbed, AsSeq(s.pending), DiagnosticOwes(s),
                s.writer.line.value, works);
    } else if s.writer.Written? {
      SubtractKeeps(s.diagnostic, AsSeq(s.pending), |AsSeq(s.pending)|);
    } else if s.pending.Some? {
      assert [s.pending.value] + [] + [] == [s.pending.value];
    } else if s.diagnostic.queue != [] {
      PopKeeps(s.diagnostic, [], 0);
      assert [] + [s.diagnostic.queue[0]] == [s.diagnostic.queue[0]] + [] + [];
    }
  }

  /** Every step of every thread keeps the invariant. */
  lemma StepKeepsInvariant(s: State, step: Step)
    requires Invariant(s)
    ensures Invariant(Apply(s, step))
  {
    hide Good, GoodWriter, Produce, WriterStep;
    match step {
      case LogProtocol(t, value) =>
        if t < |s.protocol.producers| {
          ProduceKeeps(s.protocol, ProtocolHeld(s), ProtocolOwes(s), t, value);
          GoodWriterIsLocal(s, Apply(s, step));
        }
      case LogDiagnostic(t, value) =>
        if t < |s.diagnostic.producers| {
          ProduceKeeps(s.diagnostic, DiagnosticHeld(s), DiagnosticOwes(s), t, value);
          GoodWriterIsLocal(s, Apply(s, step));
        }
      case FlushFails(diagnostic) =>
        if diagnostic {
          DisabledIsGood(s.diagnostic, DiagnosticHeld(s), DiagnosticOwes(s));
        } else {
          DisabledIsGood(s.protocol, ProtocolHeld(s), ProtocolOwes(s));
        }
        GoodWriterIsLocal(s, Apply(s, step));
      case Write(_) =>
        if s.writer.Coalescing? {
          CoalescingKeeps(s, step.works);
        } else if s.writer.AskingDiagnostic? || s.writer.Absorbed? || s.writer.Ready? || s.writer.Written? {
          DiagnosticBranchKeeps(s, step.works);
        } else {
          ProtocolBranchKeeps(s, step.works);
        }
    }
  }

  lemma DisabledIsGood(st: Stream, held: seq<Line>, owes: nat)
    requires Good(st, held, owes)
    ensures Good(st.(disabled := true), held, owes)
  {
    forall id: nat ensures Places(st.(disabled := true), held, id) == if id < st.logged then 1 else 0 {
      assert Places(st, held, id) == if id < st.logged then 1 else 0;
    }
  }

  lemma GoodWriterIsLocal(s: State, t: State)
    requires GoodWriter(s) && s.writer == t.writer && s.burst == t.burst && s.pending == t.pending
    ensures GoodWriter(t)
  {
  }

  lemma {:induction false} RunKeepsInvariant(s: State, steps: seq<Step>)
    requires Invariant(s)
    ensures Invariant(Run(s, steps))
  {
    if steps != [] {
      RunKeepsInvariant(s, steps[..|steps| - 1]);
      StepKeepsInvariant(Run(s, steps[..|steps| - 1]), steps[|steps| - 1]);
    }
  }

  // ---------------------------------------------------------------------------------------------
  // What follows for every run.
  // ---------------------------------------------------------------------------------------------

  ghost predicate Reachable(s: State)
  {
    exists p, d, threads, steps :: s == Run(Initial(p, d, threads), steps)
  }

  lemma ReachableIsGood(s: State)
    requires Reachable(s)
    ensures Invariant(s)
  {
    var p, d, threads, steps :| s == Run(Initial(p, d, threads), steps);
    InitialInvariant(p, d, threads);
    RunKeepsInvariant(Initial(p, d, threads), steps);
  }

  /**
    Each logged line is in exactly one place: handed to the sink, in the writer's hands, queued, dropped,
    or still with its producer.
  */
  lemma EveryLineIsInOnePlace(s: State, id: nat)
    requires Reachable(s)
    ensures Places(s.protocol, ProtocolHeld(s), id) == if id < s.protocol.logged then 1 else 0
    ensures Places(s.diagnostic, DiagnosticHeld(s), id) == if id < s.diagnostic.logged then 1 else 0
  {
    hide Places;
    ReachableIsGood(s);
  }

  /** The counters are what is in flight; they never go below zero, and every drop gets counted. */
  lemma CountersMatch(s: State)
    requires Reachable(s)
    ensures s.protocol.outstanding == |s.protocol.queue| + ProtocolOwes(s) + AllOwed(s.protocol.producers) >= 0
    ensures s.diagnostic.outstanding == |s.diagnostic.queue| + DiagnosticOwes(s) + AllOwed(s.diagnostic.producers) >= 0
    ensures |s.protocol.lost| == s.protocol.dropped + AllUncounted(s.protocol.producers)
    ensures |s.diagnostic.lost| == s.diagnostic.dropped + AllUncounted(s.diagnostic.producers)
  {
    ReachableIsGood(s);
  }

  /** Both streams are handed over in the order in which their lines were pushed. */
  lemma HandedInPushOrder(s: State, i: nat, j: nat)
    requires Reachable(s)
    ensures i < j < |s.protocol.handed| ==> s.protocol.handed[i].ticket < s.protocol.handed[j].ticket
    ensures i < j < |s.diagnostic.handed| ==> s.diagnostic.handed[i].ticket < s.diagnostic.handed[j].ticket
  {
    hide Good;
    ReachableIsGood(s);
    HandedAscends(s.protocol, ProtocolHeld(s), ProtocolOwes(s), i, j);
    HandedAscends(s.diagnostic, DiagnosticHeld(s), DiagnosticOwes(s), i, j);
  }

  lemma HandedAscends(st: Stream, held: seq<Line>, owes: nat, i: nat, j: nat)
    requires Good(st, held, owes)
    ensures i < j < |st.handed| ==> st.handed[i].ticket < st.handed[j].ticket
  {
    hide Conserved, Counted;
    if i < j < |st.handed| {
      var all := st.handed + held + st.queue;
      assert all[i] == st.handed[i] && all[j] == st.handed[j];
    }
  }

  /**
    Merging loses nothing: each sink, with its repetitions written out, shows the handed lines in order, all of them
    while it works and the first ones once it has failed.
  */
  lemma SinksShowHandedLines(s: State)
    requires Reachable(s)
    ensures Expanded(s.protocol.sink) <= Values(s.protocol.handed)
    ensures Expanded(s.diagnostic.sink) <= Values(s.diagnostic.handed)
    ensures !s.protocol.disabled ==> Expanded(s.protocol.sink) == Values(s.protocol.handed)
    ensures !s.diagnostic.disabled ==> Expanded(s.diagnostic.sink) == Values(s.diagnostic.handed)
  {
    ReachableIsGood(s);
  }

  /** When a stream's counter is zero every line logged before has been handed over or dropped. */
  lemma NothingInFlightAtZero(s: State, id: nat)
    requires Reachable(s) && s.protocol.outstanding == 0 && s.diagnostic.outstanding == 0
    ensures id < s.protocol.logged ==> Count(s.protocol.handed, id) + Count(s.protocol.lost, id) == 1
    ensures id < s.diagnostic.logged ==> Count(s.diagnostic.handed, id) + Count(s.diagnostic.lost, id) == 1
  {
    ReachableIsGood(s);
    NobodyHolds(s.protocol.producers, id);
    NobodyHolds(s.diagnostic.producers, id);
    EveryLineIsInOnePlace(s, id);
  }

  lemma {:induction false} NobodyHolds(producers: seq<ProducerPc>, id: nat)
    requires AllOwed(producers) == 0
    ensures Hands(producers, id) == 0
  {
    if producers != [] {
      NobodyHolds(producers[..|producers| - 1], id);
    }
  }

  // ---------------------------------------------------------------------------------------------
  // Fairness between the streams.
  // ---------------------------------------------------------------------------------------------

  predicate DiagnosticWaits(s: State)
  {
    s.pending.Some? || s.diagnostic.queue != []
  }

  /** This step takes the first waiting diagnostic. */
  predicate ServesDiagnostic(s: State, step: Step)
  {
    step.Write? && s.writer.AskingDiagnostic? && DiagnosticWaits(s)
  }

  predicate TakesProtocol(s: State, step: Step)
  {
    && step.Write? && s.protocol.queue != []
    && (s.writer.LastResort? || (s.writer.Asking? && s.burst < PROTOCOL_BURST))
  }

  function ProtocolTaken(s: State, steps: seq<Step>): nat
  {
    if steps == [] then 0
    else
      var before := steps[..|steps| - 1];
      ProtocolTaken(s, before) + if TakesProtocol(Run(s, before), steps[|steps| - 1]) then 1 else 0
  }

  /** A diagnostic waits through the whole run and no step takes one. */
  ghost predicate KeepsWaiting(s: State, steps: seq<Step>)
  {
    forall n | 0 <= n < |steps| ::
      DiagnosticWaits(Run(s, steps[..n])) && !ServesDiagnostic(Run(s, steps[..n]), steps[n])
  }

  /** How many protocol lines the writer can still take before it turns to the diagnostics. */
  function Allowance(s: State): int
  {
    match s.writer
    case Asking => PROTOCOL_BURST - s.burst
    case AskingDiagnostic => 0
    case WritingProtocol(_, nextBurst) => PROTOCOL_BURST - nextBurst
    case ProtocolWritten(nextBurst) => PROTOCOL_BURST - nextBurst
    case _ => PROTOCOL_BURST
  }

  lemma AllowanceShrinks(s: State, step: Step)
    requires Invariant(s) && DiagnosticWaits(s) && !ServesDiagnostic(s, step)
    ensures Allowance(Apply(s, step)) + (if TakesProtocol(s, step) then 1 else 0) <= Allowance(s)
  {
    hide Good;
  }

  /** A waiting diagnostic stream is overtaken by at most 32 protocol lines. */
  lemma OvertakenByAtMostOneBurst(s: State, steps: seq<Step>)
    requires Reachable(s) && KeepsWaiting(s, steps)
    ensures ProtocolTaken(s, steps) <= PROTOCOL_BURST
  {
    hide Good;
    ReachableIsGood(s);
    TakenWithinAllowance(s, steps);
    RunKeepsInvariant(s, steps);
  }

  lemma {:induction false} TakenWithinAllowance(s: State, steps: seq<Step>)
    requires Invariant(s) && KeepsWaiting(s, steps)
    ensures ProtocolTaken(s, steps) + Allowance(Run(s, steps)) <= Allowance(s)
  {
    hide Invariant, Allowance, TakesProtocol, DiagnosticWaits, ServesDiagnostic;
    if steps != [] {
      var before := steps[..|steps| - 1];
      forall n | 0 <= n < |before| ensures before[..n] == steps[..n] {
      }
      TakenWithinAllowance(s, before);
      RunKeepsInvariant(s, before);
      AllowanceShrinks(Run(s, before), steps[|steps| - 1]);
    }
  }

  function DiagnosticsTaken(s: State, steps: seq<Step>): nat
  {
    if steps == [] then 0
    else
      var before := steps[..|steps| - 1];
      DiagnosticsTaken(s, before) + if ServesDiagnostic(Run(s, before), steps[|steps| - 1]) then 1 else 0
  }

  ghost predicate ProtocolWaits(s: State, steps: seq<Step>)
  {
    forall n | 0 <= n < |steps| :: Run(s, steps[..n]).protocol.queue != []
  }

  lemma ServingNeedsABurst(s: State, step: Step)
    requires Invariant(s) && s.protocol.queue != []
    ensures Allowance(s) + (if ServesDiagnostic(s, step) then PROTOCOL_BURST else 0) <=
            Allowance(Apply(s, step)) + (if TakesProtocol(s, step) then 1 else 0)
  {
    hide Good;
  }

  lemma {:induction false} TakenWithinBursts(s: State, steps: seq<Step>)
    requires Invariant(s) && ProtocolWaits(s, steps)
    ensures Allowance(s) + PROTOCOL_BURST * DiagnosticsTaken(s, steps) <=
            Allowance(Run(s, steps)) + ProtocolTaken(s, steps)
  {
    hide Invariant, Allowance, TakesProtocol, ServesDiagnostic;
    if steps != [] {
      var before := steps[..|steps| - 1];
      forall n | 0 <= n < |before| ensures before[..n] == steps[..n] {
      }
      TakenWithinBursts(s, before);
      RunKeepsInvariant(s, before);
      ServingNeedsABurst(Run(s, before), steps[|steps| - 1]);
    }
  }

  /** Protocol lines come first: while they wait, the writer takes one diagnostic for each 32 of them, and one more. */
  lemma ProtocolComesFirst(s: State, steps: seq<Step>)
    requires Reachable(s) && ProtocolWaits(s, steps)
    ensures 32 * DiagnosticsTaken(s, steps) <= ProtocolTaken(s, steps) + 32
  {
    hide Good;
    ReachableIsGood(s);
    TakenWithinBursts(s, steps);
    RunKeepsInvariant(s, steps);
  }

  /** The diagnostics the writer has not taken yet, the next one first. */
  function WaitingLines(s: State): seq<Line>
  {
    AsSeq(s.pending) + s.diagnostic.queue
  }

  /** The line with this ticket waits behind `ahead` others. */
  predicate WaitsBehind(s: State, ticket: nat, ahead: nat)
  {
    ahead < |WaitingLines(s)| && WaitingLines(s)[ahead].ticket == ticket
  }

  ghost predicate Waits(s: State, ticket: nat)
  {
    exists ahead :: WaitsBehind(s, ticket, ahead)
  }

  ghost predicate StaysQueued(s: State, steps: seq<Step>, ticket: nat)
  {
    forall n | 0 <= n <= |steps| :: Waits(Run(s, steps[..n]), ticket)
  }

  predicate TicketsAscend(lines: seq<Line>)
  {
    forall j, k | 0 <= j < k < |lines| :: lines[j].ticket < lines[k].ticket
  }

  lemma OnePlacePerTicket(lines: seq<Line>, j: nat, k: nat)
    requires TicketsAscend(lines) && j < |lines| && k < |lines| && lines[j].ticket == lines[k].ticket
    ensures j == k
  {
  }

  /** A line that is taken out moves the lines behind it up by one place. */
  lemma TakenOut(before: seq<Line>, after: seq<Line>, i: nat, ahead: nat, now: nat)
    requires i < |before| && after == before[..i] + before[i + 1..] && TicketsAscend(before)
    requires ahead < |before| && now < |after| && before[ahead].ticket == after[now].ticket
    ensures ahead != i && now == if i < ahead then ahead - 1 else ahead
  {
    hide TicketsAscend;
    OnePlacePerTicket(before, ahead, if now < i then now else now + 1);
  }

  lemma SamePlace(before: seq<Line>, after: seq<Line>, ahead: nat, now: nat)
    requires before <= after && TicketsAscend(after)
    requires ahead < |before| && now < |after| && before[ahead].ticket == after[now].ticket
    ensures now == ahead
  {
    hide TicketsAscend;
    OnePlacePerTicket(after, ahead, now);
  }

  lemma WaitingAscends(s: State)
    requires Invariant(s)
    ensures TicketsAscend(WaitingLines(s))
  {
    hide Conserved, Counted, Shown, DiagnosticOwes;
    var st := s.diagnostic;
    var all := st.handed + DiagnosticHeld(s) + st.queue;
    var front := |all| - |WaitingLines(s)|;
    forall j | 0 <= j < |WaitingLines(s)| ensures all[front + j] == WaitingLines(s)[j] {
    }
  }

  /** A producer step takes out at most one waiting line and adds new ones only at the end. */
  lemma ProducersOnlyHelp(s: State, t: nat, value: string, ticket: nat, ahead: nat, now: nat)
    requires Invariant(s) && t < |s.diagnostic.producers|
    requires Invariant(s.(diagnostic := Produce(s.diagnostic, t, value)))
    requires WaitsBehind(s, ticket, ahead)
    requires WaitsBehind(s.(diagnostic := Produce(s.diagnostic, t, value)), ticket, now)
    ensures now <= ahead
  {
    hide Invariant;
    WaitingAscends(s);
    WaitingAscends(s.(diagnostic := Produce(s.diagnostic, t, value)));
    ProducersMoveLines(s.diagnostic, AsSeq(s.pending), t, value, ahead, now);
  }

  lemma ProducersMoveLines(st: Stream, held: seq<Line>, t: nat, value: string, ahead: nat, now: nat)
    requires t < |st.producers|
    requires var before, after := held + st.queue, held + Produce(st, t, value).queue;
             && TicketsAscend(before) && TicketsAscend(after)
             && ahead < |before| && now < |after| && before[ahead].ticket == after[now].ticket
    ensures now <= ahead
  {
    hide TicketsAscend;
    var before, after := held + st.queue, held + Produce(st, t, value).queue;
    if st.producers[t].Refused? && st.queue != [] {
      assert after == before[..|held|] + before[|held| + 1..];
      TakenOut(before, after, |held|, ahead, now);
    } else {
      assert after[..|before|] == before;
      SamePlace(before, after, ahead, now);
    }
  }

  /** What the writer's own step does to the waiting diagnostics: it takes the first one, or leaves them alone. */
  lemma WriterTakesFirst(s: State, works: bool, ahead: nat, now: nat)
    requires GoodWriter(s) && TicketsAscend(WaitingLines(s))
    requires ahead < |WaitingLines(s)| && now < |WaitingLines(WriterStep(s, works))|
    requires WaitingLines(s)[ahead].ticket == WaitingLines(WriterStep(s, works))[now].ticket
    ensures now <= ahead && (s.writer.AskingDiagnostic? ==> now + 1 == ahead)
  {
    hide TicketsAscend, WriterStep, WaitingLines, GoodWriter;
    var before, after := WaitingLines(s), WaitingLines(WriterStep(s, works));
    WriterWaitingLines(s, works);
    if after != before {
      assert after == before[..0] + before[1..];
      TakenOut(before, after, 0, ahead, now);
    } else {
      SamePlace(before, after, ahead, now);
    }
  }

  lemma WriterWaitingLines(s: State, works: bool)
    requires GoodWriter(s)
    ensures var before, after := WaitingLines(s), WaitingLines(WriterStep(s, works));
            && (after == before || (before != [] && after == before[1..]))
            && (s.writer.AskingDiagnostic? && before != [] ==> after == before[1..])
  {
    if s.writer.Coalescing? && s.diagnostic.queue != [] {
      assert [] + s.diagnostic.queue == [s.diagnostic.queue[0]] + s.diagnostic.queue[1..];
    }
  }

  /** The writer's own step: a line it takes shortens the way of all others; a protocol line uses up the burst. */
  lemma WriterUsesUpAllowance(s: State, works: bool, ticket: nat, ahead: nat, now: nat)
    requires Invariant(s) && WaitsBehind(s, ticket, ahead) && WaitsBehind(WriterStep(s, works), ticket, now)
    ensures PROTOCOL_BURST * now + Allowance(WriterStep(s, works)) + (if TakesProtocol(s, Write(works)) then 1 else 0)
            <= PROTOCOL_BURST * ahead + Allowance(s)
  {
    hide Good, WriterStep, Allowance, TakesProtocol;
    WaitingAscends(s);
    WriterTakesFirst(s, works, ahead, now);
    if ServesDiagnostic(s, Write(works)) {
      ServingRenewsAllowance(s, works);
    } else {
      AllowanceShrinks(s, Write(works));
    }
  }

  lemma ServingRenewsAllowance(s: State, works: bool)
    requires ServesDiagnostic(s, Write(works))
    ensures Allowance(s) == 0 && Allowance(WriterStep(s, works)) == PROTOCOL_BURST && !TakesProtocol(s, Write(works))
  {
  }

  lemma StepUsesUpAllowance(s: State, step: Step, ticket: nat, ahead: nat, now: nat)
    requires Invariant(s) && WaitsBehind(s, ticket, ahead) && WaitsBehind(Apply(s, step), ticket, now)
    ensures PROTOCOL_BURST * now + Allowance(Apply(s, step)) + (if TakesProtocol(s, step) then 1 else 0)
            <= PROTOCOL_BURST * ahead + Allowance(s)
  {
    hide Good, Invariant, WriterStep, Produce;
    StepKeepsInvariant(s, step);
    if step.Write? {
      WriterUsesUpAllowance(s, step.works, ticket, ahead, now);
    } else if step.LogDiagnostic? && step.thread < |s.diagnostic.producers| {
      ProducersOnlyHelp(s, step.thread, step.value, ticket, ahead, now);
    } else {
      WaitingAscends(s);
      SamePlace(WaitingLines(s), WaitingLines(Apply(s, step)), ahead, now);
    }
  }

  lemma {:induction false} QueuedWithinAllowance(s: State, steps: seq<Step>, ticket: nat, ahead: nat) returns (now: nat)
    requires Invariant(s) && WaitsBehind(s, ticket, ahead) && StaysQueued(s, steps, ticket)
    ensures WaitsBehind(Run(s, steps), ticket, now)
    ensures ProtocolTaken(s, steps) + PROTOCOL_BURST * now + Allowance(Run(s, steps)) <=
            PROTOCOL_BURST * ahead + Allowance(s)
  {
    hide Invariant, Allowance, TakesProtocol, WaitsBehind;
    if steps == [] {
      now := ahead;
    } else {
      var before := steps[..|steps| - 1];
      forall n | 0 <= n <= |before| ensures before[..n] == steps[..n] {
      }
      var earlier := QueuedWithinAllowance(s, before, ticket, ahead);
      RunKeepsInvariant(s, before);
      assert steps[..|steps|] == steps;
      assert Waits(Run(s, steps), ticket);
      now :| WaitsBehind(Run(s, steps), ticket, now);
      StepUsesUpAllowance(Run(s, before), steps[|steps| - 1], ticket, earlier, now);
    }
  }

  /**
    A diagnostic with `ahead` others before it is overtaken by at most 32 * (ahead + 1) protocol lines while
    it waits.
  */
  lemma OvertakenInProportion(s: State, steps: seq<Step>, ticket: nat, ahead: nat)
    requires Reachable(s) && WaitsBehind(s, ticket, ahead) && StaysQueued(s, steps, ticket)
    ensures ProtocolTaken(s, steps) <= PROTOCOL_BURST * (ahead + 1)
  {
    hide Good;
    ReachableIsGood(s);
    var now := QueuedWithinAllowance(s, steps, ticket, ahead);
    RunKeepsInvariant(s, steps);
  }

  // ---------------------------------------------------------------------------------------------
  // Which line gives way, and that every line gets out.
  // ---------------------------------------------------------------------------------------------

  /** A thread that was refused took the oldest waiting line out; it keeps its own, which is another one. */
  predicate OldestGaveWay(before: Stream, after: Stream, t: nat, line: Line)
  {
    && t < |before.producers| == |after.producers|
    && before.producers[t].Refused? && after.producers[t].Evicted?
    && after.producers[t].line == before.producers[t].line && line.id != before.producers[t].line.id
    && before.queue == [line] + after.queue
    && forall i | 0 <= i < |after.queue| :: line.ticket < after.queue[i].ticket
  }

  /** A thread that has run out of attempts dropped its own line. */
  predicate NewestGaveUp(before: Stream, after: Stream, t: nat, line: Line)
  {
    && t < |before.producers| == |after.producers|
    && before.producers[t] == GivingUp(line) && after.producers[t] == GaveUp
    && after.queue == before.queue
  }

  ghost predicate LossExplained(before: Stream, after: Stream)
  {
    || after.lost == before.lost
    || exists t, line ::
         && after.lost == before.lost + [line]
         && (OldestGaveWay(before, after, t, line) || NewestGaveUp(before, after, t, line))
  }

  lemma {:induction false} HandsAtLeast(producers: seq<ProducerPc>, t: nat, id: nat)
    requires t < |producers|
    ensures InHand(producers[t], id) <= Hands(producers, id)
  {
    hide InHand;
    if t < |producers| - 1 {
      HandsAtLeast(producers[..|producers| - 1], t, id);
    }
  }

  lemma QueueAscends(st: Stream, held: seq<Line>, owes: nat, i: nat)
    requires Good(st, held, owes) && 0 < i < |st.queue|
    ensures st.queue[0].ticket < st.queue[i].ticket
  {
    hide Conserved, Counted, Shown;
    var all := st.handed + held + st.queue;
    var front := |st.handed + held|;
    assert all[front] == st.queue[0] && all[front + i] == st.queue[i];
  }

  lemma HeadIsNotInHand(st: Stream, held: seq<Line>, owes: nat, t: nat)
    requires Good(st, held, owes) && st.queue != [] && t < |st.producers|
    ensures InHand(st.producers[t], st.queue[0].id) == 0
  {
    hide Ascending, Counted, Shown;
    var id := st.queue[0].id;
    assert Places(st, held, id) == if id < st.logged then 1 else 0;
    HeadLeaves(st.queue, id);
    SingleCount(st.queue[0], id);
    HandsAtLeast(st.producers, t, id);
  }

  lemma ProduceLoses(st: Stream, held: seq<Line>, owes: nat, t: nat, value: string)
    requires t < |st.producers| && Good(st, held, owes)
    ensures LossExplained(st, Produce(st, t, value))
  {
    hide Good;
    var next := Produce(st, t, value);
    if st.producers[t].Refused? && st.queue != [] {
      HeadIsNotInHand(st, held, owes, t);
      forall i: nat | i < |next.queue| ensures st.queue[0].ticket < next.queue[i].ticket {
        QueueAscends(st, held, owes, i + 1);
      }
      assert OldestGaveWay(st, next, t, st.queue[0]);
    } else if st.producers[t].GivingUp? {
      assert NewestGaveUp(st, next, t, st.producers[t].line);
    }
  }

  /**
    In every run a line is lost only as the oldest one waiting, for another line that stays with its producer, or when
    its own producer has been refused too often.
  */
  lemma LostOnlyAsOldest(s: State, step: Step)
    requires Reachable(s)
    ensures LossExplained(s.protocol, Apply(s, step).protocol)
    ensures LossExplained(s.diagnostic, Apply(s, step).diagnostic)
  {
    hide Good, Produce, Reachable;
    ReachableIsGood(s);
    if step.LogProtocol? && step.thread < |s.protocol.producers| {
      ProduceLoses(s.protocol, ProtocolHeld(s), ProtocolOwes(s), step.thread, step.value);
    } else if step.LogDiagnostic? && step.thread < |s.diagnostic.producers| {
      ProduceLoses(s.diagnostic, DiagnosticHeld(s), DiagnosticOwes(s), step.thread, step.value);
    }
  }

  /** Four refusals are too often. */
  lemma FourthRefusalIsTheLast(st: Stream, t: nat, value: string)
    requires t < |st.producers| && st.producers[t].Counting?
    ensures var pc := st.producers[t];
            Produce(st, t, value).producers[t] ==
            if pc.attempt < 3 then Holding(pc.line, pc.attempt + 1) else GivingUp(pc.line)
  {
  }

  function StreamOf(s: State, diagnostic: bool): Stream
  {
    if diagnostic then s.diagnostic else s.protocol
  }

  function Log(diagnostic: bool, t: nat, value: string): Step
  {
    if diagnostic then LogDiagnostic(t, value) else LogProtocol(t, value)
  }

  function Repeat(step: Step, n: nat): seq<Step>
  {
    if n == 0 then [] else Repeat(step, n - 1) + [step]
  }

  function Produced(st: Stream, t: nat, value: string, n: nat): (r: Stream)
    requires t < |st.producers|
    ensures |r.producers| == |st.producers|
  {
    if n == 0 then st else Produce(Produced(st, t, value, n - 1), t, value)
  }

  lemma {:induction false} RunProduces(s: State, diagnostic: bool, t: nat, value: string, n: nat)
    requires t < |StreamOf(s, diagnostic).producers|
    ensures StreamOf(Run(s, Repeat(Log(diagnostic, t, value), n)), diagnostic) ==
            Produced(StreamOf(s, diagnostic), t, value, n)
  {
    hide Produce, Apply, StreamOf, Log;
    if n > 0 {
      RunProduces(s, diagnostic, t, value, n - 1);
      var steps := Repeat(Log(diagnostic, t, value), n);
      LogProduces(Run(s, Repeat(Log(diagnostic, t, value), n - 1)), diagnostic, t, value);
      assert steps[..n - 1] == Repeat(Log(diagnostic, t, value), n - 1) && |steps| == n by {
        RepeatLength(Log(diagnostic, t, value), n - 1);
      }
    }
  }

  lemma LogProduces(s: State, diagnostic: bool, t: nat, value: string)
    requires t < |StreamOf(s, diagnostic).producers|
    ensures StreamOf(Apply(s, Log(diagnostic, t, value)), diagnostic) == Produce(StreamOf(s, diagnostic), t, value)
  {
    hide Produce, WriterStep;
  }

  lemma {:induction false} RepeatLength(step: Step, n: nat)
    ensures |Repeat(step, n)| == n
  {
    if n > 0 {
      RepeatLength(step, n - 1);
    }
  }

  lemma OneMoreProduced(st: Stream, t: nat, value: string, n: nat)
    requires t < |st.producers|
    ensures Produced(st, t, value, n + 1) == Produce(Produced(st, t, value, n), t, value)
  {
  }

  /** The stream after one line was logged with nobody else at work: it is queued last, if need be for the oldest. */
  predicate LoggedAlone(before: Stream, after: Stream, value: string)
  {
    var full := |before.queue| >= before.capacity > 0;
    && after.queue == (if full && before.queue != [] then before.queue[1..] else before.queue) +
                      [Line(before.logged, value, before.pushes)]
    && after.lost == before.lost + (if full && before.queue != [] then [before.queue[0]] else [])
    && after.producers == before.producers && after.handed == before.handed && after.sink == before.sink
    && after.dropped == before.dropped + (if full then 1 else 0)
    && after.outstanding == before.outstanding + (if full then 0 else 1)
  }

  lemma ProducesWithRoom(st: Stream, t: nat, value: string)
    requires t < |st.producers| && st.producers[t].Idle? && |st.queue| < st.capacity
    ensures LoggedAlone(st, Produced(st, t, value, 2), value)
  {
    hide Produced;
    var one := Produce(st, t, value);
    assert one.producers[t := Idle] == st.producers;
    TwoProduced(st, t, value);
  }

  lemma TwoProduced(st: Stream, t: nat, value: string)
    requires t < |st.producers|
    ensures Produced(st, t, value, 2) == Produce(Produce(st, t, value), t, value)
  {
    hide Produce;
    OneMoreProduced(st, t, value, 0);
    OneMoreProduced(st, t, value, 1);
  }

  lemma ProducesWhenFull(st: Stream, t: nat, value: string)
    requires t < |st.producers| && st.producers[t].Idle? && |st.queue| == st.capacity > 0
    ensures LoggedAlone(st, Produced(st, t, value, 6), value)
  {
    hide Produced;
    var line := Line(st.logged, value, 0);
    var one := Produce(st, t, value);
    var refused := one.(producers := st.producers[t := Refused(line, 0)]);
    assert Produce(one, t, value) == refused;
    var evicted := refused.(queue := st.queue[1..], lost := st.lost + [st.queue[0]],
                            producers := st.producers[t := Evicted(line, 0)]);
    assert Produce(refused, t, value) == evicted;
    var subtracted := evicted.(outstanding := st.outstanding, producers := st.producers[t := Counting(line, 0)]);
    assert Produce(evicted, t, value) == subtracted;
    var again := subtracted.(dropped := st.dropped + 1, producers := st.producers[t := Holding(line, 1)]);
    assert Produce(subtracted, t, value) == again;
    assert again.producers[t := Idle] == st.producers;
    TwoProduced(st, t, value);
    OneMoreProduced(st, t, value, 2);
    OneMoreProduced(st, t, value, 3);
    OneMoreProduced(st, t, value, 4);
    OneMoreProduced(st, t, value, 5);
  }

  lemma {:induction false} CapacityStays(s: State, steps: seq<Step>, diagnostic: bool)
    ensures StreamOf(Run(s, steps), diagnostic).capacity == StreamOf(s, diagnostic).capacity
  {
    if steps != [] {
      CapacityStays(s, steps[..|steps| - 1], diagnostic);
    }
  }

  /**
    A line logged while nobody else is at work is queued last: after two operations when there is room, after six when
    the stream is full and its oldest line has to leave.
  */
  lemma AloneQueuesTheLine(s: State, diagnostic: bool, t: nat, value: string)
    requires Reachable(s) && t < |StreamOf(s, diagnostic).producers| && StreamOf(s, diagnostic).producers[t].Idle?
    ensures var st := StreamOf(s, diagnostic);
            var steps := Repeat(Log(diagnostic, t, value), if |st.queue| < st.capacity then 2 else 6);
            LoggedAlone(st, StreamOf(Run(s, steps), diagnostic), value)
  {
    hide LoggedAlone, Repeat, Produced, Conserved, Counted, Ascending, Shown;
    var st := StreamOf(s, diagnostic);
    assert |st.queue| <= st.capacity by {
      ReachableIsGood(s);
    }
    assert st.capacity > 0 by {
      var p, d, threads, steps :| s == Run(Initial(p, d, threads), steps);
      CapacityStays(Initial(p, d, threads), steps, diagnostic);
    }
    if |st.queue| < st.capacity {
      RunProduces(s, diagnostic, t, value, 2);
      ProducesWithRoom(st, t, value);
    } else {
      RunProduces(s, diagnostic, t, value, 6);
      ProducesWhenFull(st, t, value);
    }
  }

  // ---------------------------------------------------------------------------------------------
  // The writer empties both streams.
  // ---------------------------------------------------------------------------------------------

  function Writes(works: seq<bool>): seq<Step>
  {
    if works == [] then [] else Writes(works[..|works| - 1]) + [Write(works[|works| - 1])]
  }

  /** Lines the writer has not taken to its hands yet. */
  function Waiting(s: State): nat
  {
    |s.protocol.queue| + |s.diagnostic.queue| + |AsSeq(s.pending)|
  }

  /** Nothing waits and the writer holds nothing. */
  predicate Drained(s: State)
  {
    Waiting(s) == 0 && (s.writer.Asking? || s.writer.AskingDiagnostic? || s.writer.LastResort?)
  }

  function Rank(s: State): nat
  {
    match s.writer
    case LastResort => if s.protocol.queue == [] then 4 else 1
    case AskingDiagnostic => 2
    case Asking => 3
    case ProtocolWritten(_) => 4
    case Written => 4
    case WritingProtocol(_, _) => 5
    case Ready(_, _) => 5
    case Coalescing(_, _) => 6
    case Absorbed(_, _) => 7
  }

  lemma WriteMakesProgress(s: State, works: bool)
    ensures Drained(s) ==> Drained(WriterStep(s, works))
    ensures var next := WriterStep(s, works);
            Drained(s) || Drained(next) || 10 * Waiting(next) + Rank(next) < 10 * Waiting(s) + Rank(s)
  {
  }

  lemma {:induction false} WritesDrain(s: State, works: seq<bool>)
    ensures var next := Run(s, Writes(works));
            Drained(next) || 10 * Waiting(next) + Rank(next) + |works| <= 10 * Waiting(s) + Rank(s)
  {
    hide Drained, Waiting, Rank, WriterStep;
    if works != [] {
      var before := works[..|works| - 1];
      WritesDrain(s, before);
      assert Writes(works)[..|Writes(works)| - 1] == Writes(before);
      WriteMakesProgress(Run(s, Writes(before)), works[|works| - 1]);
    }
  }

  /**
    Left alone, the writer empties both streams within ten operations a line: every line logged is then handed over or
    dropped, except one that is still with its producer. Failing sinks do not hold it up.
  */
  lemma WriterDrains(s: State, works: seq<bool>, id: nat)
    requires Reachable(s) && |works| >= 10 * Waiting(s) + 8
    ensures var next := Run(s, Writes(works));
            && next.protocol.queue == [] && next.diagnostic.queue == [] && next.pending == None
            && Count(next.protocol.handed, id) + Count(next.protocol.lost, id) + Hands(next.protocol.producers, id) ==
                 (if id < next.protocol.logged then 1 else 0)
            && Count(next.diagnostic.handed, id) + Count(next.diagnostic.lost, id) +
               Hands(next.diagnostic.producers, id) ==
                 (if id < next.diagnostic.logged then 1 else 0)
  {
    hide Reachable, Run, Writes;
    WritesDrain(s, works);
    StillReachable(s, Writes(works));
    EveryLineIsInOnePlace(Run(s, Writes(works)), id);
  }

  lemma {:induction false} RunJoins(s: State, first: seq<Step>, second: seq<Step>)
    ensures Run(s, first + second) == Run(Run(s, first), second)
  {
    if second == [] {
      assert first + second == first;
    } else {
      RunJoins(s, first, second[..|second| - 1]);
      assert (first + second)[..|first + second| - 1] == first + second[..|second| - 1];
    }
  }

  lemma {:induction false} WritesJoin(a: seq<bool>, b: seq<bool>)
    ensures Writes(a + b) == Writes(a) + Writes(b)
  {
    if b == [] {
      assert a + b == a;
    } else {
      WritesJoin(a, b[..|b| - 1]);
      assert (a + b)[..|a + b| - 1] == a + b[..|b| - 1];
    }
  }

  lemma OneWrite(s: State, works: bool)
    ensures Run(s, Writes([works])) == WriterStep(s, works)
  {
    assert [works][..0] == [] && [Write(works)][..0] == [];
    assert Writes([works]) == [Write(works)];
  }

  lemma WriteFirst(s: State, works: seq<bool>)
    requires works != []
    ensures Run(s, Writes(works)) == Run(WriterStep(s, works[0]), Writes(works[1..]))
  {
    hide WriterStep;
    assert [works[0]] + works[1..] == works;
    WritesJoin([works[0]], works[1..]);
    RunJoins(s, Writes([works[0]]), Writes(works[1..]));
    OneWrite(s, works[0]);
  }

  /**
    What one record covers: left alone, the writer merges into a diagnostic exactly the equal lines that follow it, up
    to 64 in all, and keeps the first other one for later.
  */
  lemma {:induction false} MergesTheRun(s: State, k: nat, works: seq<bool>)
    requires s.writer.Coalescing? && k <= |s.diagnostic.queue| && |works| == 2 * k + 1
    requires 1 + |s.writer.absorbed| + k <= 64
    requires forall i | 0 <= i < k :: s.diagnostic.queue[i].value == s.writer.line.value
    requires || 1 + |s.writer.absorbed| + k == 64 || k == |s.diagnostic.queue|
             || s.diagnostic.queue[k].value != s.writer.line.value
    ensures var next, queue := Run(s, Writes(works)), s.diagnostic.queue;
            && next.writer == Ready(s.writer.line, s.writer.absorbed + queue[..k])
            && (if 1 + |s.writer.absorbed| + k == 64 || k == |queue| then
                  next.diagnostic.queue == queue[k..] && next.pending == s.pending
                else next.diagnostic.queue == queue[k + 1..] && next.pending == Some(queue[k]))
    decreases k
  {
    hide Run, Writes;
    var queue, absorbed := s.diagnostic.queue, s.writer.absorbed;
    WriteFirst(s, works);
    if k == 0 {
      NoWrites(WriterStep(s, works[0]), works[1..]);
      assert absorbed + queue[..0] == absorbed && queue[0..] == queue;
    } else {
      var one := WriterStep(s, works[0]);
      WriteFirst(one, works[1..]);
      assert works[1..][1..] == works[2..] && works[1..][0] == works[1];
      MergesTheRun(WriterStep(one, works[1]), k - 1, works[2..]);
      assert absorbed + [queue[0]] + queue[1..][..k - 1] == absorbed + queue[..k];
      assert queue[1..][k - 1..] == queue[k..] && (k < |queue| ==> queue[1..][k..] == queue[k + 1..]);
    }
  }

  lemma NoWrites(s: State, works: seq<bool>)
    requires works == []
    ensures Run(s, Writes(works)) == s
  {
  }

  lemma StillReachable(s: State, more: seq<Step>)
    requires Reachable(s)
    ensures Reachable(Run(s, more))
  {
    hide Run;
    var p, d, threads, steps :| s == Run(Initial(p, d, threads), steps);
    RunJoins(Initial(p, d, threads), steps, more);
  }
}
