/**
  The packet pool under concurrency: a bounded number of buffers is leased out, and returned buffers
  wait in a bounded queue for the next lease. Every atomic operation is a step, in any order.
*/
module PacketPool {
  const RETAINED_MAX: nat := 2048

  /** Where a thread stands in acquiring or releasing a buffer. */
  datatype Pc =
    | Idle
    | Missed
    | Granted
    | Returning(buffer: nat, intact: bool)
    | Discarding

  /** Buffers have ids; `next` is the first id never used. `discarded` are the ones given up for good. */
  datatype Pool = Pool(
    limit: nat,
    retainedLimit: nat,
    allocation: int,
    retained: seq<nat>,
    leased: set<nat>,
    threads: seq<Pc>,
    next: nat,
    discarded: set<nat>)

  /** `intact` says whether the buffer comes back at its full length. */
  datatype Step = Acquire(thread: nat) | Release(thread: nat, buffer: nat, intact: bool) | Continue(thread: nat)

  function Min(a: nat, b: nat): nat
  {
    if a < b then a else b
  }

  function New(buffers: nat, threads: nat): Pool
  {
    var capacity := if buffers == 0 then 1 else buffers;
    Pool(capacity, Min(capacity, RETAINED_MAX), 0, [], {}, seq(threads, _ => Idle), 0, {})
  }

  function At(p: Pool, t: nat, pc: Pc): Pool
    requires t < |p.threads|
  {
    p.(threads := p.threads[t := pc])
  }

  /** Pops a retained buffer, or goes on to allocate. */
  function StartAcquire(p: Pool, t: nat): Pool
    requires t < |p.threads|
  {
    if p.retained == [] then At(p, t, Missed)
    else p.(leased := p.leased + {p.retained[0]}, retained := p.retained[1..])
  }

  function ContinueStep(p: Pool, t: nat): Pool
    requires t < |p.threads|
  {
    match p.threads[t]
    case Idle => p
    case Missed => if p.allocation < p.limit then At(p, t, Granted).(allocation := p.allocation + 1) else At(p, t, Idle)
    case Granted => At(p, t, Idle).(leased := p.leased + {p.next}, next := p.next + 1)
    case Returning(buffer, intact) =>
      if intact && |p.retained| < p.retainedLimit then At(p, t, Idle).(retained := p.retained + [buffer])
      else At(p, t, Discarding).(discarded := p.discarded + {buffer})
    case Discarding => At(p, t, Idle).(allocation := p.allocation - 1)
  }

  function Apply(p: Pool, step: Step): Pool
  {
    if step.thread >= |p.threads| then p
    else
      match step
      case Acquire(t) => if p.threads[t].Idle? then StartAcquire(p, t) else p
      case Release(t, buffer, intact) =>
        if p.threads[t].Idle? && buffer in p.leased then
          At(p, t, Returning(buffer, intact)).(leased := p.leased - {buffer})
        else p
      case Continue(t) => ContinueStep(p, t)
  }

  function Run(p: Pool, steps: seq<Step>): Pool
  {
    if steps == [] then p else Apply(Run(p, steps[..|steps| - 1]), steps[|steps| - 1])
  }

  // ---------------------------------------------------------------------------------------------
  // The accounting.
  // ---------------------------------------------------------------------------------------------

  /** Whether a thread accounts for one allocated buffer. */
  function Share(pc: Pc): nat
  {
    if pc.Idle? || pc.Missed? then 0 else 1
  }

  function InFlight(threads: seq<Pc>): nat
  {
    if threads == [] then 0 else InFlight(threads[..|threads| - 1]) + Share(threads[|threads| - 1])
  }

  function InHand(pc: Pc, buffer: nat): nat
  {
    if pc.Returning? && pc.buffer == buffer then 1 else 0
  }

  function InHands(threads: seq<Pc>, buffer: nat): nat
  {
    if threads == [] then 0 else InHands(threads[..|threads| - 1], buffer) + InHand(threads[|threads| - 1], buffer)
  }

  function Retained(queue: seq<nat>, buffer: nat): nat
  {
    if queue == [] then 0 else Retained(queue[..|queue| - 1], buffer) + if queue[|queue| - 1] == buffer then 1 else 0
  }

  /** In how many places a buffer is. */
  function Places(p: Pool, buffer: nat): nat
  {
    (if buffer in p.leased then 1 else 0) + (if buffer in p.discarded then 1 else 0)
    + Retained(p.retained, buffer) + InHands(p.threads, buffer)
  }

  predicate Accounted(p: Pool)
  {
    && p.limit > 0 && p.retainedLimit == Min(p.limit, RETAINED_MAX)
    && |p.retained| <= p.retainedLimit
    && p.allocation <= p.limit
    && p.allocation == |p.leased| + |p.retained| + InFlight(p.threads)
  }

  ghost predicate Conserved(p: Pool)
  {
    forall b: nat :: Places(p, b) == if b < p.next then 1 else 0
  }

  ghost predicate Invariant(p: Pool)
  {
    Accounted(p) && Conserved(p)
  }

  lemma {:induction false} ThreadMoves(threads: seq<Pc>, t: nat, pc: Pc)
    requires t < |threads|
    ensures InFlight(threads[t := pc]) + Share(threads[t]) == InFlight(threads) + Share(pc)
  {
    hide Share;
    var n := |threads| - 1;
    if t < n {
      ThreadMoves(threads[..n], t, pc);
      assert threads[t := pc][..n] == threads[..n][t := pc];
    } else {
      assert threads[t := pc][..n] == threads[..n];
    }
  }

  lemma {:induction false} HandMoves(threads: seq<Pc>, t: nat, pc: Pc, b: nat)
    requires t < |threads|
    ensures InHands(threads[t := pc], b) + InHand(threads[t], b) == InHands(threads, b) + InHand(pc, b)
  {
    hide InHand;
    var n := |threads| - 1;
    if t < n {
      HandMoves(threads[..n], t, pc, b);
      assert threads[t := pc][..n] == threads[..n][t := pc];
    } else {
      assert threads[t := pc][..n] == threads[..n];
    }
  }

  lemma {:induction false} RetainedJoins(a: seq<nat>, c: seq<nat>, b: nat)
    ensures Retained(a + c, b) == Retained(a, b) + Retained(c, b)
  {
    if c == [] {
      assert a + c == a;
    } else {
      RetainedJoins(a, c[..|c| - 1], b);
      assert (a + c)[..|a + c| - 1] == a + c[..|c| - 1];
    }
  }

  lemma OneRetained(x: nat, b: nat)
    ensures Retained([x], b) == if x == b then 1 else 0
  {
    assert [x][..0] == [];
  }

  lemma HeadLeaves(queue: seq<nat>, b: nat)
    requires queue != []
    ensures Retained(queue, b) == Retained(queue[1..], b) + if queue[0] == b then 1 else 0
  {
    assert queue == [queue[0]] + queue[1..];
    RetainedJoins([queue[0]], queue[1..], b);
    OneRetained(queue[0], b);
  }

  lemma AcquireKeeps(p: Pool, t: nat)
    requires Invariant(p) && t < |p.threads| && p.threads[t].Idle?
    ensures Invariant(StartAcquire(p, t))
  {
    ThreadMoves(p.threads, t, Missed);
    if p.retained != [] {
      HeadLeaves(p.retained, p.retained[0]);
      assert Places(p, p.retained[0]) <= 1;
    }
    forall b: nat ensures Places(StartAcquire(p, t), b) == if b < p.next then 1 else 0 {
      HandMoves(p.threads, t, Missed, b);
      assert Places(p, b) == if b < p.next then 1 else 0;
      if p.retained != [] {
        HeadLeaves(p.retained, b);
      }
    }
  }

  lemma ReleaseKeeps(p: Pool, t: nat, buffer: nat, intact: bool)
    requires Invariant(p) && t < |p.threads| && p.threads[t].Idle? && buffer in p.leased
    ensures Invariant(Apply(p, Release(t, buffer, intact)))
  {
    var next := Apply(p, Release(t, buffer, intact));
    ThreadMoves(p.threads, t, Returning(buffer, intact));
    forall b: nat ensures Places(next, b) == if b < p.next then 1 else 0 {
      HandMoves(p.threads, t, Returning(buffer, intact), b);
      assert Places(p, b) == if b < p.next then 1 else 0;
    }
  }

  /** One continued step moves buffers between places; only a new lease adds one. */
  lemma ContinuePlaces(p: Pool, t: nat, b: nat)
    requires Invariant(p) && t < |p.threads|
    ensures var next := ContinueStep(p, t);
            Places(next, b) == Places(p, b) + if p.next <= b < next.next then 1 else 0
  {
    hide Accounted;
    var next := ContinueStep(p, t);
    assert next.threads == p.threads[t := next.threads[t]];
    HandMoves(p.threads, t, next.threads[t], b);
    assert Places(p, b) == if b < p.next then 1 else 0;
    if p.threads[t].Returning? {
      RetainedJoins(p.retained, [p.threads[t].buffer], b);
      OneRetained(p.threads[t].buffer, b);
    }
  }

  lemma ContinueConserves(p: Pool, t: nat)
    requires Invariant(p) && t < |p.threads|
    ensures Conserved(ContinueStep(p, t))
  {
    hide Places, Accounted;
    var next := ContinueStep(p, t);
    forall b: nat ensures Places(next, b) == if b < next.next then 1 else 0 {
      ContinuePlaces(p, t, b);
      assert Places(p, b) == if b < p.next then 1 else 0;
    }
  }

  lemma ContinueAccounts(p: Pool, t: nat)
    requires Invariant(p) && t < |p.threads|
    ensures Accounted(ContinueStep(p, t))
  {
    NextIsUnused(p);
    hide Places, Conserved;
    var next := ContinueStep(p, t);
    ThreadMoves(p.threads, t, next.threads[t]);
    assert next.threads == p.threads[t := next.threads[t]];
    if p.threads[t].Granted? {
      assert |p.leased + {p.next}| == |p.leased| + 1;
    }
  }

  lemma NextIsUnused(p: Pool)
    requires Invariant(p)
    ensures p.next !in p.leased
  {
    assert Places(p, p.next) == 0;
  }

  lemma StepKeepsInvariant(p: Pool, step: Step)
    requires Invariant(p)
    ensures Invariant(Apply(p, step))
  {
    hide Accounted, Conserved;
    if step.thread < |p.threads| {
      match step {
        case Acquire(t) =>
          if p.threads[t].Idle? {
            AcquireKeeps(p, t);
          }
        case Release(t, buffer, intact) =>
          if p.threads[t].Idle? && buffer in p.leased {
            ReleaseKeeps(p, t, buffer, intact);
          }
        case Continue(t) =>
          ContinueConserves(p, t);
          ContinueAccounts(p, t);
      }
    }
  }

  lemma {:induction false} NoneInFlight(threads: nat)
    ensures var idle := seq(threads, _ => Idle); InFlight(idle) == 0 && forall b :: InHands(idle, b) == 0
  {
    if threads > 0 {
      NoneInFlight(threads - 1);
      assert seq(threads, _ => Idle)[..threads - 1] == seq(threads - 1, _ => Idle);
    }
  }

  lemma {:induction false} RunKeepsInvariant(buffers: nat, threads: nat, steps: seq<Step>)
    ensures Invariant(Run(New(buffers, threads), steps))
  {
    if steps == [] {
      NoneInFlight(threads);
    } else {
      RunKeepsInvariant(buffers, threads, steps[..|steps| - 1]);
      StepKeepsInvariant(Run(New(buffers, threads), steps[..|steps| - 1]), steps[|steps| - 1]);
    }
  }

  // ---------------------------------------------------------------------------------------------
  // What follows for every run.
  // ---------------------------------------------------------------------------------------------

  predicate AllIdle(p: Pool)
  {
    forall t | 0 <= t < |p.threads| :: p.threads[t].Idle?
  }

  lemma {:induction false} IdleThreadsHoldNothing(threads: seq<Pc>)
    requires forall t | 0 <= t < |threads| :: threads[t].Idle?
    ensures InFlight(threads) == 0
  {
    if threads != [] {
      IdleThreadsHoldNothing(threads[..|threads| - 1]);
    }
  }

  /**
    The budget is never exceeded, and what is leased or retained is covered by it; between operations it is
    covered exactly.
  */
  lemma BudgetIsKept(buffers: nat, threads: nat, steps: seq<Step>)
    ensures var p := Run(New(buffers, threads), steps);
            && 0 <= p.allocation <= (if buffers == 0 then 1 else buffers)
            && |p.leased| + |p.retained| <= p.allocation
            && |p.retained| <= Min(if buffers == 0 then 1 else buffers, RETAINED_MAX)
            && (AllIdle(p) ==> |p.leased| + |p.retained| == p.allocation)
  {
    RunKeepsInvariant(buffers, threads, steps);
    var p := Run(New(buffers, threads), steps);
    LimitsStay(New(buffers, threads), steps);
    if AllIdle(p) {
      IdleThreadsHoldNothing(p.threads);
    }
  }

  lemma {:induction false} LimitsStay(p: Pool, steps: seq<Step>)
    ensures Run(p, steps).limit == p.limit && |Run(p, steps).threads| == |p.threads|
  {
    if steps != [] {
      LimitsStay(p, steps[..|steps| - 1]);
    }
  }

  /**
    No buffer is lost or leased twice: each one ever made is in exactly one place, leased, retained, on its
    way back, or discarded.
  */
  lemma EveryBufferInOnePlace(buffers: nat, threads: nat, steps: seq<Step>, b: nat)
    ensures var p := Run(New(buffers, threads), steps); Places(p, b) == if b < p.next then 1 else 0
  {
    RunKeepsInvariant(buffers, threads, steps);
  }

  /** The lease handed out by a step is a retained buffer or one never used, so in nobody's hands. */
  lemma LeaseIsNew(p: Pool, step: Step, b: nat)
    requires Invariant(p) && b in Apply(p, step).leased && b !in p.leased
    ensures InHands(p.threads, b) == 0 && b !in p.discarded
  {
    hide Accounted;
    assert Places(p, b) == if b < p.next then 1 else 0;
    if b != p.next {
      assert p.retained != [] && b == p.retained[0];
      HeadLeaves(p.retained, b);
    }
  }

  /** The steps of one acquire that nothing interrupts. */
  function AcquireAlone(t: nat): seq<Step>
  {
    [Acquire(t), Continue(t), Continue(t)]
  }

  /** Without interference an acquire succeeds exactly when fewer buffers than the limit are leased. */
  lemma AcquireSucceedsExactly(buffers: nat, threads: nat, steps: seq<Step>, t: nat)
    requires t < threads && AllIdle(Run(New(buffers, threads), steps))
    ensures var p := Run(New(buffers, threads), steps);
            var after := Run(p, AcquireAlone(t));
            && |after.leased| == |p.leased| + (if |p.leased| < p.limit then 1 else 0)
            && p.leased <= after.leased
            && (p.retained != [] ==>
                  && after.leased == p.leased + {p.retained[0]}
                  && after.next == p.next && after.allocation == p.allocation)
  {
    var p := Run(New(buffers, threads), steps);
    RunKeepsInvariant(buffers, threads, steps);
    LimitsStay(New(buffers, threads), steps);
    IdleThreadsHoldNothing(p.threads);
    var one := Apply(p, Acquire(t));
    var two := Apply(one, Continue(t));
    var three := Apply(two, Continue(t));
    ThreeSteps(p, Acquire(t), Continue(t), Continue(t));
    assert p.threads[t].Idle?;
    if p.retained != [] {
      HeadLeaves(p.retained, p.retained[0]);
      assert Places(p, p.retained[0]) <= 1;
    } else {
      assert Places(p, p.next) == 0;
    }
  }

  /** A release that nothing interrupts: an intact buffer waits for the next lease while there is room. */
  lemma ReleaseAlone(p: Pool, t: nat, buffer: nat, intact: bool)
    requires t < |p.threads| && p.threads[t].Idle? && buffer in p.leased
    ensures var after := Run(p, [Release(t, buffer, intact), Continue(t), Continue(t)]);
            && after.threads == p.threads && after.leased == p.leased - {buffer} && after.next == p.next
            && (if intact && |p.retained| < p.retainedLimit then
                  && after.retained == p.retained + [buffer]
                  && after.discarded == p.discarded && after.allocation == p.allocation
                else
                  && after.retained == p.retained
                  && after.discarded == p.discarded + {buffer} && after.allocation == p.allocation - 1)
  {
    ThreeSteps(p, Release(t, buffer, intact), Continue(t), Continue(t));
    var one := Apply(p, Release(t, buffer, intact));
    var two := Apply(one, Continue(t));
    assert one.threads[t] == Returning(buffer, intact);
    assert Apply(two, Continue(t)).threads == p.threads;
  }

  /** Neither leased nor retained, and whoever still holds it returns it short. */
  predicate Gone(p: Pool, buffer: nat)
  {
    && buffer < p.next && buffer !in p.leased && buffer !in p.retained
    && forall t | 0 <= t < |p.threads| && p.threads[t].Returning? && p.threads[t].buffer == buffer ::
         !p.threads[t].intact
  }

  lemma StaysGone(p: Pool, step: Step, buffer: nat)
    requires Gone(p, buffer)
    ensures Gone(Apply(p, step), buffer)
  {
  }

  lemma {:induction false} NotInQueue(queue: seq<nat>, buffer: nat)
    requires Retained(queue, buffer) == 0
    ensures buffer !in queue
  {
    if queue != [] {
      NotInQueue(queue[..|queue| - 1], buffer);
    }
  }

  lemma {:induction false} NotInHands(threads: seq<Pc>, buffer: nat, t: nat)
    requires InHands(threads, buffer) == 0 && t < |threads|
    ensures InHand(threads[t], buffer) == 0
  {
    if t < |threads| - 1 {
      NotInHands(threads[..|threads| - 1], buffer, t);
    }
  }

  lemma LeasedIsNowhereElse(p: Pool, buffer: nat)
    requires Invariant(p) && buffer in p.leased
    ensures buffer < p.next && buffer !in p.retained
    ensures forall t | 0 <= t < |p.threads| :: InHand(p.threads[t], buffer) == 0
  {
    hide Accounted;
    assert Places(p, buffer) == if buffer < p.next then 1 else 0;
    NotInQueue(p.retained, buffer);
    forall t | 0 <= t < |p.threads| ensures InHand(p.threads[t], buffer) == 0 {
      NotInHands(p.threads, buffer, t);
    }
  }

  lemma {:induction false} StaysGoneForever(p: Pool, steps: seq<Step>, buffer: nat)
    requires Gone(p, buffer)
    ensures Gone(Run(p, steps), buffer)
  {
    hide Gone;
    if steps != [] {
      StaysGoneForever(p, steps[..|steps| - 1], buffer);
      StaysGone(Run(p, steps[..|steps| - 1]), steps[|steps| - 1], buffer);
    }
  }

  /** A buffer that comes back short is never leased or retained again, whatever happens from then on. */
  lemma ShortBuffersAreGone(buffers: nat, threads: nat, steps: seq<Step>, t: nat, buffer: nat, later: seq<Step>)
    requires var p := Run(New(buffers, threads), steps);
             t < |p.threads| && p.threads[t].Idle? && buffer in p.leased
    ensures var p := Run(Apply(Run(New(buffers, threads), steps), Release(t, buffer, false)), later);
            buffer !in p.leased && buffer !in p.retained
  {
    hide Invariant, Run;
    var p := Run(New(buffers, threads), steps);
    RunKeepsInvariant(buffers, threads, steps);
    LeasedIsNowhereElse(p, buffer);
    StaysGoneForever(Apply(p, Release(t, buffer, false)), later, buffer);
  }

  lemma ThreeSteps(p: Pool, a: Step, b: Step, c: Step)
    ensures Run(p, [a, b, c]) == Apply(Apply(Apply(p, a), b), c)
  {
    assert [a][..0] == [];
    assert Run(p, [a]) == Apply(p, a);
    assert [a, b][..1] == [a];
    assert Run(p, [a, b]) == Apply(Apply(p, a), b);
    assert [a, b, c][..2] == [a, b];
  }
}
