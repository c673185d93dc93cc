/**
  Workers that register and die concurrently. Reading the epoch, registering, and every atomic operation of
  noting a lost path are steps of their own; `enter` and `exit` are single steps.
*/
module IdleRace {
  import opened Common
  import Idle

  const EPOCHS: int := 0x1_0000_0000_0000_0000

  datatype Pc =
    | Resting
    /** Has read the epoch and put it into its registration. */
    | Registering(worker: nat, offset: u64)
    | Allowed(worker: nat)
    | Loaded(worker: nat, mark: u64)
    | Comparing(worker: nat, mark: u64)
    | Bumped(worker: nat)
    | Cleared

  /** Why an epoch was opened, and from which one. */
  datatype Opening = ByLoss(worker: nat, from: u64) | ByEnter(from: u64)

  /** `openings` and `marks` are history: the epochs opened, and every mark a registration has stored. */
  datatype Race = Race(
    total: u64,
    limit: u64,
    offset: u64,
    announce: nat,
    joined: seq<u64>,
    threads: seq<Pc>,
    openings: seq<Opening>,
    marks: set<(nat, u64)>)

  datatype Step =
    | ReadEpoch(thread: nat, worker: nat)
    | Lose(thread: nat, worker: nat)
    | Continue(thread: nat)
    | Enter(keep: u64)
    | Exit

  function Start(total: u64, threads: nat): Race
  {
    Race(total, U64_MAX, 0, 0, seq(Idle.SLOTS, _ => 0), seq(threads, _ => Resting), [], {})
  }

  function At(r: Race, t: nat, pc: Pc): Race
    requires t < |r.threads|
  {
    r.(threads := r.threads[t := pc])
  }

  function ContinueStep(r: Race, t: nat): Race
    requires t < |r.threads|
  {
    match r.threads[t]
    case Resting => r
    case Registering(w, offset) =>
      if 0 < w < |r.joined| then
        At(r, t, Resting).(joined := r.joined[w := SaturatingAdd(offset, 1)],
                           marks := r.marks + {(w, SaturatingAdd(offset, 1))})
      else At(r, t, Resting)
    case Allowed(w) => if w < |r.joined| then At(r, t, Loaded(w, r.joined[w])) else At(r, t, Resting)
    case Loaded(w, mark) =>
      if mark == 0 || mark - 1 != r.offset then At(r, t, Resting) else At(r, t, Comparing(w, mark))
    case Comparing(w, mark) =>
      if r.offset == mark - 1 then
        At(r, t, Bumped(w)).(offset := SaturatingAdd(r.offset, 1), openings := r.openings + [ByLoss(w, r.offset)])
      else At(r, t, Resting)
    case Bumped(w) => At(r, t, Cleared).(joined := if w < |r.joined| then r.joined[w := 0] else r.joined)
    case Cleared => At(r, t, Resting).(announce := r.announce + 1)
  }

  function Apply(r: Race, step: Step): Race
  {
    match step
    case ReadEpoch(t, w) => if t < |r.threads| && r.threads[t].Resting? then At(r, t, Registering(w, r.offset)) else r
    case Lose(t, w) => if t < |r.threads| && r.threads[t].Resting? && w <= r.limit then At(r, t, Allowed(w)) else r
    case Continue(t) => if t < |r.threads| then ContinueStep(r, t) else r
    case Enter(keep) =>
      if r.limit == U64_MAX && 0 < keep < r.total then
        r.(limit := keep, offset := WrappingIncrement(r.offset), openings := r.openings + [ByEnter(r.offset)],
           announce := r.announce + 1)
      else r
    case Exit => if r.limit < U64_MAX then r.(limit := U64_MAX, announce := r.announce + 1) else r
  }

  function Run(r: Race, steps: seq<Step>): Race
  {
    if steps == [] then r else Apply(Run(r, steps[..|steps| - 1]), steps[|steps| - 1])
  }

  // ---------------------------------------------------------------------------------------------
  // What every step keeps.
  // ---------------------------------------------------------------------------------------------

  predicate GoodThread(r: Race, pc: Pc)
  {
    match pc
    case Loaded(w, mark) => mark == 0 || (w, mark) in r.marks
    case Comparing(w, mark) => mark > 0 && (w, mark) in r.marks
    case _ => true
  }

  /** The i-th epoch was opened from the epoch with that number, and a loss only by a worker marked with it. */
  predicate GoodOpening(r: Race, i: nat)
    requires i < |r.openings|
  {
    && r.openings[i].from == i % EPOCHS
    && (r.openings[i].ByLoss? ==>
          && r.openings[i].from < U64_MAX
          && (r.openings[i].worker, r.openings[i].from + 1) in r.marks)
  }

  predicate Invariant(r: Race)
  {
    && r.offset == |r.openings| % EPOCHS
    && (forall i | 0 <= i < |r.openings| :: GoodOpening(r, i))
    && (forall w | 0 <= w < |r.joined| :: r.joined[w] == 0 || (w, r.joined[w]) in r.marks)
    && (forall t | 0 <= t < |r.threads| :: GoodThread(r, r.threads[t]))
  }

  lemma NextEpoch(n: nat)
    ensures (n + 1) % EPOCHS == WrappingIncrement(n % EPOCHS)
  {
  }

  lemma ContinueKeeps(r: Race, t: nat)
    requires Invariant(r) && t < |r.threads|
    ensures Invariant(ContinueStep(r, t))
  {
    var next := ContinueStep(r, t);
    NextEpoch(|r.openings|);
    assert GoodThread(r, r.threads[t]);
    assert r.marks <= next.marks;
    forall i | 0 <= i < |next.openings| ensures GoodOpening(next, i) {
      if i < |r.openings| {
        assert GoodOpening(r, i);
      }
    }
    forall u | 0 <= u < |next.threads| ensures GoodThread(next, next.threads[u]) {
      assert GoodThread(r, r.threads[u]);
    }
  }

  lemma StepKeepsInvariant(r: Race, step: Step)
    requires Invariant(r)
    ensures Invariant(Apply(r, step))
  {
    if step.Continue? {
      hide Invariant;
      if step.thread < |r.threads| {
        ContinueKeeps(r, step.thread);
      }
    } else {
      var next := Apply(r, step);
      NextEpoch(|r.openings|);
      forall i | 0 <= i < |next.openings| ensures GoodOpening(next, i) {
        if i < |r.openings| {
          assert GoodOpening(r, i);
        }
      }
      forall u | 0 <= u < |next.threads| ensures GoodThread(next, next.threads[u]) {
        assert GoodThread(r, r.threads[u]);
      }
    }
  }

  lemma {:induction false} RunKeepsInvariant(total: u64, threads: nat, steps: seq<Step>)
    ensures Invariant(Run(Start(total, threads), steps))
  {
    if steps != [] {
      RunKeepsInvariant(total, threads, steps[..|steps| - 1]);
      StepKeepsInvariant(Run(Start(total, threads), steps[..|steps| - 1]), steps[|steps| - 1]);
    }
  }

  /** No two openings start from the same epoch unless the 64-bit epoch has gone all the way round in between. */
  lemma OneOpeningPerEpoch(total: u64, threads: nat, steps: seq<Step>, i: nat, j: nat)
    ensures var r := Run(Start(total, threads), steps);
            i < j < |r.openings| && r.openings[i].from == r.openings[j].from ==> j - i >= EPOCHS
  {
    hide Invariant;
    RunKeepsInvariant(total, threads, steps);
    var r := Run(Start(total, threads), steps);
    if i < j < |r.openings| {
      OpeningsAreNumbered(r, i);
      OpeningsAreNumbered(r, j);
      SameResidue(i, j);
    }
  }

  lemma OpeningsAreNumbered(r: Race, i: nat)
    requires Invariant(r) && i < |r.openings|
    ensures r.openings[i].from == i % EPOCHS
  {
    assert GoodOpening(r, i);
  }

  lemma SameResidue(i: nat, j: nat)
    requires i < j
    ensures i % EPOCHS == j % EPOCHS ==> j - i >= EPOCHS
  {
  }

  /** The epoch is the number of openings; below 2^64 openings it never goes back. */
  lemma EpochCountsOpenings(total: u64, threads: nat, steps: seq<Step>, step: Step)
    ensures var r, next := Run(Start(total, threads), steps), Run(Start(total, threads), steps + [step]);
            && r.offset == |r.openings| % EPOCHS
            && (next.offset == r.offset || next.offset == WrappingIncrement(r.offset))
            && (next.offset < r.offset ==> step.Enter? && r.offset == U64_MAX)
  {
    var r := Run(Start(total, threads), steps);
    assert (steps + [step])[..|steps|] == steps;
    RunKeepsInvariant(total, threads, steps);
    if step.Continue? && step.thread < |r.threads| {
      assert GoodThread(r, r.threads[step.thread]);
    }
  }

  ghost predicate Registered(total: u64, threads: nat, steps: seq<Step>, n: nat, worker: nat, offset: u64)
    requires n < |steps|
  {
    var r := Run(Start(total, threads), steps[..n]);
    && steps[n].Continue? && steps[n].thread < |r.threads|
    && r.threads[steps[n].thread] == Registering(worker, offset)
  }

  /** Every mark was stored by a registration of that worker under that epoch. */
  lemma {:induction false} MarksAreRegistrations(total: u64, threads: nat, steps: seq<Step>, worker: nat, mark: u64)
    returns (n: nat, offset: u64)
    requires (worker, mark) in Run(Start(total, threads), steps).marks
    ensures n < |steps| && Registered(total, threads, steps, n, worker, offset) && SaturatingAdd(offset, 1) == mark
    decreases |steps|
  {
    var before := steps[..|steps| - 1];
    if (worker, mark) in Run(Start(total, threads), before).marks {
      n, offset := MarksAreRegistrations(total, threads, before, worker, mark);
      assert before[..n] == steps[..n];
    } else {
      n := |steps| - 1;
      offset := Run(Start(total, threads), before).threads[steps[n].thread].offset;
    }
  }

  /**
    Every epoch opened by a loss is backed by a registration of the lost worker under the epoch it left, or, for
    the last epoch but one, under the last one: both leave the same saturated mark.
  */
  lemma LossesAreBacked(total: u64, threads: nat, steps: seq<Step>, i: nat) returns (n: nat, offset: u64)
    requires i < |Run(Start(total, threads), steps).openings| && Run(Start(total, threads), steps).openings[i].ByLoss?
    ensures var opening := Run(Start(total, threads), steps).openings[i];
            && n < |steps| && Registered(total, threads, steps, n, opening.worker, offset)
            && (offset == opening.from || (offset == U64_MAX && opening.from == U64_MAX - 1))
  {
    RunKeepsInvariant(total, threads, steps);
    var r := Run(Start(total, threads), steps);
    assert GoodOpening(r, i);
    n, offset := MarksAreRegistrations(total, threads, steps, r.openings[i].worker, r.openings[i].from + 1);
  }

  // ---------------------------------------------------------------------------------------------
  // The last epoch leaves the mark of the last but one.
  // ---------------------------------------------------------------------------------------------

  /** Entering and leaving idle `n` times. */
  function Laps(n: nat): (steps: seq<Step>)
    ensures |steps| == 2 * n && forall i | 0 <= i < |steps| :: !steps[i].Continue?
  {
    if n == 0 then [] else Laps(n - 1) + [Enter(1), Exit]
  }

  lemma {:induction false} RunJoins(r: Race, first: seq<Step>, second: seq<Step>)
    ensures Run(r, first + second) == Run(Run(r, first), second)
  {
    if second == [] {
      assert first + second == first;
    } else {
      RunJoins(r, first, second[..|second| - 1]);
      assert (first + second)[..|first + second| - 1] == first + second[..|second| - 1];
    }
  }

  lemma RunTwo(r: Race, a: Step, b: Step)
    ensures Run(r, [a]) == Apply(r, a) && Run(r, [a, b]) == Apply(Apply(r, a), b)
  {
    assert [a][..0] == [] && [a, b][..1] == [a];
  }

  /** Each lap opens one epoch and leaves everything else as it was. */
  lemma {:induction false} LapsTurn(r: Race, n: nat)
    requires r.limit == U64_MAX && r.total > 1
    ensures var after := Run(r, Laps(n));
            && after.offset == (r.offset + n) % EPOCHS
            && after.limit == r.limit && after.total == r.total
            && after.threads == r.threads && after.joined == r.joined && after.marks == r.marks
  {
    if n > 0 {
      LapsTurn(r, n - 1);
      var before := Run(r, Laps(n - 1));
      RunJoins(r, Laps(n - 1), [Enter(1), Exit]);
      RunTwo(before, Enter(1), Exit);
      NextEpoch(r.offset + n - 1);
    }
  }

  /** What step `n` registers, if anything, it registers under the last epoch. */
  ghost predicate LastAt(steps: seq<Step>, n: nat)
    requires n < |steps|
  {
    forall worker, offset :: Registered(2, 1, steps, n, worker, offset) ==> offset == U64_MAX
  }

  ghost predicate OnlyLast(steps: seq<Step>)
  {
    forall n | 0 <= n < |steps| :: LastAt(steps, n)
  }

  lemma LastAtEarlier(steps: seq<Step>, longer: seq<Step>, n: nat)
    requires steps <= longer && n < |steps| && LastAt(steps, n)
    ensures LastAt(longer, n)
  {
    assert longer[..n] == steps[..n];
    forall worker, offset | Registered(2, 1, longer, n, worker, offset) ensures offset == U64_MAX {
      assert Registered(2, 1, steps, n, worker, offset);
    }
  }

  lemma LapsRegisterNothing(before: seq<Step>, laps: seq<Step>)
    requires OnlyLast(before) && forall i | 0 <= i < |laps| :: !laps[i].Continue?
    ensures OnlyLast(before + laps)
  {
    var steps := before + laps;
    forall n | 0 <= n < |steps| ensures LastAt(steps, n) {
      if n < |before| {
        LastAtEarlier(before, steps, n);
      } else {
        assert !steps[n].Continue?;
      }
    }
  }

  /** One more step of the only thread, which is not registering; so nothing is registered. */
  lemma StepRegistersNothing(steps: seq<Step>, step: Step)
    requires OnlyLast(steps)
    requires |Run(Start(2, 1), steps).threads| == 1 && !Run(Start(2, 1), steps).threads[0].Registering?
    ensures OnlyLast(steps + [step])
    ensures Run(Start(2, 1), steps + [step]) == Apply(Run(Start(2, 1), steps), step)
  {
    hide Apply;
    var longer := steps + [step];
    assert longer[..|steps|] == steps;
    forall n | 0 <= n < |longer| ensures LastAt(longer, n) {
      if n < |steps| {
        LastAtEarlier(steps, longer, n);
      }
    }
  }

  /** A worker registers under the last epoch. */
  lemma RegistersLast() returns (steps: seq<Step>)
    ensures var r := Run(Start(2, 1), steps);
            && r.offset == U64_MAX && r.limit == U64_MAX && r.total == 2
            && r.threads == [Resting] && |r.joined| == Idle.SLOTS && r.joined[1] == U64_MAX
    ensures OnlyLast(steps)
  {
    var start, laps := Start(2, 1), Laps(U64_MAX);
    LapsTurn(start, U64_MAX);
    var late := Run(start, laps);
    steps := laps + [ReadEpoch(0, 1), Continue(0)];
    RunJoins(start, laps, [ReadEpoch(0, 1), Continue(0)]);
    RunTwo(late, ReadEpoch(0, 1), Continue(0));
    assert late.threads == [Resting];
    var reading := Apply(late, ReadEpoch(0, 1));
    assert reading.threads == [Registering(1, U64_MAX)];
    assert Apply(reading, Continue(0)).threads == [Resting];
    var last := |laps| + 1;
    assert steps[..last] == laps + [ReadEpoch(0, 1)];
    RunJoins(start, laps, [ReadEpoch(0, 1)]);
    forall n | 0 <= n < |steps| ensures LastAt(steps, n) {
      if n < last {
        assert !steps[n].Continue?;
      }
    }
  }

  /** The four steps of a loss that finds its worker marked with the current epoch. */
  lemma LossOpens(r: Race)
    requires r.threads == [Resting] && 1 <= r.limit && |r.joined| > 1 && r.joined[1] > 0 && r.joined[1] - 1 == r.offset
    ensures var lost := Apply(r, Lose(0, 1));
            var loaded := Apply(lost, Continue(0));
            var comparing := Apply(loaded, Continue(0));
            && lost.threads == [Allowed(1)] && loaded.threads == [Loaded(1, r.joined[1])]
            && comparing.threads == [Comparing(1, r.joined[1])]
            && Apply(comparing, Continue(0)).openings == r.openings + [ByLoss(1, r.offset)]
  {
  }

  /**
    A run that needs the exception above: the only registration was made under the last epoch, and after another round
    of the 64-bit counter a loss opens an epoch from the last but one.
  */
  lemma SaturatedMarkMisleads() returns (steps: seq<Step>)
    ensures var r := Run(Start(2, 1), steps);
            r.openings != [] && r.openings[|r.openings| - 1] == ByLoss(1, U64_MAX - 1)
    ensures OnlyLast(steps)
  {
    hide OnlyLast, ContinueStep;
    var before := RegistersLast();
    var laps := Laps(U64_MAX);
    LapsTurn(Run(Start(2, 1), before), U64_MAX);
    RunJoins(Start(2, 1), before, laps);
    LapsRegisterNothing(before, laps);
    var r := Run(Start(2, 1), before + laps);
    assert r.offset == U64_MAX - 1;
    LossOpens(r);
    steps := before + laps;
    StepRegistersNothing(steps, Lose(0, 1));
    steps := steps + [Lose(0, 1)];
    StepRegistersNothing(steps, Continue(0));
    steps := steps + [Continue(0)];
    StepRegistersNothing(steps, Continue(0));
    steps := steps + [Continue(0)];
    StepRegistersNothing(steps, Continue(0));
    steps := steps + [Continue(0)];
  }

  // ---------------------------------------------------------------------------------------------
  // Without a race the steps do what the whole operations do.
  // ---------------------------------------------------------------------------------------------

  function Keep(t: nat, n: nat): seq<Step>
  {
    if n == 0 then [] else [Continue(t)] + Keep(t, n - 1)
  }

  lemma KeepStep(r: Race, t: nat, n: nat)
    ensures n > 0 ==> Run(r, Keep(t, n)) == Run(Apply(r, Continue(t)), Keep(t, n - 1))
    ensures Run(r, Keep(t, 0)) == r
  {
    hide Apply;
    if n > 0 {
      RunTwo(r, Continue(t), Continue(t));
      RunJoins(r, [Continue(t)], Keep(t, n - 1));
    }
  }

  lemma {:induction false} RestingStays(r: Race, t: nat, n: nat)
    requires t < |r.threads| && r.threads[t].Resting?
    ensures Run(r, Keep(t, n)) == r
  {
    KeepStep(r, t, n);
    if n > 0 {
      RestingStays(r, t, n - 1);
    }
  }

  /** What the idle module as a whole knows of this state. */
  function Whole(r: Race): Idle.State
  {
    Idle.State(r.limit, r.limit < U64_MAX, r.total, if r.limit < U64_MAX then r.limit else r.total, r.offset,
               r.announce % EPOCHS, r.joined)
  }

  lemma BumpedAlone(r: Race, t: nat)
    requires t < |r.threads| && r.threads[t].Bumped?
    ensures var after, w := Run(r, Keep(t, 2)), r.threads[t].worker;
            && after.offset == r.offset && after.limit == r.limit && after.total == r.total
            && after.announce == r.announce + 1
            && after.joined == if w < |r.joined| then r.joined[w := 0] else r.joined
  {
    hide Run, Keep;
    KeepStep(r, t, 2);
    KeepStep(Apply(r, Continue(t)), t, 1);
    KeepStep(Apply(Apply(r, Continue(t)), Continue(t)), t, 0);
  }

  lemma AllowedAlone(r: Race, t: nat)
    requires t < |r.threads| && r.threads[t].Allowed? && r.threads[t].worker <= r.limit
    ensures Whole(Run(r, Keep(t, 5))) == Idle.Stepped(Whole(r), Idle.Lost(r.threads[t].worker))
  {
    hide Run, Keep;
    var w := r.threads[t].worker;
    KeepStep(r, t, 5);
    var loaded := Apply(r, Continue(t));
    if w >= |r.joined| {
      RestingStays(loaded, t, 4);
    } else {
      KeepStep(loaded, t, 4);
      var comparing := Apply(loaded, Continue(t));
      if r.joined[w] == 0 || r.joined[w] - 1 != r.offset {
        RestingStays(comparing, t, 3);
      } else {
        KeepStep(comparing, t, 3);
        BumpedAlone(Apply(comparing, Continue(t)), t);
        NextEpoch(r.announce);
      }
    }
  }

  /** A loss that nobody disturbs does what noting a lost path does as a whole. */
  lemma LossAloneIsWhole(r: Race, t: nat, worker: nat)
    requires t < |r.threads| && r.threads[t].Resting?
    ensures Whole(Run(r, [Lose(t, worker)] + Keep(t, 5))) == Idle.Stepped(Whole(r), Idle.Lost(worker))
  {
    hide Keep, ContinueStep;
    var lost := Apply(r, Lose(t, worker));
    RunTwo(r, Lose(t, worker), Continue(t));
    RunJoins(r, [Lose(t, worker)], Keep(t, 5));
    if worker <= r.limit {
      AllowedAlone(lost, t);
    } else {
      RestingStays(lost, t, 5);
    }
  }

  /** `enter` and `exit` do here what they do as a whole. */
  lemma EnterAndExitAreWhole(r: Race, keep: u64)
    ensures Whole(Apply(r, Enter(keep))) == Idle.Stepped(Whole(r), Idle.Enter(keep))
    ensures Whole(Apply(r, Exit)) == Idle.Stepped(Whole(r), Idle.Exit)
  {
    NextEpoch(r.announce);
  }

  /** So does a registration, under the epoch it has read. */
  lemma JoinAloneIsWhole(r: Race, t: nat, worker: nat)
    requires t < |r.threads| && r.threads[t].Resting? && |r.joined| == Idle.SLOTS
    ensures Whole(Run(r, [ReadEpoch(t, worker), Continue(t)])) == Idle.Stepped(Whole(r), Idle.Join(worker, r.offset))
  {
    RunTwo(r, ReadEpoch(t, worker), Continue(t));
  }
}
