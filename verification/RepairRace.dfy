/**
  Repairs of one worker that race each other: every atomic operation on its slot is a step, and the steps of
  any number of threads interleave in any order.
*/
module RepairRace {
  import opened Common
  import opened Repair

  datatype Pc =
    | Idle
    | Trying(sequence: u64, current: u64)
    | Won(sequence: u64, previous: u64)
    | ResettingCredentials(sequence: u64)
    | Restarting(sequence: u64)
    | Marking(loaded: u64)

  /** What an accepted repair saw when it decided about the credentials: the sequence before it and the ready mark. */
  datatype Decision = Decision(sequence: u64, previous: u64, ready: u64)

  /**
    `accepted`, `answered` and `decisions` are history: sequences that won the slot, commands that are done with it, and
    what the accepted ones saw.
  */
  datatype Race = Race(slot: Slot, threads: seq<Pc>, accepted: seq<u64>, answered: set<u64>, decisions: seq<Decision>)

  datatype Step =
    | Command(thread: nat, sequence: u64)
    | AliveCommand(sequence: u64)
    | Mark(thread: nat)
    | Continue(thread: nat)

  function Start(threads: nat): Race
  {
    Race(FRESH, seq(threads, _ => Idle), [], {}, [])
  }

  function At(r: Race, t: nat, pc: Pc): Race
    requires t < |r.threads|
  {
    r.(threads := r.threads[t := pc])
  }

  /** The comparison and the compare-and-exchange it leads to. */
  function TryStep(r: Race, t: nat, sequence: u64, current: u64): Race
    requires t < |r.threads|
  {
    if sequence <= current then At(r, t, Idle).(answered := r.answered + {sequence})
    else if r.slot.lastSequence == current then
      At(r, t, Won(sequence, current)).(slot := r.slot.(lastSequence := sequence), accepted := r.accepted + [sequence])
    else At(r, t, Trying(sequence, r.slot.lastSequence))
  }

  function ContinueStep(r: Race, t: nat): Race
    requires t < |r.threads|
  {
    match r.threads[t]
    case Idle => r
    case Trying(sequence, current) => TryStep(r, t, sequence, current)
    case Won(sequence, previous) =>
      var decided := r.(decisions := r.decisions + [Decision(sequence, previous, r.slot.readySequence)]);
      if previous != 0 && r.slot.readySequence < previous then At(decided, t, ResettingCredentials(sequence))
      else At(decided, t, Pc.Restarting(sequence))
    case ResettingCredentials(sequence) =>
      var slot := r.slot.(credentialGeneration := WrappingIncrement(r.slot.credentialGeneration));
      At(r, t, Pc.Restarting(sequence)).(slot := slot)
    case Restarting(sequence) =>
      At(r, t, Idle).(slot := r.slot.(restartGeneration := WrappingIncrement(r.slot.restartGeneration)),
                      answered := r.answered + {sequence})
    case Marking(loaded) => At(r, t, Idle).(slot := r.slot.(readySequence := loaded))
  }

  function Apply(r: Race, step: Step): Race
  {
    match step
    case Command(t, sequence) =>
      if t < |r.threads| && r.threads[t].Idle? then At(r, t, Trying(sequence, r.slot.lastSequence)) else r
    case AliveCommand(sequence) => r.(slot := r.slot.(readySequence := Max(r.slot.readySequence, sequence)))
    case Mark(t) => if t < |r.threads| && r.threads[t].Idle? then At(r, t, Marking(r.slot.lastSequence)) else r
    case Continue(t) => if t < |r.threads| then ContinueStep(r, t) else r
  }

  function Run(r: Race, steps: seq<Step>): Race
  {
    if steps == [] then r else Apply(Run(r, steps[..|steps| - 1]), steps[|steps| - 1])
  }

  // ---------------------------------------------------------------------------------------------
  // What every step keeps.
  // ---------------------------------------------------------------------------------------------

  function Owes(pc: Pc): nat
  {
    if pc.Won? || pc.ResettingCredentials? || pc.Restarting? then 1 else 0
  }

  /** Accepted repairs whose restart has not been counted yet. */
  function Pending(threads: seq<Pc>): nat
  {
    if threads == [] then 0 else Pending(threads[..|threads| - 1]) + Owes(threads[|threads| - 1])
  }

  lemma {:induction false} ThreadMoves(threads: seq<Pc>, t: nat, pc: Pc)
    requires t < |threads|
    ensures Pending(threads[t := pc]) + Owes(threads[t]) == Pending(threads) + Owes(pc)
  {
    hide Owes;
    var n := |threads| - 1;
    if t < n {
      ThreadMoves(threads[..n], t, pc);
      assert threads[t := pc][..n] == threads[..n][t := pc];
    } else {
      assert threads[t := pc][..n] == threads[..n];
    }
  }

  predicate Increasing(accepted: seq<u64>)
  {
    && (forall i | 0 <= i < |accepted| :: accepted[i] > 0)
    && (forall i, j | 0 <= i < j < |accepted| :: accepted[i] < accepted[j])
  }

  function Latest(accepted: seq<u64>): u64
  {
    if accepted == [] then 0 else accepted[|accepted| - 1]
  }

  predicate GoodThread(r: Race, pc: Pc)
  {
    match pc
    case Idle => true
    case Trying(_, current) => current <= r.slot.lastSequence
    case Won(sequence, previous) => sequence in r.accepted && previous < sequence
    case ResettingCredentials(sequence) => sequence in r.accepted
    case Restarting(sequence) => sequence in r.accepted
    case Marking(loaded) => loaded <= r.slot.lastSequence
  }

  predicate Counted(r: Race)
  {
    && Pending(r.threads) <= |r.accepted|
    && r.slot.restartGeneration == (|r.accepted| - Pending(r.threads)) % COUNTS
  }

  predicate Invariant(r: Race)
  {
    && Increasing(r.accepted)
    && r.slot.lastSequence == Latest(r.accepted)
    && (forall t | 0 <= t < |r.threads| :: GoodThread(r, r.threads[t]))
    && (forall s | s in r.answered :: s <= r.slot.lastSequence)
    && Counted(r)
  }

  lemma AcceptedUpToLatest(accepted: seq<u64>, s: u64)
    requires Increasing(accepted) && s in accepted
    ensures s <= Latest(accepted)
  {
  }

  lemma ContinueCounts(r: Race, t: nat)
    requires Invariant(r) && t < |r.threads|
    ensures Counted(ContinueStep(r, t))
  {
    hide Increasing, GoodThread;
    var next := ContinueStep(r, t);
    assert next.threads == r.threads[t := next.threads[t]];
    ThreadMoves(r.threads, t, next.threads[t]);
    if r.threads[t].Restarting? {
      PendingIsPositive(r.threads, t);
      NextCount(|r.accepted| - Pending(r.threads));
    }
  }

  lemma {:induction false} PendingIsPositive(threads: seq<Pc>, t: nat)
    requires t < |threads| && Owes(threads[t]) == 1
    ensures Pending(threads) > 0
  {
    if t < |threads| - 1 {
      PendingIsPositive(threads[..|threads| - 1], t);
    }
  }

  lemma ContinueKeepsThreads(r: Race, t: nat)
    requires Invariant(r) && t < |r.threads|
    ensures var next := ContinueStep(r, t);
            && Increasing(next.accepted) && next.slot.lastSequence == Latest(next.accepted) >= r.slot.lastSequence
            && (forall u | 0 <= u < |next.threads| :: GoodThread(next, next.threads[u]))
  {
    hide Counted;
    var next := ContinueStep(r, t);
    assert GoodThread(r, r.threads[t]);
    forall u | 0 <= u < |next.threads| ensures GoodThread(next, next.threads[u]) {
      assert GoodThread(r, r.threads[u]);
    }
  }

  lemma StepKeepsInvariant(r: Race, step: Step)
    requires Invariant(r)
    ensures Invariant(Apply(r, step))
  {
    var next := Apply(r, step);
    match step {
      case Continue(t) =>
        if t < |r.threads| {
          hide Increasing, Counted;
          ContinueCounts(r, t);
          ContinueKeepsThreads(r, t);
          AnsweredStayBelow(r, t);
        }
      case AliveCommand(_) =>
        forall u | 0 <= u < |r.threads| ensures GoodThread(next, r.threads[u]) {
          assert GoodThread(r, r.threads[u]);
        }
      case Command(t, _) =>
        if t < |r.threads| && r.threads[t].Idle? {
          StartingIsHarmless(r, t, next.threads[t]);
        }
      case Mark(t) =>
        if t < |r.threads| && r.threads[t].Idle? {
          StartingIsHarmless(r, t, next.threads[t]);
        }
    }
  }

  lemma StartingIsHarmless(r: Race, t: nat, pc: Pc)
    requires Invariant(r) && t < |r.threads| && r.threads[t].Idle? && Owes(pc) == 0 && GoodThread(r, pc)
    ensures Invariant(At(r, t, pc))
  {
    hide Increasing;
    ThreadMoves(r.threads, t, pc);
    var next := At(r, t, pc);
    forall u | 0 <= u < |next.threads| ensures GoodThread(next, next.threads[u]) {
      assert GoodThread(r, r.threads[u]);
    }
  }

  lemma AnsweredStayBelow(r: Race, t: nat)
    requires Invariant(r) && t < |r.threads|
    ensures forall s | s in ContinueStep(r, t).answered :: s <= ContinueStep(r, t).slot.lastSequence
  {
    hide Counted;
    assert GoodThread(r, r.threads[t]);
    if r.threads[t].Restarting? {
      AcceptedUpToLatest(r.accepted, r.threads[t].sequence);
    }
  }

  lemma {:induction false} RunKeepsInvariant(threads: nat, steps: seq<Step>)
    ensures Invariant(Run(Start(threads), steps))
  {
    if steps == [] {
      NothingPending(threads);
    } else {
      RunKeepsInvariant(threads, steps[..|steps| - 1]);
      StepKeepsInvariant(Run(Start(threads), steps[..|steps| - 1]), steps[|steps| - 1]);
    }
  }

  lemma {:induction false} NothingPending(threads: nat)
    ensures Pending(seq(threads, _ => Idle)) == 0
  {
    if threads > 0 {
      NothingPending(threads - 1);
      assert seq(threads, _ => Idle)[..threads - 1] == seq(threads - 1, _ => Idle);
    }
  }

  /** No sequence is accepted twice, whatever the interleaving: the accepted ones strictly increase. */
  lemma EachSequenceAcceptedOnce(threads: nat, steps: seq<Step>, i: nat, j: nat)
    ensures var r := Run(Start(threads), steps); i < j < |r.accepted| ==> 0 < r.accepted[i] < r.accepted[j]
  {
    RunKeepsInvariant(threads, steps);
  }

  lemma InvariantCounts(r: Race)
    requires Invariant(r)
    ensures Counted(r)
  {
  }

  /** The restart generation counts the accepted repairs, except those whose thread has yet to count. */
  lemma GenerationCountsAccepted(threads: nat, steps: seq<Step>)
    ensures var r := Run(Start(threads), steps);
            && Pending(r.threads) <= |r.accepted|
            && r.slot.restartGeneration == (|r.accepted| - Pending(r.threads)) % COUNTS
            && ((forall t | 0 <= t < |r.threads| :: r.threads[t].Idle?) ==>
                  r.slot.restartGeneration == |r.accepted| % COUNTS)
  {
    hide GoodThread, Increasing, Invariant;
    RunKeepsInvariant(threads, steps);
    var r := Run(Start(threads), steps);
    InvariantCounts(r);
    if forall t | 0 <= t < |r.threads| :: r.threads[t].Idle? {
      IdleThreadsOweNothing(r.threads);
    }
  }

  lemma {:induction false} IdleThreadsOweNothing(threads: seq<Pc>)
    requires forall t | 0 <= t < |threads| :: threads[t].Idle?
    ensures Pending(threads) == 0
  {
    if threads != [] {
      IdleThreadsOweNothing(threads[..|threads| - 1]);
    }
  }

  /** A finished command left the slot at its sequence or beyond: no repair is lost. */
  lemma NoRepairIsLost(threads: nat, steps: seq<Step>, s: u64)
    ensures var r := Run(Start(threads), steps); s in r.answered ==> s <= r.slot.lastSequence == Latest(r.accepted)
  {
    RunKeepsInvariant(threads, steps);
  }

  // ---------------------------------------------------------------------------------------------
  // When a racing repair resets the credentials.
  // ---------------------------------------------------------------------------------------------

  /** The accepted sequence right before this one, 0 before the first. */
  ghost predicate Follows(accepted: seq<u64>, sequence: u64, previous: u64)
  {
    exists i :: FollowsAt(accepted, i, sequence, previous)
  }

  predicate FollowsAt(accepted: seq<u64>, i: int, sequence: u64, previous: u64)
  {
    && 0 <= i < |accepted|
    && accepted[i] == sequence
    && previous == Latest(accepted[..i])
  }

  /** The repair found its worker silent. */
  predicate Silent(d: Decision)
  {
    d.previous > 0 && d.ready < d.previous
  }

  function SilentOnes(decisions: seq<Decision>): nat
  {
    if decisions == [] then 0
    else SilentOnes(decisions[..|decisions| - 1]) + if Silent(decisions[|decisions| - 1]) then 1 else 0
  }

  function ResetShare(pc: Pc): nat
  {
    if pc.ResettingCredentials? then 1 else 0
  }

  /** Resets that are decided and not yet counted. */
  function PendingResets(threads: seq<Pc>): nat
  {
    if threads == [] then 0 else PendingResets(threads[..|threads| - 1]) + ResetShare(threads[|threads| - 1])
  }

  function DecidedFor(decisions: seq<Decision>, sequence: u64): nat
  {
    if decisions == [] then 0
    else
      DecidedFor(decisions[..|decisions| - 1], sequence) +
      if decisions[|decisions| - 1].sequence == sequence then 1 else 0
  }

  function UndecidedShare(pc: Pc, sequence: u64): nat
  {
    if pc.Won? && pc.sequence == sequence then 1 else 0
  }

  function Undecided(threads: seq<Pc>, sequence: u64): nat
  {
    if threads == [] then 0
    else Undecided(threads[..|threads| - 1], sequence) + UndecidedShare(threads[|threads| - 1], sequence)
  }

  lemma {:induction false} ResetsMove(threads: seq<Pc>, t: nat, pc: Pc)
    requires t < |threads|
    ensures PendingResets(threads[t := pc]) + ResetShare(threads[t]) == PendingResets(threads) + ResetShare(pc)
  {
    hide ResetShare;
    var n := |threads| - 1;
    if t < n {
      ResetsMove(threads[..n], t, pc);
      assert threads[t := pc][..n] == threads[..n][t := pc];
    } else {
      assert threads[t := pc][..n] == threads[..n];
    }
  }

  lemma {:induction false} UndecidedMoves(threads: seq<Pc>, t: nat, pc: Pc, sequence: u64)
    requires t < |threads|
    ensures Undecided(threads[t := pc], sequence) + UndecidedShare(threads[t], sequence) ==
            Undecided(threads, sequence) + UndecidedShare(pc, sequence)
  {
    hide UndecidedShare;
    var n := |threads| - 1;
    if t < n {
      UndecidedMoves(threads[..n], t, pc, sequence);
      assert threads[t := pc][..n] == threads[..n][t := pc];
    } else {
      assert threads[t := pc][..n] == threads[..n];
    }
  }

  predicate ResetsCounted(r: Race)
  {
    && PendingResets(r.threads) <= SilentOnes(r.decisions)
    && r.slot.credentialGeneration == (SilentOnes(r.decisions) - PendingResets(r.threads)) % COUNTS
  }

  ghost predicate DecisionsFollow(r: Race)
  {
    && (forall i | 0 <= i < |r.decisions| :: Follows(r.accepted, r.decisions[i].sequence, r.decisions[i].previous))
    && (forall t | 0 <= t < |r.threads| && r.threads[t].Won? ::
          Follows(r.accepted, r.threads[t].sequence, r.threads[t].previous))
  }

  /** Each accepted repair decides once. */
  ghost predicate DecideOnce(r: Race)
  {
    forall sequence: u64 ::
      DecidedFor(r.decisions, sequence) + Undecided(r.threads, sequence) == if sequence in r.accepted then 1 else 0
  }

  /** The step finds its worker silent. */
  predicate FindsSilent(r: Race, step: Step)
  {
    && step.Continue? && step.thread < |r.threads| && r.threads[step.thread].Won?
    && 0 < r.threads[step.thread].previous && r.slot.readySequence < r.threads[step.thread].previous
  }

  predicate ResetsNow(r: Race, step: Step)
  {
    step.Continue? && step.thread < |r.threads| && r.threads[step.thread].ResettingCredentials?
  }

  lemma StepMovesResets(r: Race, step: Step)
    ensures PendingResets(Apply(r, step).threads) + (if ResetsNow(r, step) then 1 else 0) ==
            PendingResets(r.threads) + (if FindsSilent(r, step) then 1 else 0)
    ensures ResetsNow(r, step) ==> PendingResets(r.threads) > 0
  {
    var next := Apply(r, step);
    if !step.AliveCommand? && step.thread < |r.threads| {
      var t := step.thread;
      assert next.threads == r.threads[t := next.threads[t]];
      ResetsMove(r.threads, t, next.threads[t]);
      if ResetsNow(r, step) {
        ResetIsPending(r.threads, t);
      }
    }
  }

  lemma StepMovesSilent(r: Race, step: Step)
    ensures SilentOnes(Apply(r, step).decisions) == SilentOnes(r.decisions) + if FindsSilent(r, step) then 1 else 0
    ensures Apply(r, step).slot.credentialGeneration ==
            if ResetsNow(r, step) then WrappingIncrement(r.slot.credentialGeneration) else r.slot.credentialGeneration
  {
    if step.Continue? && step.thread < |r.threads| && r.threads[step.thread].Won? {
      assert Apply(r, step).decisions[..|r.decisions|] == r.decisions;
    }
  }

  lemma StepCountsResets(r: Race, step: Step)
    requires ResetsCounted(r)
    ensures ResetsCounted(Apply(r, step))
  {
    hide Apply, FindsSilent, ResetsNow, SilentOnes, PendingResets;
    StepMovesResets(r, step);
    StepMovesSilent(r, step);
    if ResetsNow(r, step) {
      NextCount(SilentOnes(r.decisions) - PendingResets(r.threads));
    }
  }

  lemma {:induction false} ResetIsPending(threads: seq<Pc>, t: nat)
    requires t < |threads| && threads[t].ResettingCredentials?
    ensures PendingResets(threads) > 0
  {
    if t < |threads| - 1 {
      ResetIsPending(threads[..|threads| - 1], t);
    }
  }

  lemma StillFollows(accepted: seq<u64>, sequence: u64)
    ensures forall s, p :: Follows(accepted, s, p) ==> Follows(accepted + [sequence], s, p)
    ensures Follows(accepted + [sequence], sequence, Latest(accepted))
  {
    var more := accepted + [sequence];
    forall s, p | Follows(accepted, s, p) ensures Follows(more, s, p) {
      var i :| FollowsAt(accepted, i, s, p);
      assert more[..i] == accepted[..i];
      assert FollowsAt(more, i, s, p);
    }
    assert more[..|accepted|] == accepted;
    assert FollowsAt(more, |accepted|, sequence, Latest(accepted));
  }

  lemma StepKeepsFollows(r: Race, step: Step)
    requires Invariant(r) && DecisionsFollow(r)
    ensures DecisionsFollow(Apply(r, step))
  {
    hide Counted, Increasing, Follows;
    if step.Continue? && step.thread < |r.threads| && r.threads[step.thread].Trying? {
      StillFollows(r.accepted, r.threads[step.thread].sequence);
    }
  }

  lemma StepDecidesOnce(r: Race, step: Step)
    requires Invariant(r) && DecideOnce(r)
    ensures DecideOnce(Apply(r, step))
  {
    hide Invariant, Apply, DecidedFor, Undecided, Accepts;
    var next := Apply(r, step);
    forall sequence: u64
      ensures DecidedFor(next.decisions, sequence) + Undecided(next.threads, sequence) ==
              if sequence in next.accepted then 1 else 0
    {
      StepMovesDecision(r, step, sequence);
      StepAccepts(r, step, sequence);
    }
  }

  /** The step gave this thread its win with this sequence. */
  predicate Accepts(r: Race, step: Step, sequence: u64)
  {
    && step.Continue? && step.thread < |r.threads|
    && Apply(r, step).threads[step.thread] == Won(sequence, r.slot.lastSequence)
    && r.threads[step.thread].Trying?
  }

  lemma StepMovesDecision(r: Race, step: Step, sequence: u64)
    ensures var next := Apply(r, step);
            DecidedFor(next.decisions, sequence) + Undecided(next.threads, sequence) ==
            DecidedFor(r.decisions, sequence) + Undecided(r.threads, sequence) +
            if Accepts(r, step, sequence) then 1 else 0
  {
    var next := Apply(r, step);
    if !step.AliveCommand? && step.thread < |r.threads| {
      var t := step.thread;
      assert next.threads == r.threads[t := next.threads[t]];
      UndecidedMoves(r.threads, t, next.threads[t], sequence);
      hide Undecided;
      if step.Continue? && r.threads[t].Won? {
        assert next.decisions[..|r.decisions|] == r.decisions;
      }
    }
  }

  lemma StepAccepts(r: Race, step: Step, sequence: u64)
    requires Invariant(r)
    ensures sequence in Apply(r, step).accepted <==> sequence in r.accepted || Accepts(r, step, sequence)
    ensures Accepts(r, step, sequence) ==> sequence !in r.accepted
  {
    hide Counted, GoodThread;
    if Accepts(r, step, sequence) && sequence in r.accepted {
      AcceptedUpToLatest(r.accepted, sequence);
    }
  }

  lemma {:induction false} NothingDecided(threads: nat)
    ensures var idle := seq(threads, _ => Idle);
            PendingResets(idle) == 0 && forall sequence :: Undecided(idle, sequence) == 0
  {
    if threads > 0 {
      NothingDecided(threads - 1);
      assert seq(threads, _ => Idle)[..threads - 1] == seq(threads - 1, _ => Idle);
    }
  }

  lemma {:induction false} RunDecides(threads: nat, steps: seq<Step>)
    ensures var r := Run(Start(threads), steps); ResetsCounted(r) && DecisionsFollow(r) && DecideOnce(r)
  {
    hide Invariant, ResetsCounted, DecisionsFollow, DecideOnce;
    if steps == [] {
      StartDecides(threads);
    } else {
      var before := Run(Start(threads), steps[..|steps| - 1]);
      RunDecides(threads, steps[..|steps| - 1]);
      RunKeepsInvariant(threads, steps[..|steps| - 1]);
      StepCountsResets(before, steps[|steps| - 1]);
      StepKeepsFollows(before, steps[|steps| - 1]);
      StepDecidesOnce(before, steps[|steps| - 1]);
    }
  }

  lemma StartDecides(threads: nat)
    ensures ResetsCounted(Start(threads)) && DecisionsFollow(Start(threads)) && DecideOnce(Start(threads))
  {
    NothingDecided(threads);
  }

  /**
    In every interleaving each accepted repair decides about the credentials exactly once, against the sequence accepted
    right before it, and the credential generation counts those that found a ready mark below that one.
  */
  lemma CredentialsCountSilentRepairs(threads: nat, steps: seq<Step>)
    ensures var r := Run(Start(threads), steps);
            && PendingResets(r.threads) <= SilentOnes(r.decisions)
            && r.slot.credentialGeneration == (SilentOnes(r.decisions) - PendingResets(r.threads)) % COUNTS
            && (forall i | 0 <= i < |r.decisions| ::
                  Follows(r.accepted, r.decisions[i].sequence, r.decisions[i].previous))
            && (forall sequence: u64 ::
                  DecidedFor(r.decisions, sequence) + Undecided(r.threads, sequence) ==
                  if sequence in r.accepted then 1 else 0)
  {
    hide Run, Follows, Invariant;
    RunDecides(threads, steps);
  }

  /** The decision itself: a thread that has won reads the ready mark and compares it with the sequence before. */
  lemma WonDecides(r: Race, t: nat)
    requires t < |r.threads| && r.threads[t].Won?
    ensures var pc, next := r.threads[t], Apply(r, Continue(t));
            && next.decisions == r.decisions + [Decision(pc.sequence, pc.previous, r.slot.readySequence)]
            && (next.threads[t].ResettingCredentials? <==> pc.previous > 0 && r.slot.readySequence < pc.previous)
            && next.slot == r.slot
  {
  }

  lemma RunOne(r: Race, step: Step)
    ensures Run(r, [step]) == Apply(r, step)
  {
    assert [step][..0] == [];
  }

  lemma {:induction false} RunJoins(r: Race, first: seq<Step>, second: seq<Step>)
    ensures Run(r, first + second) == Run(Run(r, first), second)
  {
    if second == [] {
      assert first + second == first;
    } else {
      RunJoins(r, first, second[..|second| - 1]);
      assert (first + second)[..|first + second| - 1] == first + second[..|second| - 1];
    }
  }

  function Keep(t: nat, n: nat): seq<Step>
  {
    if n == 0 then [] else [Continue(t)] + Keep(t, n - 1)
  }

  lemma KeepStep(r: Race, t: nat, n: nat)
    requires n > 0
    ensures Run(r, Keep(t, n)) == Run(Apply(r, Continue(t)), Keep(t, n - 1))
  {
    RunOne(r, Continue(t));
    RunJoins(r, [Continue(t)], Keep(t, n - 1));
  }

  /** The three steps an accepted repair takes after it has won the slot. */
  lemma WonFinishes(r: Race, t: nat)
    requires t < |r.threads| && r.threads[t].Won?
    ensures var pc := r.threads[t];
            var silent := pc.previous > 0 && r.slot.readySequence < pc.previous;
            var ended := Run(r, Keep(t, 3));
            && ended.slot.lastSequence == r.slot.lastSequence && ended.slot.readySequence == r.slot.readySequence
            && ended.slot.restartGeneration == WrappingIncrement(r.slot.restartGeneration)
            && ended.slot.credentialGeneration ==
                 if silent then WrappingIncrement(r.slot.credentialGeneration) else r.slot.credentialGeneration
  {
    hide Run, Keep;
    var decided := Apply(r, Continue(t));
    var counted := Apply(decided, Continue(t));
    KeepStep(r, t, 3);
    KeepStep(decided, t, 2);
    KeepStep(counted, t, 1);
    NothingMore(Apply(counted, Continue(t)), t);
  }

  lemma NothingMore(r: Race, t: nat)
    ensures Run(r, Keep(t, 0)) == r
  {
  }

  /** Once nobody interferes, the atomic operations of a command do what the command as a whole does. */
  lemma AloneIsSequential(r: Race, t: nat, sequence: u64)
    requires t < |r.threads| && r.threads[t].Idle?
    ensures Run(r, [Command(t, sequence)] + Keep(t, 4)).slot == Repaired(r.slot, sequence)
  {
    hide Run, Keep, ContinueStep;
    var started := Apply(r, Command(t, sequence));
    RunOne(r, Command(t, sequence));
    RunJoins(r, [Command(t, sequence)], Keep(t, 4));
    KeepStep(started, t, 4);
    TriedAlone(started, t, sequence);
  }

  lemma TriedAlone(r: Race, t: nat, sequence: u64)
    requires t < |r.threads| && r.threads[t] == Trying(sequence, r.slot.lastSequence)
    ensures Run(Apply(r, Continue(t)), Keep(t, 3)).slot == Repaired(r.slot, sequence)
  {
    hide Run, Keep;
    var tried := Apply(r, Continue(t));
    if sequence <= r.slot.lastSequence {
      IdleStays(tried, t, 3);
    } else {
      WonFinishes(tried, t);
    }
  }

  lemma {:induction false} IdleStays(r: Race, t: nat, n: nat)
    requires t < |r.threads| && r.threads[t].Idle?
    ensures Run(r, Keep(t, n)) == r
  {
    if n > 0 {
      KeepStep(r, t, n);
      IdleStays(r, t, n - 1);
    }
  }
}
