/**
  Repair commands. Each worker has a slot that remembers the newest repair sequence, counts the restarts
  it asked for, and decides whether a repair must also reset the credentials.
*/
module Repair {
  import opened Common

  const COUNTS: int := 0x1_0000_0000_0000_0000

  datatype Slot = Slot(restartGeneration: u64, credentialGeneration: u64, lastSequence: u64, readySequence: u64)

  const FRESH: Slot := Slot(0, 0, 0, 0)

  // ---------------------------------------------------------------------------------------------
  // One command at a time.
  // ---------------------------------------------------------------------------------------------

  predicate Resets(slot: Slot, sequence: u64)
  {
    sequence > slot.lastSequence != 0 && slot.readySequence < slot.lastSequence
  }

  /** The slot after a repair command. */
  function Repaired(slot: Slot, sequence: u64): Slot
  {
    if sequence <= slot.lastSequence then slot
    else
      Slot(WrappingIncrement(slot.restartGeneration),
           if Resets(slot, sequence) then WrappingIncrement(slot.credentialGeneration) else slot.credentialGeneration,
           sequence, slot.readySequence)
  }

  function Max(a: u64, b: u64): u64
  {
    if a < b then b else a
  }

  /** The workers a command names that have a slot; number 0 never has one. */
  ghost function Named(ids: seq<nat>, slots: nat): set<nat>
  {
    set w | w in ids && 0 < w < slots
  }

  ghost function Restarting(ids: seq<nat>, slots: seq<Slot>, sequence: u64): set<nat>
  {
    set w | w in ids && 0 < w < |slots| && sequence > slots[w].lastSequence
  }

  ghost function Resetting(ids: seq<nat>, slots: seq<Slot>, sequence: u64): set<nat>
  {
    set w | w in ids && 0 < w < |slots| && Resets(slots[w], sequence)
  }

  /** The named slots, and no others, have seen the command. */
  ghost predicate AllRepaired(before: seq<Slot>, after: seq<Slot>, named: set<nat>, sequence: u64)
  {
    && |after| == |before|
    && forall w | 0 <= w < |after| :: after[w] == if w in named then Repaired(before[w], sequence) else before[w]
  }

  /** What a command leaves in a slot it names, field by field. */
  predicate CommandDone(before: Slot, after: Slot, sequence: u64)
  {
    && after.readySequence == before.readySequence
    && after.lastSequence == (if sequence > before.lastSequence then sequence else before.lastSequence)
    && after.restartGeneration ==
         (if sequence > before.lastSequence then WrappingIncrement(before.restartGeneration)
          else before.restartGeneration)
    && after.credentialGeneration ==
         (if sequence > before.lastSequence > 0 && before.readySequence < before.lastSequence then
            WrappingIncrement(before.credentialGeneration)
          else before.credentialGeneration)
  }

  class RepairState {
    var slots: seq<Slot>

    constructor (desiredCount: nat)
      ensures slots == seq(desiredCount + 1, _ => FRESH)
    {
      slots := seq(desiredCount + 1, _ => FRESH);
    }

    method MarkReady(worker: nat)
      modifies this
      ensures slots == if 0 < worker < |old(slots)| then
                         old(slots)[worker := old(slots)[worker].(readySequence := old(slots)[worker].lastSequence)]
                       else old(slots)
    {
      if 0 < worker < |slots| {
        slots := slots[worker := slots[worker].(readySequence := slots[worker].lastSequence)];
      }
    }

    /** A worker named twice is restarted once; unknown workers are ignored. */
    method ApplyRepair(sequence: u64, ids: seq<nat>) returns (restarts: nat, resets: nat)
      modifies this
      ensures AllRepaired(old(slots), slots, Named(ids, |old(slots)|), sequence)
      ensures |slots| == |old(slots)|
      ensures forall w | 0 < w < |slots| && w in ids :: CommandDone(old(slots)[w], slots[w], sequence)
      ensures forall w | 0 <= w < |slots| && (w == 0 || w !in ids) :: slots[w] == old(slots)[w]
      ensures restarts == |Restarting(ids, old(slots), sequence)|
      ensures resets == |Resetting(ids, old(slots), sequence)|
    {
      hide Named, Restarting, Resetting, Repaired, AllRepaired;
      restarts, resets := 0, 0;
      ghost var before := slots;
      NobodyNamed(ids, slots, sequence);
      NothingRepaired(slots, sequence);
      for i := 0 to |ids|
        invariant |slots| == |before| && AllRepaired(before, slots, Named(ids[..i], |before|), sequence)
        invariant restarts == |Restarting(ids[..i], before, sequence)|
        invariant resets == |Resetting(ids[..i], before, sequence)|
      {
        OneMoreNamed(ids, i, before, sequence);
        OneMoreCounted(ids, i, before, sequence);
        if 0 < ids[i] < |slots| {
          OneMoreRepaired(before, slots, Named(ids[..i], |before|), ids[i], sequence);
          var restarted, reset := ApplyToSlot(ids[i], sequence);
          restarts := restarts + if restarted then 1 else 0;
          resets := resets + if reset then 1 else 0;
        }
      }
      assert ids[..|ids|] == ids;
      AllRepairedMeans(before, slots, ids, sequence);
    }

    /** The compare-and-exchange of one slot, when nobody interferes. */
    method ApplyToSlot(worker: nat, sequence: u64) returns (restarted: bool, reset: bool)
      requires worker < |slots|
      modifies this
      ensures slots == old(slots)[worker := Repaired(old(slots)[worker], sequence)]
      ensures restarted == (sequence > old(slots)[worker].lastSequence)
      ensures reset == Resets(old(slots)[worker], sequence)
      ensures CommandDone(old(slots)[worker], slots[worker], sequence)
    {
      var slot := slots[worker];
      if sequence <= slot.lastSequence {
        assert slots[worker := slot] == slots;
        return false, false;
      }
      var previous := slot.lastSequence;
      slot := slot.(lastSequence := sequence);
      if previous != 0 && slot.readySequence < previous {
        slot := slot.(credentialGeneration := WrappingIncrement(slot.credentialGeneration));
        reset := true;
      } else {
        reset := false;
      }
      slot := slot.(restartGeneration := WrappingIncrement(slot.restartGeneration));
      slots := slots[worker := slot];
      restarted := true;
    }

    method ApplyAlive(sequence: u64, ids: seq<nat>) returns (applied: nat)
      modifies this
      ensures |slots| == |old(slots)|
      ensures forall w | 0 <= w < |slots| ::
                slots[w] == if w in Named(ids, |slots|) then
                              old(slots)[w].(readySequence := Max(old(slots)[w].readySequence, sequence))
                            else old(slots)[w]
      ensures applied == Applicable(ids, |slots|)
    {
      applied := 0;
      ghost var before := slots;
      for i := 0 to |ids|
        invariant |slots| == |before|
        invariant forall w | 0 <= w < |slots| ::
                    slots[w] == if w in Named(ids[..i], |slots|) then
                                  before[w].(readySequence := Max(before[w].readySequence, sequence))
                                else before[w]
        invariant applied == Applicable(ids[..i], |slots|)
      {
        var w := ids[i];
        assert ids[..i + 1][..i] == ids[..i];
        OneMoreNamed(ids, i, before, sequence);
        if 0 < w < |slots| {
          slots := slots[w := slots[w].(readySequence := Max(slots[w].readySequence, sequence))];
          applied := applied + 1;
        }
      }
      assert ids[..|ids|] == ids;
    }
  }

  /** How many of the ids, repeats included, have a slot. */
  function Applicable(ids: seq<nat>, slots: nat): nat
  {
    if ids == [] then 0 else Applicable(ids[..|ids| - 1], slots) + if 0 < ids[|ids| - 1] < slots then 1 else 0
  }

  lemma OneMoreNamed(ids: seq<nat>, i: nat, slots: seq<Slot>, sequence: u64)
    requires i < |ids|
    ensures Named(ids[..i + 1], |slots|) == Named(ids[..i], |slots|) + if 0 < ids[i] < |slots| then {ids[i]} else {}
    ensures Restarting(ids[..i + 1], slots, sequence) ==
            Restarting(ids[..i], slots, sequence) +
            if 0 < ids[i] < |slots| && sequence > slots[ids[i]].lastSequence then {ids[i]} else {}
    ensures Resetting(ids[..i + 1], slots, sequence) ==
            Resetting(ids[..i], slots, sequence) +
            if 0 < ids[i] < |slots| && Resets(slots[ids[i]], sequence) then {ids[i]} else {}
  {
    assert ids[..i + 1] == ids[..i] + [ids[i]];
  }

  lemma AllRepairedMeans(before: seq<Slot>, after: seq<Slot>, ids: seq<nat>, sequence: u64)
    requires AllRepaired(before, after, Named(ids, |before|), sequence)
    ensures |after| == |before|
    ensures forall w | 0 < w < |after| && w in ids :: CommandDone(before[w], after[w], sequence)
    ensures forall w | 0 <= w < |after| && (w == 0 || w !in ids) :: after[w] == before[w]
  {
  }

  lemma NothingRepaired(slots: seq<Slot>, sequence: u64)
    ensures AllRepaired(slots, slots, {}, sequence)
  {
  }

  lemma NobodyNamed(ids: seq<nat>, slots: seq<Slot>, sequence: u64)
    ensures Named(ids[..0], |slots|) == {}
    ensures Restarting(ids[..0], slots, sequence) == {} && Resetting(ids[..0], slots, sequence) == {}
  {
  }

  lemma OneMoreCounted(ids: seq<nat>, i: nat, slots: seq<Slot>, sequence: u64)
    requires i < |ids|
    ensures var isNew := 0 < ids[i] < |slots| && ids[i] !in Named(ids[..i], |slots|);
            && |Restarting(ids[..i + 1], slots, sequence)| ==
               |Restarting(ids[..i], slots, sequence)| +
                   (if isNew && sequence > slots[ids[i]].lastSequence then 1 else 0)
            && |Resetting(ids[..i + 1], slots, sequence)| ==
               |Resetting(ids[..i], slots, sequence)| + (if isNew && Resets(slots[ids[i]], sequence) then 1 else 0)
  {
    hide Resets;
    OneMoreNamed(ids, i, slots, sequence);
  }

  lemma OneMoreRepaired(before: seq<Slot>, slots: seq<Slot>, named: set<nat>, w: nat, sequence: u64)
    requires AllRepaired(before, slots, named, sequence) && w < |slots|
    ensures AllRepaired(before, slots[w := Repaired(slots[w], sequence)], named + {w}, sequence)
    ensures (sequence > slots[w].lastSequence) == (w !in named && sequence > before[w].lastSequence)
    ensures Resets(slots[w], sequence) == (w !in named && Resets(before[w], sequence))
  {
    RepairedOnce(before[w], sequence);
  }

  /** Applying the same command again changes nothing. */
  lemma RepairedOnce(slot: Slot, sequence: u64)
    ensures Repaired(slot, sequence).lastSequence >= sequence
    ensures Repaired(Repaired(slot, sequence), sequence) == Repaired(slot, sequence)
    ensures !Resets(Repaired(slot, sequence), sequence)
  {
  }

  // ---------------------------------------------------------------------------------------------
  // What the commands seen so far say about a slot.
  // ---------------------------------------------------------------------------------------------

  datatype Event = RepairCommand(sequence: u64) | Alive(sequence: u64) | Ready

  function Stepped(slot: Slot, event: Event): Slot
  {
    match event
    case RepairCommand(sequence) => Repaired(slot, sequence)
    case Alive(sequence) => slot.(readySequence := Max(slot.readySequence, sequence))
    case Ready => slot.(readySequence := slot.lastSequence)
  }

  function After(events: seq<Event>): Slot
  {
    if events == [] then FRESH else Stepped(After(events[..|events| - 1]), events[|events| - 1])
  }

  /** The greatest repair sequence so far. */
  function Newest(events: seq<Event>): u64
  {
    if events == [] then 0
    else
      var earlier := Newest(events[..|events| - 1]);
      var last := events[|events| - 1];
      if last.RepairCommand? then Max(earlier, last.sequence) else earlier
  }

  /** How often the repair sequence reached a new maximum. */
  function Records(events: seq<Event>): nat
  {
    if events == [] then 0
    else
      var last := events[|events| - 1];
      Records(events[..|events| - 1])
      + if last.RepairCommand? && last.sequence > Newest(events[..|events| - 1]) then 1 else 0
  }

  lemma NextCount(n: nat)
    ensures WrappingIncrement(n % COUNTS) == (n + 1) % COUNTS
  {
  }

  /** A worker restarts exactly as often as its repair sequence reached a new maximum. */
  lemma {:induction false} RestartsCountRecords(events: seq<Event>)
    ensures After(events).lastSequence == Newest(events)
    ensures After(events).restartGeneration == Records(events) % COUNTS
  {
    if events != [] {
      var before := events[..|events| - 1];
      RestartsCountRecords(before);
      NextCount(Records(before));
    }
  }

  /** The worker reported ready after the newest repair was accepted. */
  ghost predicate ReadySinceNewest(events: seq<Event>)
  {
    exists j | 0 <= j < |events| :: events[j].Ready? && Newest(events[..j]) == Newest(events)
  }

  /** An ALIVE with at least this sequence that no later ready mark has overwritten. */
  ghost predicate AliveFor(events: seq<Event>, sequence: u64)
  {
    exists j: nat | j < |events| :: events[j].Alive? && events[j].sequence >= sequence && Unspoiled(events, j)
  }

  /** The last ready mark was set when a repair of at least this sequence had been accepted. */
  ghost predicate ReadyAt(events: seq<Event>, sequence: u64)
  {
    exists j: nat | j < |events| :: events[j].Ready? && Newest(events[..j]) >= sequence && Unspoiled(events, j)
  }

  lemma {:induction false} NewestGrows(events: seq<Event>, j: nat)
    requires j <= |events|
    ensures Newest(events[..j]) <= Newest(events)
  {
    if j < |events| {
      NewestGrows(events[..|events| - 1], j);
      assert events[..|events| - 1][..j] == events[..j];
    } else {
      assert events[..j] == events;
    }
  }

  /** The ready mark in terms of the commands: the newest ALIVE since the last ready mark, or that mark. */
  lemma {:induction false} ReadyReaches(events: seq<Event>, sequence: u64)
    requires sequence > 0
    ensures After(events).readySequence >= sequence <==>
            AliveFor(events, sequence) || ReadyAt(events, sequence)
  {
    if events != [] {
      var n := |events| - 1;
      var before := events[..n];
      ReadyReaches(before, sequence);
      RestartsCountRecords(before);
      LastAlive(events, sequence);
      LastReady(events, sequence);
    }
  }

  /** No ready mark follows event `j`. */
  predicate Unspoiled(events: seq<Event>, j: nat)
  {
    forall k | j < k < |events| :: !events[k].Ready?
  }

  lemma UnspoiledLast(events: seq<Event>, j: nat)
    requires j + 1 < |events|
    ensures Unspoiled(events, j) <==> Unspoiled(events[..|events| - 1], j) && !events[|events| - 1].Ready?
  {
  }

  lemma LastAlive(events: seq<Event>, sequence: u64)
    requires events != []
    ensures var n := |events| - 1;
            AliveFor(events, sequence) <==>
              (events[n].Alive? && events[n].sequence >= sequence) ||
                  (!events[n].Ready? && AliveFor(events[..n], sequence))
  {
    hide Unspoiled;
    var n := |events| - 1;
    OutOfRange(events);
    forall j | 0 <= j < n ensures Unspoiled(events, j) <==> Unspoiled(events[..n], j) && !events[n].Ready? {
      UnspoiledLast(events, j);
    }
    if AliveFor(events[..n], sequence) && !events[n].Ready? {
      var j: nat :| j < n && events[..n][j].Alive? && events[..n][j].sequence >= sequence && Unspoiled(events[..n], j);
      assert events[j].Alive? && Unspoiled(events, j);
    }
    if AliveFor(events, sequence) && !(events[n].Alive? && events[n].sequence >= sequence) {
      var j: nat :| j < |events| && events[j].Alive? && events[j].sequence >= sequence && Unspoiled(events, j);
      assert events[..n][j].Alive? && Unspoiled(events[..n], j);
    }
  }

  lemma OutOfRange(events: seq<Event>)
    requires events != []
    ensures Unspoiled(events, |events| - 1)
  {
  }

  lemma LastReady(events: seq<Event>, sequence: u64)
    requires events != []
    ensures var n := |events| - 1;
            ReadyAt(events, sequence) <==>
              (events[n].Ready? && Newest(events[..n]) >= sequence) ||
                  (!events[n].Ready? && ReadyAt(events[..n], sequence))
  {
    hide Unspoiled;
    var n := |events| - 1;
    OutOfRange(events);
    forall j | 0 <= j < n
      ensures Unspoiled(events, j) <==> Unspoiled(events[..n], j) && !events[n].Ready?
      ensures events[..n][..j] == events[..j]
    {
      UnspoiledLast(events, j);
    }
    if ReadyAt(events[..n], sequence) && !events[n].Ready? {
      var j: nat :| j < n && events[..n][j].Ready? && Newest(events[..n][..j]) >= sequence && Unspoiled(events[..n], j);
      assert events[j].Ready? && Unspoiled(events, j);
    }
    if ReadyAt(events, sequence) && !(events[n].Ready? && Newest(events[..n]) >= sequence) {
      var j: nat :| j < |events| && events[j].Ready? && Newest(events[..j]) >= sequence && Unspoiled(events, j);
      assert events[..n][j].Ready? && Unspoiled(events[..n], j);
    }
  }

  lemma {:induction false} LastReadyMark(events: seq<Event>, j: nat, limit: nat) returns (k: nat)
    requires j < limit <= |events| && events[j].Ready?
    ensures j <= k < limit && events[k].Ready? && forall i | k < i < limit :: !events[i].Ready?
    decreases limit
  {
    if events[limit - 1].Ready? {
      k := limit - 1;
    } else {
      k := LastReadyMark(events, j, limit - 1);
    }
  }

  lemma ReadyMarkSurvives(events: seq<Event>)
    ensures ReadySinceNewest(events) <==> ReadyAt(events, Newest(events))
  {
    if ReadySinceNewest(events) {
      var j :| 0 <= j < |events| && events[j].Ready? && Newest(events[..j]) == Newest(events);
      var k := LastReadyMark(events, j, |events|);
      NewestGrows(events[..k], j);
      assert events[..k][..j] == events[..j];
    }
    if ReadyAt(events, Newest(events)) {
      var j: nat :| j < |events| && events[j].Ready? && Newest(events[..j]) >= Newest(events) && Unspoiled(events, j);
      NewestGrows(events, j);
    }
  }

  /**
    A repair resets the credentials exactly when it is a new maximum, an earlier one was accepted, and since
    then the worker has neither been marked ready nor reported alive for at least that earlier one.
  */
  lemma ResetsExactlyWhenSilent(events: seq<Event>, sequence: u64)
    ensures Resets(After(events), sequence) <==>
            && sequence > Newest(events) > 0
            && !ReadySinceNewest(events)
            && !AliveFor(events, Newest(events))
  {
    RestartsCountRecords(events);
    if Newest(events) > 0 {
      ReadyReaches(events, Newest(events));
      ReadyMarkSurvives(events);
    }
  }

  /** The repairs that found their worker silent since the one before. */
  ghost function Silences(events: seq<Event>): nat
  {
    if events == [] then 0
    else
      var before, last := events[..|events| - 1], events[|events| - 1];
      Silences(before)
      + if last.RepairCommand? && last.sequence > Newest(before) > 0
           && !ReadySinceNewest(before) && !AliveFor(before, Newest(before)) then 1
        else 0
  }

  /**
    The credential generation counts exactly the repairs that were a new maximum, followed an earlier repair, and found
    the worker neither marked ready nor reported alive since that one.
  */
  lemma {:induction false} CredentialsCountSilences(events: seq<Event>)
    ensures After(events).credentialGeneration == Silences(events) % COUNTS
  {
    if events != [] {
      hide ReadySinceNewest, AliveFor, Resets;
      var before, last := events[..|events| - 1], events[|events| - 1];
      CredentialsCountSilences(before);
      NextCount(Silences(before));
      RestartsCountRecords(before);
      if last.RepairCommand? {
        ResetsExactlyWhenSilent(before, last.sequence);
        RepairedCredentials(After(before), last.sequence);
      }
    }
  }

  lemma RepairedCredentials(slot: Slot, sequence: u64)
    ensures Repaired(slot, sequence).credentialGeneration ==
            if Resets(slot, sequence) then WrappingIncrement(slot.credentialGeneration) else slot.credentialGeneration
  {
  }

  /** One worker's slot over a whole history of commands, and how often it was restarted. */
  method RunTrace(state: RepairState, worker: nat, events: seq<Event>) returns (restarts: nat)
    requires 0 < worker < |state.slots| && state.slots[worker] == FRESH
    modifies state
    ensures |state.slots| == |old(state.slots)| && state.slots[worker] == After(events)
    ensures restarts == Records(events)
  {
    hide Repaired, Resets;
    restarts := 0;
    for n := 0 to |events|
      invariant |state.slots| == |old(state.slots)| && state.slots[worker] == After(events[..n])
      invariant restarts == Records(events[..n])
    {
      assert events[..n + 1][..n] == events[..n];
      RestartsCountRecords(events[..n]);
      match events[n] {
        case RepairCommand(sequence) =>
          OneWorkerRestarts(worker, state.slots, sequence);
          var more, _ := state.ApplyRepair(sequence, [worker]);
          restarts := restarts + more;
        case Alive(sequence) =>
          var _ := state.ApplyAlive(sequence, [worker]);
        case Ready =>
          state.MarkReady(worker);
      }
    }
    assert events[..|events|] == events;
  }

  lemma OneWorkerRestarts(worker: nat, slots: seq<Slot>, sequence: u64)
    requires 0 < worker < |slots|
    ensures worker in Named([worker], |slots|)
    ensures |Restarting([worker], slots, sequence)| == if sequence > slots[worker].lastSequence then 1 else 0
  {
    assert Restarting([worker], slots, sequence) == if sequence > slots[worker].lastSequence then {worker} else {};
  }
}
