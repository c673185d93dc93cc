/**
  Scaling down while idle: which workers may run, how many are declared to the server, and the epoch under
  which they register. `enter` and `exit` are atomic here.
*/
module Idle {
  import opened Common

  const SLOTS: nat := 127

  /** `joined[w]` is one more than the epoch offset worker `w` last registered under, 0 if it never did. */
  datatype State = State(
    limit: u64,
    active: bool,
    total: u64,
    declared: u64,
    offset: u64,
    announce: u64,
    joined: seq<u64>)

  datatype Event = Reset(total: u64) | Join(worker: nat, offset: u64) | Lost(worker: nat) | Enter(keep: u64) | Exit

  predicate Effective(s: State, keep: u64)
  {
    0 < keep < s.total && !s.active
  }

  /** A loss opens a new epoch when the worker may run and had joined exactly the current epoch. */
  predicate Opens(s: State, worker: nat)
  {
    && worker <= s.limit && worker < |s.joined|
    && s.joined[worker] != 0 && s.joined[worker] - 1 == s.offset
  }

  function Fresh(total: u64): State
  {
    State(U64_MAX, false, total, total, 0, 0, seq(SLOTS, _ => 0))
  }

  function Stepped(s: State, event: Event): State
  {
    match event
    case Reset(total) => Fresh(total)
    case Join(w, offset) =>
      if 0 < w < |s.joined| then s.(joined := s.joined[w := SaturatingAdd(offset, 1)]) else s
    case Lost(w) =>
      if Opens(s, w) then
        s.(offset := SaturatingAdd(s.offset, 1), announce := WrappingIncrement(s.announce), joined := s.joined[w := 0])
      else s
    case Enter(keep) =>
      if Effective(s, keep) then
        s.(active := true, limit := keep, declared := keep, offset := WrappingIncrement(s.offset),
           announce := WrappingIncrement(s.announce))
      else s
    case Exit =>
      if s.active then
        s.(active := false, limit := U64_MAX, declared := s.total, announce := WrappingIncrement(s.announce))
      else s
  }

  function After(events: seq<Event>): State
  {
    if events == [] then Fresh(0) else Stepped(After(events[..|events| - 1]), events[|events| - 1])
  }

  function DeclaredCount(s: State): u64
  {
    if s.declared == 0 then s.total else s.declared
  }

  /** The engine's process-wide state. */
  class Engine {
    var limit: u64
    var active: bool
    var total: u64
    var declared: u64
    var offset: u64
    var announce: u64
    const joined: array<u64>

    ghost predicate Valid()
      reads this, joined
    {
      joined.Length == SLOTS
    }

    ghost function View(): State
      reads this, joined
    {
      State(limit, active, total, declared, offset, announce, joined[..])
    }

    constructor ()
      ensures Valid() && fresh(joined) && View() == After([])
    {
      limit, active, total, declared, offset, announce := U64_MAX, false, 0, 0, 0, 0;
      joined := new u64[SLOTS](_ => 0);
      new;
      assert joined[..] == seq(SLOTS, _ => 0);
    }

    method ResetAll(totalWorkers: u64)
      requires Valid()
      modifies this, joined
      ensures Valid() && View() == Stepped(old(View()), Reset(totalWorkers))
      ensures total == declared == totalWorkers && limit == U64_MAX && !active && offset == announce == 0
      ensures forall i | 0 <= i < SLOTS :: joined[i] == 0
    {
      total, declared, limit, active, offset, announce := totalWorkers, totalWorkers, U64_MAX, false, 0, 0;
      for i := 0 to joined.Length
        invariant forall j | 0 <= j < i :: joined[j] == 0
        invariant total == declared == totalWorkers && limit == U64_MAX && !active && offset == announce == 0
      {
        joined[i] := 0;
      }
      assert joined[..] == seq(SLOTS, _ => 0);
    }

    method NotePathJoined(worker: nat, advertised: u64)
      requires Valid()
      modifies joined
      ensures Valid() && View() == Stepped(old(View()), Join(worker, advertised))
      ensures joined[..] ==
              if 0 < worker < SLOTS then
                old(joined[..])[worker := if advertised < U64_MAX then advertised + 1 else U64_MAX]
              else old(joined[..])
    {
      if worker >= joined.Length || worker == 0 {
        return;
      }
      joined[worker] := SaturatingAdd(advertised, 1);
    }

    method NotePathLost(worker: nat)
      requires Valid()
      modifies this, joined
      ensures Valid() && View() == Stepped(old(View()), Lost(worker))
      ensures limit == old(limit) && active == old(active) && total == old(total) && declared == old(declared)
      ensures if worker <= limit && worker < SLOTS && old(joined[..])[worker] == old(offset) + 1 then
                && offset == old(offset) + 1 && announce == WrappingIncrement(old(announce))
                && joined[..] == old(joined[..])[worker := 0]
              else offset == old(offset) && announce == old(announce) && joined[..] == old(joined[..])
    {
      if worker > limit || worker >= joined.Length {
        return;
      }
      var mark := joined[worker];
      if mark == 0 {
        return;
      }
      var current := offset;
      if mark - 1 != current {
        return;
      }
      offset := SaturatingAdd(current, 1);
      joined[worker] := 0;
      announce := WrappingIncrement(announce);
    }

    method EnterIdle(keep: u64)
      requires Valid()
      modifies this
      ensures Valid() && View() == Stepped(old(View()), Enter(keep))
      ensures total == old(total) && active == (old(active) || 0 < keep < total)
      ensures if !old(active) && 0 < keep < total then
                && limit == declared == keep && offset == WrappingIncrement(old(offset))
                && announce == WrappingIncrement(old(announce))
              else
                && limit == old(limit) && declared == old(declared)
                && offset == old(offset) && announce == old(announce)
    {
      if keep == 0 || total == 0 || keep >= total {
        return;
      }
      var was := active;
      active := true;
      if was {
        return;
      }
      limit, declared := keep, keep;
      offset := WrappingIncrement(offset);
      announce := WrappingIncrement(announce);
    }

    method ExitIdle()
      requires Valid()
      modifies this
      ensures Valid() && View() == Stepped(old(View()), Exit)
      ensures !active && total == old(total) && offset == old(offset)
      ensures if old(active) then
                limit == U64_MAX && declared == total && announce == WrappingIncrement(old(announce))
              else limit == old(limit) && declared == old(declared) && announce == old(announce)
    {
      var was := active;
      active := false;
      if !was {
        return;
      }
      limit, declared := U64_MAX, total;
      announce := WrappingIncrement(announce);
    }
  }

  // ---------------------------------------------------------------------------------------------
  // What follows for every history.
  // ---------------------------------------------------------------------------------------------

  /** The number of keepers in force: set by an effective `enter`, cleared by `exit` and `reset`. */
  function KeepInForce(events: seq<Event>): Option<u64>
  {
    if events == [] then None
    else
      var before := events[..|events| - 1];
      match events[|events| - 1]
      case Reset(_) => None
      case Exit => None
      case Enter(keep) =>
        if KeepInForce(before).None? && 0 < keep < Workers(before) then Some(keep) else KeepInForce(before)
      case _ => KeepInForce(before)
  }

  /** The number of workers of the last reset. */
  function Workers(events: seq<Event>): u64
  {
    if events == [] then 0
    else if events[|events| - 1].Reset? then events[|events| - 1].total
    else Workers(events[..|events| - 1])
  }

  /** Idle is active exactly while some keep is in force, and then limit and declared count are that keep. */
  lemma {:induction false} ActiveExactlyWhileKept(events: seq<Event>)
    ensures var s := After(events);
            && s.total == Workers(events)
            && (s.active <==> KeepInForce(events).Some?)
            && (s.active <==> s.limit == s.declared < s.total)
            && (s.active ==> KeepInForce(events) == Some(s.limit) && 0 < s.limit)
            && (!s.active ==> s.limit == U64_MAX && s.declared == s.total)
            && DeclaredCount(s) == (if s.active then s.limit else s.total)
            && |s.joined| == SLOTS
  {
    if events != [] {
      ActiveExactlyWhileKept(events[..|events| - 1]);
    }
  }

  /** Whatever changes the declared count or the epoch also moves the announce counter, except a reset. */
  lemma ChangesAreAnnounced(events: seq<Event>, event: Event)
    requires !event.Reset?
    ensures var s, t := After(events), After(events + [event]);
            DeclaredCount(s) != DeclaredCount(t) || s.offset != t.offset ==>
              t.announce == WrappingIncrement(s.announce) != s.announce
  {
    assert (events + [event])[..|events|] == events;
  }

  /** Between resets the epoch goes back only when an `enter` finds it at its greatest value. */
  lemma OffsetGoesBackExactly(events: seq<Event>, event: Event)
    requires !event.Reset?
    ensures var s, t := After(events), After(events + [event]);
            t.offset < s.offset <==> event.Enter? && Effective(s, event.keep) && s.offset == U64_MAX
  {
    assert (events + [event])[..|events|] == events;
  }

  /** The i-th event registers the worker under this epoch. */
  predicate Registers(event: Event, worker: nat, offset: u64)
  {
    event == Join(worker, offset) && 0 < worker < SLOTS
  }

  /** The i-th event ends a registration: a reset, another registration, or a loss that opened an epoch. */
  predicate EndsRegistration(events: seq<Event>, i: nat, worker: nat)
    requires i < |events|
  {
    match events[i]
    case Reset(_) => true
    case Join(w, _) => w == worker
    case Lost(w) => w == worker && After(events[..i + 1]).offset != After(events[..i]).offset
    case _ => false
  }

  /** Since the i-th event the worker is registered under this epoch. */
  predicate StandsSince(events: seq<Event>, i: nat, worker: nat, offset: u64)
    requires i < |events|
  {
    Registers(events[i], worker, offset) && forall j | i < j < |events| :: !EndsRegistration(events, j, worker)
  }

  ghost predicate Stands(events: seq<Event>, worker: nat, offset: u64)
  {
    exists i | 0 <= i < |events| :: StandsSince(events, i, worker, offset)
  }

  lemma EndsAsBefore(events: seq<Event>, i: nat, worker: nat)
    requires i < |events| - 1
    ensures EndsRegistration(events, i, worker) <==> EndsRegistration(events[..|events| - 1], i, worker)
  {
    var before := events[..|events| - 1];
    assert events[..i] == before[..i] && events[..i + 1] == before[..i + 1];
  }

  lemma StandsAsBefore(events: seq<Event>, worker: nat, offset: u64)
    requires events != []
    ensures var n := |events| - 1;
            Stands(events, worker, offset) <==>
              || Registers(events[n], worker, offset)
              || (Stands(events[..n], worker, offset) && !EndsRegistration(events, n, worker))
  {
    hide EndsRegistration, Registers;
    var n := |events| - 1;
    var before := events[..n];
    forall i: nat | i < n
      ensures StandsSince(events, i, worker, offset) <==>
                StandsSince(before, i, worker, offset) && !EndsRegistration(events, n, worker)
    {
      forall j: nat | j < n
        ensures EndsRegistration(events, j, worker) <==> EndsRegistration(before, j, worker)
      {
        EndsAsBefore(events, j, worker);
      }
    }
    if Registers(events[n], worker, offset) {
      assert StandsSince(events, n, worker, offset);
    }
    if Stands(before, worker, offset) && !EndsRegistration(events, n, worker) {
      var i :| 0 <= i < |before| && StandsSince(before, i, worker, offset);
      assert StandsSince(events, i, worker, offset);
    }
  }

  /** What the last event does to one worker's mark. */
  lemma MarkAfter(events: seq<Event>, worker: nat)
    requires events != [] && worker < SLOTS && |After(events[..|events| - 1]).joined| == SLOTS
    ensures var n := |events| - 1;
            && |After(events).joined| == SLOTS
            && After(events).joined[worker] ==
                 if events[n].Join? && events[n].worker == worker && worker > 0 then SaturatingAdd(events[n].offset, 1)
                 else if EndsRegistration(events, n, worker) then
                   (if events[n].Join? then After(events[..n]).joined[worker] else 0)
                 else After(events[..n]).joined[worker]
  {
    assert events[..|events|] == events;
  }

  /**
    The marks in terms of the history: a worker is marked exactly while a registration of it stands, and the mark is one
    more than the epoch of that registration, as far as 64 bits go.
  */
  lemma {:induction false} MarkedExactly(events: seq<Event>, worker: nat, mark: u64)
    requires worker < SLOTS && mark > 0
    ensures |After(events).joined| == SLOTS
    ensures After(events).joined[worker] == mark <==>
            exists offset: u64 :: Stands(events, worker, offset) && SaturatingAdd(offset, 1) == mark
  {
    hide EndsRegistration, Stands, Stepped;
    if events == [] {
      NothingStands(worker);
    } else {
      MarkedExactly(events[..|events| - 1], worker, mark);
      MarkAfter(events, worker);
      if events[|events| - 1].Join? {
        LastJoin(events, worker);
      }
      var n := |events| - 1;
      if After(events).joined[worker] == mark {
        var offset: u64;
        if events[n].Join? && events[n].worker == worker && worker > 0 {
          offset := events[n].offset;
        } else {
          offset :| Stands(events[..n], worker, offset) && SaturatingAdd(offset, 1) == mark;
          if worker == 0 {
            StandsInRange(events[..n], worker);
          }
        }
        StandsAsBefore(events, worker, offset);
      }
      if offset: u64 :| Stands(events, worker, offset) && SaturatingAdd(offset, 1) == mark {
        StandsAsBefore(events, worker, offset);
        assert events[n].Join? && events[n].worker == worker ==> Registers(events[n], worker, offset);
      }
    }
  }

  lemma NothingStands(worker: nat)
    ensures forall offset :: !Stands([], worker, offset)
    ensures After([]) == Fresh(0)
  {
  }

  lemma LastJoin(events: seq<Event>, worker: nat)
    requires events != [] && events[|events| - 1].Join?
    ensures EndsRegistration(events, |events| - 1, worker) <==> events[|events| - 1].worker == worker
  {
  }

  /**
    When a loss opens a new epoch: exactly when the worker may run and its standing registration is for the current
    epoch. For the last epoch but one, a registration under the last one counts as well, as both leave the same mark.
  */
  lemma LossOpensExactly(events: seq<Event>, worker: nat)
    ensures var s, t := After(events), After(events + [Lost(worker)]);
            && (t.offset != s.offset <==>
                  && (KeepInForce(events).None? || worker <= KeepInForce(events).value)
                  && exists offset: u64 ::
                       && Stands(events, worker, offset)
                       && (offset == s.offset || (offset == U64_MAX && s.offset == U64_MAX - 1))
                       && s.offset < U64_MAX)
            && (t.offset != s.offset ==> t.offset == s.offset + 1 && t.announce == WrappingIncrement(s.announce))
  {
    var s := After(events);
    assert (events + [Lost(worker)])[..|events|] == events;
    ActiveExactlyWhileKept(events);
    if worker < SLOTS && s.offset < U64_MAX {
      MarkedExactly(events, worker, s.offset + 1);
    }
    if worker >= SLOTS {
      StandsInRange(events, worker);
    }
  }

  lemma StandsInRange(events: seq<Event>, worker: nat)
    requires worker == 0 || worker >= SLOTS
    ensures forall offset :: !Stands(events, worker, offset)
  {
  }

  /** No worker is marked with an epoch that is still to come. */
  predicate MarksNotAhead(s: State)
  {
    forall w | 0 <= w < |s.joined| :: s.joined[w] <= s.offset + 1
  }

  /** Marks stay so as long as workers register under epochs they have read and the epoch does not wrap. */
  lemma MarksStayBehind(s: State, event: Event)
    requires MarksNotAhead(s)
    requires event.Join? ==> event.offset <= s.offset
    requires event.Enter? && Effective(s, event.keep) ==> s.offset < U64_MAX
    ensures MarksNotAhead(Stepped(s, event))
  {
  }

  function Losses(s: State, workers: seq<nat>): State
    decreases |workers|
  {
    if workers == [] then s else Losses(Stepped(s, Lost(workers[0])), workers[1..])
  }

  lemma {:induction false} NobodyLeftInEpoch(s: State, workers: seq<nat>)
    requires forall w | 0 <= w < |s.joined| :: s.joined[w] <= s.offset
    ensures Losses(s, workers) == s
    decreases |workers|
  {
    if workers != [] {
      NobodyLeftInEpoch(s, workers[1..]);
    }
  }

  lemma {:induction false} OneBurst(s: State, workers: seq<nat>)
    requires MarksNotAhead(s)
    ensures Losses(s, workers).offset ==
            s.offset + if exists i | 0 <= i < |workers| :: Opens(s, workers[i]) then 1 else 0
    decreases |workers|
  {
    if workers != [] {
      if Opens(s, workers[0]) {
        NobodyLeftInEpoch(Stepped(s, Lost(workers[0])), workers[1..]);
      } else {
        OneBurst(s, workers[1..]);
        forall i | 0 < i < |workers| ensures workers[i] == workers[1..][i - 1] {
        }
      }
    }
  }

  /** The epochs in force at some time since the last reset. */
  function Held(events: seq<Event>): set<u64>
  {
    if events == [] || events[|events| - 1].Reset? then {0}
    else Held(events[..|events| - 1]) + {After(events).offset}
  }

  /**
    A history in which every worker registers under an epoch it can have read since the last reset, and the epoch does
    not wrap.
  */
  predicate Orderly(events: seq<Event>)
  {
    events == [] ||
    var before := events[..|events| - 1];
    && Orderly(before)
    && match events[|events| - 1]
       case Join(_, offset) => offset in Held(before)
       case Enter(keep) => Effective(After(before), keep) ==> After(before).offset < U64_MAX
       case _ => true
  }

  /** Orderly histories leave no mark and no held epoch ahead of the current one. */
  lemma {:induction false} OrderlyMarksStayBehind(events: seq<Event>)
    requires Orderly(events)
    ensures MarksNotAhead(After(events))
    ensures forall offset | offset in Held(events) :: offset <= After(events).offset
  {
    if events != [] {
      var before, event := events[..|events| - 1], events[|events| - 1];
      OrderlyMarksStayBehind(before);
      MarksStayBehind(After(before), event);
    }
  }

  /**
    After any orderly history a burst of losses opens exactly one new epoch if one of the lost workers had joined the
    current one, and none otherwise.
  */
  lemma BurstOpensOneEpoch(events: seq<Event>, workers: seq<nat>)
    requires Orderly(events)
    ensures var s := After(events);
            Losses(s, workers).offset ==
              s.offset + if exists i | 0 <= i < |workers| :: Opens(s, workers[i]) then 1 else 0
  {
    OrderlyMarksStayBehind(events);
    OneBurst(After(events), workers);
  }

  lemma {:induction false} NobodyOpens(s: State, workers: seq<nat>)
    requires forall w :: !Opens(s, w)
    ensures Losses(s, workers) == s
    decreases |workers|
  {
    if workers != [] {
      NobodyOpens(s, workers[1..]);
    }
  }

  /** A worker that may run is marked with the epoch after the current one. */
  predicate MarkedAhead(s: State, worker: nat)
  {
    worker <= s.limit && worker < |s.joined| && s.joined[worker] == s.offset + 2
  }

  lemma {:induction false} NothingBeforeTheFirst(s: State, workers: seq<nat>)
    requires forall a, b :: !(Opens(s, a) && MarkedAhead(s, b))
    ensures Losses(s, workers).offset <= s.offset + 1
    decreases |workers|
  {
    if workers != [] {
      var next := Stepped(s, Lost(workers[0]));
      if Opens(s, workers[0]) {
        forall w ensures !Opens(next, w) {
          assert !MarkedAhead(s, w);
        }
        NobodyOpens(next, workers[1..]);
      } else {
        NothingBeforeTheFirst(s, workers[1..]);
      }
    }
  }

  /**
    In any state: no burst opens more than one epoch if and only if there are no two workers that may run, one marked
    with the current epoch and one with the next.
  */
  lemma OneEpochPerBurstExactly(s: State)
    ensures (forall workers :: Losses(s, workers).offset <= s.offset + 1)
              <==> !(exists a, b :: Opens(s, a) && MarkedAhead(s, b))
  {
    if exists a, b :: Opens(s, a) && MarkedAhead(s, b) {
      var a: nat, b: nat :| Opens(s, a) && MarkedAhead(s, b);
      TwoEpochs(s, a, b);
      assert !(Losses(s, [a, b]).offset <= s.offset + 1);
    } else {
      forall workers ensures Losses(s, workers).offset <= s.offset + 1 {
        NothingBeforeTheFirst(s, workers);
      }
    }
  }

  lemma TwoEpochs(s: State, a: nat, b: nat)
    requires Opens(s, a) && MarkedAhead(s, b)
    ensures Losses(s, [a, b]).offset == s.offset + 2
  {
    var first := Stepped(s, Lost(a));
    var second := Stepped(first, Lost(b));
    assert Opens(first, b) && [a, b][1..] == [b] && [b][1..] == [];
    assert Losses(first, [b]) == Losses(second, []) == second;
  }

  /**
    Why stale registrations matter: one that was read before a reset and is stored after it marks a worker ahead, and
    then a single burst opens two epochs.
  */
  lemma StaleJoinOpensTwoEpochs()
    ensures var events := [Reset(5), Enter(2), Exit, Reset(5), Join(1, 0), Join(2, 1)];
            && !Orderly(events)
            && Losses(After(events), [1, 2]).offset == After(events).offset + 2
  {
    var start := [Reset(5), Enter(2), Exit];
    var again := start + [Reset(5)];
    var joined := again + [Join(1, 0)];
    var events := joined + [Join(2, 1)];
    assert events == [Reset(5), Enter(2), Exit, Reset(5), Join(1, 0), Join(2, 1)];
    assert events[..5] == joined && joined[..4] == again && again[..3] == start;
    assert After(again) == Fresh(5) && Held(again) == {0};
    assert After(joined) == Fresh(5).(joined := Fresh(5).joined[1 := 1]) && Held(joined) == {0};
    var s := After(events);
    assert s == Fresh(5).(joined := Fresh(5).joined[1 := 1][2 := 2]);
    TwoEpochs(s, 1, 2);
  }
}
