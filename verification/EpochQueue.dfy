/**
  The epoch-stamped packet queue under concurrency: senders, one receiver and one resumer take
  atomic steps in any order. A sender stamps its packet with the epoch it read before pushing, a
  resume opens a new epoch, and the receiver checks the stamp after popping.
*/
module EpochQueue {
  import opened Common

  /** Epochs live in the upper 63 bits of the state word. */
  const EPOCHS: int := 0x8000_0000_0000_0000

  /**
    `readAt` records how many resumes had opened their epoch when the sender read the state, and `stamp` numbers these
    reads.
  */
  datatype Item = Item(packet: nat, epoch: nat, readAt: nat, stamp: nat)

  /** `ticket` is the position of the push among all pushes. */
  datatype Entry = Entry(item: Item, ticket: nat)

  datatype Delivery = Delivery(entry: Entry, checkedAt: nat)

  /** Why a stamped packet was not delivered. */
  datatype Reason = Full | Replaced | Stale | Purged | Stolen

  datatype Loss = Loss(item: Item, reason: Reason)

  datatype SenderPc =
    | Idle
    | Checked(packet: nat, force: bool)
    | Stamped(item: Item, force: bool)

  datatype ResumerPc =
    | Ready
    | Loaded(epoch: nat)
    | Purging(epoch: nat)
    | Emptied(epoch: nat)

  datatype State = State(
    capacity: nat,
    word: u64,
    receiverOpen: bool,
    queue: seq<Entry>,
    senders: seq<SenderPc>,
    held: Option<Entry>,
    resumer: ResumerPc,
    pushes: nat,
    resumes: nat,
    stamps: nat,
    delivered: seq<Delivery>,
    lost: seq<Loss>)

  datatype Step =
    | StartSend(thread: nat, packet: nat, force: bool)
    | ReadState(thread: nat)
    | Push(thread: nat)
    | Pop
    | Check
    | BeginResume
    | Deactivate
    | PurgeOne
    | Activate
    | Steal
    | CloseReceiver

  /** `(epoch << 1) | active` in 64 bits. */
  function Word(epoch: nat, active: bool): u64
  {
    epoch % EPOCHS * 2 + if active then 1 else 0
  }

  predicate IsActive(word: u64)
  {
    word % 2 == 1
  }

  function Epoch(word: u64): nat
  {
    word / 2
  }

  lemma WordParts(epoch: nat, active: bool)
    ensures IsActive(Word(epoch, active)) == active && Epoch(Word(epoch, active)) == epoch % EPOCHS
  {
  }

  function Initial(capacity: nat, active: bool, threads: nat): State
  {
    State(if capacity == 0 then 1 else capacity, Word(0, active), true, [], seq(threads, _ => Idle), None, Ready,
          0, 0, 0, [], [])
  }

  function At(s: State, t: nat, pc: SenderPc): State
    requires t < |s.senders|
  {
    s.(senders := s.senders[t := pc])
  }

  /** A full queue refuses a packet, or gives up its oldest one for a forced packet. */
  function PushItem(s: State, item: Item, force: bool): State
  {
    var entry := Entry(item, s.pushes);
    if |s.queue| < s.capacity then s.(queue := s.queue + [entry], pushes := s.pushes + 1)
    else if force && s.queue != [] then
      s.(queue := s.queue[1..] + [entry], pushes := s.pushes + 1, lost := s.lost + [Loss(s.queue[0].item, Replaced)])
    else s.(lost := s.lost + [Loss(item, Full)])
  }

  /** Takes the head out of the queue for good. */
  function DropHead(s: State, reason: Reason): State
    requires s.queue != []
  {
    s.(queue := s.queue[1..], lost := s.lost + [Loss(s.queue[0].item, reason)])
  }

  /** One atomic step; a step that is not enabled leaves the state alone. */
  function Apply(s: State, step: Step): State
  {
    match step
    case StartSend(t, packet, force) =>
      if t < |s.senders| && s.senders[t].Idle? && s.receiverOpen then At(s, t, Checked(packet, force)) else s
    case ReadState(t) =>
      if t >= |s.senders| || !s.senders[t].Checked? then s
      else if !IsActive(s.word) then At(s, t, Idle)
      else
        var item := Item(s.senders[t].packet, Epoch(s.word), s.resumes, s.stamps);
        At(s, t, Stamped(item, s.senders[t].force)).(stamps := s.stamps + 1)
    case Push(t) =>
      if t >= |s.senders| || !s.senders[t].Stamped? then s
      else PushItem(At(s, t, Idle), s.senders[t].item, s.senders[t].force)
    case Pop =>
      if s.held.Some? || s.queue == [] then s
      else s.(held := Some(s.queue[0]), queue := s.queue[1..])
    case Check =>
      if s.held.None? then s
      else if IsActive(s.word) && s.held.value.item.epoch == Epoch(s.word) then
        s.(held := None, delivered := s.delivered + [Delivery(s.held.value, s.resumes)])
      else s.(held := None, lost := s.lost + [Loss(s.held.value.item, Stale)])
    case BeginResume =>
      if !s.resumer.Ready? then s
      else s.(resumer := Loaded(SaturatingAdd(Epoch(s.word), 1)))
    case Deactivate =>
      if !s.resumer.Loaded? then s
      else s.(word := Word(s.resumer.epoch, false), resumes := s.resumes + 1, resumer := Purging(s.resumer.epoch))
    case PurgeOne =>
      if !s.resumer.Purging? then s
      else if s.queue == [] then s.(resumer := Emptied(s.resumer.epoch))
      else DropHead(s, Purged)
    case Activate =>
      if !s.resumer.Emptied? then s
      else s.(word := Word(s.resumer.epoch, true), resumer := Ready)
    case Steal =>
      if s.queue == [] then s else DropHead(s, Stolen)
    case CloseReceiver => s.(receiverOpen := false)
  }

  function Run(s: State, steps: seq<Step>): State
  {
    if steps == [] then s else Apply(Run(s, steps[..|steps| - 1]), steps[|steps| - 1])
  }

  // ---------------------------------------------------------------------------------------------
  // What every step keeps.
  // ---------------------------------------------------------------------------------------------

  /** A stamp names the epoch of the state word its sender read, and that word was active. */
  predicate GoodItem(s: State, item: Item)
  {
    && item.epoch == item.readAt % EPOCHS
    && item.readAt <= s.resumes
    && (item.readAt == s.resumes ==> IsActive(s.word))
  }

  predicate GoodEpochs(s: State)
  {
    && Epoch(s.word) == s.resumes % EPOCHS
    && match s.resumer
       case Ready => true
       case Loaded(epoch) => epoch == Epoch(s.word) + 1
       case Purging(epoch) => epoch % EPOCHS == Epoch(s.word) && !IsActive(s.word)
       case Emptied(epoch) => epoch % EPOCHS == Epoch(s.word) && !IsActive(s.word)
  }

  predicate GoodItems(s: State)
  {
    && (forall i | 0 <= i < |s.queue| :: GoodItem(s, s.queue[i].item))
    && (forall t | 0 <= t < |s.senders| && s.senders[t].Stamped? :: GoodItem(s, s.senders[t].item))
    && (s.held.Some? ==> GoodItem(s, s.held.value.item))
  }

  predicate GoodDelivery(d: Delivery)
  {
    && d.entry.item.readAt <= d.checkedAt
    && (d.checkedAt - d.entry.item.readAt) % EPOCHS == 0
  }

  /** Tickets in the order the entries left or will leave the queue. */
  function Tickets(s: State): seq<nat>
  {
    seq(|s.delivered|, i requires 0 <= i < |s.delivered| => s.delivered[i].entry.ticket)
    + (if s.held.Some? then [s.held.value.ticket] else [])
    + seq(|s.queue|, i requires 0 <= i < |s.queue| => s.queue[i].ticket)
  }

  predicate Ascending(tickets: seq<nat>, bound: nat)
  {
    && (forall i, j | 0 <= i < j < |tickets| :: tickets[i] < tickets[j])
    && (forall i | 0 <= i < |tickets| :: tickets[i] < bound)
  }

  predicate Invariant(s: State)
  {
    && s.capacity > 0 && |s.queue| <= s.capacity
    && GoodEpochs(s)
    && GoodItems(s)
    && (forall i | 0 <= i < |s.delivered| ::
          GoodDelivery(s.delivered[i]) && s.delivered[i].checkedAt <= s.resumes)
    && Ascending(Tickets(s), s.pushes)
  }

  lemma SameRemainder(a: nat, b: nat)
    requires a <= b && a % EPOCHS == b % EPOCHS
    ensures (b - a) % EPOCHS == 0
  {
    assert b - a == EPOCHS * (b / EPOCHS - a / EPOCHS);
  }

  lemma NextEpoch(resumes: nat)
    ensures (resumes % EPOCHS + 1) % EPOCHS == (resumes + 1) % EPOCHS
  {
  }

  lemma StepKeepsEpochs(s: State, step: Step)
    requires Invariant(s)
    ensures GoodEpochs(Apply(s, step))
  {
    NextEpoch(s.resumes);
    match step
    case Deactivate =>
      if s.resumer.Loaded? {
        WordParts(s.resumer.epoch, false);
      }
    case Activate =>
      if s.resumer.Emptied? {
        WordParts(s.resumer.epoch, true);
      }
    case _ =>
  }

  /** Items stay good when the state word changes as a resume changes it. */
  lemma ItemStaysGood(s: State, step: Step, item: Item)
    requires Invariant(s) && GoodItem(s, item)
    ensures GoodItem(Apply(s, step), item)
  {
    if step == Activate && s.resumer.Emptied? {
      WordParts(s.resumer.epoch, true);
    }
  }

  /** A sender that reads an active state stamps its packet with the current epoch. */
  lemma NewStampsAreGood(s: State, step: Step)
    requires Invariant(s) && step.ReadState? && step.thread < |s.senders| && s.senders[step.thread].Checked?
    ensures var t := Apply(s, step);
            step.thread < |t.senders| && t.senders[step.thread].Stamped? ==> GoodItem(t, t.senders[step.thread].item)
  {
  }

  lemma StepKeepsItems(s: State, step: Step)
    requires Invariant(s)
    ensures GoodItems(Apply(s, step))
  {
    hide GoodItem, GoodEpochs, GoodDelivery, Tickets, Ascending;
    if step.ReadState? && step.thread < |s.senders| && s.senders[step.thread].Checked? {
      NewStampsAreGood(s, step);
    }
    var t := Apply(s, step);
    forall i | 0 <= i < |s.queue|
      ensures GoodItem(t, s.queue[i].item)
    {
      ItemStaysGood(s, step, s.queue[i].item);
    }
    forall thread | 0 <= thread < |s.senders| && s.senders[thread].Stamped?
      ensures GoodItem(t, s.senders[thread].item)
    {
      ItemStaysGood(s, step, s.senders[thread].item);
    }
    if s.held.Some? {
      ItemStaysGood(s, step, s.held.value.item);
    }
  }

  /** Leaving out one ticket keeps the rest ascending. */
  lemma OneTicketLess(tickets: seq<nat>, k: nat, bound: nat)
    requires k < |tickets| && Ascending(tickets, bound)
    ensures Ascending(tickets[..k] + tickets[k + 1..], bound)
  {
  }

  lemma PushItemKeepsOrder(s: State, item: Item, force: bool)
    requires Ascending(Tickets(s), s.pushes)
    ensures Ascending(Tickets(PushItem(s, item, force)), PushItem(s, item, force).pushes)
  {
    var t := PushItem(s, item, force);
    if t.pushes == s.pushes {
      assert Tickets(t) == Tickets(s);
    } else if |s.queue| < s.capacity {
      assert Tickets(t) == Tickets(s) + [s.pushes];
    } else {
      var k := |Tickets(s)| - |s.queue|;
      var kept := s.(queue := s.queue[1..]);
      OneTicketLess(Tickets(s), k, s.pushes);
      assert Tickets(kept) == Tickets(s)[..k] + Tickets(s)[k + 1..];
      assert Tickets(t) == Tickets(kept) + [s.pushes];
    }
  }

  lemma PushKeepsOrder(s: State, thread: nat)
    requires Invariant(s)
    ensures Ascending(Tickets(Apply(s, Push(thread))), Apply(s, Push(thread)).pushes)
  {
    hide GoodEpochs, GoodItems, GoodItem, GoodDelivery, Epoch, IsActive, PushItem;
    if thread < |s.senders| && s.senders[thread].Stamped? {
      assert Tickets(At(s, thread, Idle)) == Tickets(s);
      PushItemKeepsOrder(At(s, thread, Idle), s.senders[thread].item, s.senders[thread].force);
    }
  }

  lemma PopKeepsOrder(s: State)
    requires Invariant(s)
    ensures Tickets(Apply(s, Pop)) == Tickets(s)
  {
  }

  lemma CheckKeepsOrder(s: State)
    requires Invariant(s)
    ensures Ascending(Tickets(Apply(s, Check)), s.pushes)
  {
    hide GoodEpochs, GoodItems, GoodItem, GoodDelivery;
    var t := Apply(s, Check);
    if s.held.Some? && t.delivered == s.delivered {
      OneTicketLess(Tickets(s), |s.delivered|, s.pushes);
      assert Tickets(t) == Tickets(s)[..|s.delivered|] + Tickets(s)[|s.delivered| + 1..];
    } else {
      assert Tickets(t) == Tickets(s);
    }
  }

  lemma DroppingTheHeadKeepsOrder(s: State)
    requires Invariant(s) && s.queue != []
    ensures Ascending(Tickets(s.(queue := s.queue[1..])), s.pushes)
  {
    hide GoodEpochs, GoodItems, GoodItem, GoodDelivery;
    var k := |Tickets(s)| - |s.queue|;
    OneTicketLess(Tickets(s), k, s.pushes);
    assert Tickets(s.(queue := s.queue[1..])) == Tickets(s)[..k] + Tickets(s)[k + 1..];
  }

  lemma StepKeepsOrder(s: State, step: Step)
    requires Invariant(s)
    ensures Ascending(Tickets(Apply(s, step)), Apply(s, step).pushes)
  {
    hide GoodEpochs, GoodItems, GoodItem, GoodDelivery;
    match step
    case Push(thread) => PushKeepsOrder(s, thread);
    case Pop => PopKeepsOrder(s);
    case Check => CheckKeepsOrder(s);
    case PurgeOne =>
      if s.resumer.Purging? && s.queue != [] {
        DroppingTheHeadKeepsOrder(s);
      } else {
        assert Tickets(Apply(s, step)) == Tickets(s);
      }
    case Steal =>
      if s.queue != [] {
        DroppingTheHeadKeepsOrder(s);
      }
    case _ => assert Tickets(Apply(s, step)) == Tickets(s);
  }

  lemma StepKeepsInvariant(s: State, step: Step)
    requires Invariant(s)
    ensures Invariant(Apply(s, step))
  {
    StepKeepsEpochs(s, step);
    StepKeepsItems(s, step);
    StepKeepsOrder(s, step);
    if step == Check && s.held.Some? {
      var item := s.held.value.item;
      if item.epoch == Epoch(s.word) {
        SameRemainder(item.readAt, s.resumes);
      }
    }
  }

  lemma {:induction false} RunKeepsInvariant(capacity: nat, active: bool, threads: nat, steps: seq<Step>)
    ensures Invariant(Run(Initial(capacity, active, threads), steps))
  {
    if steps == [] {
      WordParts(0, active);
    } else {
      RunKeepsInvariant(capacity, active, threads, steps[..|steps| - 1]);
      StepKeepsInvariant(Run(Initial(capacity, active, threads), steps[..|steps| - 1]), steps[|steps| - 1]);
    }
  }

  // ---------------------------------------------------------------------------------------------
  // Main results, over every interleaving.
  // ---------------------------------------------------------------------------------------------

  /**
    In every interleaving a packet is delivered only if the number of resumes between its sender's
    read and the receiver's check is a multiple of 2^63: none at all, unless the epoch counter wrapped.
  */
  lemma DeliveredInItsOwnEpoch(capacity: nat, active: bool, threads: nat, steps: seq<Step>, i: nat)
    requires i < |Run(Initial(capacity, active, threads), steps).delivered|
    ensures GoodDelivery(Run(Initial(capacity, active, threads), steps).delivered[i])
    ensures Run(Initial(capacity, active, threads), steps).resumes < EPOCHS ==>
              var d := Run(Initial(capacity, active, threads), steps).delivered[i]; d.entry.item.readAt == d.checkedAt
  {
    RunKeepsInvariant(capacity, active, threads, steps);
    FewResumesMeanNone(Run(Initial(capacity, active, threads), steps), i);
  }

  lemma FewResumesMeanNone(s: State, i: nat)
    requires Invariant(s) && i < |s.delivered|
    ensures s.resumes < EPOCHS ==> s.delivered[i].entry.item.readAt == s.delivered[i].checkedAt
  {
  }

  /** Deliveries keep the order of the pushes, so no push is delivered twice. */
  lemma DeliveriesKeepPushOrder(capacity: nat, active: bool, threads: nat, steps: seq<Step>, i: nat, j: nat)
    requires i < j < |Run(Initial(capacity, active, threads), steps).delivered|
    ensures var delivered := Run(Initial(capacity, active, threads), steps).delivered;
            delivered[i].entry.ticket < delivered[j].entry.ticket
  {
    var s := Run(Initial(capacity, active, threads), steps);
    RunKeepsInvariant(capacity, active, threads, steps);
    assert Tickets(s)[i] == s.delivered[i].entry.ticket && Tickets(s)[j] == s.delivered[j].entry.ticket;
  }

  /**
    The check loses nothing of the current epoch: while fewer than 2^63 resumes have happened, the
    popped packet is delivered exactly when its sender read the state after the last resume opened.
  */
  lemma CheckDeliversExactlyTheCurrent(capacity: nat, active: bool, threads: nat, steps: seq<Step>)
    requires var s := Run(Initial(capacity, active, threads), steps); s.held.Some? && s.resumes < EPOCHS
    ensures var s := Run(Initial(capacity, active, threads), steps);
            |Apply(s, Check).delivered| == |s.delivered| + 1 <==> s.held.value.item.readAt == s.resumes
  {
    RunKeepsInvariant(capacity, active, threads, steps);
    CheckedItem(Run(Initial(capacity, active, threads), steps));
  }

  lemma CheckedItem(s: State)
    requires Invariant(s) && s.held.Some? && s.resumes < EPOCHS
    ensures |Apply(s, Check).delivered| == |s.delivered| + 1 <==> s.held.value.item.readAt == s.resumes
  {
  }

  /** A purge never throws away a packet of the epoch it is opening. */
  lemma PurgeDropsOnlyOlderEpochs(capacity: nat, active: bool, threads: nat, steps: seq<Step>)
    requires var s := Run(Initial(capacity, active, threads), steps); s.resumer.Purging? && s.queue != []
    ensures var s := Run(Initial(capacity, active, threads), steps);
            s.queue[0].item.readAt < s.resumes && Apply(s, PurgeOne).queue == s.queue[1..]
  {
    RunKeepsInvariant(capacity, active, threads, steps);
  }

  // ---------------------------------------------------------------------------------------------
  // Nothing gets lost without a reason.
  // ---------------------------------------------------------------------------------------------

  function Same(item: Item, stamp: nat): nat
  {
    if item.stamp == stamp then 1 else 0
  }

  function InQueue(queue: seq<Entry>, stamp: nat): nat
  {
    if queue == [] then 0 else InQueue(queue[..|queue| - 1], stamp) + Same(queue[|queue| - 1].item, stamp)
  }

  function InHand(pc: SenderPc, stamp: nat): nat
  {
    if pc.Stamped? then Same(pc.item, stamp) else 0
  }

  function InHands(senders: seq<SenderPc>, stamp: nat): nat
  {
    if senders == [] then 0 else InHands(senders[..|senders| - 1], stamp) + InHand(senders[|senders| - 1], stamp)
  }

  function InDelivered(delivered: seq<Delivery>, stamp: nat): nat
  {
    if delivered == [] then 0
    else InDelivered(delivered[..|delivered| - 1], stamp) + Same(delivered[|delivered| - 1].entry.item, stamp)
  }

  function InLost(lost: seq<Loss>, stamp: nat): nat
  {
    if lost == [] then 0 else InLost(lost[..|lost| - 1], stamp) + Same(lost[|lost| - 1].item, stamp)
  }

  /** In how many places the packet with this stamp is. */
  function Places(s: State, stamp: nat): nat
  {
    InHands(s.senders, stamp) + InQueue(s.queue, stamp) + (if s.held.Some? then Same(s.held.value.item, stamp) else 0)
    + InDelivered(s.delivered, stamp) + InLost(s.lost, stamp)
  }

  lemma {:induction false} HandChanges(senders: seq<SenderPc>, t: nat, pc: SenderPc, stamp: nat)
    requires t < |senders|
    ensures InHands(senders[t := pc], stamp) + InHand(senders[t], stamp) == InHands(senders, stamp) + InHand(pc, stamp)
  {
    hide InHand;
    var n := |senders| - 1;
    if t < n {
      HandChanges(senders[..n], t, pc, stamp);
      assert senders[t := pc][..n] == senders[..n][t := pc];
    } else {
      assert senders[t := pc][..n] == senders[..n];
    }
  }

  lemma {:induction false} HeadLeaves(queue: seq<Entry>, stamp: nat)
    requires queue != []
    ensures InQueue(queue, stamp) == Same(queue[0].item, stamp) + InQueue(queue[1..], stamp)
  {
    hide Same;
    if |queue| > 1 {
      HeadLeaves(queue[..|queue| - 1], stamp);
      assert queue[..|queue| - 1][1..] == queue[1..][..|queue| - 2];
    } else {
      assert queue[..0] == [] && queue[1..] == [];
    }
  }

  lemma EntryArrives(queue: seq<Entry>, entry: Entry, stamp: nat)
    ensures InQueue(queue + [entry], stamp) == InQueue(queue, stamp) + Same(entry.item, stamp)
  {
    assert (queue + [entry])[..|queue|] == queue;
  }

  lemma LossArrives(lost: seq<Loss>, loss: Loss, stamp: nat)
    ensures InLost(lost + [loss], stamp) == InLost(lost, stamp) + Same(loss.item, stamp)
  {
    assert (lost + [loss])[..|lost|] == lost;
  }

  lemma DeliveryArrives(delivered: seq<Delivery>, d: Delivery, stamp: nat)
    ensures InDelivered(delivered + [d], stamp) == InDelivered(delivered, stamp) + Same(d.entry.item, stamp)
  {
    assert (delivered + [d])[..|delivered|] == delivered;
  }

  /** Pushing adds the packet in exactly one place, and moves at most the oldest one. */
  lemma PushItemPlaces(s: State, item: Item, force: bool, stamp: nat)
    ensures Places(PushItem(s, item, force), stamp) == Places(s, stamp) + Same(item, stamp)
  {
    hide Same;
    var entry := Entry(item, s.pushes);
    if |s.queue| < s.capacity {
      EntryArrives(s.queue, entry, stamp);
    } else if force && s.queue != [] {
      HeadLeaves(s.queue, stamp);
      EntryArrives(s.queue[1..], entry, stamp);
      LossArrives(s.lost, Loss(s.queue[0].item, Replaced), stamp);
    } else {
      LossArrives(s.lost, Loss(item, Full), stamp);
    }
  }

  lemma DropHeadPlaces(s: State, reason: Reason, stamp: nat)
    requires s.queue != []
    ensures Places(DropHead(s, reason), stamp) == Places(s, stamp)
  {
    hide Same;
    HeadLeaves(s.queue, stamp);
    LossArrives(s.lost, Loss(s.queue[0].item, reason), stamp);
  }

  lemma AtPlaces(s: State, t: nat, pc: SenderPc, stamp: nat)
    requires t < |s.senders|
    ensures Places(At(s, t, pc), stamp) + InHand(s.senders[t], stamp) == Places(s, stamp) + InHand(pc, stamp)
  {
    hide InHand;
    HandChanges(s.senders, t, pc, stamp);
  }

  lemma ReceiverPlaces(s: State, step: Step, stamp: nat)
    requires step.Pop? || step.Check?
    ensures Places(Apply(s, step), stamp) == Places(s, stamp)
  {
    hide Same, IsActive, Epoch;
    if step.Pop? && s.held.None? && s.queue != [] {
      HeadLeaves(s.queue, stamp);
    }
    if step.Check? && s.held.Some? {
      DeliveryArrives(s.delivered, Delivery(s.held.value, s.resumes), stamp);
      LossArrives(s.lost, Loss(s.held.value.item, Stale), stamp);
    }
  }

  lemma SenderPlaces(s: State, step: Step, stamp: nat)
    requires step.StartSend? || step.ReadState? || step.Push?
    ensures Places(Apply(s, step), stamp) ==
            Places(s, stamp) + if s.stamps == stamp < Apply(s, step).stamps then 1 else 0
  {
    hide Places, IsActive, Epoch;
    var t := step.thread;
    if t < |s.senders| {
      match step {
        case StartSend(_, packet, force) => AtPlaces(s, t, Checked(packet, force), stamp);
        case ReadState(_) =>
          if s.senders[t].Checked? {
            AtPlaces(s, t, Idle, stamp);
            var stamped := Stamped(Item(s.senders[t].packet, Epoch(s.word), s.resumes, s.stamps), s.senders[t].force);
            AtPlaces(s, t, stamped, stamp);
            StampsDoNotMatter(At(s, t, stamped), s.stamps + 1, stamp);
          }
        case Push(_) =>
          if s.senders[t].Stamped? {
            AtPlaces(s, t, Idle, stamp);
            PushItemPlaces(At(s, t, Idle), s.senders[t].item, s.senders[t].force, stamp);
          }
      }
    }
  }

  lemma StampsDoNotMatter(s: State, stamps: nat, stamp: nat)
    ensures Places(s.(stamps := stamps), stamp) == Places(s, stamp)
  {
  }

  /** A step moves packets between places; only an active read adds one. */
  lemma StepPlaces(s: State, step: Step, stamp: nat)
    ensures Places(Apply(s, step), stamp) ==
            Places(s, stamp) + if s.stamps <= stamp < Apply(s, step).stamps then 1 else 0
  {
    if step.StartSend? || step.ReadState? || step.Push? {
      hide Places;
      SenderPlaces(s, step, stamp);
    } else if step.Pop? || step.Check? {
      hide Places;
      ReceiverPlaces(s, step, stamp);
    } else if step.PurgeOne? || step.Steal? {
      if s.queue != [] {
        DropHeadPlaces(s, if step.Steal? then Stolen else Purged, stamp);
      }
    }
  }

  lemma {:induction false} NobodyHolds(threads: nat, stamp: nat)
    ensures InHands(seq(threads, _ => Idle), stamp) == 0
  {
    if threads > 0 {
      NobodyHolds(threads - 1, stamp);
      assert seq(threads, _ => Idle)[..threads - 1] == seq(threads - 1, _ => Idle);
    }
  }

  /**
    Conservation in every interleaving: each packet that was stamped is still with its sender, queued, held by the
    receiver, delivered, or lost for a recorded reason, exactly one of these.
  */
  lemma {:induction false} EveryPacketInOnePlace(capacity: nat, active: bool, threads: nat, steps: seq<Step>,
                                                 stamp: nat)
    ensures var s := Run(Initial(capacity, active, threads), steps);
            Places(s, stamp) == if stamp < s.stamps then 1 else 0
  {
    if steps == [] {
      NobodyHolds(threads, stamp);
    } else {
      hide Places;
      EveryPacketInOnePlace(capacity, active, threads, steps[..|steps| - 1], stamp);
      StepPlaces(Run(Initial(capacity, active, threads), steps[..|steps| - 1]), steps[|steps| - 1], stamp);
    }
  }

  /** What a recorded reason means for the step that recorded it. */
  ghost predicate Justified(s: State, step: Step, loss: Loss)
  {
    var next := Apply(s, step);
    match loss.reason
    case Full =>
      && step.Push? && step.thread < |s.senders| && s.senders[step.thread] == Stamped(loss.item, false)
      && |s.queue| == s.capacity && next.queue == s.queue
    case Replaced =>
      && step.Push? && step.thread < |s.senders| && s.senders[step.thread].Stamped? && s.senders[step.thread].force
      && |s.queue| == s.capacity && s.queue != [] && loss.item == s.queue[0].item
      && next.queue == s.queue[1..] + [Entry(s.senders[step.thread].item, s.pushes)]
    case Stale =>
      && step.Check? && s.held.Some? && loss.item == s.held.value.item
      && (!IsActive(s.word) || (s.resumes < EPOCHS ==> loss.item.readAt < s.resumes))
    case Purged => step.PurgeOne? && s.queue != [] && loss.item == s.queue[0].item && loss.item.readAt < s.resumes
    case Stolen => step.Steal? && s.queue != [] && loss.item == s.queue[0].item
  }

  lemma LossIsJustified(s: State, step: Step)
    requires Invariant(s)
    ensures || Apply(s, step).lost == s.lost
            || exists loss :: Apply(s, step).lost == s.lost + [loss] && Justified(s, step, loss)
  {
    hide Tickets, Ascending;
    var next := Apply(s, step);
    if next.lost != s.lost {
      var loss := next.lost[|s.lost|];
      assert next.lost == s.lost + [loss];
      assert Justified(s, step, loss);
    }
  }

  /**
    A packet is lost only for its reason: refused without force at capacity, pushed out as the oldest of a full queue by
    a forced one, stale at the check, purged by a resume after its stamp, or stolen.
  */
  lemma LostOnlyForTheReason(capacity: nat, active: bool, threads: nat, steps: seq<Step>, step: Step)
    ensures var s := Run(Initial(capacity, active, threads), steps);
            || Apply(s, step).lost == s.lost
            || exists loss :: Apply(s, step).lost == s.lost + [loss] && Justified(s, step, loss)
  {
    hide Invariant, Justified;
    RunKeepsInvariant(capacity, active, threads, steps);
    LossIsJustified(Run(Initial(capacity, active, threads), steps), step);
  }

  // ---------------------------------------------------------------------------------------------
  // Without interference.
  // ---------------------------------------------------------------------------------------------

  lemma RunOne(s: State, step: Step)
    ensures Run(s, [step]) == Apply(s, step)
  {
    assert [step][..0] == [];
  }

  lemma {:induction false} RunJoins(s: State, first: seq<Step>, second: seq<Step>)
    ensures Run(s, first + second) == Run(Run(s, first), second)
  {
    if second == [] {
      assert first + second == first;
    } else {
      RunJoins(s, first, second[..|second| - 1]);
      assert (first + second)[..|first + second| - 1] == first + second[..|second| - 1];
    }
  }

  /** The steps of one send. */
  function SendAlone(t: nat, packet: nat, force: bool): seq<Step>
  {
    [StartSend(t, packet, force)] + [ReadState(t)] + [Push(t)]
  }

  /** A packet sent into an active queue with room is queued last, under the current epoch, and nothing is lost. */
  lemma SendEnters(s: State, t: nat, packet: nat, force: bool)
    requires t < |s.senders| && s.senders[t].Idle? && s.receiverOpen && IsActive(s.word) && |s.queue| < s.capacity
    ensures Run(s, SendAlone(t, packet, force)) ==
            s.(queue := s.queue + [Entry(Item(packet, Epoch(s.word), s.resumes, s.stamps), s.pushes)],
               stamps := s.stamps + 1, pushes := s.pushes + 1)
  {
    hide IsActive, Epoch;
    RunOne(s, StartSend(t, packet, force));
    RunJoins(s, [StartSend(t, packet, force)], [ReadState(t)]);
    var started := Apply(s, StartSend(t, packet, force));
    RunOne(started, ReadState(t));
    RunJoins(s, [StartSend(t, packet, force)] + [ReadState(t)], [Push(t)]);
    var stamped := Apply(started, ReadState(t));
    RunOne(stamped, Push(t));
    assert stamped.senders[t := Idle] == s.senders;
  }

  /** The deliveries of the entries that carry the current epoch. */
  function CurrentOf(queue: seq<Entry>, epoch: nat, resumes: nat): seq<Delivery>
  {
    if queue == [] then []
    else
      (if queue[0].item.epoch == epoch then [Delivery(queue[0], resumes)] else []) +
      CurrentOf(queue[1..], epoch, resumes)
  }

  function ReceiveAlone(rounds: nat): seq<Step>
  {
    if rounds == 0 then [] else [Pop] + [Check] + ReceiveAlone(rounds - 1)
  }

  lemma ReceiveOne(s: State)
    requires s.held.None? && IsActive(s.word) && s.queue != []
    ensures var after := Run(s, [Pop] + [Check]);
            && after.queue == s.queue[1..] && after.held == None
            && after.word == s.word && after.resumes == s.resumes
            && after.delivered == s.delivered + CurrentOf([s.queue[0]], Epoch(s.word), s.resumes)
  {
    hide IsActive, Epoch;
    RunOne(s, Pop);
    RunJoins(s, [Pop], [Check]);
    RunOne(Apply(s, Pop), Check);
    assert [s.queue[0]][1..] == [];
  }

  /** A receiver that nobody interferes with delivers everything of the current epoch in the queue, in queue order. */
  lemma {:induction false} ReceiverDrains(s: State)
    requires s.held.None? && IsActive(s.word)
    ensures var after := Run(s, ReceiveAlone(|s.queue|));
            && after.queue == [] && after.held == None
            && after.delivered == s.delivered + CurrentOf(s.queue, Epoch(s.word), s.resumes)
    decreases |s.queue|
  {
    hide IsActive, Epoch, Apply;
    if s.queue == [] {
      assert s.delivered + [] == s.delivered;
    } else {
      ReceiveOne(s);
      var checked := Run(s, [Pop] + [Check]);
      RunJoins(s, [Pop] + [Check], ReceiveAlone(|s.queue| - 1));
      ReceiverDrains(checked);
      var head := CurrentOf([s.queue[0]], Epoch(s.word), s.resumes);
      assert [s.queue[0]][1..] == [];
      assert s.delivered + head + CurrentOf(s.queue[1..], Epoch(s.word), s.resumes) ==
             s.delivered + (head + CurrentOf(s.queue[1..], Epoch(s.word), s.resumes));
    }
  }

  /** On an active queue with room, a packet sent and then received without interference is delivered. */
  lemma SentIsDelivered(s: State, t: nat, packet: nat, force: bool)
    requires t < |s.senders| && s.senders[t].Idle? && s.receiverOpen && IsActive(s.word) && |s.queue| < s.capacity
    requires s.held.None?
    ensures var after := Run(s, SendAlone(t, packet, force) + ReceiveAlone(|s.queue| + 1));
            && after.delivered != []
            && after.delivered[|after.delivered| - 1].entry.item == Item(packet, Epoch(s.word), s.resumes, s.stamps)
            && after.delivered == s.delivered + CurrentOf(s.queue, Epoch(s.word), s.resumes)
                                  + [after.delivered[|after.delivered| - 1]]
  {
    hide IsActive, Epoch;
    SendEnters(s, t, packet, force);
    var sent := Run(s, SendAlone(t, packet, force));
    RunJoins(s, SendAlone(t, packet, force), ReceiveAlone(|s.queue| + 1));
    ReceiverDrains(sent);
    CurrentOfMore(s.queue, Entry(Item(packet, Epoch(s.word), s.resumes, s.stamps), s.pushes), Epoch(s.word), s.resumes);
    var d := Delivery(Entry(Item(packet, Epoch(s.word), s.resumes, s.stamps), s.pushes), s.resumes);
    var earlier := CurrentOf(s.queue, Epoch(s.word), s.resumes);
    assert s.delivered + (earlier + [d]) == s.delivered + earlier + [d];
  }

  lemma {:induction false} CurrentOfMore(queue: seq<Entry>, entry: Entry, epoch: nat, resumes: nat)
    requires entry.item.epoch == epoch
    ensures CurrentOf(queue + [entry], epoch, resumes) == CurrentOf(queue, epoch, resumes) + [Delivery(entry, resumes)]
  {
    if queue == [] {
      assert queue + [entry] == [entry] && [entry][1..] == [];
    } else {
      CurrentOfMore(queue[1..], entry, epoch, resumes);
      assert (queue + [entry])[1..] == queue[1..] + [entry];
    }
  }

  function PurgeAlone(rounds: nat): seq<Step>
  {
    if rounds == 0 then [] else [PurgeOne] + PurgeAlone(rounds - 1)
  }

  lemma {:induction false} PurgeEmpties(s: State)
    requires s.resumer.Purging?
    ensures var after := Run(s, PurgeAlone(|s.queue| + 1));
            && after.queue == [] && after.resumer == Emptied(s.resumer.epoch)
            && after.word == s.word && after.resumes == s.resumes
    decreases |s.queue|
  {
    RunOne(s, PurgeOne);
    RunJoins(s, [PurgeOne], PurgeAlone(|s.queue|));
    if s.queue != [] {
      PurgeEmpties(Apply(s, PurgeOne));
    }
  }

  function ResumeAlone(purges: nat): seq<Step>
  {
    [BeginResume] + [Deactivate] + PurgeAlone(purges) + [Activate]
  }

  /** A resume that nobody interferes with leaves an empty, active queue of the next epoch. */
  lemma ResumeOpensNextEpoch(s: State)
    requires Invariant(s) && s.resumer.Ready?
    ensures var after := Run(s, ResumeAlone(|s.queue| + 1));
            && after.queue == [] && IsActive(after.word) && after.resumer.Ready?
            && after.resumes == s.resumes + 1 && Epoch(after.word) == (s.resumes + 1) % EPOCHS
  {
    hide Tickets, Ascending, GoodItems;
    NextEpoch(s.resumes);
    RunOne(s, BeginResume);
    RunJoins(s, [BeginResume], [Deactivate]);
    var begun := Apply(s, BeginResume);
    RunOne(begun, Deactivate);
    var deactivated := Apply(begun, Deactivate);
    RunJoins(s, [BeginResume] + [Deactivate], PurgeAlone(|s.queue| + 1));
    PurgeEmpties(deactivated);
    var emptied := Run(deactivated, PurgeAlone(|s.queue| + 1));
    RunJoins(s, [BeginResume] + [Deactivate] + PurgeAlone(|s.queue| + 1), [Activate]);
    RunOne(emptied, Activate);
    WordParts(begun.resumer.epoch, true);
  }
}
