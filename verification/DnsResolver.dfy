/**
  Lookups of the off-tunnel resolver under concurrency. A lookup serves from the cache, waits for a query
  that is already out, or queries itself; everything under the lock is one step, and steps interleave in any
  order with each other, with the clock, and with new server lists.
*/
module DnsResolver {
  import opened Common
  import opened DnsCache

  const CACHE_TTL: nat := 60
  const NEGATIVE_TTL: nat := 15

  datatype Pc =
    | Idle
    | Checked(host: Host)
    | Waiting(host: Host, channel: nat)
    | Woken(host: Host)
    | Reread(host: Host, entry: Option<Entry>)
    | Starting(host: Host, channel: nat)
    | Querying(host: Host, channel: nat, asked: nat)
    | Answered(host: Host, channel: nat, asked: nat, result: Option<seq<string>>)
    | Closing(host: Host, channel: nat)

  /** What a query for a host brought, and which server list it had asked. */
  datatype Answer = Answer(host: Host, result: Option<seq<string>>, asked: nat)

  /** An answer given from the cache. */
  datatype Served = Served(host: Host, entry: Entry, at: nat)

  /**
    `generation` counts the server lists and `channels` says for whom each channel was made; `answers` and
    `served` are history.
  */
  datatype State = State(
    generation: nat,
    cache: Cache,
    inFlight: map<Host, nat>,
    closed: set<nat>,
    channels: seq<Host>,
    clock: nat,
    threads: seq<Pc>,
    answers: seq<Answer>,
    served: seq<Served>)

  /** `order` is an iteration order for an eviction, `result` what a query brings. */
  datatype Step =
    | Lookup(thread: nat, host: Host)
    | Continue(thread: nat, order: seq<Host>, result: Option<seq<string>>)
    | NewServers
    | Tick

  /** The resolver has servers from the start; without any it turns to the system's resolver. */
  function Initial(threads: nat): State
  {
    State(0, map[], map[], {}, [], 0, seq(threads, _ => Idle), [], [])
  }

  function At(s: State, t: nat, pc: Pc): State
    requires t < |s.threads|
  {
    s.(threads := s.threads[t := pc])
  }

  predicate Fresh(cache: Cache, host: Host, now: nat)
  {
    host in cache && now < cache[host].expires
  }

  function EntryFor(answer: Pc, now: nat): Entry
    requires answer.Answered?
  {
    if answer.result.Some? then Entry(answer.result.value, now + CACHE_TTL, false, answer.asked)
    else Entry([], now + NEGATIVE_TTL, true, answer.asked)
  }

  /** The first stay under the lock: serve, wait, or become the one who queries. */
  function Enter(s: State, t: nat, host: Host): State
    requires t < |s.threads|
  {
    if Fresh(s.cache, host, s.clock) then At(s, t, Idle).(served := s.served + [Served(host, s.cache[host], s.clock)])
    else if host in s.inFlight then At(s, t, Waiting(host, s.inFlight[host]))
    else
      At(s, t, Starting(host, |s.channels|)).(inFlight := s.inFlight[host := |s.channels|],
                                              channels := s.channels + [host])
  }

  /** The second stay under the lock: the query is over and its result is remembered. */
  function Leave(s: State, t: nat, order: seq<Host>): State
    requires t < |s.threads| && s.threads[t].Answered?
  {
    var pc := s.threads[t];
    if !IsOrder(order, s.cache) then s
    else
      var cache := Remember(s.cache, pc.host, EntryFor(pc, s.clock), s.clock, order);
      At(s, t, Closing(pc.host, pc.channel)).(inFlight := s.inFlight - {pc.host}, cache := cache)
  }

  function ContinueStep(s: State, t: nat, order: seq<Host>, result: Option<seq<string>>): State
    requires t < |s.threads|
  {
    match s.threads[t]
    case Idle => s
    case Checked(host) => Enter(s, t, host)
    case Waiting(host, channel) => if channel in s.closed then At(s, t, Woken(host)) else s
    case Woken(host) => At(s, t, Reread(host, if host in s.cache then Some(s.cache[host]) else None))
    case Reread(host, entry) =>
      if entry.Some? && s.clock < entry.value.expires then
        At(s, t, Idle).(served := s.served + [Served(host, entry.value, s.clock)])
      else At(s, t, Idle)
    case Starting(host, channel) => At(s, t, Querying(host, channel, s.generation))
    case Querying(host, channel, asked) =>
      At(s, t, Answered(host, channel, asked, result)).(answers := s.answers + [Answer(host, result, asked)])
    case Answered(_, _, _, _) => Leave(s, t, order)
    case Closing(_, channel) => At(s, t, Idle).(closed := s.closed + {channel})
  }

  function Apply(s: State, step: Step): State
  {
    match step
    case Lookup(t, host) => if t < |s.threads| && s.threads[t].Idle? then At(s, t, Checked(host)) else s
    case Continue(t, order, result) => if t < |s.threads| then ContinueStep(s, t, order, result) else s
    case NewServers => s.(generation := s.generation + 1, cache := map[])
    case Tick => s.(clock := s.clock + 1)
  }

  function Run(s: State, steps: seq<Step>): State
  {
    if steps == [] then s else Apply(Run(s, steps[..|steps| - 1]), steps[|steps| - 1])
  }

  // ---------------------------------------------------------------------------------------------
  // Single flight.
  // ---------------------------------------------------------------------------------------------

  /** The thread is the one querying for its host. */
  predicate Owns(pc: Pc)
  {
    pc.Starting? || pc.Querying? || pc.Answered?
  }

  predicate Holds(pc: Pc)
  {
    Owns(pc) || pc.Closing?
  }

  predicate OwnersAreInFlight(s: State)
  {
    forall t | 0 <= t < |s.threads| && Owns(s.threads[t]) ::
      s.threads[t].host in s.inFlight && s.inFlight[s.threads[t].host] == s.threads[t].channel
  }

  predicate ChannelsAreDistinct(s: State)
  {
    && (forall c | c in s.closed :: c < |s.channels|)
    && (forall t | 0 <= t < |s.threads| && Holds(s.threads[t]) ::
          s.threads[t].channel < |s.channels| && s.threads[t].channel !in s.closed)
    && (forall t, u | 0 <= t < u < |s.threads| && Holds(s.threads[t]) && Holds(s.threads[u]) ::
          s.threads[t].channel != s.threads[u].channel)
  }

  predicate Owned(s: State, channel: nat)
  {
    exists t | 0 <= t < |s.threads| :: Holds(s.threads[t]) && s.threads[t].channel == channel
  }

  /** A channel that was made is closed or some thread will close it. */
  predicate ChannelsAreClosed(s: State)
  {
    && (forall c: nat | c < |s.channels| :: c in s.closed || Owned(s, c))
    && (forall t | 0 <= t < |s.threads| && s.threads[t].Waiting? :: s.threads[t].channel < |s.channels|)
    && (forall h | h in s.inFlight :: s.inFlight[h] < |s.channels|)
  }

  predicate Flights(s: State)
  {
    OwnersAreInFlight(s) && ChannelsAreDistinct(s) && ChannelsAreClosed(s)
  }

  lemma StillOwned(s: State, next: State, t: nat, channel: nat)
    requires t < |s.threads| && |next.threads| == |s.threads| && Owned(s, channel)
    requires forall u | 0 <= u < |s.threads| && u != t :: next.threads[u] == s.threads[u]
    requires Holds(s.threads[t]) && s.threads[t].channel == channel ==>
               Holds(next.threads[t]) && next.threads[t].channel == channel
    ensures Owned(next, channel)
  {
    var u :| 0 <= u < |s.threads| && Holds(s.threads[u]) && s.threads[u].channel == channel;
    assert Holds(next.threads[u]) && next.threads[u].channel == channel;
  }

  lemma ContinueKeepsOwners(s: State, t: nat, order: seq<Host>, result: Option<seq<string>>)
    requires Flights(s) && t < |s.threads|
    ensures OwnersAreInFlight(ContinueStep(s, t, order, result))
  {
    hide Remember, IsOrder, ChannelsAreClosed;
    if s.threads[t].Answered? {
      OnlyOwner(s, t);
    }
  }

  lemma ContinueKeepsDistinct(s: State, t: nat, order: seq<Host>, result: Option<seq<string>>)
    requires ChannelsAreDistinct(s) && t < |s.threads|
    ensures ChannelsAreDistinct(ContinueStep(s, t, order, result))
  {
    hide Remember, IsOrder, Fresh, EntryFor, ChannelsAreDistinct;
    OneThreadChanges(s, ContinueStep(s, t, order, result), t);
  }

  /** A thread keeps its channel, takes a new one, or closes its own. */
  lemma OneThreadChanges(s: State, next: State, t: nat)
    requires ChannelsAreDistinct(s) && t < |s.threads| && |next.threads| == |s.threads| && s.channels <= next.channels
    requires forall u | 0 <= u < |s.threads| && u != t :: next.threads[u] == s.threads[u]
    requires || next.closed == s.closed
             || (Holds(s.threads[t]) && !Holds(next.threads[t]) && next.closed == s.closed + {s.threads[t].channel})
    requires Holds(next.threads[t]) ==>
               || (Holds(s.threads[t]) && next.threads[t].channel == s.threads[t].channel)
               || next.threads[t].channel == |s.channels| < |next.channels|
    ensures ChannelsAreDistinct(next)
  {
    forall u | 0 <= u < |s.threads| && u != t && Holds(next.threads[u])
      ensures next.threads[u].channel < |next.channels| && next.threads[u].channel !in next.closed
      ensures Holds(next.threads[t]) ==> next.threads[t].channel != next.threads[u].channel
    {
      assert Holds(s.threads[u]);
      OtherChannel(s, t, u);
    }
  }

  lemma OtherChannel(s: State, t: nat, u: nat)
    requires ChannelsAreDistinct(s) && t < |s.threads| && u < |s.threads| && t != u
    ensures Holds(s.threads[t]) && Holds(s.threads[u]) ==> s.threads[t].channel != s.threads[u].channel
  {
    if t < u {
    } else {
      assert u < t;
    }
  }

  /** Nobody else queries for the host of this thread. */
  lemma OnlyOwner(s: State, t: nat)
    requires Flights(s) && t < |s.threads| && Owns(s.threads[t])
    ensures forall u | 0 <= u < |s.threads| && u != t && Owns(s.threads[u]) :: s.threads[u].host != s.threads[t].host
  {
    forall u | 0 <= u < |s.threads| && u != t && Owns(s.threads[u]) ensures s.threads[u].host != s.threads[t].host {
      assert Holds(s.threads[t]) && Holds(s.threads[u]);
    }
  }

  /** A thread keeps its channel or closes it, and a new channel belongs to the thread that made it. */
  lemma ChannelsStayOwned(s: State, next: State, t: nat)
    requires t < |s.threads| && |next.threads| == |s.threads| && s.closed <= next.closed
    requires forall c: nat | c < |s.channels| :: c in s.closed || Owned(s, c)
    requires forall u | 0 <= u < |s.threads| && u != t :: next.threads[u] == s.threads[u]
    requires Holds(s.threads[t]) ==>
               || s.threads[t].channel in next.closed
               || (Holds(next.threads[t]) && next.threads[t].channel == s.threads[t].channel)
    requires || |next.channels| == |s.channels|
             || (|next.channels| == |s.channels| + 1 && Holds(next.threads[t]) &&
                  next.threads[t].channel == |s.channels|)
    ensures forall c: nat | c < |next.channels| :: c in next.closed || Owned(next, c)
  {
    hide Owned;
    forall c: nat | c < |next.channels| ensures c in next.closed || Owned(next, c) {
      if c == |s.channels| {
        OwnedBy(next, t, c);
      } else if c !in next.closed {
        StillOwned(s, next, t, c);
      }
    }
  }

  lemma ContinueKeepsChannels(s: State, t: nat, order: seq<Host>, result: Option<seq<string>>)
    requires Flights(s) && t < |s.threads|
    ensures ChannelsAreClosed(ContinueStep(s, t, order, result))
  {
    hide Remember, IsOrder, Fresh, EntryFor, OwnersAreInFlight, ChannelsAreDistinct, Owned;
    ChannelsStayOwned(s, ContinueStep(s, t, order, result), t);
  }

  lemma OwnedBy(s: State, t: nat, channel: nat)
    requires t < |s.threads| && Holds(s.threads[t]) && s.threads[t].channel == channel
    ensures Owned(s, channel)
  {
  }

  lemma StepKeepsFlights(s: State, step: Step)
    requires Flights(s)
    ensures Flights(Apply(s, step))
  {
    var next := Apply(s, step);
    match step {
      case Continue(t, order, result) =>
        if t < |s.threads| {
          ContinueKeepsOwners(s, t, order, result);
          ContinueKeepsDistinct(s, t, order, result);
          ContinueKeepsChannels(s, t, order, result);
        }
      case Lookup(t, host) =>
        if t < |s.threads| && s.threads[t].Idle? {
          hide Owned;
          forall c: nat | c < |next.channels| ensures c in next.closed || Owned(next, c) {
            if c !in s.closed {
              StillOwned(s, next, t, c);
            }
          }
        }
      case NewServers => SameThreads(s, next);
      case Tick => SameThreads(s, next);
    }
  }

  lemma SameThreads(s: State, next: State)
    requires Flights(s) && next.threads == s.threads && next.inFlight == s.inFlight
    requires next.closed == s.closed && next.channels == s.channels
    ensures Flights(next)
  {
    forall c: nat | c < |next.channels| ensures c in next.closed || Owned(next, c) {
      assert c in s.closed || Owned(s, c);
    }
  }

  lemma {:induction false} RunKeepsFlights(threads: nat, steps: seq<Step>)
    ensures Flights(Run(Initial(threads), steps))
  {
    if steps != [] {
      RunKeepsFlights(threads, steps[..|steps| - 1]);
      StepKeepsFlights(Run(Initial(threads), steps[..|steps| - 1]), steps[|steps| - 1]);
    }
  }

  /** At most one query per host is out at any time. */
  lemma OneQueryPerHost(threads: nat, steps: seq<Step>, t: nat, u: nat)
    ensures var s := Run(Initial(threads), steps);
            t < |s.threads| && u < |s.threads| && t != u && Owns(s.threads[t]) && Owns(s.threads[u]) ==>
              s.threads[t].host != s.threads[u].host
  {
    hide Flights;
    RunKeepsFlights(threads, steps);
    var s := Run(Initial(threads), steps);
    if t < |s.threads| && Owns(s.threads[t]) {
      OnlyOwner(s, t);
    }
  }

  predicate UsesChannel(pc: Pc)
  {
    pc.Waiting? || Holds(pc)
  }

  predicate MadeFor(s: State, channel: nat, host: Host)
  {
    channel < |s.channels| && s.channels[channel] == host
  }

  /** Everybody on one channel waits or queries for the host it was made for. */
  predicate OneHostPerChannel(s: State)
  {
    && (forall t | 0 <= t < |s.threads| && UsesChannel(s.threads[t]) ::
          MadeFor(s, s.threads[t].channel, s.threads[t].host))
    && (forall h | h in s.inFlight :: MadeFor(s, s.inFlight[h], h))
  }

  lemma ContinueKeepsHosts(s: State, t: nat, order: seq<Host>, result: Option<seq<string>>)
    requires OneHostPerChannel(s) && t < |s.threads|
    ensures OneHostPerChannel(ContinueStep(s, t, order, result))
  {
    hide Remember, IsOrder, Fresh, EntryFor, MadeFor;
    var next := ContinueStep(s, t, order, result);
    StillMadeFor(s, next);
    if s.threads[t].Checked? {
      NewChannel(s, next, s.threads[t].host);
    }
  }

  lemma StillMadeFor(s: State, next: State)
    requires s.channels <= next.channels
    ensures forall c, h :: MadeFor(s, c, h) ==> MadeFor(next, c, h)
  {
  }

  lemma NewChannel(s: State, next: State, host: Host)
    ensures next.channels == s.channels + [host] ==> MadeFor(next, |s.channels|, host)
  {
  }

  lemma StepKeepsHosts(s: State, step: Step)
    requires OneHostPerChannel(s)
    ensures OneHostPerChannel(Apply(s, step))
  {
    if step.Continue? && step.thread < |s.threads| {
      hide OneHostPerChannel;
      ContinueKeepsHosts(s, step.thread, step.order, step.result);
    }
  }

  lemma {:induction false} RunKeepsHosts(threads: nat, steps: seq<Step>)
    ensures OneHostPerChannel(Run(Initial(threads), steps))
  {
    hide OneHostPerChannel;
    if steps == [] {
      NoChannelsYet(threads);
    } else {
      RunKeepsHosts(threads, steps[..|steps| - 1]);
      StepKeepsHosts(Run(Initial(threads), steps[..|steps| - 1]), steps[|steps| - 1]);
    }
  }

  lemma NoChannelsYet(threads: nat)
    ensures OneHostPerChannel(Initial(threads))
  {
  }

  /** The thread holds this channel and queries, or has just queried, for this host. */
  predicate Releases(pc: Pc, host: Host, channel: nat)
  {
    Holds(pc) && pc.channel == channel && pc.host == host
  }

  /**
    A waiter's channel is closed, or exactly one thread will close it, and that thread is the one querying for the
    waiter's own host.
  */
  lemma WaitersAreReleased(threads: nat, steps: seq<Step>, t: nat)
    ensures var s := Run(Initial(threads), steps);
            t < |s.threads| && s.threads[t].Waiting? ==>
              || s.threads[t].channel in s.closed
              || exists u | 0 <= u < |s.threads| :: Releases(s.threads[u], s.threads[t].host, s.threads[t].channel)
  {
    RunKeepsFlights(threads, steps);
    RunKeepsHosts(threads, steps);
    var s := Run(Initial(threads), steps);
    if t < |s.threads| && s.threads[t].Waiting? && s.threads[t].channel !in s.closed {
      assert Owned(s, s.threads[t].channel);
      var u :| 0 <= u < |s.threads| && Holds(s.threads[u]) && s.threads[u].channel == s.threads[t].channel;
      assert Releases(s.threads[u], s.threads[t].host, s.threads[t].channel);
    }
  }

  /**
    Once the query for a waiter's host is back, two more steps of the thread that made it wake the waiter: its next
    step leaves the wait.
  */
  lemma AnswerWakesWaiter(threads: nat, steps: seq<Step>, t: nat, u: nat, order: seq<Host>)
    requires var s := Run(Initial(threads), steps);
             && t < |s.threads| && u < |s.threads| && s.threads[t].Waiting? && s.threads[u].Answered?
             && Releases(s.threads[u], s.threads[t].host, s.threads[t].channel) && IsOrder(order, s.cache)
    ensures var s := Run(Initial(threads), steps);
            var go := Continue(u, order, None);
            var released := Apply(Apply(s, go), go);
            && Apply(released, Continue(t, order, None)).threads[t] == Woken(s.threads[t].host)
            && s.threads[t].host !in released.inFlight
  {
    hide Remember, IsOrder, ContinueStep, Releases;
    var s := Run(Initial(threads), steps);
    var closing := ContinueStep(s, u, order, None);
    ReleasesMeans(s.threads[u], s.threads[t].host, s.threads[t].channel);
    AnswerReleasesWaiters(s, u, order, None);
    OthersStay(s, u, t, order);
    OthersStay(closing, u, t, order);
    ClosedMeansWoken(ContinueStep(closing, u, order, None), t, order);
  }

  lemma ReleasesMeans(pc: Pc, host: Host, channel: nat)
    requires Releases(pc, host, channel)
    ensures Holds(pc) && pc.channel == channel && pc.host == host
  {
  }

  lemma OthersStay(s: State, u: nat, t: nat, order: seq<Host>)
    requires u < |s.threads| && t < |s.threads| && t != u
    ensures |ContinueStep(s, u, order, None).threads| == |s.threads|
    ensures ContinueStep(s, u, order, None).threads[t] == s.threads[t]
  {
    hide Remember, IsOrder, Fresh, EntryFor;
  }

  lemma ClosedMeansWoken(s: State, t: nat, order: seq<Host>)
    requires t < |s.threads| && s.threads[t].Waiting? && s.threads[t].channel in s.closed
    ensures ContinueStep(s, t, order, None).threads[t] == Woken(s.threads[t].host)
  {
  }

  /** Once the query is back, two more steps of the thread that made it release everyone who waits for it. */
  lemma AnswerReleasesWaiters(s: State, t: nat, order: seq<Host>, result: Option<seq<string>>)
    requires t < |s.threads| && s.threads[t].Answered? && IsOrder(order, s.cache)
    ensures var next := ContinueStep(ContinueStep(s, t, order, result), t, order, result);
            s.threads[t].channel in next.closed && next.threads[t].Idle? && s.threads[t].host !in next.inFlight
  {
    hide Remember;
  }

  // ---------------------------------------------------------------------------------------------
  // What the cache serves.
  // ---------------------------------------------------------------------------------------------

  /** Some query for this very host brought what the entry says. */
  predicate Backed(s: State, host: Host, entry: Entry)
  {
    Answer(host, if entry.negative then None else Some(entry.ips), entry.asked) in s.answers
  }

  predicate Truthful(s: State)
  {
    && (forall h | h in s.cache :: Backed(s, h, s.cache[h]))
    && (forall t | 0 <= t < |s.threads| && s.threads[t].Answered? ::
          Answer(s.threads[t].host, s.threads[t].result, s.threads[t].asked) in s.answers)
    && (forall t | 0 <= t < |s.threads| && s.threads[t].Reread? && s.threads[t].entry.Some? ::
          Backed(s, s.threads[t].host, s.threads[t].entry.value))
    && (forall i | 0 <= i < |s.served| ::
          Backed(s, s.served[i].host, s.served[i].entry) && s.served[i].at < s.served[i].entry.expires)
  }

  lemma RememberedEntries(cache: Cache, host: Host, entry: Entry, now: nat, order: seq<Host>)
    ensures var after := Remember(cache, host, entry, now, order);
            && host in after && after[host] == entry
            && forall h | h in after && h != host :: h in cache && after[h] == cache[h]
  {
  }

  lemma ContinueKeepsTruth(s: State, t: nat, order: seq<Host>, result: Option<seq<string>>)
    requires Truthful(s) && t < |s.threads| && !s.threads[t].Answered?
    ensures Truthful(ContinueStep(s, t, order, result))
  {
    hide Remember, IsOrder, Backed, Enter;
    var next := ContinueStep(s, t, order, result);
    if s.threads[t].Checked? {
      EnterKeepsTruth(s, t, s.threads[t].host);
    } else {
      StillBacked(s, next);
    }
  }

  lemma EnterKeepsTruth(s: State, t: nat, host: Host)
    requires Truthful(s) && t < |s.threads|
    ensures Truthful(Enter(s, t, host)) && Enter(s, t, host).answers == s.answers
  {
    hide Backed;
    StillBacked(s, Enter(s, t, host));
  }

  lemma StillBacked(s: State, next: State)
    requires s.answers <= next.answers
    ensures forall host, entry :: Backed(s, host, entry) ==> Backed(next, host, entry)
    ensures forall a | a in s.answers :: a in next.answers
  {
  }

  lemma LeaveKeepsTruth(s: State, t: nat, order: seq<Host>)
    requires Truthful(s) && t < |s.threads| && s.threads[t].Answered?
    ensures Truthful(Leave(s, t, order))
  {
    hide Remember, IsOrder;
    RememberedEntries(s.cache, s.threads[t].host, EntryFor(s.threads[t], s.clock), s.clock, order);
  }

  lemma StepKeepsTruth(s: State, step: Step)
    requires Truthful(s)
    ensures Truthful(Apply(s, step))
  {
    if step.Continue? && step.thread < |s.threads| {
      hide Truthful;
      if s.threads[step.thread].Answered? {
        LeaveKeepsTruth(s, step.thread, step.order);
      } else {
        ContinueKeepsTruth(s, step.thread, step.order, step.result);
      }
    }
  }

  lemma {:induction false} RunKeepsTruth(threads: nat, steps: seq<Step>)
    ensures Truthful(Run(Initial(threads), steps))
  {
    if steps != [] {
      RunKeepsTruth(threads, steps[..|steps| - 1]);
      StepKeepsTruth(Run(Initial(threads), steps[..|steps| - 1]), steps[|steps| - 1]);
    }
  }

  /** What the cache serves was brought by a query for that same host and has not expired. */
  lemma ServedFromOwnQueryInTime(threads: nat, steps: seq<Step>, i: nat)
    ensures var s := Run(Initial(threads), steps);
            i < |s.served| ==>
              var served := s.served[i];
              && served.at < served.entry.expires
              && Backed(s, served.host, served.entry)
  {
    RunKeepsTruth(threads, steps);
  }

  // ---------------------------------------------------------------------------------------------
  // A lookup that nobody disturbs.
  // ---------------------------------------------------------------------------------------------

  /** The first stay under the lock in full: an unexpired entry is given out and nothing else happens. */
  lemma UnexpiredIsServedAtOnce(s: State, t: nat, order: seq<Host>, result: Option<seq<string>>)
    requires t < |s.threads| && s.threads[t].Checked?
    ensures var host, next := s.threads[t].host, Apply(s, Continue(t, order, result));
            if host in s.cache && s.clock < s.cache[host].expires then
              next == s.(threads := s.threads[t := Idle], served := s.served + [Served(host, s.cache[host], s.clock)])
            else if host in s.inFlight then next == s.(threads := s.threads[t := Waiting(host, s.inFlight[host])])
            else
              && next.threads == s.threads[t := Starting(host, |s.channels|)] && next.served == s.served
              && next.cache == s.cache && next.inFlight == s.inFlight[host := |s.channels|]
  {
  }

  /** A waiter that was woken is given what the cache then holds, if that has not expired, and fails otherwise. */
  lemma WokenIsServed(s: State, t: nat, order: seq<Host>, result: Option<seq<string>>)
    requires t < |s.threads| && s.threads[t].Woken?
    ensures var host, go := s.threads[t].host, Continue(t, order, result);
            Apply(Apply(s, go), go) ==
            s.(threads := s.threads[t := Idle],
               served := s.served + if host in s.cache && s.clock < s.cache[host].expires then
                                      [Served(host, s.cache[host], s.clock)]
                                    else [])
  {
    assert s.served + [] == s.served;
  }

  function Repeat(step: Step, n: nat): seq<Step>
  {
    if n == 0 then [] else [step] + Repeat(step, n - 1)
  }

  lemma {:induction false} RunFirst(s: State, step: Step, more: seq<Step>)
    ensures Run(s, [step] + more) == Run(Apply(s, step), more)
  {
    hide Apply;
    if more == [] {
      assert [step] + more == [step] && [step][..0] == [];
    } else {
      RunFirst(s, step, more[..|more| - 1]);
      assert ([step] + more)[..|more|] == [step] + more[..|more| - 1];
    }
  }

  lemma {:induction false} TicksPass(s: State, d: nat)
    ensures Run(s, Repeat(Tick, d)) == s.(clock := s.clock + d)
    decreases d
  {
    hide ContinueStep;
    RepeatFirst(s, Tick, if d == 0 then 1 else d);
    if d > 0 {
      TicksPass(Apply(s, Tick), d - 1);
    }
  }

  /** What an answer is worth: it lasts 60 seconds, the news that there is none lasts 15. */
  function LastingEntry(result: Option<seq<string>>, now: nat, generation: nat): Entry
  {
    match result
    case Some(ips) => Entry(ips, now + 60, false, generation)
    case None => Entry([], now + 15, true, generation)
  }

  /** The lookup of a host that is neither cached nor asked for, with nobody else at work. */
  function LookupAlone(s: State, t: nat, host: Host, order: seq<Host>, result: Option<seq<string>>): State
  {
    Run(s, [Lookup(t, host)] + Repeat(Continue(t, order, result), 5))
  }

  lemma LookupStoresItsAnswer(s: State, t: nat, host: Host, order: seq<Host>, result: Option<seq<string>>)
    requires t < |s.threads| && s.threads[t].Idle? && host !in s.inFlight && IsOrder(order, s.cache)
    requires host !in s.cache || s.clock >= s.cache[host].expires
    ensures var next := LookupAlone(s, t, host, order, result);
            && next.threads == s.threads && next.inFlight == s.inFlight
            && next.clock == s.clock && next.generation == s.generation && next.served == s.served
            && next.answers == s.answers + [Answer(host, result, s.generation)]
            && host in next.cache && next.cache[host] == LastingEntry(result, s.clock, s.generation)
  {
    hide Remember, IsOrder, Run;
    var go, channel := Continue(t, order, result), |s.channels|;
    RunFirst(s, Lookup(t, host), Repeat(go, 5));
    var checked := Apply(s, Lookup(t, host));
    FiveSteps(checked, go);
    var starting := s.(threads := s.threads[t := Starting(host, channel)], inFlight := s.inFlight[host := channel],
                       channels := s.channels + [host]);
    assert Apply(checked, go) == starting;
    var asked := starting.(threads := s.threads[t := Querying(host, channel, s.generation)]);
    assert Apply(starting, go) == asked;
    var answered := asked.(threads := s.threads[t := Answered(host, channel, s.generation, result)],
                           answers := s.answers + [Answer(host, result, s.generation)]);
    assert Apply(asked, go) == answered;
    FinishAnswered(answered, t, order, result);
    assert s.threads[t := Idle] == s.threads;
    assert s.inFlight[host := channel] - {host} == s.inFlight;
  }

  lemma FinishAnswered(s: State, t: nat, order: seq<Host>, result: Option<seq<string>>)
    requires t < |s.threads| && s.threads[t].Answered? && s.threads[t].result == result && IsOrder(order, s.cache)
    ensures var pc, go := s.threads[t], Continue(t, order, result);
            var next := Apply(Apply(s, go), go);
            && next.threads == s.threads[t := Idle] && next.inFlight == s.inFlight - {pc.host}
            && next.clock == s.clock && next.generation == s.generation && next.served == s.served
            && next.answers == s.answers
            && pc.host in next.cache && next.cache[pc.host] == LastingEntry(result, s.clock, pc.asked)
  {
    hide Remember, IsOrder;
    RememberedEntries(s.cache, s.threads[t].host, EntryFor(s.threads[t], s.clock), s.clock, order);
  }

  lemma FiveSteps(s: State, go: Step)
    ensures Run(s, Repeat(go, 5)) == Apply(Apply(Apply(Apply(Apply(s, go), go), go), go), go)
  {
    hide Apply;
    var one := Apply(s, go);
    var two := Apply(one, go);
    var three := Apply(two, go);
    var four := Apply(three, go);
    RepeatFirst(s, go, 5);
    RepeatFirst(one, go, 4);
    RepeatFirst(two, go, 3);
    RepeatFirst(three, go, 2);
    RepeatFirst(four, go, 1);
  }

  lemma RepeatFirst(s: State, go: Step, n: nat)
    requires n > 0
    ensures Run(s, Repeat(go, n)) == Run(Apply(s, go), Repeat(go, n - 1))
    ensures Run(s, Repeat(go, 0)) == s
  {
    hide Apply;
    RunFirst(s, go, Repeat(go, n - 1));
  }

  /**
    How long an answer serves: a lookup `d` seconds after an undisturbed one is given its answer without another query
    exactly while `d` is below 60, or below 15 when there was none; after that it sends a query of its own.
  */
  lemma AnswerLastsItsTime(s: State, t: nat, host: Host, order: seq<Host>, result: Option<seq<string>>, d: nat)
    requires t < |s.threads| && s.threads[t].Idle? && host !in s.inFlight && IsOrder(order, s.cache)
    requires host !in s.cache || s.clock >= s.cache[host].expires
    ensures var later := Run(LookupAlone(s, t, host, order, result), Repeat(Tick, d));
            var again := Run(later, [Lookup(t, host), Continue(t, order, result)]);
            && again.answers == later.answers == s.answers + [Answer(host, result, s.generation)]
            && |again.threads| == |s.threads|
            && (if d < (if result.Some? then 60 else 15) then
                  && again.threads[t].Idle? && again.inFlight == s.inFlight
                  && again.served ==
                       s.served + [Served(host, LastingEntry(result, s.clock, s.generation), s.clock + d)]
                else again.threads[t].Starting? && host in again.inFlight && again.served == s.served)
  {
    hide Run, LookupAlone, IsOrder, Remember;
    LookupStoresItsAnswer(s, t, host, order, result);
    var stored := LookupAlone(s, t, host, order, result);
    TicksPass(stored, d);
    var later := stored.(clock := stored.clock + d);
    LookUpOnce(later, t, host, order, result);
    UnexpiredIsServedAtOnce(Apply(later, Lookup(t, host)), t, order, result);
  }

  lemma LookUpOnce(s: State, t: nat, host: Host, order: seq<Host>, result: Option<seq<string>>)
    ensures Run(s, [Lookup(t, host), Continue(t, order, result)]) ==
            Apply(Apply(s, Lookup(t, host)), Continue(t, order, result))
  {
    hide Apply;
    RunFirst(s, Lookup(t, host), [Continue(t, order, result)]);
    assert [Lookup(t, host)] + [Continue(t, order, result)] == [Lookup(t, host), Continue(t, order, result)];
    RunFirst(Apply(s, Lookup(t, host)), Continue(t, order, result), []);
    assert [Continue(t, order, result)] + [] == [Continue(t, order, result)];
  }

  // ---------------------------------------------------------------------------------------------
  // How much it holds.
  // ---------------------------------------------------------------------------------------------

  predicate HasHost(pc: Pc)
  {
    !pc.Idle?
  }

  predicate Bounded(s: State)
  {
    && |s.cache| <= CACHE_MAX && "" !in s.cache
    && forall t | 0 <= t < |s.threads| && HasHost(s.threads[t]) :: s.threads[t].host != ""
  }

  lemma StepKeepsBound(s: State, step: Step)
    requires Bounded(s) && !(step.Lookup? && step.host == "")
    ensures Bounded(Apply(s, step))
  {
    hide Remember, IsOrder;
    if step.Continue? && step.thread < |s.threads| && s.threads[step.thread].Answered? {
      var pc := s.threads[step.thread];
      if IsOrder(step.order, s.cache) {
        NamedHostsStayBounded(s.cache, pc.host, EntryFor(pc, s.clock), s.clock, step.order);
      }
    }
  }

  /** As long as nobody looks up the empty name, the cache holds at most 256 entries. */
  lemma {:induction false} CacheStaysBounded(threads: nat, steps: seq<Step>)
    requires forall i | 0 <= i < |steps| :: !(steps[i].Lookup? && steps[i].host == "")
    ensures Bounded(Run(Initial(threads), steps))
  {
    if steps != [] {
      CacheStaysBounded(threads, steps[..|steps| - 1]);
      StepKeepsBound(Run(Initial(threads), steps[..|steps| - 1]), steps[|steps| - 1]);
    }
  }

  // ---------------------------------------------------------------------------------------------
  // New server lists.
  // ---------------------------------------------------------------------------------------------

  /** A query that has already picked its servers. */
  predicate Asking(pc: Pc)
  {
    pc.Querying? || pc.Answered?
  }

  predicate NobodyAsks(s: State)
  {
    forall t | 0 <= t < |s.threads| :: !Asking(s.threads[t])
  }

  /** Every cached answer was given by the list with this number. */
  predicate CacheIsOf(s: State, generation: nat)
  {
    forall h | h in s.cache :: s.cache[h].asked == generation
  }

  predicate Current(s: State)
  {
    && CacheIsOf(s, s.generation)
    && (forall t | 0 <= t < |s.threads| && Asking(s.threads[t]) :: s.threads[t].asked == s.generation)
  }

  /** Nobody asks a list that is still to come. */
  predicate NobodyAhead(s: State)
  {
    forall t | 0 <= t < |s.threads| && Asking(s.threads[t]) :: s.threads[t].asked <= s.generation
  }

  predicate NoNewList(steps: seq<Step>)
  {
    forall i | 0 <= i < |steps| :: !steps[i].NewServers?
  }

  lemma StepKeepsCurrent(s: State, step: Step)
    requires Current(s) && (step.NewServers? ==> NobodyAsks(s))
    ensures Current(Apply(s, step)) && Apply(s, step).generation == s.generation + if step.NewServers? then 1 else 0
  {
    if step.Continue? && step.thread < |s.threads| {
      hide Current, ContinueStep;
      ContinueKeepsCurrent(s, step.thread, step.order, step.result);
    }
  }

  lemma ContinueKeepsCurrent(s: State, t: nat, order: seq<Host>, result: Option<seq<string>>)
    requires Current(s) && t < |s.threads|
    ensures Current(ContinueStep(s, t, order, result))
    ensures ContinueStep(s, t, order, result).generation == s.generation
  {
    hide Remember, IsOrder, Fresh, EntryFor;
    if s.threads[t].Answered? {
      var pc := s.threads[t];
      RememberedEntries(s.cache, pc.host, EntryFor(pc, s.clock), s.clock, order);
      EntryOfAnswer(pc, s.clock);
    }
  }

  lemma EntryOfAnswer(pc: Pc, now: nat)
    requires pc.Answered?
    ensures EntryFor(pc, now).asked == pc.asked
  {
  }

  lemma {:induction false} RunKeepsCurrent(s: State, steps: seq<Step>)
    requires Current(s) && NoNewList(steps)
    ensures Current(Run(s, steps)) && Run(s, steps).generation == s.generation
  {
    hide Current;
    if steps != [] {
      RunKeepsCurrent(s, steps[..|steps| - 1]);
      StepKeepsCurrent(Run(s, steps[..|steps| - 1]), steps[|steps| - 1]);
    }
  }

  lemma StepKeepsNobodyAhead(s: State, step: Step)
    requires NobodyAhead(s)
    ensures NobodyAhead(Apply(s, step))
  {
    hide Remember, IsOrder, Fresh, EntryFor;
  }

  lemma {:induction false} RunKeepsNobodyAhead(threads: nat, steps: seq<Step>)
    ensures NobodyAhead(Run(Initial(threads), steps))
  {
    if steps != [] {
      RunKeepsNobodyAhead(threads, steps[..|steps| - 1]);
      StepKeepsNobodyAhead(Run(Initial(threads), steps[..|steps| - 1]), steps[|steps| - 1]);
    }
  }

  /** A query that is out when a list arrives can still store its answer in the cleared cache. */
  lemma OldAnswerComesIn(s: State, t: nat) returns (steps: seq<Step>)
    requires t < |s.threads| && Asking(s.threads[t]) && s.cache == map[]
    ensures NoNewList(steps)
    ensures var host := s.threads[t].host;
            host in Run(s, steps).cache && Run(s, steps).cache[host].asked == s.threads[t].asked
  {
    var go := Continue(t, [], None);
    assert [go][..0] == [];
    assert Run(s, [go]) == Apply(s, go);
    if s.threads[t].Answered? {
      steps := [go];
      assert IsOrder([], s.cache);
    } else {
      steps := [go, go];
      assert [go, go][..1] == [go];
      assert IsOrder([], Apply(s, go).cache);
    }
  }

  /**
    Exactly when a new list keeps the old servers' answers out: whatever happens until the next list, the cache
    holds only answers of the new one, if and only if no query is out at the moment the list arrives.
  */
  lemma NewListIsSafeExactly(threads: nat, before: seq<Step>)
    ensures var s := Run(Initial(threads), before);
            (forall steps | NoNewList(steps) :: CacheIsOf(Run(Apply(s, NewServers), steps), s.generation + 1))
              <==> NobodyAsks(s)
  {
    hide IsOrder, Remember;
    var s := Run(Initial(threads), before);
    var next := Apply(s, NewServers);
    RunKeepsNobodyAhead(threads, before);
    if NobodyAsks(s) {
      forall steps | NoNewList(steps) ensures CacheIsOf(Run(next, steps), s.generation + 1) {
        RunKeepsCurrent(next, steps);
      }
    } else {
      var t: nat :| t < |s.threads| && Asking(s.threads[t]);
      var steps := OldAnswerComesIn(next, t);
      assert !CacheIsOf(Run(next, steps), s.generation + 1);
    }
  }

  /** Over a whole run: if no list arrives while a query is out, the cache always holds answers of the current list. */
  lemma {:induction false} CacheIsCurrent(threads: nat, steps: seq<Step>)
    requires forall i | 0 <= i < |steps| && steps[i].NewServers? :: NobodyAsks(Run(Initial(threads), steps[..i]))
    ensures Current(Run(Initial(threads), steps))
  {
    if steps != [] {
      var before := steps[..|steps| - 1];
      forall i | 0 <= i < |before| ensures before[..i] == steps[..i] {
      }
      CacheIsCurrent(threads, before);
      StepKeepsCurrent(Run(Initial(threads), before), steps[|steps| - 1]);
    }
  }

  /**
    Clearing the cache with a new list does not keep the old network out of it: a query that was out when the
    list arrived still stores its answer, and the next lookup is served from it.
  */
  lemma OldAnswerOutlivesItsServers(host: Host, ips: seq<string>)
    ensures var go := Continue(0, [], Some(ips));
            var s := Run(Initial(1), [Lookup(0, host), go, go, NewServers, go, go]);
            host in s.cache && s.cache[host] == Entry(ips, CACHE_TTL, false, 0) && s.generation == 1
  {
    var go := Continue(0, [], Some(ips));
    var start := Initial(1);
    var first := [Lookup(0, host), go, go];
    var asking := Run(start, first);
    BecomesAsking(host, go, start);
    RunMore(start, first, NewServers);
    RunMore(start, first + [NewServers], go);
    RunMore(start, first + [NewServers] + [go], go);
    assert first + [NewServers] + [go] + [go] == [Lookup(0, host), go, go, NewServers, go, go];
    StoresItsAnswer(host, ips, asking);
  }

  lemma BecomesAsking(host: Host, go: Step, start: State)
    requires start == Initial(1) && go.Continue? && go.thread == 0
    ensures Run(start, [Lookup(0, host), go, go]) ==
            start.(threads := [Querying(host, 0, 0)], inFlight := map[host := 0], channels := [host])
  {
    hide IsOrder, Remember;
    RunMore(start, [], Lookup(0, host));
    assert [] + [Lookup(0, host)] == [Lookup(0, host)];
    assert Run(start, [Lookup(0, host)]) == start.(threads := [Checked(host)]);
    RunMore(start, [Lookup(0, host)], go);
    assert [Lookup(0, host)] + [go] == [Lookup(0, host), go];
    assert Run(start, [Lookup(0, host), go]) ==
           start.(threads := [Starting(host, 0)], inFlight := map[host := 0], channels := [host]);
    RunMore(start, [Lookup(0, host), go], go);
    assert [Lookup(0, host), go] + [go] == [Lookup(0, host), go, go];
  }

  lemma StoresItsAnswer(host: Host, ips: seq<string>, asking: State)
    requires asking.threads == [Querying(host, 0, 0)] && asking.clock == 0 && asking.generation == 0
    ensures var go := Continue(0, [], Some(ips));
            var s := Apply(Apply(Apply(asking, NewServers), go), go);
            host in s.cache && s.cache[host] == Entry(ips, CACHE_TTL, false, 0) && s.generation == 1
  {
    var go := Continue(0, [], Some(ips));
    var s := Apply(Apply(asking, NewServers), go);
    assert s.threads[0] == Answered(host, 0, 0, Some(ips)) && IsOrder([], s.cache);
  }

  lemma RunMore(s: State, steps: seq<Step>, step: Step)
    ensures Run(s, steps + [step]) == Apply(Run(s, steps), step)
  {
    assert (steps + [step])[..|steps|] == steps;
  }
}
