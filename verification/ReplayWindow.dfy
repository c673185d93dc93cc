/**
  Anti-replay: a ring of 16384 bits over 256 machine words must answer exactly as a set of
  accepted counters does, and a 16-bit RTP sequence must be widened to the counter it came from.
*/
module ReplayWindow {
  import opened Common
  import opened RtpSequence

  const WINDOW: nat := 16384
  const WORDS: nat := 256
  const HALF_SPAN: nat := 0x8000

  // ---------------------------------------------------------------------------------------------
  // The set model: what the window is meant to answer.
  // ---------------------------------------------------------------------------------------------

  datatype Model = Fresh | Live(highest: nat, seen: set<nat>)

  predicate Accepts(m: Model, counter: nat)
  {
    match m
    case Fresh => true
    case Live(highest, seen) => counter > highest || (highest - counter < WINDOW && counter !in seen)
  }

  /** The counters of `seen` that are still inside the window below `highest`. */
  function Recent(seen: set<nat>, highest: nat): set<nat>
  {
    set c | c in seen && c <= highest < c + WINDOW
  }

  function Advance(m: Model, counter: nat): Model
  {
    if !Accepts(m, counter) then m
    else match m
      case Fresh => Live(counter, {counter})
      case Live(highest, seen) =>
        if counter > highest then Live(counter, Recent(seen, counter) + {counter})
        else Live(highest, seen + {counter})
  }

  /**
    The counter a 16-bit sequence stands for, given the highest counter accepted so far: the one in
    the current cycle, moved to the next or the previous cycle when it lies too far away.
  */
  function Extend(highest: nat, sequence: u16): nat
  {
    var extended := highest / U16_SPAN * U16_SPAN + sequence;
    if SaturatingAdd(extended, HALF_SPAN) < highest then SaturatingAdd(extended, U16_SPAN)
    else if extended > SaturatingAdd(highest, HALF_SPAN) && extended >= U16_SPAN then extended - U16_SPAN
    else extended
  }

  function Widen(m: Model, sequence: u16): nat
  {
    match m
    case Fresh => sequence
    case Live(highest, _) => Extend(highest, sequence)
  }

  // ---------------------------------------------------------------------------------------------
  // The bit ring.
  // ---------------------------------------------------------------------------------------------

  /** `word & (1 << k) != 0`, on the binary digits of the word. */
  predicate Has(word: nat, k: nat)
  {
    if k == 0 then word % 2 == 1 else Has(word / 2, k - 1)
  }

  /** `word | (1 << k)`. */
  function WithBit(word: nat, k: nat): nat
  {
    if k == 0 then word / 2 * 2 + 1 else WithBit(word / 2, k - 1) * 2 + word % 2
  }

  /** `word & !(1 << k)`. */
  function WithoutBit(word: nat, k: nat): nat
  {
    if k == 0 then word / 2 * 2 else WithoutBit(word / 2, k - 1) * 2 + word % 2
  }

  function Power2(n: nat): nat
  {
    if n == 0 then 1 else 2 * Power2(n - 1)
  }

  lemma {:induction false} SettingOneBit(word: nat, k: nat, j: nat)
    ensures Has(WithBit(word, k), j) <==> j == k || Has(word, j)
  {
    if k > 0 && j > 0 {
      SettingOneBit(word / 2, k - 1, j - 1);
    }
  }

  lemma {:induction false} ClearingOneBit(word: nat, k: nat, j: nat)
    ensures Has(WithoutBit(word, k), j) <==> j != k && Has(word, j)
  {
    if k > 0 && j > 0 {
      ClearingOneBit(word / 2, k - 1, j - 1);
    }
  }

  /** Changing one of the low `width` bits leaves a word of that width. */
  lemma {:induction false} BitChangesStayInWord(word: nat, k: nat, width: nat)
    requires k < width && word < Power2(width)
    ensures WithBit(word, k) < Power2(width) && WithoutBit(word, k) < Power2(width)
  {
    if k > 0 {
      BitChangesStayInWord(word / 2, k - 1, width - 1);
    }
  }

  lemma {:induction false} NoBitsInZero(k: nat)
    ensures !Has(0, k)
  {
    if k > 0 {
      NoBitsInZero(k - 1);
    }
  }

  function SetInWord(word: u64, k: nat): u64
    requires k < 64
  {
    WordWidth(0);
    BitChangesStayInWord(word, k, 64);
    WithBit(word, k)
  }

  function ClearInWord(word: u64, k: nat): u64
    requires k < 64
  {
    WordWidth(0);
    BitChangesStayInWord(word, k, 64);
    WithoutBit(word, k)
  }

  lemma Power2PlusFour(n: nat)
    ensures Power2(n + 4) == 16 * Power2(n)
  {
    assert Power2(n + 2) == 4 * Power2(n);
  }

  lemma Power2PlusSixteen(n: nat)
    ensures Power2(n + 16) == U16_SPAN * Power2(n)
  {
    Power2PlusFour(n);
    Power2PlusFour(n + 4);
    Power2PlusFour(n + 8);
    Power2PlusFour(n + 12);
  }

  lemma WordWidth(zero: nat)
    requires zero == 0
    ensures Power2(zero + 64) == U64_MAX + 1
  {
    Power2PlusSixteen(zero);
    Power2PlusSixteen(zero + 16);
    Power2PlusSixteen(zero + 32);
    Power2PlusSixteen(zero + 48);
  }

  predicate Bit(words: seq<u64>, slot: nat)
    requires |words| == WORDS && slot < WINDOW
  {
    Has(words[slot / 64], slot % 64)
  }

  /** Counters less than a window apart never share a slot. */
  lemma NearbyCountersUseDistinctSlots(a: nat, b: nat)
    requires a < b < a + WINDOW
    ensures a % WINDOW != b % WINDOW
  {
  }

  /** Replacing one word changes exactly the slots whose bit differs in that word. */
  lemma ReplacingOneWord(words: seq<u64>, index: nat, word: u64, value: bool, s: nat)
    requires |words| == WORDS && index < WINDOW && s < WINDOW
    requires Has(word, s % 64) <==> if s % 64 == index % 64 then value else Has(words[index / 64], s % 64)
    ensures Bit(words[index / 64 := word], s) <==> if s == index then value else Bit(words, s)
  {
    assert s == index <==> s / 64 == index / 64 && s % 64 == index % 64;
  }

  class Window {
    var highest: Option<u64>
    const seen: array<u64>

    ghost predicate Valid()
      reads this, seen
    {
      && seen.Length == WORDS
      && (highest == None ==> forall s: nat | s < WINDOW :: !Bit(seen[..], s))
    }

    /** The set model this ring stands for; slots of counters outside the window carry no meaning. */
    ghost function View(): Model
      requires Valid()
      reads this, seen
    {
      match highest
      case None => Fresh
      case Some(h) => Live(h, set c: nat | c <= h && h < c + WINDOW && Bit(seen[..], c % WINDOW))
    }

    constructor ()
      ensures Valid() && fresh(seen) && View() == Fresh
    {
      highest := None;
      seen := new u64[WORDS](_ => 0);
      new;
      forall s: nat | s < WINDOW
        ensures !Bit(seen[..], s)
      {
        NoBitsInZero(s % 64);
      }
    }

    method SetBit(counter: u64)
      requires seen.Length == WORDS
      modifies seen
      ensures forall s: nat | s < WINDOW :: Bit(seen[..], s) <==> s == counter % WINDOW || Bit(old(seen[..]), s)
    {
      var index := counter % WINDOW;
      var word := SetInWord(seen[index / 64], index % 64);
      forall s: nat | s < WINDOW
        ensures Bit(seen[..][index / 64 := word], s) <==> s == index || Bit(seen[..], s)
      {
        SettingOneBit(seen[index / 64], index % 64, s % 64);
        ReplacingOneWord(seen[..], index, word, true, s);
      }
      seen[index / 64] := word;
      assert seen[..] == old(seen[..])[index / 64 := word];
    }

    method ClearBit(counter: u64)
      requires seen.Length == WORDS
      modifies seen
      ensures forall s: nat | s < WINDOW :: Bit(seen[..], s) <==> s != counter % WINDOW && Bit(old(seen[..]), s)
    {
      var index := counter % WINDOW;
      var word := ClearInWord(seen[index / 64], index % 64);
      forall s: nat | s < WINDOW
        ensures Bit(seen[..][index / 64 := word], s) <==> s != index && Bit(seen[..], s)
      {
        ClearingOneBit(seen[index / 64], index % 64, s % 64);
        ReplacingOneWord(seen[..], index, word, false, s);
      }
      seen[index / 64] := word;
      assert seen[..] == old(seen[..])[index / 64 := word];
    }

    method TestBit(counter: u64) returns (present: bool)
      requires Valid()
      ensures present == Bit(seen[..], counter % WINDOW)
    {
      var index := counter % WINDOW;
      present := Has(seen[index / 64], index % 64);
    }

    /** Empties the slots of the counters between the old and the new highest. */
    method ClearBetween(from: u64, to: u64)
      requires seen.Length == WORDS && from < to
      modifies seen
      ensures forall c: nat | c <= to && to < c + WINDOW ::
                Bit(seen[..], c % WINDOW) <==> c <= from && Bit(old(seen[..]), c % WINDOW)
    {
      var shift := to - from;
      if shift >= WINDOW {
        for k := 0 to seen.Length
          invariant forall j | 0 <= j < k :: seen[j] == 0
        {
          seen[k] := 0;
        }
        forall s: nat | s < WINDOW
          ensures !Bit(seen[..], s)
        {
          NoBitsInZero(s % 64);
        }
        return;
      }
      for i := 1 to shift + 1
        invariant forall c: nat | c <= to && to < c + WINDOW ::
                    Bit(seen[..], c % WINDOW) <==> (c <= from || from + i <= c) && Bit(old(seen[..]), c % WINDOW)
      {
        ClearBit(from + i);
        NewBitIsApart(to, from + i);
      }
    }

    method Accept(counter: u64) returns (accepted: bool)
      requires Valid()
      modifies this, seen
      ensures Valid()
      ensures accepted == Accepts(old(View()), counter)
      ensures View() == Advance(old(View()), counter)
    {
      if highest == None {
        highest := Some(counter);
        SetBit(counter);
        NewBitIsApart(counter, counter);
        return true;
      }
      var h := highest.value;
      if counter > h {
        ClearBetween(h, counter);
        highest := Some(counter);
        SetBit(counter);
        NewBitIsApart(counter, counter);
        return true;
      }
      if h - counter >= WINDOW {
        return false;
      }
      var present := TestBit(counter);
      if present {
        return false;
      }
      SetBit(counter);
      NewBitIsApart(h, counter);
      return true;
    }

    method AcceptRtp(sequence: u16) returns (accepted: bool)
      requires Valid()
      modifies this, seen
      ensures Valid()
      ensures accepted == Accepts(old(View()), Widen(old(View()), sequence))
      ensures View() == Advance(old(View()), Widen(old(View()), sequence))
    {
      if highest == None {
        accepted := Accept(sequence);
        return;
      }
      var h := highest.value;
      var extended: u64 := h / U16_SPAN * U16_SPAN + sequence;
      if SaturatingAdd(extended, HALF_SPAN) < h {
        extended := SaturatingAdd(extended, U16_SPAN);
      } else if extended > SaturatingAdd(h, HALF_SPAN) && extended >= U16_SPAN {
        extended := extended - U16_SPAN;
      }
      accepted := Accept(extended);
    }

    /** Among the counters of one window only `counter` itself uses its slot. */
    lemma NewBitIsApart(top: nat, counter: nat)
      requires counter <= top < counter + WINDOW
      ensures forall c: nat | c <= top && top < c + WINDOW :: c % WINDOW == counter % WINDOW <==> c == counter
    {
      forall c: nat | c <= top && top < c + WINDOW && c != counter
        ensures c % WINDOW != counter % WINDOW
      {
        if c < counter {
          NearbyCountersUseDistinctSlots(c, counter);
        } else {
          NearbyCountersUseDistinctSlots(counter, c);
        }
      }
    }
  }

  // ---------------------------------------------------------------------------------------------
  // Whole runs of counters.
  // ---------------------------------------------------------------------------------------------

  /** The model after a whole run of counters. */
  function After(counters: seq<nat>): Model
  {
    if counters == [] then Fresh else Advance(After(counters[..|counters| - 1]), counters[|counters| - 1])
  }

  function Highest(counters: seq<nat>): nat
    requires counters != []
  {
    var last := counters[|counters| - 1];
    if |counters| == 1 then last
    else var h := Highest(counters[..|counters| - 1]); if last > h then last else h
  }

  lemma {:induction false} HighestBounds(counters: seq<nat>)
    requires counters != []
    ensures Highest(counters) in counters
    ensures forall c | c in counters :: c <= Highest(counters)
  {
    if |counters| > 1 {
      HighestBounds(counters[..|counters| - 1]);
      assert counters == counters[..|counters| - 1] + [counters[|counters| - 1]];
    }
  }

  function Arrivals(counters: seq<nat>): set<nat>
  {
    set c | c in counters
  }

  /** One more arrival, when the window held the recent ones of all arrivals so far. */
  lemma AdvanceHoldsRecent(arrivals: set<nat>, highest: nat, counter: nat)
    requires forall c | c in arrivals :: c <= highest
    ensures var top := if counter > highest then counter else highest;
            Advance(Live(highest, Recent(arrivals, highest)), counter) == Live(top, Recent(arrivals + {counter}, top))
  {
  }

  /** After any run the window holds exactly the arrivals that are less than a window below the highest one. */
  lemma {:induction false} WindowHoldsRecentArrivals(counters: seq<nat>)
    requires counters != []
    ensures After(counters) == Live(Highest(counters), Recent(Arrivals(counters), Highest(counters)))
  {
    hide Advance, Recent;
    var n := |counters| - 1;
    var prefix := counters[..n];
    assert counters == prefix + [counters[n]];
    if n == 0 {
      FirstArrival(counters[0]);
      assert Arrivals(counters) == {counters[0]};
    } else {
      WindowHoldsRecentArrivals(prefix);
      HighestBounds(prefix);
      AdvanceHoldsRecent(Arrivals(prefix), Highest(prefix), counters[n]);
      assert Arrivals(counters) == Arrivals(prefix) + {counters[n]};
    }
  }

  lemma FirstArrival(counter: nat)
    ensures Advance(Fresh, counter) == Live(counter, Recent({counter}, counter))
  {
  }

  /** The i-th arrival of a run is accepted. */
  predicate AcceptedAt(counters: seq<nat>, i: nat)
    requires i < |counters|
  {
    Accepts(After(counters[..i]), counters[i])
  }

  /** An arrival is accepted exactly when it is above everything before it, or recent and new. */
  lemma AcceptedExactly(counters: seq<nat>, i: nat)
    requires i < |counters|
    ensures AcceptedAt(counters, i) <==>
              counters[i] !in counters[..i] && (i > 0 ==> Highest(counters[..i]) < counters[i] + WINDOW)
  {
    if i > 0 {
      WindowHoldsRecentArrivals(counters[..i]);
      HighestBounds(counters[..i]);
    }
  }

  /** No counter is accepted twice in any run. */
  lemma AcceptedAtMostOnce(counters: seq<nat>, i: nat, j: nat)
    requires i < j < |counters| && counters[i] == counters[j]
    ensures !AcceptedAt(counters, j)
  {
    AcceptedExactly(counters, j);
    assert counters[..j][i] == counters[j];
  }

  /** The ring over a whole run: it accepts exactly the arrivals that are new and recent. */
  method RunCounters(window: Window, counters: seq<u64>) returns (answers: seq<bool>)
    requires window.Valid() && window.View() == Fresh
    modifies window, window.seen
    ensures window.Valid() && window.View() == After(counters) && |answers| == |counters|
    ensures forall i | 0 <= i < |counters| ::
              answers[i] <==> counters[i] !in counters[..i] && (i > 0 ==> Highest(counters[..i]) < counters[i] + WINDOW)
  {
    hide Accepts, Advance, Window.Valid, Window.View;
    answers := [];
    for n := 0 to |counters|
      invariant window.Valid() && window.View() == After(counters[..n]) && |answers| == n
      invariant forall i | 0 <= i < n :: answers[i] == AcceptedAt(counters, i)
    {
      var accepted := window.Accept(counters[n]);
      answers := answers + [accepted];
      assert counters[..n + 1][..n] == counters[..n];
    }
    assert counters[..|counters|] == counters;
    AllAcceptedExactly(counters);
  }

  lemma AllAcceptedExactly(counters: seq<nat>)
    ensures forall i | 0 <= i < |counters| ::
              AcceptedAt(counters, i) <==>
              counters[i] !in counters[..i] && (i > 0 ==> Highest(counters[..i]) < counters[i] + WINDOW)
  {
    hide AcceptedAt;
    forall i | 0 <= i < |counters|
      ensures AcceptedAt(counters, i) <==>
              counters[i] !in counters[..i] && (i > 0 ==> Highest(counters[..i]) < counters[i] + WINDOW)
    {
      AcceptedExactly(counters, i);
    }
  }

  // ---------------------------------------------------------------------------------------------
  // Widening 16-bit sequences.
  // ---------------------------------------------------------------------------------------------

  /** The widened counter would lie past the 64-bit range, so the code saturates instead. */
  predicate PastTheTop(highest: u64, sequence: u16)
  {
    highest > U64_MAX - U16_SPAN && sequence + HALF_SPAN < highest % U16_SPAN
  }

  function Apart(a: nat, b: nat): nat
  {
    if a < b then b - a else a - b
  }

  lemma ExtendInCycles(cycle: nat, low: u16, sequence: u16)
    requires cycle * U16_SPAN + low <= U64_MAX && !PastTheTop(cycle * U16_SPAN + low, sequence)
    ensures Extend(cycle * U16_SPAN + low, sequence) ==
              if sequence + HALF_SPAN < low then (cycle + 1) * U16_SPAN + sequence
              else if sequence > low + HALF_SPAN && cycle > 0 then (cycle - 1) * U16_SPAN + sequence
              else cycle * U16_SPAN + sequence
  {
    assert (cycle * U16_SPAN + low) / U16_SPAN == cycle;
    assert (cycle * U16_SPAN + low) % U16_SPAN == low;
  }

  /** Widening keeps the wire sequence exactly when it does not run past the top of the 64-bit range. */
  lemma ExtendKeepsSequenceExactly(highest: u64, sequence: u16)
    ensures Extend(highest, sequence) <= U64_MAX
    ensures Extend(highest, sequence) % U16_SPAN == sequence <==> !PastTheTop(highest, sequence)
  {
    if !PastTheTop(highest, sequence) {
      ExtendInCycles(highest / U16_SPAN, highest % U16_SPAN, sequence);
    }
  }

  /** The failing family is not empty: at the very top sequence 0 is taken for the largest counter. */
  lemma ExtendSaturates()
    ensures Extend(U64_MAX, 0) == U64_MAX && U64_MAX % U16_SPAN != 0
  {
  }

  /**
    Of all counters that carry the sequence, widening picks the one nearest to the highest; on a tie
    it stays in the current cycle.
  */
  lemma ExtendPicksNearest(highest: u64, sequence: u16, other: nat)
    requires !PastTheTop(highest, sequence) && other % U16_SPAN == sequence
    ensures Apart(Extend(highest, sequence), highest) <= Apart(other, highest)
    ensures Apart(Extend(highest, sequence), highest) == Apart(other, highest) ==>
              other == Extend(highest, sequence) || Extend(highest, sequence) / U16_SPAN == highest / U16_SPAN
  {
    ExtendInCycles(highest / U16_SPAN, highest % U16_SPAN, sequence);
    assert other == other / U16_SPAN * U16_SPAN + sequence;
  }

  /**
    Exactly the indices that are recovered: those within half a span, those half a span away in the
    same cycle, and in the first cycle every index above the highest, since nothing lies below zero.
  */
  lemma ExtendRecoversExactly(highest: u64, index: u64)
    requires !PastTheTop(highest, index % U16_SPAN)
    ensures Extend(highest, index % U16_SPAN) == index <==>
              || Apart(index, highest) < HALF_SPAN
              || (index / U16_SPAN == highest / U16_SPAN &&
                  (Apart(index, highest) == HALF_SPAN || highest < index < U16_SPAN))
  {
    var c, d := highest / U16_SPAN, index / U16_SPAN;
    assert highest == c * U16_SPAN + highest % U16_SPAN && index == d * U16_SPAN + index % U16_SPAN;
    ExtendInCycles(c, highest % U16_SPAN, index % U16_SPAN);
  }

  /** A true index within half a span of the highest is recovered from its low 16 bits. */
  lemma ExtendRecovers(highest: u64, index: nat)
    requires Apart(index, highest) < HALF_SPAN && index <= U64_MAX
    ensures !PastTheTop(highest, index % U16_SPAN)
    ensures Extend(highest, index % U16_SPAN) == index
  {
    var c, d := highest / U16_SPAN, index / U16_SPAN;
    assert highest == c * U16_SPAN + highest % U16_SPAN && index == d * U16_SPAN + index % U16_SPAN;
    ExtendInCycles(c, highest % U16_SPAN, index % U16_SPAN);
  }

  // ---------------------------------------------------------------------------------------------
  // From the sender's numbering to the receiver's answers.
  // ---------------------------------------------------------------------------------------------

  /** The model after a whole run of wire sequences. */
  function AfterRtp(sequences: seq<u16>): Model
  {
    if sequences == [] then Fresh
    else
      var before := AfterRtp(sequences[..|sequences| - 1]);
      Advance(before, Widen(before, sequences[|sequences| - 1]))
  }

  predicate AcceptedAtRtp(sequences: seq<u16>, i: nat)
    requires i < |sequences|
  {
    var before := AfterRtp(sequences[..i]);
    Accepts(before, Widen(before, sequences[i]))
  }

  /** The ring over a whole run of wire sequences. */
  method RunSequences(window: Window, sequences: seq<u16>) returns (answers: seq<bool>)
    requires window.Valid() && window.View() == Fresh
    modifies window, window.seen
    ensures window.Valid() && window.View() == AfterRtp(sequences) && |answers| == |sequences|
    ensures forall i | 0 <= i < |sequences| :: answers[i] == AcceptedAtRtp(sequences, i)
  {
    hide Accepts, Advance, Widen, Window.Valid, Window.View;
    answers := [];
    for n := 0 to |sequences|
      invariant window.Valid() && window.View() == AfterRtp(sequences[..n]) && |answers| == n
      invariant forall i | 0 <= i < n :: answers[i] == AcceptedAtRtp(sequences, i)
    {
      var accepted := window.AcceptRtp(sequences[n]);
      answers := answers + [accepted];
      assert sequences[..n + 1][..n] == sequences[..n];
    }
    assert sequences[..|sequences|] == sequences;
  }

  /** The sender's packet number `n` in the numbering fixed by the first packet the receiver accepted. */
  function Index(initial: u16, first: nat, n: nat): int
  {
    n - first + SequenceAt(initial, first)
  }

  function Sequences(initial: u16, packets: seq<nat>): seq<u16>
  {
    seq(|packets|, i requires 0 <= i < |packets| => SequenceAt(initial, packets[i]))
  }

  /**
    With this highest index so far, 16 bits are enough to find the index: it is a 64-bit counter, widening does not run
    past the top, and it is nearer to the highest than half a span, or at that distance or above it in the same cycle.
  */
  predicate Recoverable(highest: int, index: int)
  {
    && 0 <= highest <= U64_MAX && 0 <= index <= U64_MAX
    && !PastTheTop(highest, index % U16_SPAN)
    && (|| Apart(index, highest) < HALF_SPAN
        || (index / U16_SPAN == highest / U16_SPAN &&
            (Apart(index, highest) == HALF_SPAN || highest < index < U16_SPAN)))
  }

  /** Every arrival is recoverable from the newest one before it. */
  ghost predicate Trackable(initial: u16, packets: seq<nat>)
  {
    forall i | 0 < i < |packets| ::
      Recoverable(Index(initial, packets[0], Highest(packets[..i])), Index(initial, packets[0], packets[i]))
  }

  /** The receiver widens the i-th arrival to its true index. */
  predicate Recovered(initial: u16, packets: seq<nat>, i: nat)
    requires i < |packets|
  {
    Widen(AfterRtp(Sequences(initial, packets)[..i]), SequenceAt(initial, packets[i])) ==
        Index(initial, packets[0], packets[i])
  }

  function Indices(initial: u16, packets: seq<nat>): seq<nat>
    requires forall i | 0 <= i < |packets| :: 0 <= Index(initial, packets[0], packets[i])
  {
    seq(|packets|, i requires 0 <= i < |packets| => Index(initial, packets[0], packets[i]))
  }

  /**
    Trackability is needed: when the first accepted packet is the eleventh of a sender that started
    at 65530 and the first packet arrives late, the late one reads as the newest by far, and the
    eleventh packet is then accepted a second time.
  */
  lemma LatePacketFromBeforeTheFirst()
    ensures var packets := [10, 0, 10];
            && Index(65530, 10, 0) < 0
            && AcceptedAtRtp(Sequences(65530, packets), 0)
            && AcceptedAtRtp(Sequences(65530, packets), 2)
  {
    var s := Sequences(65530, [10, 0, 10]);
    assert s == [4, 65530, 4];
    assert s[..0] == [] && s[..1] == [4] && s[..2] == [4, 65530];
    assert s[..1][..0] == [] && s[..2][..1] == [4];
    assert AfterRtp(s[..1]) == Live(4, {4});
    assert AfterRtp(s[..2]) == Live(65530, {65530});
  }

  lemma IndexCarriesSequence(initial: u16, first: nat, n: nat)
    requires 0 <= Index(initial, first, n)
    ensures Index(initial, first, n) % U16_SPAN == SequenceAt(initial, n)
  {
    var q := (initial + first % U16_SPAN) / U16_SPAN;
    var r := (initial + n % U16_SPAN) / U16_SPAN;
    assert SequenceAt(initial, first) == initial + first - U16_SPAN * (first / U16_SPAN + q);
    assert SequenceAt(initial, n) == initial + n - U16_SPAN * (n / U16_SPAN + r);
    var k := n / U16_SPAN + r - first / U16_SPAN - q;
    assert Index(initial, first, n) == SequenceAt(initial, n) + U16_SPAN * k;
  }

  lemma {:induction false} HighestIndex(initial: u16, packets: seq<nat>, count: nat)
    requires 0 < count <= |packets|
    requires forall i | 0 <= i < |packets| :: 0 <= Index(initial, packets[0], packets[i])
    ensures Highest(Indices(initial, packets)[..count]) == Index(initial, packets[0], Highest(packets[..count]))
  {
    var indices := Indices(initial, packets);
    assert indices[..count][..count - 1] == indices[..count - 1];
    assert packets[..count][..count - 1] == packets[..count - 1];
    if count > 1 {
      HighestIndex(initial, packets, count - 1);
    }
  }

  /** On trackable traffic the 16-bit window runs through the same states as one fed with the true indices. */
  lemma {:induction false} SequencesTrackIndices(initial: u16, packets: seq<nat>, count: nat)
    requires Trackable(initial, packets) && count <= |packets|
    ensures AfterRtp(Sequences(initial, packets)[..count]) == After(Indices(initial, packets)[..count])
    ensures count < |packets| ==>
              Widen(After(Indices(initial, packets)[..count]), Sequences(initial, packets)[count]) ==
              Indices(initial, packets)[count]
  {
    var sequences, indices := Sequences(initial, packets), Indices(initial, packets);
    if count > 0 {
      SequencesTrackIndices(initial, packets, count - 1);
      assert sequences[..count][..count - 1] == sequences[..count - 1];
      assert indices[..count][..count - 1] == indices[..count - 1];
      if count < |packets| {
        WindowHoldsRecentArrivals(indices[..count]);
        HighestIndex(initial, packets, count);
        HighestBounds(packets[..count]);
        IndexCarriesSequence(initial, packets[0], packets[count]);
        ExtendRecoversExactly(Highest(indices[..count]), indices[count]);
      }
    }
  }

  /** What one recovered arrival says about its index, once everything before it is tracked. */
  lemma RecoveredMeansRecoverable(initial: u16, packets: seq<nat>, k: nat)
    requires 0 < k < |packets| && Trackable(initial, packets[..k]) && Recovered(initial, packets, k)
    ensures Recoverable(Index(initial, packets[0], Highest(packets[..k])), Index(initial, packets[0], packets[k]))
  {
    var prefix := packets[..k];
    assert Sequences(initial, packets)[..k] == Sequences(initial, prefix) == Sequences(initial, prefix)[..k];
    SequencesTrackIndices(initial, prefix, k);
    var indices := Indices(initial, prefix);
    assert indices[..k] == indices && prefix[..k] == prefix;
    WindowHoldsRecentArrivals(indices);
    HighestIndex(initial, prefix, k);
    HighestBounds(indices);
    var highest, index := Highest(indices), Index(initial, packets[0], packets[k]);
    assert highest <= U64_MAX by {
      var i :| 0 <= i < k && indices[i] == highest;
    }
    assert Extend(highest, SequenceAt(initial, packets[k])) == index;
    IndexCarriesSequence(initial, packets[0], packets[k]);
    ExtendKeepsSequenceExactly(highest, SequenceAt(initial, packets[k]));
    ExtendRecoversExactly(highest, index);
  }

  lemma {:induction false} RecoveredPrefixIsTrackable(initial: u16, packets: seq<nat>, k: nat)
    requires k <= |packets| && forall i | 0 <= i < |packets| :: Recovered(initial, packets, i)
    ensures Trackable(initial, packets[..k])
  {
    if k > 1 {
      RecoveredPrefixIsTrackable(initial, packets, k - 1);
      RecoveredMeansRecoverable(initial, packets, k - 1);
      forall i | 0 < i < k ensures packets[..k][..i] == packets[..i] &&
          (i < k - 1 ==> packets[..k - 1][..i] == packets[..i]) {
      }
    }
  }

  /** A run is tracked from its 16 bits exactly when every arrival is recoverable from the newest one before it. */
  lemma TracksExactly(initial: u16, packets: seq<nat>)
    ensures (forall i | 0 <= i < |packets| :: Recovered(initial, packets, i)) <==> Trackable(initial, packets)
  {
    assert packets[..|packets|] == packets;
    if forall i | 0 <= i < |packets| :: Recovered(initial, packets, i) {
      RecoveredPrefixIsTrackable(initial, packets, |packets|);
    }
    if Trackable(initial, packets) {
      forall i | 0 <= i < |packets| ensures Recovered(initial, packets, i) {
        SequencesTrackIndices(initial, packets, i);
      }
    }
  }

  /** Ordinary traffic: arrivals within half a span of the newest, none from before the first. */
  lemma NearbyTrafficIsTrackable(initial: u16, packets: seq<nat>)
    requires forall i | 0 < i < |packets| ::
               && 0 <= Index(initial, packets[0], packets[i]) <= U64_MAX
               && Apart(packets[i], Highest(packets[..i])) < HALF_SPAN
    ensures Trackable(initial, packets)
  {
    forall i | 0 < i < |packets|
      ensures Recoverable(Index(initial, packets[0], Highest(packets[..i])), Index(initial, packets[0], packets[i]))
    {
      HighestBounds(packets[..i]);
      var k :| 0 <= k < i && packets[k] == Highest(packets[..i]);
      ExtendRecovers(Index(initial, packets[0], Highest(packets[..i])), Index(initial, packets[0], packets[i]));
    }
  }

  /**
    End to end: whatever the initial sequence and however often the 16 bits wrap, an arrival of
    trackable traffic is accepted exactly when its packet is new and less than a window behind.
  */
  lemma EachPacketDeliveredOnce(initial: u16, packets: seq<nat>, i: nat)
    requires Trackable(initial, packets) && i < |packets|
    ensures AcceptedAtRtp(Sequences(initial, packets), i) <==>
              packets[i] !in packets[..i] && (i > 0 ==> Highest(packets[..i]) < packets[i] + WINDOW)
  {
    var indices := Indices(initial, packets);
    SequencesTrackIndices(initial, packets, i);
    AcceptedExactly(indices, i);
    if i > 0 {
      HighestIndex(initial, packets, i);
    }
    if packets[i] in packets[..i] {
      var k :| 0 <= k < i && packets[k] == packets[i];
      assert indices[..i][k] == indices[i];
    }
    if indices[i] in indices[..i] {
      var k :| 0 <= k < i && indices[k] == indices[i];
      assert packets[..i][k] == packets[i];
    }
  }
}
