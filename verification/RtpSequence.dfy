/** How the sending side numbers packets: a 64-bit count, of which the wire carries 16 bits. */
module RtpSequence {
  import opened Common

  /** The wire sequence of the packet with the given count. */
  function SequenceAt(initial: u16, count: nat): (s: u16)
  {
    (initial + count % U16_SPAN) % U16_SPAN
  }

  /** Two packets carry the same wire sequence exactly when their counts agree modulo the 16-bit span. */
  lemma SequenceRepeatsEverySpan(initial: u16, a: nat, b: nat)
    ensures SequenceAt(initial, a) == SequenceAt(initial, b) <==> a % U16_SPAN == b % U16_SPAN
  {
    var x, y := a % U16_SPAN, b % U16_SPAN;
    assert (initial + x) % U16_SPAN == if initial + x < U16_SPAN then initial + x else initial + x - U16_SPAN;
    assert (initial + y) % U16_SPAN == if initial + y < U16_SPAN then initial + y else initial + y - U16_SPAN;
  }

  /** The counters of one sender; the random draws that seed it are constructor arguments. */
  class SequenceState {
    var count: u64
    var transportSequence: u16
    const initialSequence: u16

    constructor (initialSequence: u16, transportSequence: u16)
      ensures count == 0 && this.initialSequence == initialSequence && this.transportSequence == transportSequence
    {
      this.count := 0;
      this.initialSequence := initialSequence;
      this.transportSequence := transportSequence;
    }

    /** Takes the numbers of the next packet; both counters wrap at their own width. */
    method Next() returns (sequence: u16, transport: u16)
      modifies this
      ensures sequence == SequenceAt(initialSequence, old(count)) && transport == old(transportSequence)
      ensures count == WrappingIncrement(old(count))
      ensures transportSequence == (old(transportSequence) + 1) % U16_SPAN
    {
      sequence, transport := SequenceAt(initialSequence, count), transportSequence;
      count := WrappingIncrement(count);
      transportSequence := (transportSequence + 1) % U16_SPAN;
    }
  }
}
