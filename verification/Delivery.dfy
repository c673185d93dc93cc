/**
  A session from the sender's queue to the receiver: every arriving datagram is authenticated, unwrapped and
  checked against the replay window, in any order and any number of times.
*/
module Delivery {
  import opened Common
  import opened RtpSequence
  import opened ReplayWindow
  import opened PacketBuf
  import Obfs

  /** What one arrival does: the window afterwards, and the payload if it is let through. */
  function Authenticated(c: Obfs.Ciphers, mode: Obfs.Mode, window: Model, wire: seq<byte>): (Model, Option<seq<byte>>)
  {
    if !Obfs.IsRtp(wire) then (window, None)
    else
      match Obfs.Unwrapped(c, mode, wire)
      case Err(_) => (window, None)
      case Ok(plain) =>
        var counter := Widen(window, plain.sequence);
        (Advance(window, counter), if Accepts(window, counter) then Some(plain.payload) else None)
  }

  /**
    Exactly what is let through: authentic datagrams whose sequence widens to a counter the window accepts; and only an
    authentic datagram moves the window.
  */
  lemma AuthenticatedExactly(c: Obfs.Ciphers, mode: Obfs.Mode, window: Model, wire: seq<byte>, payload: seq<byte>)
    requires c.Ideal()
    ensures Authenticated(c, mode, window, wire).1 == Some(payload) <==>
            exists plain ::
              Obfs.IsAuthentic(c, mode, wire, plain) && plain.payload == payload &&
              Accepts(window, Widen(window, plain.sequence))
    ensures !(exists plain :: Obfs.IsAuthentic(c, mode, wire, plain)) ==>
              Authenticated(c, mode, window, wire).0 == window
  {
    hide Obfs.Ciphers.Ideal, Obfs.IsAuthentic, Obfs.UnwrappedVideo, Obfs.UnwrappedAudio, Obfs.HeaderLength;
    hide Widen, Advance, Accepts;
    forall plain
      ensures Obfs.Unwrapped(c, mode, wire) == Ok(plain) <==> Obfs.IsAuthentic(c, mode, wire, plain)
    {
      Obfs.UnwrapsExactlyTheAuthentic(c, mode, wire, plain);
    }
    if Obfs.Unwrapped(c, mode, wire).Ok? {
      assert Obfs.IsAuthentic(c, mode, wire, Obfs.Unwrapped(c, mode, wire).value);
    }
  }

  /** The window after a run of arrivals. */
  function AfterWires(c: Obfs.Ciphers, mode: Obfs.Mode, wires: seq<seq<byte>>): Model
  {
    if wires == [] then Fresh
    else Authenticated(c, mode, AfterWires(c, mode, wires[..|wires| - 1]), wires[|wires| - 1]).0
  }

  method AuthenticateInbound(c: Obfs.Ciphers, mode: Obfs.Mode, window: Window, packet: Packet) returns (accepted: bool)
    requires window.Valid() && packet.Valid() && c.Ideal() && (window.seen as object) != packet.storage
    modifies window, window.seen, packet, packet.storage
    ensures window.Valid() && packet.Valid()
    ensures var (view, payload) := Authenticated(c, mode, old(window.View()), old(packet.Contents()));
            && window.View() == view
            && accepted == payload.Some?
            && (accepted ==> packet.Contents() == payload.value)
    ensures accepted ==>
              exists sequence, at ::
                Obfs.IsAuthentic(c, mode, old(packet.Contents()), Obfs.Plain(sequence, at, packet.Contents()))
    ensures !(exists plain :: Obfs.IsAuthentic(c, mode, old(packet.Contents()), plain)) ==>
              !accepted && window.View() == old(window.View())
  {
    hide Obfs.Unwrapped, Obfs.Ciphers.Ideal, Obfs.IsRtp, Obfs.IsAuthentic;
    hide Widen, Advance, Accepts, Window.View, Window.Valid;
    if !Obfs.IsRtp(packet.Contents()) {
      return false;
    }
    var unwrapped := Obfs.Unwrap(c, packet, mode);
    if unwrapped.Err? {
      return false;
    }
    accepted := window.AcceptRtp(unwrapped.value);
  }

  /** The sender's side of a session: how it numbers, and what it puts into packet `n`. */
  datatype Sender = Sender(ssrc: u32, initial: u16, payload: nat -> seq<byte>, transport: nat -> u16,
      draw: nat -> Obfs.Draw)

  ghost predicate Sends(sender: Sender, mode: Obfs.Mode)
  {
    forall n :: sender.payload(n) != [] && Obfs.ValidDraw(mode, sender.draw(n))
  }

  /** Packet `n` on the wire. */
  function WireOf(c: Obfs.Ciphers, mode: Obfs.Mode, sender: Sender, n: nat): seq<byte>
    requires Obfs.ValidDraw(mode, sender.draw(n))
  {
    Obfs.Wire(c, mode, sender.ssrc, SequenceAt(sender.initial, n), sender.transport(n), sender.draw(n),
        sender.payload(n))
  }

  function Wires(c: Obfs.Ciphers, mode: Obfs.Mode, sender: Sender, packets: seq<nat>): seq<seq<byte>>
    requires forall n :: Obfs.ValidDraw(mode, sender.draw(n))
  {
    seq(|packets|, i requires 0 <= i < |packets| => WireOf(c, mode, sender, packets[i]))
  }

  lemma OneArrival(c: Obfs.Ciphers, mode: Obfs.Mode, sender: Sender, n: nat, window: Model)
    requires c.Ideal() && Sends(sender, mode)
    ensures var counter := Widen(window, SequenceAt(sender.initial, n));
            Authenticated(c, mode, window, WireOf(c, mode, sender, n)) ==
            (Advance(window, counter), if Accepts(window, counter) then Some(sender.payload(n)) else None)
  {
    hide Obfs.Wire, Obfs.Unwrapped, Obfs.IsRtp, Widen, Advance, Accepts, SequenceAt;
    Obfs.RoundTrip(c, mode, sender.ssrc, SequenceAt(sender.initial, n), sender.transport(n), sender.draw(n),
        sender.payload(n));
  }

  /** The window sees the wires as the sequences they carry. */
  lemma {:induction false} WiresCarrySequences(c: Obfs.Ciphers, mode: Obfs.Mode, sender: Sender, packets: seq<nat>,
      count: nat)
    requires c.Ideal() && Sends(sender, mode) && count <= |packets|
    ensures AfterWires(c, mode, Wires(c, mode, sender, packets)[..count]) ==
              AfterRtp(Sequences(sender.initial, packets)[..count])
  {
    hide Authenticated, WireOf, Widen, Advance, SequenceAt;
    if count > 0 {
      WiresCarrySequences(c, mode, sender, packets, count - 1);
      var wires, sequences := Wires(c, mode, sender, packets), Sequences(sender.initial, packets);
      assert wires[..count][..count - 1] == wires[..count - 1] &&
          sequences[..count][..count - 1] == sequences[..count - 1];
      OneArrival(c, mode, sender, packets[count - 1], AfterWires(c, mode, wires[..count - 1]));
    }
  }

  /**
    The promise of the whole path: however the network reorders and repeats the packets, as long as each arrival can be
    recovered from the newest one before it, the receiver lets a packet through exactly when it is new and less than
    a window behind, and then it is the payload that was sent.
  */
  lemma EachPayloadDeliveredOnce(c: Obfs.Ciphers, mode: Obfs.Mode, sender: Sender, packets: seq<nat>, i: nat)
    requires c.Ideal() && Sends(sender, mode) && Trackable(sender.initial, packets) && i < |packets|
    ensures var wires := Wires(c, mode, sender, packets);
            Authenticated(c, mode, AfterWires(c, mode, wires[..i]), wires[i]).1 ==
              if packets[i] !in packets[..i] && (i > 0 ==> Highest(packets[..i]) < packets[i] + WINDOW)
              then Some(sender.payload(packets[i])) else None
  {
    hide Authenticated, WireOf, Widen, Advance, Accepts, SequenceAt, Trackable;
    WiresCarrySequences(c, mode, sender, packets, i);
    OneArrival(c, mode, sender, packets[i], AfterRtp(Sequences(sender.initial, packets)[..i]));
    EachPacketDeliveredOnce(sender.initial, packets, i);
  }
}
