/** The whole way of one packet: wrapped, framed as ChannelData, unframed by the peer and unwrapped. */
module Datagram {
  import opened Common
  import opened RtpSequence
  import opened PacketBuf
  import Obfs
  import ChannelData

  /** The packet can take both headers, the cipher tail and the channel padding inside its buffer. */
  predicate Fits(start: nat, end: nat, mode: Obfs.Mode, draw: Obfs.Draw)
    requires start <= end
  {
    var wireEnd := end + Obfs.TailLength(mode, draw);
    start >= 28 && wireEnd + PaddingOf(wireEnd - (start - 24)) <= PACKET_CAPACITY
  }

  function Sent(c: Obfs.Ciphers, mode: Obfs.Mode, ssrc: u32, sequence: u16, transport: u16, draw: Obfs.Draw,
                channel: u16, payload: seq<byte>): seq<byte>
    requires Obfs.ValidDraw(mode, draw)
  {
    var wire := Obfs.Wire(c, mode, ssrc, sequence, transport, draw, payload);
    if |wire| >= U16_SPAN then [] else ChannelData.Encoded(channel, wire)
  }

  /** What the peer makes of a datagram on its channel. */
  function Received(c: Obfs.Ciphers, mode: Obfs.Mode, channel: u16, datagram: seq<byte>): Option<Obfs.Plain>
  {
    match ChannelData.Header(datagram)
    case None => None
    case Some((found, length)) =>
      if found != channel then None
      else
        match Obfs.Unwrapped(c, mode, datagram[4..4 + length])
        case Err(_) => None
        case Ok(plain) => Some(plain)
  }

  method Send(c: Obfs.Ciphers, packet: Packet, mode: Obfs.Mode, ssrc: u32, state: SequenceState, draw: Obfs.Draw,
              channel: u16) returns (ok: bool)
    requires packet.Valid() && c.Ideal() && Obfs.ValidDraw(mode, draw) && ChannelData.ValidChannel(channel)
    modifies packet, packet.storage, state
    ensures packet.Valid()
    ensures ok <==> old(packet.Contents()) != [] && old(Fits(packet.start, packet.end, mode, draw))
    ensures ok ==> packet.Contents() ==
                   Sent(c, mode, ssrc, SequenceAt(state.initialSequence, old(state.count)),
                       old(state.transportSequence),
                        draw, channel, old(packet.Contents()))
  {
    hide Obfs.Wire, ChannelData.Encoded;
    var wrapError := Obfs.Wrap(c, packet, mode, ssrc, state, draw);
    if wrapError != None {
      return false;
    }
    var channelError := ChannelData.Encode(packet, channel);
    return channelError == None;
  }

  method Receive(c: Obfs.Ciphers, packet: Packet, mode: Obfs.Mode, channel: u16) returns (sequence: Option<u16>)
    requires packet.Valid() && c.Ideal()
    modifies packet, packet.storage
    ensures packet.Valid()
    ensures match Received(c, mode, channel, old(packet.Contents()))
            case None => sequence == None
            case Some(plain) => sequence == Some(plain.sequence) && packet.Contents() == plain.payload
  {
    hide Obfs.Unwrapped;
    var framed := ChannelData.Decode(packet, channel);
    if !framed {
      return None;
    }
    var unwrapped := Obfs.Unwrap(c, packet, mode);
    return if unwrapped.Ok? then Some(unwrapped.value) else None;
  }

  /** Payload and sequence survive the way for both modes, every draw and every payload that fits a packet. */
  lemma PacketSurvives(c: Obfs.Ciphers, mode: Obfs.Mode, ssrc: u32, sequence: u16, transport: u16, draw: Obfs.Draw,
                       channel: u16, payload: seq<byte>)
    requires c.Ideal() && Obfs.ValidDraw(mode, draw) && ChannelData.ValidChannel(channel)
    requires 0 < |payload| <= PACKET_CAPACITY
    ensures Received(c, mode, channel, Sent(c, mode, ssrc, sequence, transport, draw, channel, payload)) ==
            Some(Obfs.Plain(sequence, 24, payload))
  {
    hide Obfs.Wire, Obfs.Unwrapped, ChannelData.Encoded;
    var wire := Obfs.Wire(c, mode, ssrc, sequence, transport, draw, payload);
    Obfs.RoundTrip(c, mode, ssrc, sequence, transport, draw, payload);
    ChannelData.EncodedDecodes(channel, wire);
  }
}
