/** TURN ChannelData framing inside the packet buffer (sections 11.4 to 11.6 of RFC 5766). */
module ChannelData {
  import opened Common
  import opened PacketBuf

  predicate ValidChannel(channel: u16)
  {
    0x4000 <= channel <= 0x7fff
  }

  function Zeros(n: nat): seq<byte>
  {
    seq(n, i => 0)
  }

  function HeaderBytes(channel: u16, length: u16): seq<byte>
  {
    U16Bytes(channel) + U16Bytes(length)
  }

  /** The ChannelData message for a payload: header, payload, zero padding to a multiple of four. */
  function Encoded(channel: u16, payload: seq<byte>): seq<byte>
    requires |payload| < U16_SPAN
  {
    HeaderBytes(channel, |payload|) + payload + Zeros(PaddingOf(|payload|))
  }

  /** The channel and payload length of a datagram that is a ChannelData message. */
  function Header(wire: seq<byte>): Option<(u16, nat)>
  {
    if |wire| < 4 || wire[0] / 0x40 != 1 then None
    else
      var channel, length := U16At(wire, 0), U16At(wire, 2);
      if !ValidChannel(channel) then None
      else if length > |wire| - 4 then None
      else if |wire| - 4 - length > 3 then None
      else Some((channel, length))
  }

  predicate IsStun(wire: seq<byte>)
  {
    |wire| >= 20 && wire[0] / 0x40 == 0 && wire[4..8] == [0x21, 0x12, 0xa4, 0x42]
  }

  /** Decoding gives back channel and payload, and a ChannelData message is never taken for STUN. */
  lemma EncodedDecodes(channel: u16, payload: seq<byte>)
    requires ValidChannel(channel) && |payload| < U16_SPAN
    ensures var wire := Encoded(channel, payload);
            && Header(wire) == Some((channel, |payload|))
            && wire[4..4 + |payload|] == payload
            && |wire| % 4 == 0 && !IsStun(wire)
  {
  }

  /**
    Every datagram with a ChannelData header is the header, its payload and at most three further
    bytes, so re-encoding the payload gives the datagram back up to those bytes.
  */
  lemma HeaderDescribesWire(wire: seq<byte>)
    requires Header(wire).Some?
    ensures var (channel, length) := Header(wire).value;
            && ValidChannel(channel) && length <= |wire| - 4 <= length + 3
            && wire[..4 + length] == Encoded(channel, wire[4..4 + length])[..4 + length]
  {
    var (channel, length) := Header(wire).value;
    assert wire[..4 + length] == wire[..4] + wire[4..4 + length];
    assert wire[..4] == HeaderBytes(channel, length);
  }

  datatype ChannelError = InvalidChannel | PayloadTooLarge | ExceedsBuffer

  /** `channel_data_padding`: the padding, or why the packet cannot be framed. */
  function Padding(packet: Packet, channel: u16): Result<nat, ChannelError>
    requires packet.Valid()
    reads packet
  {
    var length := packet.end - packet.start;
    if !ValidChannel(channel) then Err(InvalidChannel)
    else if length > 0xffff then Err(PayloadTooLarge)
    else if packet.start < 4 || packet.end + PaddingOf(length) > PACKET_CAPACITY then Err(ExceedsBuffer)
    else Ok(PaddingOf(length))
  }

  lemma FramedInPlace(s: seq<byte>, start: nat, end: nat, head: seq<byte>, tail: seq<byte>)
    requires |head| <= start <= end <= end + |tail| <= |s|
    ensures Splice(Splice(s, end, tail), start - |head|, head)[start - |head|..end + |tail|] ==
              head + s[start..end] + tail
  {
    var t := Splice(s, end, tail);
    var r := Splice(t, start - |head|, head);
    assert t[start..end] == s[start..end] && t[end..end + |tail|] == tail;
    assert r[start - |head|..start] == head && r[start..end] == t[start..end];
    assert r[end..end + |tail|] == t[end..end + |tail|];
    assert r[start - |head|..end + |tail|] ==
           r[start - |head|..start] + r[start..end] + r[end..end + |tail|];
  }

  method Encode(packet: Packet, channel: u16) returns (error: Option<ChannelError>)
    requires packet.Valid()
    modifies packet, packet.storage
    ensures packet.Valid()
    ensures match old(Padding(packet, channel))
            case Err(e) => error == Some(e) && packet.Contents() == old(packet.Contents())
            case Ok(padding) =>
              && error == None
              && packet.start == old(packet.start) - 4 && packet.end == old(packet.end) + padding
              && packet.Contents() == Encoded(channel, old(packet.Contents()))
  {
    hide Splice;
    match Padding(packet, channel)
    case Err(e) =>
      return Some(e);
    case Ok(padding) =>
      var length := packet.end - packet.start;
      ghost var before := packet.storage[..];
      var at := packet.end;
      var extended := packet.ExtendTail(padding);
      CopyInto(packet.storage, at, Zeros(padding));
      var prepended := packet.Prepend(4);
      CopyInto(packet.storage, packet.start, HeaderBytes(channel, length));
      FramedInPlace(before, at - length, at, HeaderBytes(channel, length), Zeros(padding));
      return None;
  }

  /** The ChannelData branch of the receive path: what is left is the payload of the right channel. */
  method Decode(packet: Packet, channel: u16) returns (ok: bool)
    requires packet.Valid()
    modifies packet
    ensures packet.Valid()
    ensures var header := Header(old(packet.Contents()));
            ok <==> header.Some? && header.value.0 == channel
    ensures ok ==> packet.Contents() == old(packet.Contents())[4..4 + Header(old(packet.Contents())).value.1]
    ensures !ok ==> packet.Contents() == old(packet.Contents())
  {
    var header := Header(packet.Contents());
    if header.None? || header.value.0 != channel {
      return false;
    }
    var trimmed := packet.TrimFront(4);
    var truncated := packet.Truncate(header.value.1);
    return true;
  }
}
