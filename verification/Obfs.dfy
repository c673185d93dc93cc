/**
  RTP-shaped wrapping of a packet, in place in its buffer: audio uses an AEAD, video a keystream and
  a truncated MAC. The ciphers are parameters with the laws a correct cipher has; times and random
  draws are parameters too.
*/
module Obfs {
  import opened Common
  import opened PacketBuf
  import opened RtpSequence

  datatype Mode = Audio | Video

  function PayloadType(mode: Mode): byte
  {
    match mode case Audio => 111 case Video => 96
  }

  function PaddingMax(mode: Mode): nat
  {
    match mode case Audio => 24 case Video => 60
  }

  /** Per-packet draws: random padding, the RTP marker, and the two clock readings. */
  datatype Draw = Draw(padding: seq<byte>, marker: bool, timestamp: u32, absoluteSendTime: nat)

  predicate ValidDraw(mode: Mode, draw: Draw)
  {
    |draw.padding| < PaddingMax(mode) && draw.absoluteSendTime < 0x100_0000
  }

  // ---------------------------------------------------------------------------------------------
  // Ciphers.
  // ---------------------------------------------------------------------------------------------

  datatype Ciphers = Ciphers(
    keystream: (seq<byte>, seq<byte>) -> seq<byte>,
    mac: seq<byte> -> seq<byte>,
    seal: (seq<byte>, seq<byte>, seq<byte>) -> (seq<byte>, seq<byte>),
    open: (seq<byte>, seq<byte>, seq<byte>, seq<byte>) -> Option<seq<byte>>)
  {
    /** Applying a keystream twice undoes it, opening inverts sealing, and lengths are the ciphers' own. */
    ghost predicate Ideal()
    {
      && (forall iv, text :: |keystream(iv, text)| == |text| && keystream(iv, keystream(iv, text)) == text)
      && (forall data :: |mac(data)| == 20)
      && (forall nonce, aad, text ::
            var sealed := seal(nonce, aad, text);
            |sealed.0| == |text| && |sealed.1| == 16 && open(nonce, aad, sealed.0, sealed.1) == Some(text))
      && (forall nonce, aad, text, tag ::
            open(nonce, aad, text, tag).Some? ==> |open(nonce, aad, text, tag).value| == |text|)
    }
  }

  // ---------------------------------------------------------------------------------------------
  // The wire format.
  // ---------------------------------------------------------------------------------------------

  function Bytes32(x: u32): seq<byte>
  {
    [x / 0x100_0000, x / 0x1_0000 % 0x100, x / 0x100 % 0x100, x % 0x100]
  }

  function Be32(b: seq<byte>, at: nat): u32
    requires at + 4 <= |b|
  {
    var b0: int, b1: int, b2: int := b[at], b[at + 1], b[at + 2];
    b0 * 0x100_0000 + b1 * 0x1_0000 + b2 * 0x100 + b[at + 3]
  }

  function Nonce(ssrc: u32, sequence: u16, timestamp: u32): seq<byte>
  {
    Bytes32(ssrc) + U16Bytes(sequence) + [0, 0] + Bytes32(timestamp)
  }

  function Iv(ssrc: u32, sequence: u16, timestamp: u32): seq<byte>
  {
    Nonce(ssrc, sequence, timestamp) + [0, 0, 0, 0]
  }

  /** Twenty-four bytes: fixed RTP header, one-byte extension header, two extension elements. */
  function Header(mode: Mode, ssrc: u32, sequence: u16, transport: u16, draw: Draw): (h: seq<byte>)
    requires ValidDraw(mode, draw)
    ensures |h| == 24
  {
    var marker: byte := if mode == Video && draw.marker then 0x80 else 0;
    [0xb0, PayloadType(mode) + marker] + U16Bytes(sequence) + Bytes32(draw.timestamp) + Bytes32(ssrc)
    + [0xbe, 0xde, 0, 2]
    + [0x32, draw.absoluteSendTime / 0x1_0000, draw.absoluteSendTime / 0x100 % 0x100, draw.absoluteSendTime % 0x100]
    + [0x51] + U16Bytes(transport) + [0]
  }

  function PaddingBytes(mode: Mode, draw: Draw): seq<byte>
    requires ValidDraw(mode, draw)
  {
    draw.padding + [(|draw.padding| + 1) as byte]
  }

  function TailLength(mode: Mode, draw: Draw): nat
  {
    |draw.padding| + 1 + if mode == Video then 10 else 16
  }

  function Truncated(tag: seq<byte>): seq<byte>
  {
    if |tag| <= 10 then tag else tag[..10]
  }

  function Wire(c: Ciphers, mode: Mode, ssrc: u32, sequence: u16, transport: u16, draw: Draw,
      payload: seq<byte>): seq<byte>
    requires ValidDraw(mode, draw)
  {
    var header := Header(mode, ssrc, sequence, transport, draw);
    match mode
    case Video =>
      var body := header + c.keystream(Iv(ssrc, sequence, draw.timestamp), payload) + PaddingBytes(mode, draw);
      body + Truncated(c.mac(body))
    case Audio =>
      var sealed := c.seal(Nonce(ssrc, sequence, draw.timestamp), header, payload);
      header + sealed.0 + sealed.1 + PaddingBytes(mode, draw)
  }

  datatype UnwrapError =
    | NotRtp
    | UnsupportedPayloadType
    | TooShortForExtension
    | TooShortForHeader
    | MissingTag
    | AuthenticationFailed
    | InvalidPadding
    | EmptyPayload

  /** `is_rtp_packet`. */
  predicate IsRtp(wire: seq<byte>)
  {
    |wire| >= 13 && wire[0] / 0x40 == 2 && wire[1] % 0x80 in {111, 96, 6}
  }

  /** Where the payload starts, from the extension bit and the announced extension length. */
  function HeaderLength(wire: seq<byte>): Result<nat, UnwrapError>
    requires |wire| >= 13
  {
    if wire[0] / 0x10 % 2 == 0 then Ok(12)
    else if |wire| < 16 then Err(TooShortForExtension)
    else if |wire| < 16 + U16At(wire, 14) * 4 then Err(TooShortForHeader)
    else Ok(16 + U16At(wire, 14) * 4)
  }

  /** `end` with the padding announced before it taken off. */
  function WithoutPadding(wire: seq<byte>, headerLength: nat, end: nat): Result<nat, UnwrapError>
    requires 12 <= headerLength <= end <= |wire|
  {
    if wire[0] / 0x20 % 2 == 0 then Ok(end)
    else if wire[end - 1] == 0 || wire[end - 1] > end - headerLength then Err(InvalidPadding)
    else Ok(end - wire[end - 1])
  }

  datatype Plain = Plain(sequence: u16, at: nat, payload: seq<byte>)

  function Unwrapped(c: Ciphers, mode: Mode, wire: seq<byte>): Result<Plain, UnwrapError>
  {
    if |wire| < 13 || wire[0] / 0x40 != 2 then Err(NotRtp)
    else if wire[1] % 0x80 !in {111, 96, 6} then Err(UnsupportedPayloadType)
    else
      match HeaderLength(wire)
      case Err(e) => Err(e)
      case Ok(n) => if mode == Video then UnwrappedVideo(c, wire, n) else UnwrappedAudio(c, wire, n)
  }

  function UnwrappedVideo(c: Ciphers, wire: seq<byte>, n: nat): Result<Plain, UnwrapError>
    requires |wire| >= 13 && 12 <= n <= |wire|
  {
    if |wire| < n + 10 then Err(MissingTag)
    else
      var tagStart := |wire| - 10;
      if Truncated(c.mac(wire[..tagStart])) != wire[tagStart..] then Err(AuthenticationFailed)
      else
        match WithoutPadding(wire, n, tagStart)
        case Err(e) => Err(e)
        case Ok(end) =>
          var iv := Iv(Be32(wire, 8), U16At(wire, 2), Be32(wire, 4));
          Ok(Plain(U16At(wire, 2), n, c.keystream(iv, wire[n..end])))
  }

  function UnwrappedAudio(c: Ciphers, wire: seq<byte>, n: nat): Result<Plain, UnwrapError>
    requires |wire| >= 13 && 12 <= n <= |wire|
  {
    if wire[1] % 0x80 != 111 then Err(UnsupportedPayloadType)
    else
      match WithoutPadding(wire, n, |wire|)
      case Err(e) => Err(e)
      case Ok(end) =>
        if end <= n + 16 then Err(EmptyPayload)
        else
          var nonce := Nonce(Be32(wire, 8), U16At(wire, 2), Be32(wire, 4));
          match c.open(nonce, wire[..n], wire[n..end - 16], wire[end - 16..end])
          case None => Err(AuthenticationFailed)
          case Some(payload) => Ok(Plain(U16At(wire, 2), n, payload))
  }

  // ---------------------------------------------------------------------------------------------
  // What is let through.
  // ---------------------------------------------------------------------------------------------

  /** The pieces of a wrapped packet, whatever their lengths. */
  datatype Parts = Parts(head: seq<byte>, text: seq<byte>, padding: seq<byte>, tag: seq<byte>)

  /** A complete RTP header: twelve bytes, or with the extension bit the extension it announces. */
  predicate IsHead(head: seq<byte>)
  {
    && |head| >= 12 && head[0] / 0x40 == 2 && head[1] % 0x80 in {111, 96, 6}
    && (if head[0] / 0x10 % 2 == 0 then |head| == 12
        else |head| >= 16 && |head| == 16 + 4 * (0x100 * (head[14] as int) + head[15] as int))
  }

  /** Padding is there exactly when the header says so, and its last byte counts it. */
  predicate IsPadding(head: seq<byte>, padding: seq<byte>)
    requires |head| >= 12
  {
    if head[0] / 0x20 % 2 == 0 then padding == [] else padding != [] && padding[|padding| - 1] == |padding|
  }

  /** SSRC, sequence, two zeros and timestamp, as they stand in the header. */
  function HeadNonce(head: seq<byte>): seq<byte>
    requires |head| >= 12
  {
    head[8..12] + head[2..4] + [0, 0] + head[4..8]
  }

  /** The datagram carries this payload and the tag that only the key's holder can make for it. */
  predicate Authentic(c: Ciphers, mode: Mode, wire: seq<byte>, p: Parts, plain: Plain)
  {
    && IsHead(p.head) && IsPadding(p.head, p.padding)
    && plain.sequence == 0x100 * (p.head[2] as int) + p.head[3] as int && plain.at == |p.head|
    && match mode
       case Video =>
         var signed := p.head + p.text + p.padding;
         && wire == signed + p.tag && |c.mac(signed)| >= 10 && p.tag == c.mac(signed)[..10]
         && plain.payload == c.keystream(HeadNonce(p.head) + [0, 0, 0, 0], p.text)
       case Audio =>
         && wire == p.head + p.text + p.tag + p.padding && p.head[1] % 0x80 == 111 && p.text != [] && |p.tag| == 16
         && c.open(HeadNonce(p.head), p.head, p.text, p.tag) == Some(plain.payload)
  }

  ghost predicate IsAuthentic(c: Ciphers, mode: Mode, wire: seq<byte>, plain: Plain)
  {
    exists p :: Authentic(c, mode, wire, p, plain)
  }

  lemma NonceIsHeadNonce(wire: seq<byte>, n: nat)
    requires 12 <= n <= |wire|
    ensures Nonce(Be32(wire, 8), U16At(wire, 2), Be32(wire, 4)) == HeadNonce(wire[..n])
    ensures U16At(wire, 2) == 0x100 * (wire[2] as int) + wire[3] as int
  {
    BytesRestored(wire, 8);
    BytesRestored(wire, 4);
    assert wire[..n][2..4] == [wire[2], wire[3]];
    var high, low: int := wire[2], wire[3];
    assert (high * 0x100 + low) / 0x100 == high && (high * 0x100 + low) % 0x100 == low;
    assert wire[..n][8..12] == wire[8..12] && wire[..n][4..8] == wire[4..8];
  }

  lemma BytesRestored(wire: seq<byte>, at: nat)
    requires at + 4 <= |wire|
    ensures Bytes32(Be32(wire, at)) == wire[at..at + 4]
  {
    var b0: int, b1: int, b2: int, b3: int := wire[at], wire[at + 1], wire[at + 2], wire[at + 3];
    var x := Be32(wire, at);
    assert x == b0 * 0x100_0000 + b1 * 0x1_0000 + b2 * 0x100 + b3;
    assert x / 0x100_0000 == b0 && x / 0x1_0000 == b0 * 0x100 + b1 && x / 0x100 == b0 * 0x1_0000 + b1 * 0x100 + b2;
  }

  lemma HeadIsPrefix(wire: seq<byte>, n: nat)
    requires |wire| >= 13 && wire[0] / 0x40 == 2 && wire[1] % 0x80 in {111, 96, 6}
    ensures n <= |wire| ==> (HeaderLength(wire) == Ok(n) <==> IsHead(wire[..n]))
    ensures HeaderLength(wire) == Ok(n) ==> 12 <= n <= |wire|
  {
    if 16 <= n <= |wire| {
      assert wire[..n][14] == wire[14] && wire[..n][15] == wire[15];
    }
  }

  lemma PaddingIsSuffix(wire: seq<byte>, n: nat, end: nat, cut: nat)
    requires 12 <= n <= end <= |wire| && n <= cut <= end
    ensures WithoutPadding(wire, n, end) == Ok(cut) <==> IsPadding(wire[..n], wire[cut..end])
  {
    if cut < end {
      assert wire[cut..end][end - cut - 1] == wire[end - 1];
    }
  }

  function VideoPartsAt(wire: seq<byte>, n: nat, cut: nat): Parts
    requires n <= cut <= |wire| - 10
  {
    Parts(wire[..n], wire[n..cut], wire[cut..|wire| - 10], wire[|wire| - 10..])
  }

  lemma VideoIsAuthentic(c: Ciphers, wire: seq<byte>, plain: Plain)
    requires c.Ideal() && Unwrapped(c, Video, wire) == Ok(plain)
    ensures exists p :: Authentic(c, Video, wire, p, plain)
  {
    hide Ciphers.Ideal, Nonce, Be32, U16At, HeaderLength, WithoutPadding;
    var n := HeaderLength(wire).value;
    HeadIsPrefix(wire, n);
    var end := |wire| - 10;
    var cut := WithoutPadding(wire, n, end).value;
    CutIsInside(wire, n, end);
    PaddingIsSuffix(wire, n, end, cut);
    NonceIsHeadNonce(wire, n);
    TagLength(c, wire[..end]);
    var p := VideoPartsAt(wire, n, cut);
    assert p.head + p.text + p.padding == wire[..end] && wire[..end] + p.tag == wire;
    assert p.head[2] == wire[2] && p.head[3] == wire[3];
    assert Authentic(c, Video, wire, p, plain);
  }

  lemma CutIsInside(wire: seq<byte>, n: nat, end: nat)
    requires 12 <= n <= end <= |wire|
    ensures WithoutPadding(wire, n, end).Ok? ==> n <= WithoutPadding(wire, n, end).value <= end
  {
  }

  lemma AuthenticVideoUnwraps(c: Ciphers, wire: seq<byte>, p: Parts, plain: Plain)
    requires c.Ideal() && Authentic(c, Video, wire, p, plain)
    ensures Unwrapped(c, Video, wire) == Ok(plain)
  {
    hide Ciphers.Ideal, Nonce, Be32, U16At, HeaderLength, WithoutPadding, IsHead, IsPadding;
    var n, cut, end := |p.head|, |p.head| + |p.text|, |wire| - 10;
    HeadStarts(p.head, wire);
    HeadIsPrefix(wire, n);
    assert wire[..n] == p.head && wire[n..cut] == p.text && wire[cut..end] == p.padding && wire[end..] == p.tag;
    assert wire[..end] == p.head + p.text + p.padding;
    PaddingIsSuffix(wire, n, end, cut);
    NonceIsHeadNonce(wire, n);
    TagLength(c, wire[..end]);
    assert p.head[2] == wire[2] && p.head[3] == wire[3];
  }

  lemma HeadStarts(head: seq<byte>, wire: seq<byte>)
    requires IsHead(head) && head <= wire
    ensures |head| >= 12 && |wire| >= 12 && wire[0] / 0x40 == 2 && wire[1] % 0x80 in {111, 96, 6}
  {
  }

  lemma AudioIsAuthentic(c: Ciphers, wire: seq<byte>, plain: Plain)
    requires c.Ideal() && Unwrapped(c, Audio, wire) == Ok(plain)
    ensures exists p :: Authentic(c, Audio, wire, p, plain)
  {
    hide Ciphers.Ideal, Nonce, Be32, U16At, HeaderLength, WithoutPadding;
    var n := HeaderLength(wire).value;
    HeadIsPrefix(wire, n);
    var cut := WithoutPadding(wire, n, |wire|).value;
    CutIsInside(wire, n, |wire|);
    PaddingIsSuffix(wire, n, |wire|, cut);
    NonceIsHeadNonce(wire, n);
    var p := Parts(wire[..n], wire[n..cut - 16], wire[cut..], wire[cut - 16..cut]);
    assert p.head + p.text + p.tag + p.padding == wire;
    assert p.head[1] == wire[1] && p.head[2] == wire[2] && p.head[3] == wire[3];
    assert wire[cut..] == wire[cut..|wire|];
    assert Authentic(c, Audio, wire, p, plain);
  }

  lemma AuthenticAudioUnwraps(c: Ciphers, wire: seq<byte>, p: Parts, plain: Plain)
    requires c.Ideal() && Authentic(c, Audio, wire, p, plain)
    ensures Unwrapped(c, Audio, wire) == Ok(plain)
  {
    hide Ciphers.Ideal, Nonce, Be32, U16At, HeaderLength, WithoutPadding, IsHead, IsPadding;
    var n, cut := |p.head|, |wire| - |p.padding|;
    assert p.head <= wire;
    HeadStarts(p.head, wire);
    HeadIsPrefix(wire, n);
    assert wire[..n] == p.head && wire[n..cut - 16] == p.text && wire[cut - 16..cut] == p.tag;
    assert wire[cut..|wire|] == p.padding;
    PaddingIsSuffix(wire, n, |wire|, cut);
    NonceIsHeadNonce(wire, n);
    assert p.head[1] == wire[1] && p.head[2] == wire[2] && p.head[3] == wire[3];
  }

  /**
    Exactly what is let through: a datagram unwraps if and only if it is made of an RTP header, a text, the padding the
    header announces, and the tag of all that, and then to what the ciphers make of the text.
  */
  lemma UnwrapsExactlyTheAuthentic(c: Ciphers, mode: Mode, wire: seq<byte>, plain: Plain)
    requires c.Ideal()
    ensures Unwrapped(c, mode, wire) == Ok(plain) <==> IsAuthentic(c, mode, wire, plain)
  {
    hide Ciphers.Ideal, Authentic, Unwrapped;
    if Unwrapped(c, mode, wire) == Ok(plain) {
      if mode == Video {
        VideoIsAuthentic(c, wire, plain);
      } else {
        AudioIsAuthentic(c, wire, plain);
      }
    }
    if p :| Authentic(c, mode, wire, p, plain) {
      if mode == Video {
        AuthenticVideoUnwraps(c, wire, p, plain);
      } else {
        AuthenticAudioUnwraps(c, wire, p, plain);
      }
    }
  }

  lemma UnwrapsOnlyTheAuthentic(c: Ciphers, mode: Mode, wire: seq<byte>)
    requires c.Ideal()
    ensures Unwrapped(c, mode, wire).Ok? ==> IsAuthentic(c, mode, wire, Unwrapped(c, mode, wire).value)
    ensures (exists plain :: IsAuthentic(c, mode, wire, plain)) ==> Unwrapped(c, mode, wire).Ok?
  {
    hide Ciphers.Ideal, IsAuthentic, Unwrapped;
    if Unwrapped(c, mode, wire).Ok? {
      UnwrapsExactlyTheAuthentic(c, mode, wire, Unwrapped(c, mode, wire).value);
    }
    if plain :| IsAuthentic(c, mode, wire, plain) {
      UnwrapsExactlyTheAuthentic(c, mode, wire, plain);
    }
  }

  // ---------------------------------------------------------------------------------------------
  // Unwrapping inverts wrapping.
  // ---------------------------------------------------------------------------------------------

  /** The laws can be met. */
  lemma IdealCiphersExist()
    ensures exists c: Ciphers :: c.Ideal()
  {
    var c := Ciphers((iv, text) => text, data => seq(20, i => 0), (nonce, aad, text) => (text, seq(16, i => 0)),
                     (nonce, aad, text, tag) => Some(text));
    assert c.Ideal();
  }

  lemma BytesReadBack(x: u16, y: u32)
    ensures U16At(U16Bytes(x), 0) == x && Be32(Bytes32(y), 0) == y
  {
  }

  /** The header byte by byte: version 2, padding and extension, no contributing sources; then the numbers. */
  lemma HeaderFields(mode: Mode, ssrc: u32, sequence: u16, transport: u16, draw: Draw)
    requires ValidDraw(mode, draw)
    ensures var h := Header(mode, ssrc, sequence, transport, draw);
            && h[0] == 0xb0 && h[1] % 0x80 == (if mode == Video then 96 else 111)
            && h[1] / 0x80 == (if mode == Video && draw.marker then 1 else 0)
            && h[2..4] == U16Bytes(sequence) && h[4..8] == Bytes32(draw.timestamp) && h[8..12] == Bytes32(ssrc)
            && h[12..14] == [0xbe, 0xde] && h[14..16] == [0, 2]
            && h[16] == 0x32 && h[20] == 0x51 && h[21..23] == U16Bytes(transport) && h[23] == 0
            && 0x1_0000 * (h[17] as int) + 0x100 * (h[18] as int) + h[19] as int == draw.absoluteSendTime
  {
  }

  lemma NumbersSurvive(mode: Mode, ssrc: u32, sequence: u16, transport: u16, draw: Draw, rest: seq<byte>)
    requires ValidDraw(mode, draw) && rest != []
    ensures var wire := Header(mode, ssrc, sequence, transport, draw) + rest;
            && IsRtp(wire) && wire[0] == 0xb0 && wire[1] % 0x80 == PayloadType(mode)
            && U16At(wire, 2) == sequence && Be32(wire, 4) == draw.timestamp && Be32(wire, 8) == ssrc
            && U16At(wire, 14) == 2
            && wire[..24] == Header(mode, ssrc, sequence, transport, draw)
  {
    hide Header, U16Bytes, Bytes32;
    var h := Header(mode, ssrc, sequence, transport, draw);
    HeaderFields(mode, ssrc, sequence, transport, draw);
    BytesReadBack(sequence, draw.timestamp);
    BytesReadBack(sequence, ssrc);
    assert U16At(h, 2) == U16At(h[2..4], 0) && Be32(h, 4) == Be32(h[4..8], 0) && Be32(h, 8) == Be32(h[8..12], 0);
    assert U16At(h, 14) == U16At(h[14..16], 0);
  }

  lemma VideoRoundTrip(c: Ciphers, ssrc: u32, sequence: u16, transport: u16, draw: Draw, payload: seq<byte>)
    requires c.Ideal() && ValidDraw(Video, draw) && payload != []
    ensures Unwrapped(c, Video, Wire(c, Video, ssrc, sequence, transport, draw, payload)) ==
            Ok(Plain(sequence, 24, payload))
  {
    var header := Header(Video, ssrc, sequence, transport, draw);
    var text := c.keystream(Iv(ssrc, sequence, draw.timestamp), payload);
    var padding := PaddingBytes(Video, draw);
    var body := header + text + padding;
    var tag := Truncated(c.mac(body));
    var wire := Wire(c, Video, ssrc, sequence, transport, draw, payload);
    assert wire == body + tag && |tag| == 10;
    assert wire == header + (text + padding + tag);
    NumbersSurvive(Video, ssrc, sequence, transport, draw, text + padding + tag);
    var tagStart := |wire| - 10;
    assert wire[..tagStart] == body && wire[tagStart..] == tag;
    assert wire[tagStart - 1] == padding[|padding| - 1] == |padding|;
    assert wire[24..tagStart - |padding|] == text;
  }

  lemma AudioRoundTrip(c: Ciphers, ssrc: u32, sequence: u16, transport: u16, draw: Draw, payload: seq<byte>)
    requires c.Ideal() && ValidDraw(Audio, draw) && payload != []
    ensures Unwrapped(c, Audio, Wire(c, Audio, ssrc, sequence, transport, draw, payload)) ==
            Ok(Plain(sequence, 24, payload))
  {
    var header := Header(Audio, ssrc, sequence, transport, draw);
    var sealed := c.seal(Nonce(ssrc, sequence, draw.timestamp), header, payload);
    var padding := PaddingBytes(Audio, draw);
    var wire := Wire(c, Audio, ssrc, sequence, transport, draw, payload);
    assert wire == header + (sealed.0 + sealed.1 + padding);
    NumbersSurvive(Audio, ssrc, sequence, transport, draw, sealed.0 + sealed.1 + padding);
    assert wire[|wire| - 1] == padding[|padding| - 1] == |padding|;
    var end := |wire| - |padding|;
    assert wire[..24] == header && wire[24..end - 16] == sealed.0 && wire[end - 16..end] == sealed.1;
  }

  /** The wrapped packet is one RTP packet of the right mode whatever the draws were. */
  lemma RoundTrip(c: Ciphers, mode: Mode, ssrc: u32, sequence: u16, transport: u16, draw: Draw, payload: seq<byte>)
    requires c.Ideal() && ValidDraw(mode, draw) && payload != []
    ensures var wire := Wire(c, mode, ssrc, sequence, transport, draw, payload);
            && |wire| == 24 + |payload| + TailLength(mode, draw)
            && IsRtp(wire)
            && Unwrapped(c, mode, wire) == Ok(Plain(sequence, 24, payload))
  {
    match mode
    case Video => VideoRoundTrip(c, ssrc, sequence, transport, draw, payload);
    case Audio => AudioRoundTrip(c, ssrc, sequence, transport, draw, payload);
  }

  // ---------------------------------------------------------------------------------------------
  // In place.
  // ---------------------------------------------------------------------------------------------

  datatype WrapError = Empty | ExceedsCapacity

  lemma ReadsBack(s: seq<byte>, at: nat, part: seq<byte>)
    requires at + |part| <= |s|
    ensures |Splice(s, at, part)| == |s|
    ensures Splice(s, at, part)[at..at + |part|] == part
    ensures forall x, y | at + |part| <= x <= y <= |s| :: Splice(s, at, part)[x..y] == s[x..y]
  {
  }

  lemma KeystreamLength(c: Ciphers, iv: seq<byte>, text: seq<byte>)
    requires c.Ideal()
    ensures |c.keystream(iv, text)| == |text|
  {
  }

  lemma TagLength(c: Ciphers, data: seq<byte>)
    requires c.Ideal()
    ensures |Truncated(c.mac(data))| == 10
  {
  }

  lemma MacLength(c: Ciphers, data: seq<byte>)
    requires c.Ideal()
    ensures |c.mac(data)| == 20 && Truncated(c.mac(data)) == c.mac(data)[..10]
  {
  }

  lemma SealedLengths(c: Ciphers, nonce: seq<byte>, aad: seq<byte>, text: seq<byte>)
    requires c.Ideal()
    ensures |c.seal(nonce, aad, text).0| == |text| && |c.seal(nonce, aad, text).1| == 16
  {
  }

  lemma OpenedLength(c: Ciphers, nonce: seq<byte>, aad: seq<byte>, text: seq<byte>, tag: seq<byte>)
    requires c.Ideal() && c.open(nonce, aad, text, tag).Some?
    ensures |c.open(nonce, aad, text, tag).value| == |text|
  {
  }

  /** What follows the header of a video packet. */
  function VideoRest(c: Ciphers, iv: seq<byte>, header: seq<byte>, payload: seq<byte>, padding: seq<byte>): seq<byte>
  {
    var text := c.keystream(iv, payload);
    text + padding + Truncated(c.mac(header + text + padding))
  }

  /** What follows the header of an audio packet. */
  function AudioRest(c: Ciphers, nonce: seq<byte>, header: seq<byte>, payload: seq<byte>, padding: seq<byte>): seq<byte>
  {
    var sealed := c.seal(nonce, header, payload);
    sealed.0 + sealed.1 + padding
  }

  /** Encrypts the payload behind the header and appends padding and tag. */
  method FillVideo(c: Ciphers, storage: array<byte>, start: nat, payloadStart: nat, payloadEnd: nat,
                   iv: seq<byte>, padding: seq<byte>)
    requires c.Ideal() && start <= payloadStart <= payloadEnd && payloadEnd + |padding| + 10 <= storage.Length
    modifies storage
    ensures var rest := VideoRest(c, iv, old(storage[start..payloadStart]), old(storage[payloadStart..payloadEnd]),
                padding);
            |rest| == payloadEnd - payloadStart + |padding| + 10 &&
                storage[..] == Splice(old(storage[..]), payloadStart, rest)
  {
    hide Splice, Ciphers.Ideal;
    ghost var before := storage[..];
    var header := storage[start..payloadStart];
    var text := c.keystream(iv, storage[payloadStart..payloadEnd]);
    KeystreamLength(c, iv, storage[payloadStart..payloadEnd]);
    CopyInto(storage, payloadStart, text);
    CopyInto(storage, payloadEnd, padding);
    AdjacentWrites(before, payloadStart, text, padding);
    var tagStart := payloadEnd + |padding|;
    WrittenBehind(before, start, payloadStart, text + padding);
    assert storage[start..tagStart] == header + text + padding;
    var tag := Truncated(c.mac(storage[start..tagStart]));
    TagLength(c, header + text + padding);
    CopyInto(storage, tagStart, tag);
    AdjacentWrites(before, payloadStart, text + padding, tag);
  }

  lemma WrittenBehind(s: seq<byte>, start: nat, at: nat, part: seq<byte>)
    requires start <= at && at + |part| <= |s|
    ensures |Splice(s, at, part)| == |s| && Splice(s, at, part)[start..at + |part|] == s[start..at] + part
  {
  }

  method FillAudio(c: Ciphers, storage: array<byte>, start: nat, payloadStart: nat, payloadEnd: nat,
                   nonce: seq<byte>, padding: seq<byte>)
    requires c.Ideal() && start <= payloadStart <= payloadEnd && payloadEnd + |padding| + 16 <= storage.Length
    modifies storage
    ensures var rest := AudioRest(c, nonce, old(storage[start..payloadStart]), old(storage[payloadStart..payloadEnd]),
                padding);
            |rest| == payloadEnd - payloadStart + |padding| + 16 &&
                storage[..] == Splice(old(storage[..]), payloadStart, rest)
  {
    hide Splice, Ciphers.Ideal;
    ghost var before := storage[..];
    var (text, tag) := c.seal(nonce, storage[start..payloadStart], storage[payloadStart..payloadEnd]);
    SealedLengths(c, nonce, storage[start..payloadStart], storage[payloadStart..payloadEnd]);
    CopyInto(storage, payloadStart, text);
    CopyInto(storage, payloadEnd, tag);
    AdjacentWrites(before, payloadStart, text, tag);
    CopyInto(storage, payloadEnd + 16, padding);
    AdjacentWrites(before, payloadStart, text + tag, padding);
  }

  /** What follows the header. */
  function Rest(c: Ciphers, mode: Mode, ssrc: u32, sequence: u16, draw: Draw, header: seq<byte>,
      payload: seq<byte>): seq<byte>
    requires ValidDraw(mode, draw)
  {
    match mode
    case Video => VideoRest(c, Iv(ssrc, sequence, draw.timestamp), header, payload, PaddingBytes(mode, draw))
    case Audio => AudioRest(c, Nonce(ssrc, sequence, draw.timestamp), header, payload, PaddingBytes(mode, draw))
  }

  lemma WireIsHeaderAndRest(c: Ciphers, mode: Mode, ssrc: u32, sequence: u16, transport: u16, draw: Draw,
      payload: seq<byte>)
    requires ValidDraw(mode, draw)
    ensures var header := Header(mode, ssrc, sequence, transport, draw);
            Wire(c, mode, ssrc, sequence, transport, draw, payload) ==
                header + Rest(c, mode, ssrc, sequence, draw, header, payload)
  {
  }

  lemma WholePacket(s: seq<byte>, at: nat, header: seq<byte>, rest: seq<byte>)
    requires at + |header| + |rest| <= |s|
    ensures |Splice(s, at, header)| == |s|
    ensures Splice(Splice(s, at, header), at + |header|, rest)[at..at + |header| + |rest|] == header + rest
  {
    AdjacentWrites(s, at, header, rest);
    ReadsBack(s, at, header + rest);
  }

  method Fill(c: Ciphers, mode: Mode, ssrc: u32, sequence: u16, draw: Draw, storage: array<byte>,
              start: nat, payloadStart: nat, payloadEnd: nat)
    requires c.Ideal() && ValidDraw(mode, draw) && start <= payloadStart <= payloadEnd
    requires payloadEnd + TailLength(mode, draw) <= storage.Length
    modifies storage
    ensures var rest := Rest(c, mode, ssrc, sequence, draw, old(storage[start..payloadStart]),
                old(storage[payloadStart..payloadEnd]));
            && |rest| == payloadEnd - payloadStart + TailLength(mode, draw)
            && storage[..] == Splice(old(storage[..]), payloadStart, rest)
  {
    hide Splice, Ciphers.Ideal, Nonce, Iv, VideoRest, AudioRest;
    var padding := PaddingBytes(mode, draw);
    if mode == Video {
      FillVideo(c, storage, start, payloadStart, payloadEnd, Iv(ssrc, sequence, draw.timestamp), padding);
    } else {
      FillAudio(c, storage, start, payloadStart, payloadEnd, Nonce(ssrc, sequence, draw.timestamp), padding);
    }
  }

  method Wrap(c: Ciphers, packet: Packet, mode: Mode, ssrc: u32, state: SequenceState, draw: Draw)
    returns (error: Option<WrapError>)
    requires packet.Valid() && c.Ideal() && ValidDraw(mode, draw)
    modifies packet, packet.storage, state
    ensures packet.Valid()
    ensures old(packet.Contents()) == [] ==> error == Some(Empty) && state.count == old(state.count)
    ensures old(packet.Contents()) != [] ==>
              && state.count == WrappingIncrement(old(state.count))
              && (error == None <==>
                    && 24 <= old(packet.start)
                    && old(packet.end) + TailLength(mode, draw) <= PACKET_CAPACITY)
    ensures error != None ==> packet.Contents() == old(packet.Contents())
    ensures error == None ==>
              && packet.start == old(packet.start) - 24 && packet.end == old(packet.end) + TailLength(mode, draw)
              && packet.Contents() == Wire(c, mode, ssrc, SequenceAt(state.initialSequence, old(state.count)),
                                           old(state.transportSequence), draw, old(packet.Contents()))
  {
    hide Splice, Header, Ciphers.Ideal, SequenceAt, Wire, Rest, TailLength, ValidDraw;
    if packet.start == packet.end {
      return Some(Empty);
    }
    var sequence, transport := state.Next();
    if packet.start < 24 || packet.end + TailLength(mode, draw) > PACKET_CAPACITY {
      return Some(ExceedsCapacity);
    }
    var storage, payloadStart, payloadEnd := packet.storage, packet.start, packet.end;
    var header := Header(mode, ssrc, sequence, transport, draw);
    ghost var before, payload := storage[..], storage[payloadStart..payloadEnd];
    var prepended := packet.Prepend(24);
    CopyInto(storage, packet.start, header);
    ReadsBack(before, packet.start, header);
    assert storage[packet.start..payloadStart] == header && storage[payloadStart..payloadEnd] == payload;
    var extended := packet.ExtendTail(TailLength(mode, draw));
    Fill(c, mode, ssrc, sequence, draw, storage, packet.start, payloadStart, payloadEnd);
    WholePacket(before, packet.start, header, Rest(c, mode, ssrc, sequence, draw, header, payload));
    WireIsHeaderAndRest(c, mode, ssrc, sequence, transport, draw, payload);
    return None;
  }

  /** Replaces part of the packet by a text of the same length and narrows the range to it. */
  method Narrow(packet: Packet, from: nat, to: nat, text: seq<byte>)
    requires packet.Valid() && from <= to <= PACKET_CAPACITY && |text| == to - from
    modifies packet, packet.storage
    ensures packet.Valid() && packet.start == from && packet.end == to && packet.Contents() == text
  {
    hide Splice;
    ReadsBack(packet.storage[..], from, text);
    CopyInto(packet.storage, from, text);
    var ok := packet.SetRange(from, to);
  }

  method UnwrapVideo(c: Ciphers, packet: Packet, n: nat) returns (r: Result<u16, UnwrapError>)
    requires packet.Valid() && c.Ideal() && |packet.Contents()| >= 13 && 12 <= n <= |packet.Contents()|
    modifies packet, packet.storage
    ensures packet.Valid()
    ensures match UnwrappedVideo(c, old(packet.Contents()), n)
            case Err(e) => r == Err(e) && packet.Contents() == old(packet.Contents())
            case Ok(plain) =>
              r == Ok(plain.sequence) && packet.Contents() == plain.payload &&
                  packet.start == old(packet.start) + plain.at
    ensures var wire := old(packet.Contents());
            r.Ok? ==> |wire| >= 22 && wire[|wire| - 10..] == c.mac(wire[..|wire| - 10])[..10]
  {
    hide Ciphers.Ideal, Nonce, Iv, U16At, Be32, Truncated;
    var wire := packet.Contents();
    if |wire| < n + 10 {
      return Err(MissingTag);
    }
    var tagStart := |wire| - 10;
    MacLength(c, wire[..tagStart]);
    if Truncated(c.mac(wire[..tagStart])) != wire[tagStart..] {
      return Err(AuthenticationFailed);
    }
    var payloadEnd := tagStart;
    if wire[0] / 0x20 % 2 != 0 {
      var padding := wire[payloadEnd - 1];
      if padding == 0 || padding > payloadEnd - n {
        return Err(InvalidPadding);
      }
      payloadEnd := payloadEnd - padding;
    }
    var iv := Iv(Be32(wire, 8), U16At(wire, 2), Be32(wire, 4));
    var text := c.keystream(iv, wire[n..payloadEnd]);
    KeystreamLength(c, iv, wire[n..payloadEnd]);
    Narrow(packet, packet.start + n, packet.start + payloadEnd, text);
    return Ok(U16At(wire, 2));
  }

  /** A failed authentication may leave anything in the payload; the packet is then dropped. */
  method UnwrapAudio(c: Ciphers, packet: Packet, n: nat) returns (r: Result<u16, UnwrapError>)
    requires packet.Valid() && c.Ideal() && |packet.Contents()| >= 13 && 12 <= n <= |packet.Contents()|
    modifies packet, packet.storage
    ensures packet.Valid()
    ensures match UnwrappedAudio(c, old(packet.Contents()), n)
            case Err(e) => r == Err(e) && (e != AuthenticationFailed ==> packet.Contents() == old(packet.Contents()))
            case Ok(plain) =>
              r == Ok(plain.sequence) && packet.Contents() == plain.payload &&
                  packet.start == old(packet.start) + plain.at
  {
    hide Ciphers.Ideal, Nonce, Iv, U16At, Be32, Truncated;
    var wire := packet.Contents();
    if wire[1] % 0x80 != 111 {
      return Err(UnsupportedPayloadType);
    }
    var payloadEnd := |wire|;
    if wire[0] / 0x20 % 2 != 0 {
      var padding := wire[payloadEnd - 1];
      if padding == 0 || padding > payloadEnd - n {
        return Err(InvalidPadding);
      }
      payloadEnd := payloadEnd - padding;
    }
    if payloadEnd <= n + 16 {
      return Err(EmptyPayload);
    }
    var tagStart := payloadEnd - 16;
    var nonce := Nonce(Be32(wire, 8), U16At(wire, 2), Be32(wire, 4));
    var plain := c.open(nonce, wire[..n], wire[n..tagStart], wire[tagStart..payloadEnd]);
    if plain.None? {
      return Err(AuthenticationFailed);
    }
    OpenedLength(c, nonce, wire[..n], wire[n..tagStart], wire[tagStart..payloadEnd]);
    Narrow(packet, packet.start + n, packet.start + tagStart, plain.value);
    return Ok(U16At(wire, 2));
  }

  /** Unwraps in place; every byte read lies inside the packet, since the result is a function of its contents. */
  method Unwrap(c: Ciphers, packet: Packet, mode: Mode) returns (r: Result<u16, UnwrapError>)
    requires packet.Valid() && c.Ideal()
    modifies packet, packet.storage
    ensures packet.Valid()
    ensures match Unwrapped(c, mode, old(packet.Contents()))
            case Err(e) =>
              r == Err(e) && (mode == Video || e != AuthenticationFailed ==>
                  packet.Contents() == old(packet.Contents()))
            case Ok(plain) =>
              r == Ok(plain.sequence) && packet.Contents() == plain.payload &&
                  packet.start == old(packet.start) + plain.at
    ensures r.Ok? ==>
              && packet.start >= old(packet.start)
              && IsAuthentic(c, mode, old(packet.Contents()),
                             Plain(r.value, packet.start - old(packet.start), packet.Contents()))
    ensures (exists plain :: IsAuthentic(c, mode, old(packet.Contents()), plain)) ==> r.Ok?
  {
    hide Ciphers.Ideal, UnwrappedVideo, UnwrappedAudio, IsAuthentic;
    var wire := packet.Contents();
    UnwrapsOnlyTheAuthentic(c, mode, wire);
    if |wire| < 13 || wire[0] / 0x40 != 2 {
      return Err(NotRtp);
    }
    if wire[1] % 0x80 !in {111, 96, 6} {
      return Err(UnsupportedPayloadType);
    }
    var headerLength := 12;
    if wire[0] / 0x10 % 2 != 0 {
      if |wire| < 16 {
        return Err(TooShortForExtension);
      }
      headerLength := headerLength + 4 + U16At(wire, 14) * 4;
    }
    if |wire| < headerLength {
      return Err(TooShortForHeader);
    }
    if mode == Video {
      r := UnwrapVideo(c, packet, headerLength);
    } else {
      r := UnwrapAudio(c, packet, headerLength);
    }
  }
}
