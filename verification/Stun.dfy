/** STUN messages: which datagrams decode, what their attributes are, and what the type field encodes. */
module Stun {
  import opened Common

  const HEADER_SIZE: nat := 20
  const COOKIE: seq<byte> := [0x21, 0x12, 0xa4, 0x42]

  // ---------------------------------------------------------------------------------------------
  // The format: sections 5 and 14 of RFC 8489.
  // ---------------------------------------------------------------------------------------------

  /** An attribute on the wire; the padding bytes may hold anything. */
  datatype RawAttribute = RawAttribute(kind: u16, value: seq<byte>, padding: seq<byte>)

  datatype Parts = Parts(kind: u16, transaction: seq<byte>, attributes: seq<RawAttribute>)

  function Padded(length: nat): nat
  {
    (length + 3) / 4 * 4
  }

  lemma U16RoundTrip(raw: seq<byte>, i: nat, n: u16)
    requires i + 2 <= |raw|
    ensures raw[i..i + 2] == U16Bytes(n) <==> U16At(raw, i) == n
  {
    var high, low: int := raw[i], raw[i + 1];
    assert raw[i..i + 2] == [raw[i], raw[i + 1]];
    assert (high * 0x100 + low) / 0x100 == high && (high * 0x100 + low) % 0x100 == low;
  }

  predicate WellFormedAttribute(a: RawAttribute)
  {
    |a.value| < U16_SPAN && |a.value| + |a.padding| == Padded(|a.value|)
  }

  function AttributeBytes(a: RawAttribute): (b: seq<byte>)
    requires WellFormedAttribute(a)
    ensures |b| % 4 == 0
  {
    assert Padded(|a.value|) % 4 == 0;
    U16Bytes(a.kind) + U16Bytes(|a.value|) + a.value + a.padding
  }

  predicate WellFormedAttributes(attributes: seq<RawAttribute>)
  {
    forall i | 0 <= i < |attributes| :: WellFormedAttribute(attributes[i])
  }

  function Body(attributes: seq<RawAttribute>): (b: seq<byte>)
    requires WellFormedAttributes(attributes)
    ensures |b| % 4 == 0
  {
    if attributes == [] then [] else AttributeBytes(attributes[0]) + Body(attributes[1..])
  }

  predicate WellFormed(parts: Parts)
  {
    && 0 < parts.kind < 0x4000 && |parts.transaction| == 12
    && WellFormedAttributes(parts.attributes) && |Body(parts.attributes)| < U16_SPAN
  }

  function Serialize(parts: Parts): seq<byte>
    requires WellFormed(parts)
  {
    U16Bytes(parts.kind) + U16Bytes(|Body(parts.attributes)|) + COOKIE + parts.transaction + Body(parts.attributes)
  }

  // ---------------------------------------------------------------------------------------------
  // Decoding the attributes.
  // ---------------------------------------------------------------------------------------------

  /** The attribute at the front of `body` fits into it. */
  predicate Fits(body: seq<byte>)
  {
    |body| >= 4 && 4 + Padded(U16At(body, 2)) <= |body|
  }

  function First(body: seq<byte>): (a: RawAttribute)
    requires Fits(body)
    ensures WellFormedAttribute(a)
  {
    var length := U16At(body, 2);
    RawAttribute(U16At(body, 0), body[4..4 + length], body[4 + length..4 + Padded(length)])
  }

  function Rest(body: seq<byte>): (r: seq<byte>)
    requires Fits(body)
    ensures |r| < |body|
  {
    body[4 + Padded(U16At(body, 2))..]
  }

  /** The attributes of a body, or nothing when some attribute is cut short. */
  function Parse(body: seq<byte>): Option<seq<RawAttribute>>
    decreases |body|
  {
    if body == [] then Some([])
    else if !Fits(body) then None
    else
      var rest := Parse(Rest(body));
      if rest.None? then None else Some([First(body)] + rest.value)
  }

  lemma FrontIs(a: RawAttribute, more: seq<byte>)
    requires WellFormedAttribute(a)
    ensures var body := AttributeBytes(a) + more; Fits(body) && First(body) == a && Rest(body) == more
  {
    var body := AttributeBytes(a) + more;
    assert body[0..2] == U16Bytes(a.kind) && body[2..4] == U16Bytes(|a.value|);
    U16RoundTrip(body, 0, a.kind);
    U16RoundTrip(body, 2, |a.value|);
    assert body[4..4 + |a.value|] == a.value;
    assert body[4 + |a.value|..4 + Padded(|a.value|)] == a.padding;
    assert body[4 + Padded(|a.value|)..] == more;
  }

  lemma FrontBytes(body: seq<byte>)
    requires Fits(body)
    ensures AttributeBytes(First(body)) + Rest(body) == body
  {
    var length := U16At(body, 2);
    U16RoundTrip(body, 0, U16At(body, 0));
    U16RoundTrip(body, 2, length);
    assert body == body[0..2] + body[2..4] + body[4..4 + length] + body[4 + length..4 + Padded(length)] + Rest(body);
  }

  /** Every attribute list is read back from its serialisation. */
  lemma {:induction false} ParseReadsBack(attributes: seq<RawAttribute>)
    requires WellFormedAttributes(attributes)
    ensures Parse(Body(attributes)) == Some(attributes)
  {
    if attributes != [] {
      ParseReadsBack(attributes[1..]);
      FrontIs(attributes[0], Body(attributes[1..]));
      assert [attributes[0]] + attributes[1..] == attributes;
    }
  }

  /** What parses is the serialisation of what was read: the attributes tile the body. */
  lemma {:induction false} ParsedTiles(body: seq<byte>)
    requires Parse(body).Some?
    ensures WellFormedAttributes(Parse(body).value) && Body(Parse(body).value) == body
    decreases |body|
  {
    if body != [] {
      ParsedTiles(Rest(body));
      FrontBytes(body);
      var rest := Parse(Rest(body)).value;
      assert ([First(body)] + rest)[1..] == rest;
    }
  }

  // ---------------------------------------------------------------------------------------------
  // Decoding a message.
  // ---------------------------------------------------------------------------------------------

  datatype DecodeError =
    | HeaderTruncated
    | LeadingBits
    | TypeZero
    | CookieMismatch
    | LengthNotAligned
    | LengthMismatch
    | AttributeHeaderTruncated
    | AttributeValueTruncated

  datatype Message = Message(raw: seq<byte>, kind: u16, transaction: seq<byte>, end: nat)

  /** The checks before the attributes, in the order in which they are made. */
  function HeaderError(raw: seq<byte>): Option<DecodeError>
  {
    if |raw| < HEADER_SIZE then Some(HeaderTruncated)
    else if U16At(raw, 0) >= 0x4000 then Some(LeadingBits)
    else if U16At(raw, 0) == 0 then Some(TypeZero)
    else if raw[4..8] != COOKIE then Some(CookieMismatch)
    else if U16At(raw, 2) % 4 != 0 then Some(LengthNotAligned)
    else if |raw| != HEADER_SIZE + U16At(raw, 2) then Some(LengthMismatch)
    else None
  }

  predicate Decodes(raw: seq<byte>)
  {
    HeaderError(raw).None? && Parse(raw[HEADER_SIZE..]).Some?
  }

  /** The first attribute that is cut short, if any. */
  function BodyError(body: seq<byte>): Option<DecodeError>
    decreases |body|
  {
    if body == [] then None
    else if |body| < 4 then Some(AttributeHeaderTruncated)
    else if !Fits(body) then Some(AttributeValueTruncated)
    else BodyError(Rest(body))
  }

  lemma {:induction false} ParsesUnlessCutShort(body: seq<byte>)
    ensures Parse(body).Some? <==> BodyError(body).None?
    decreases |body|
  {
    if body != [] && Fits(body) {
      ParsesUnlessCutShort(Rest(body));
    }
  }

  /** In a body of whole words an attribute header is never cut short: that error cannot occur. */
  lemma {:induction false} HeadersAreNeverCutShort(body: seq<byte>)
    requires |body| % 4 == 0
    ensures BodyError(body) != Some(AttributeHeaderTruncated)
    decreases |body|
  {
    if body != [] && Fits(body) {
      assert |Rest(body)| == |body| - 4 - Padded(U16At(body, 2)) && Padded(U16At(body, 2)) % 4 == 0;
      HeadersAreNeverCutShort(Rest(body));
    }
  }

  method Decode(raw: seq<byte>) returns (r: Result<Message, DecodeError>)
    ensures r.Ok? <==> Decodes(raw)
    ensures r.Ok? ==> r.value == Message(raw, U16At(raw, 0), raw[8..20], |raw|)
    ensures HeaderError(raw).Some? ==> r == Err(HeaderError(raw).value)
    ensures HeaderError(raw).None? && r.Err? ==>
              r.error == AttributeValueTruncated && BodyError(raw[HEADER_SIZE..]) == Some(AttributeValueTruncated)
  {
    if |raw| < HEADER_SIZE {
      return Err(HeaderTruncated);
    }
    var kind := U16At(raw, 0);
    if kind / 0x4000 != 0 {
      return Err(LeadingBits);
    }
    if kind == 0 {
      return Err(TypeZero);
    }
    if raw[4..8] != COOKIE {
      return Err(CookieMismatch);
    }
    var declared := U16At(raw, 2);
    if declared % 4 != 0 {
      return Err(LengthNotAligned);
    }
    var end := HEADER_SIZE + declared;
    if |raw| != end {
      return Err(LengthMismatch);
    }
    ParsesUnlessCutShort(raw[HEADER_SIZE..]);
    HeadersAreNeverCutShort(raw[HEADER_SIZE..]);
    var position := HEADER_SIZE;
    while position < end
      invariant HEADER_SIZE <= position <= end
      invariant BodyError(raw[HEADER_SIZE..]) == BodyError(raw[position..])
    {
      ghost var body := raw[position..];
      if end - position < 4 {
        return Err(AttributeHeaderTruncated);
      }
      var length := U16At(raw, position + 2);
      assert length == U16At(body, 2);
      var valueStart := position + 4;
      var next := valueStart + Padded(length);
      if next > end || valueStart + length > end {
        return Err(AttributeValueTruncated);
      }
      assert Rest(body) == raw[next..];
      position := next;
    }
    return Ok(Message(raw, kind, raw[8..20], end));
  }

  /** A datagram decodes exactly when it is the serialisation of some type, transaction and attribute list. */
  lemma DecodesExactlyTheFormat(raw: seq<byte>)
    ensures Decodes(raw) <==> exists parts :: WellFormed(parts) && raw == Serialize(parts)
  {
    if Decodes(raw) {
      var parts := PartsOf(raw);
      DecodedIsSerialized(raw);
      assert WellFormed(parts) && raw == Serialize(parts);
    }
    if parts :| WellFormed(parts) && raw == Serialize(parts) {
      SerializedDecodes(parts);
    }
  }

  function PartsOf(raw: seq<byte>): Parts
    requires Decodes(raw)
  {
    Parts(U16At(raw, 0), raw[8..20], Parse(raw[HEADER_SIZE..]).value)
  }

  lemma DecodedIsSerialized(raw: seq<byte>)
    requires Decodes(raw)
    ensures WellFormed(PartsOf(raw)) && Serialize(PartsOf(raw)) == raw
  {
    ParsedTiles(raw[HEADER_SIZE..]);
    U16RoundTrip(raw, 0, U16At(raw, 0));
    U16RoundTrip(raw, 2, U16At(raw, 2));
    assert raw == raw[0..2] + raw[2..4] + raw[4..8] + raw[8..20] + raw[20..];
  }

  /** Encoding and decoding returns the type, the transaction and the attributes. */
  lemma SerializedDecodes(parts: Parts)
    requires WellFormed(parts)
    ensures Decodes(Serialize(parts)) && PartsOf(Serialize(parts)) == parts
  {
    var raw, body := Serialize(parts), Body(parts.attributes);
    assert raw[0..2] == U16Bytes(parts.kind) && raw[2..4] == U16Bytes(|body|);
    assert raw[4..8] == COOKIE && raw[8..20] == parts.transaction && raw[HEADER_SIZE..] == body;
    U16RoundTrip(raw, 0, parts.kind);
    U16RoundTrip(raw, 2, |body|);
    ParseReadsBack(parts.attributes);
  }

  // ---------------------------------------------------------------------------------------------
  // The attribute iterator.
  // ---------------------------------------------------------------------------------------------

  datatype Attribute = Attribute(kind: u16, value: seq<byte>, headerStart: nat, valueStart: nat, valueEnd: nat)

  /** The old number of an attribute is read as its current one. */
  function Normalized(kind: u16): u16
  {
    if kind == 0x8020 then 0x0020 else kind
  }

  /** An iterated attribute describes this stretch of the datagram. */
  predicate Describes(a: Attribute, raw: seq<byte>, wire: RawAttribute, start: nat)
  {
    && a == Attribute(Normalized(wire.kind), wire.value, start, start + 4, start + 4 + |wire.value|)
    && a.valueEnd <= |raw| && raw[a.valueStart..a.valueEnd] == a.value
  }

  /** The attribute at `position` is `a`, and the next one starts at `next`. */
  predicate Yields(raw: seq<byte>, position: nat, a: Attribute, next: nat)
  {
    && position <= next <= |raw|
    && Fits(raw[position..]) && Parse(raw[position..]).Some? && Parse(raw[next..]).Some?
    && Parse(raw[position..]).value == [First(raw[position..])] + Parse(raw[next..]).value
    && Describes(a, raw, First(raw[position..]), position)
    && next == position + |AttributeBytes(First(raw[position..]))|
  }

  class Attributes {
    const raw: seq<byte>
    const end: nat
    var position: nat

    /** The iterator stands between attributes of a message that decoded. */
    ghost predicate Valid()
      reads this
    {
      end == |raw| && HEADER_SIZE <= position <= end && Parse(raw[position..]).Some?
    }

    constructor (message: Message)
      requires Decodes(message.raw) && message.end == |message.raw|
      ensures Valid() && raw == message.raw && position == HEADER_SIZE
    {
      raw, end, position := message.raw, message.end, HEADER_SIZE;
    }

    method Next() returns (a: Option<Attribute>)
      requires Valid()
      modifies this`position
      ensures Valid()
      ensures a.None? <==> old(position) == end
      ensures a.None? ==> position == old(position)
      ensures a.Some? ==> old(position) < position && Yields(raw, old(position), a.value, position)
    {
      if position >= end {
        return None;
      }
      ghost var body := raw[position..];
      var headerStart := position;
      var kind := U16At(raw, headerStart);
      assert kind == U16At(body, 0);
      var length := U16At(raw, headerStart + 2);
      assert length == U16At(body, 2);
      var valueStart := headerStart + 4;
      var valueEnd := valueStart + length;
      position := valueStart + Padded(length);
      assert Rest(body) == raw[position..];
      assert body[4..4 + length] == raw[valueStart..valueEnd];
      kind := if kind == 0x8020 then 0x0020 else kind;
      return Some(Attribute(kind, raw[valueStart..valueEnd], headerStart, valueStart, valueEnd));
    }
  }

  function StartOf(attributes: seq<RawAttribute>, i: nat): nat
    requires WellFormedAttributes(attributes) && i <= |attributes|
  {
    HEADER_SIZE + |Body(attributes[..i])|
  }

  lemma {:induction false} BodyOfMore(attributes: seq<RawAttribute>, i: nat)
    requires WellFormedAttributes(attributes) && i < |attributes|
    ensures |Body(attributes[..i + 1])| == |Body(attributes[..i])| + |AttributeBytes(attributes[i])|
  {
    if i > 0 {
      BodyOfMore(attributes[1..], i - 1);
      assert attributes[..i + 1][1..] == attributes[1..][..i] && attributes[..i][1..] == attributes[1..][..i - 1];
    } else {
      assert attributes[..1][1..] == [] && attributes[..0] == [];
    }
  }

  /** The first attributes have been gone through, and the rest is what the remaining bytes hold. */
  ghost predicate Progress(raw: seq<byte>, wire: seq<RawAttribute>, list: seq<Attribute>, position: nat)
  {
    && WellFormedAttributes(wire) && |list| <= |wire| && position <= |raw|
    && Parse(raw[position..]) == Some(wire[|list|..])
    && position == StartOf(wire, |list|)
    && forall i | 0 <= i < |list| :: Describes(list[i], raw, wire[i], StartOf(wire, i))
  }

  lemma ProgressStarts(raw: seq<byte>)
    requires Decodes(raw)
    ensures Progress(raw, PartsOf(raw).attributes, [], HEADER_SIZE)
  {
    ParsedTiles(raw[HEADER_SIZE..]);
    var wire := PartsOf(raw).attributes;
    assert wire[0..] == wire && wire[..0] == [];
  }

  lemma ProgressContinues(raw: seq<byte>, wire: seq<RawAttribute>, list: seq<Attribute>, position: nat, a: Attribute,
      next: nat)
    requires Progress(raw, wire, list, position) && Yields(raw, position, a, next)
    ensures Progress(raw, wire, list + [a], next)
  {
    hide Describes, First, Fits;
    assert wire[|list|] == First(raw[position..]) && wire[|list| + 1..] == wire[|list|..][1..];
    BodyOfMore(wire, |list|);
  }

  lemma ProgressEnds(raw: seq<byte>, wire: seq<RawAttribute>, list: seq<Attribute>)
    requires Progress(raw, wire, list, |raw|)
    ensures |list| == |wire|
  {
    assert raw[|raw|..] == [];
  }

  /** Going through a decoded message ends, stays in bounds, and gives its attributes in order, end to end. */
  method Iterate(message: Message) returns (list: seq<Attribute>)
    requires Decodes(message.raw) && message.end == |message.raw|
    ensures var wire := PartsOf(message.raw).attributes;
            && WellFormedAttributes(wire) && |list| == |wire|
            && (forall i | 0 <= i < |list| :: Describes(list[i], message.raw, wire[i], StartOf(wire, i)))
            && StartOf(wire, |wire|) == message.end
  {
    ProgressStarts(message.raw);
    ghost var wire := PartsOf(message.raw).attributes;
    list := Collect(message, wire);
    ProgressEnds(message.raw, wire, list);
  }

  method Collect(message: Message, ghost wire: seq<RawAttribute>) returns (list: seq<Attribute>)
    requires Decodes(message.raw) && message.end == |message.raw|
    requires Progress(message.raw, wire, [], HEADER_SIZE)
    ensures Progress(message.raw, wire, list, message.end)
  {
    hide Describes, Progress, Decodes, Yields;
    var cursor := new Attributes(message);
    list := [];
    var more := true;
    while more
      invariant cursor.Valid() && fresh(cursor) && cursor.raw == message.raw
      invariant Progress(message.raw, wire, list, cursor.position)
      invariant !more ==> cursor.position == message.end
      decreases more, message.end - cursor.position
    {
      ghost var here := cursor.position;
      var a := cursor.Next();
      if a.None? {
        more := false;
      } else {
        ProgressContinues(message.raw, wire, list, here, a.value, cursor.position);
        list := list + [a.value];
      }
    }
  }

  // ---------------------------------------------------------------------------------------------
  // The type field: class and method share its fourteen bits.
  // ---------------------------------------------------------------------------------------------

  datatype Class = Request | Indication | Success | Failure

  function ClassOf(kind: bv16): Class
  {
    match ((kind >> 4) & 1) | ((kind >> 7) & 2)
    case 0 => Request
    case 1 => Indication
    case 2 => Success
    case _ => Failure
  }

  function MethodOf(kind: bv16): bv16
  {
    (kind & 0x000f) | ((kind >> 1) & 0x0070) | ((kind >> 2) & 0x0f80)
  }

  function ClassBits(kind: Class): bv16
  {
    match kind
    case Request => 0x0000
    case Indication => 0x0010
    case Success => 0x0100
    case Failure => 0x0110
  }

  function MethodBits(m: bv16): bv16
  {
    (m & 0x000f) | ((m & 0x0070) << 1) | ((m & 0x0f80) << 2)
  }

  /** The type with this class and method. */
  function KindOf(kind: Class, m: bv16): bv16
  {
    ClassBits(kind) | MethodBits(m)
  }

  /**
    Types as the standards write them (sections 5 of RFC 8489 and 17 of RFC 8656): Binding is method 1, Allocate 3,
    Send 6, Data 7, ChannelBind 9; and the bits of the method keep their order around the two of the class.
  */
  lemma KnownTypes()
    ensures ClassOf(0x0001) == Request && MethodOf(0x0001) == 1
    ensures ClassOf(0x0101) == Success && MethodOf(0x0101) == 1
    ensures ClassOf(0x0111) == Failure && MethodOf(0x0111) == 1
    ensures ClassOf(0x0003) == Request && MethodOf(0x0003) == 3
    ensures ClassOf(0x0103) == Success && MethodOf(0x0103) == 3
    ensures ClassOf(0x0113) == Failure && MethodOf(0x0113) == 3
    ensures ClassOf(0x0016) == Indication && MethodOf(0x0016) == 6
    ensures ClassOf(0x0017) == Indication && MethodOf(0x0017) == 7
    ensures ClassOf(0x0009) == Request && MethodOf(0x0009) == 9
    ensures MethodOf(0x0020) == 0x0010 && MethodOf(0x0040) == 0x0020 && MethodOf(0x0080) == 0x0040
    ensures MethodOf(0x0200) == 0x0080 && MethodOf(0x0400) == 0x0100 && MethodOf(0x0800) == 0x0200
    ensures MethodOf(0x1000) == 0x0400 && MethodOf(0x2000) == 0x0800
  {
  }

  /** Class and method determine the type. */
  lemma TypeFromParts(kind: bv16)
    requires kind & 0xc000 == 0
    ensures KindOf(ClassOf(kind), MethodOf(kind)) == kind && MethodOf(kind) & 0xf000 == 0
  {
  }

  lemma BitsDoNotMeet(bits: bv16, m: bv16)
    requires m & 0xf000 == 0 && bits & 0x0110 == bits
    ensures MethodOf(bits | MethodBits(m)) == m && (bits | MethodBits(m)) & 0xc000 == 0
    ensures (bits | MethodBits(m)) & 0x0110 == bits
  {
  }

  lemma ClassFromBits(kind: bv16)
    ensures ClassBits(ClassOf(kind)) == kind & 0x0110
  {
  }

  /** The type determines class and method. */
  lemma PartsFromType(kind: Class, m: bv16)
    requires m & 0xf000 == 0
    ensures KindOf(kind, m) & 0xc000 == 0
    ensures ClassOf(KindOf(kind, m)) == kind && MethodOf(KindOf(kind, m)) == m
  {
    hide MethodOf, MethodBits, ClassOf;
    BitsDoNotMeet(ClassBits(kind), m);
    ClassFromBits(KindOf(kind, m));
  }
}
