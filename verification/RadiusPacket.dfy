/** Packet framing and the Response Authenticator of internal/protocol/radius/packet.go
    (sections 3 and 5 of RFC 2865). */
module RadiusPacket {
  import opened Bytes
  import opened Options

  const HEADER_SIZE := 20

  datatype Attribute = Attribute(typ: byte, length: byte, value: seq<byte>)

  /** The contents of a packet; `class Packet` below is the object the server mutates. */
  datatype PacketData = PacketData(code: byte, identifier: byte, length: int, authenticator: Block,
                                   attributes: seq<Attribute>, secret: seq<byte>)

  datatype ParseError = PacketTooShort | InvalidLength | InvalidAttributeLength | AttributeOverflow

  datatype Result<+T> = Ok(value: T) | Err(error: ParseError)

  // ---------- Wire format ----------

  function AttributeBytes(attrs: seq<Attribute>): seq<byte> {
    if attrs == [] then []
    else [attrs[0].typ, attrs[0].length] + attrs[0].value + AttributeBytes(attrs[1..])
  }

  /** The length octet counts the type octet, itself and the value; so a value has at most 253 octets. */
  predicate WellFormed(attrs: seq<Attribute>) {
    forall i :: 0 <= i < |attrs| ==> attrs[i].length as int == 2 + |attrs[i].value|
  }

  function Size(p: PacketData): nat {
    HEADER_SIZE + |AttributeBytes(p.attributes)|
  }

  /** The 16-bit length field silently wraps for packets above 65535 octets. */
  function EncodedPacket(p: PacketData): (data: seq<byte>)
    ensures |data| == Size(p)
  {
    var n := Size(p) % 0x1_0000;
    [p.code, p.identifier, LowByte(n / 256), LowByte(n)] + p.authenticator + AttributeBytes(p.attributes)
  }

  function HeaderLength(data: seq<byte>): int
    requires |data| >= HEADER_SIZE
  {
    U16(data[2], data[3])
  }

  /** A header length below 20 makes the Go slice expression panic; callers must exclude it. */
  predicate HeaderSane(data: seq<byte>) {
    |data| >= HEADER_SIZE ==> HeaderLength(data) >= HEADER_SIZE
  }

  function ParsedAttributes(data: seq<byte>): Result<seq<Attribute>>
    decreases |data|
  {
    if |data| < 2 then Ok([])
    else if data[1] < 2 then Err(InvalidAttributeLength)
    else if data[1] as int > |data| then Err(AttributeOverflow)
    else
      var n := data[1] as int;
      match ParsedAttributes(data[n..])
      case Err(e) => Err(e)
      case Ok(rest) => Ok([Attribute(data[0], data[1], data[2..n])] + rest)
  }

  function ParsedPacket(data: seq<byte>, secret: seq<byte>): Result<PacketData>
    requires HeaderSane(data)
  {
    if |data| < HEADER_SIZE then Err(PacketTooShort)
    else if HeaderLength(data) > |data| then Err(InvalidLength)
    else
      match ParsedAttributes(data[HEADER_SIZE..HeaderLength(data)])
      case Err(e) => Err(e)
      case Ok(attrs) => Ok(PacketData(data[0], data[1], HeaderLength(data), data[4..20], attrs, secret))
  }

  // ---------- The operations ----------

  function Prepend(attrs: seq<Attribute>, r: Result<seq<Attribute>>): Result<seq<Attribute>> {
    match r
    case Err(e) => Err(e)
    case Ok(rest) => Ok(attrs + rest)
  }

  lemma {:induction false} PrependNothing(r: Result<seq<Attribute>>)
    ensures Prepend([], r) == r
  {
    if r.Ok? { assert [] + r.value == r.value; }
  }

  lemma {:induction false} PrependStep(attrs: seq<Attribute>, data: seq<byte>)
    requires |data| >= 2 && 2 <= data[1] as int <= |data|
    ensures var n := data[1] as int;
            Prepend(attrs, ParsedAttributes(data)) ==
            Prepend(attrs + [Attribute(data[0], data[1], data[2..n])], ParsedAttributes(data[n..]))
  {
    match ParsedAttributes(data[data[1] as int..]) {
      case Err(_) =>
      case Ok(rest) =>
        var a := Attribute(data[0], data[1], data[2..data[1] as int]);
        assert attrs + ([a] + rest) == attrs + [a] + rest;
    }
  }

  lemma {:induction false} SliceOfTail(data: seq<byte>, from: nat, i: nat, j: nat)
    requires i <= j <= |data| - from
    ensures data[from..][j..] == data[from + j..] && data[from..][i..j] == data[from + i..from + j]
  {}

  method ParseAttributes(data: seq<byte>) returns (r: Result<seq<Attribute>>)
    ensures r == ParsedAttributes(data)
  {
    var attrs: seq<Attribute> := [];
    var offset := 0;
    PrependNothing(ParsedAttributes(data));
    assert data[0..] == data;
    while offset < |data|
      invariant 0 <= offset <= |data|
      invariant Prepend(attrs, ParsedAttributes(data[offset..])) == ParsedAttributes(data)
    {
      if |data| - offset < 2 {
        break;
      }
      var attrType, attrLen := data[offset], data[offset + 1];
      if attrLen < 2 {
        return Err(InvalidAttributeLength);
      }
      if offset + attrLen as int > |data| {
        return Err(AttributeOverflow);
      }
      var attr := Attribute(attrType, attrLen, data[offset + 2..offset + attrLen as int]);
      PrependStep(attrs, data[offset..]);
      SliceOfTail(data, offset, 2, attrLen as int);
      attrs := attrs + [attr];
      offset := offset + attrLen as int;
    }
    assert attrs + [] == attrs;
    r := Ok(attrs);
  }

  class Packet {
    var code: byte
    var identifier: byte
    var length: int
    var authenticator: Block
    var attributes: seq<Attribute>
    var secret: seq<byte>

    function View(): PacketData
      reads this
    {
      PacketData(code, identifier, length, authenticator, attributes, secret)
    }

    constructor (d: PacketData)
      ensures View() == d
    {
      code, identifier, length := d.code, d.identifier, d.length;
      authenticator, attributes, secret := d.authenticator, d.attributes, d.secret;
    }

    method AddAttribute(attrType: byte, value: seq<byte>)
      modifies this
      ensures View() == old(View()).(attributes := old(attributes) + [Attribute(attrType, LowByte(2 + |value|), value)])
    {
      attributes := attributes + [Attribute(attrType, LowByte(2 + |value|), value)];
    }

    method Encode() returns (data: seq<byte>)
      ensures data == EncodedPacket(View())
    {
      var buf := [code, identifier, 0, 0] + authenticator;
      ghost var header := buf;
      for i := 0 to |attributes|
        invariant buf + AttributeBytes(attributes[i..]) == header + AttributeBytes(attributes)
      {
        var attr := attributes[i];
        assert attributes[i..][1..] == attributes[i + 1..];
        buf := buf + [attr.typ, attr.length] + attr.value;
      }
      assert attributes[|attributes|..] == [] && buf == header + AttributeBytes(attributes);
      var n := |buf| % 0x1_0000;
      data := buf[2 := LowByte(n / 256)][3 := LowByte(n)];
    }

    /** The first attribute of the type, if there is one. */
    method GetAttribute(attrType: byte) returns (r: Option<Attribute>)
      ensures r.None? <==> forall a :: a in attributes ==> a.typ != attrType
      ensures r.Some? ==> exists i :: 0 <= i < |attributes| && attributes[i] == r.value && r.value.typ == attrType
                            && forall j :: 0 <= j < i ==> attributes[j].typ != attrType
    {
      for i := 0 to |attributes|
        invariant forall j :: 0 <= j < i ==> attributes[j].typ != attrType
      {
        if attributes[i].typ == attrType {
          return Some(attributes[i]);
        }
      }
      return None;
    }

    method CreateResponse(responseCode: byte) returns (r: Packet)
      ensures fresh(r)
      ensures r.View() == PacketData(responseCode, identifier, 0, Zeros(16), [], secret)
    {
      r := new Packet(PacketData(responseCode, identifier, 0, Zeros(16), [], secret));
    }

    method CalculateResponseAuthenticator(md5: Digest, requestAuth: Block) returns (auth: Block)
      ensures auth == ResponseAuthenticator(md5, View(), requestAuth)
    {
      var encoded := Encode();
      encoded := encoded[..4] + requestAuth + encoded[20..];
      assert encoded == EncodedPacket(View().(authenticator := requestAuth));
      auth := md5(encoded + secret);
    }
  }

  method ParsePacket(data: seq<byte>, secret: seq<byte>) returns (r: Result<Packet>)
    requires HeaderSane(data)
    ensures match ParsedPacket(data, secret)
            case Err(e) => r == Err(e)
            case Ok(p) => r.Ok? && fresh(r.value) && r.value.View() == p
  {
    if |data| < HEADER_SIZE {
      return Err(PacketTooShort);
    }
    var length := U16(data[2], data[3]);
    if length > |data| {
      return Err(InvalidLength);
    }
    var attrs := ParseAttributes(data[20..length]);
    match attrs {
      case Err(e) => return Err(e);
      case Ok(list) =>
        var p := new Packet(PacketData(data[0], data[1], length, data[4..20], list, secret));
        return Ok(p);
    }
  }

  /** The last lines of the request handler: sign the response, then put it on the wire. */
  method SendResponse(md5: Digest, request: Packet, response: Packet) returns (wire: seq<byte>)
    requires request != response
    modifies response
    ensures response.View() == old(response.View()).(authenticator :=
              ResponseAuthenticator(md5, old(response.View()), request.authenticator))
    ensures wire == EncodedPacket(response.View())
    ensures ClientAccepts(md5, wire, request.authenticator, response.secret)
  {
    response.authenticator := response.CalculateResponseAuthenticator(md5, request.authenticator);
    wire := response.Encode();
    SignedWireAccepted(md5, old(response.View()), request.authenticator);
  }

  // ---------- Parsing is exactly the inverse of framing ----------

  /** `data` is these attributes, possibly followed by one stray octet. */
  predicate Frames(attrs: seq<Attribute>, data: seq<byte>) {
    WellFormed(attrs) && AttributeBytes(attrs) <= data && |data| <= |AttributeBytes(attrs)| + 1
  }

  /** Soundness and completeness: the parser returns `attrs` exactly when they frame the input. */
  lemma {:induction false} ParsesExactlyFrames(data: seq<byte>, attrs: seq<Attribute>)
    ensures ParsedAttributes(data) == Ok(attrs) <==> Frames(attrs, data)
    decreases |data|
  {
    if |data| < 2 {
      assert attrs != [] ==> |AttributeBytes(attrs)| >= 2;
    } else if 2 <= data[1] as int <= |data| {
      var n := data[1] as int;
      var head := Attribute(data[0], data[1], data[2..n]);
      if attrs == [] {
        return;
      }
      ParsesExactlyFrames(data[n..], attrs[1..]);
      match ParsedAttributes(data[n..]) {
        case Err(_) =>
        case Ok(rest) => assert ([head] + rest)[1..] == rest;
      }
      assert attrs == [attrs[0]] + attrs[1..];
      if attrs[0] == head {
        FramesCons(data, attrs, n);
      } else if Frames(attrs, data) {
        FramesHead(data, attrs);
      }
    } else if Frames(attrs, data) {
      FramesHead(data, attrs);
    }
  }

  lemma {:induction false} FramesHead(data: seq<byte>, attrs: seq<Attribute>)
    requires Frames(attrs, data) && |data| >= 2
    ensures attrs != [] && 2 <= data[1] as int <= |data|
    ensures attrs[0] == Attribute(data[0], data[1], data[2..data[1] as int])
  {}

  lemma {:induction false} FramesCons(data: seq<byte>, attrs: seq<Attribute>, n: nat)
    requires 2 <= n <= |data| && attrs != [] && data[1] as int == n
    requires attrs[0] == Attribute(data[0], data[1], data[2..n])
    ensures Frames(attrs, data) <==> Frames(attrs[1..], data[n..])
  {
    var b, rest := data[..n], AttributeBytes(attrs[1..]);
    assert b == [attrs[0].typ, attrs[0].length] + attrs[0].value;
    assert AttributeBytes(attrs) == b + rest;
    assert data == b + data[n..];
    assert b + rest <= data <==> rest <= data[n..] by {
      if b + rest <= data { assert data[n..][..|rest|] == (b + rest)[n..] == rest; }
    }
    assert WellFormed(attrs) <==> WellFormed(attrs[1..]) by {
      if WellFormed(attrs[1..]) {
        forall i | 0 <= i < |attrs| ensures attrs[i].length as int == 2 + |attrs[i].value| {
          if i > 0 { assert attrs[i] == attrs[1..][i - 1]; }
        }
      }
    }
  }

  lemma {:induction false} EncodedLength(p: PacketData)
    ensures HeaderLength(EncodedPacket(p)) == Size(p) % 0x1_0000
    ensures Size(p) < 0x1_0000 ==> HeaderLength(EncodedPacket(p)) == Size(p)
  {
    U16RoundTrip(Size(p) % 0x1_0000);
  }

  lemma {:induction false} EncodedFields(p: PacketData)
    ensures var data := EncodedPacket(p);
            data[0] == p.code && data[1] == p.identifier && data[4..20] == p.authenticator &&
            data[20..Size(p)] == AttributeBytes(p.attributes)
  {}

  /** The packet that comes back from an encoding with these attributes. */
  function Restored(p: PacketData, attrs: Result<seq<Attribute>>): Result<PacketData> {
    match attrs
    case Err(e) => Err(e)
    case Ok(found) => Ok(p.(length := Size(p), attributes := found))
  }

  /** What parsing makes of an encoded packet that fits: everything but the attributes comes back. */
  lemma {:induction false} ParsedEncoding(p: PacketData)
    requires Size(p) < 0x1_0000
    ensures var data := EncodedPacket(p);
            HeaderSane(data) &&
            ParsedPacket(data, p.secret) == Restored(p, ParsedAttributes(AttributeBytes(p.attributes)))
  {
    EncodedLength(p);
    EncodedFields(p);
    ParsedFields(EncodedPacket(p), p);
  }

  lemma {:induction false} ParsedFields(data: seq<byte>, p: PacketData)
    requires |data| == Size(p) == HeaderLength(data) && data[0] == p.code && data[1] == p.identifier
    requires data[4..20] == p.authenticator && data[20..Size(p)] == AttributeBytes(p.attributes)
    ensures HeaderSane(data)
    ensures ParsedPacket(data, p.secret) == Restored(p, ParsedAttributes(AttributeBytes(p.attributes)))
  {}

  /** Parsing an encoded packet restores it, with the length filled in, exactly when every
      attribute's length octet is right and the packet fits the 16-bit length field. */
  lemma {:induction false} PacketRoundTrip(p: PacketData)
    ensures var data := EncodedPacket(p);
            (HeaderSane(data) && ParsedPacket(data, p.secret) == Ok(p.(length := Size(p))))
            <==> WellFormed(p.attributes) && Size(p) < 0x1_0000
  {
    if Size(p) < 0x1_0000 {
      ParsedEncoding(p);
      ParsesExactlyFrames(AttributeBytes(p.attributes), p.attributes);
    } else {
      EncodedLength(p);
    }
  }

  /** Re-encoding an accepted datagram gives back its first Length octets; when one stray octet
      trails the last attribute it is dropped and the length field is one smaller. */
  lemma {:induction false} DatagramRoundTrip(data: seq<byte>, secret: seq<byte>)
    requires HeaderSane(data) && ParsedPacket(data, secret).Ok?
    ensures var p, n := ParsedPacket(data, secret).value, HeaderLength(data);
            p.length == n && WellFormed(p.attributes) && n - 1 <= Size(p) <= n <= |data| &&
            EncodedPacket(p) == data[..2] + [LowByte(Size(p) / 256), LowByte(Size(p))] + data[4..Size(p)]
    ensures var p, n := ParsedPacket(data, secret).value, HeaderLength(data);
            Size(p) == n ==> EncodedPacket(p) == data[..n]
  {
    var p, n := ParsedPacket(data, secret).value, HeaderLength(data);
    var body := data[20..n];
    ParsesExactlyFrames(body, p.attributes);
    var m := Size(p);
    assert AttributeBytes(p.attributes) == body[..m - 20] == data[20..m];
    LengthOctets(data[2], data[3]);
    SmallPacket(p);
    Rebuilt(data, n, m, EncodedPacket(p), LowByte(m / 256), LowByte(m));
  }

  lemma {:induction false} Rebuilt(data: seq<byte>, n: nat, m: nat, e: seq<byte>, hi: byte, lo: byte)
    requires 20 <= m <= n <= |data|
    requires e == [data[0], data[1], hi, lo] + data[4..20] + data[20..m]
    ensures e == data[..2] + [hi, lo] + data[4..m]
    ensures m == n && hi == data[2] && lo == data[3] ==> e == data[..n]
  {}

  lemma {:induction false} SmallPacket(p: PacketData)
    requires Size(p) < 0x1_0000
    ensures EncodedPacket(p) == [p.code, p.identifier, LowByte(Size(p) / 256), LowByte(Size(p))] + p.authenticator
                                + AttributeBytes(p.attributes)
  {}

  lemma {:induction false} LengthOctets(hi: byte, lo: byte)
    ensures 0 <= U16(hi, lo) < 0x1_0000
    ensures LowByte(U16(hi, lo) / 256) == hi && LowByte(U16(hi, lo)) == lo
  {}

  // ---------- Response Authenticator ----------

  function ResponseAuthenticator(md5: Digest, p: PacketData, requestAuth: Block): Block {
    md5(EncodedPacket(p.(authenticator := requestAuth)) + p.secret)
  }

  /** MD5(Code + ID + Length + RequestAuth + Attributes + Secret), computed from the wire alone. */
  predicate ClientAccepts(md5: Digest, wire: seq<byte>, requestAuth: Block, secret: seq<byte>) {
    |wire| >= HEADER_SIZE && md5(wire[..4] + requestAuth + wire[20..] + secret) == wire[4..20]
  }

  function Signed(md5: Digest, p: PacketData, requestAuth: Block): PacketData {
    p.(authenticator := ResponseAuthenticator(md5, p, requestAuth))
  }

  /** What the authenticator field held before signing is irrelevant, and the client's check on the
      raw wire succeeds. */
  lemma {:induction false} SignedWireAccepted(md5: Digest, p: PacketData, requestAuth: Block)
    ensures var wire := EncodedPacket(Signed(md5, p, requestAuth));
            ClientAccepts(md5, wire, requestAuth, p.secret) &&
            wire[4..20] == ResponseAuthenticator(md5, p, requestAuth) && wire[1] == p.identifier
    ensures forall earlier: Block ::
              Signed(md5, p.(authenticator := earlier), requestAuth) == Signed(md5, p, requestAuth)
  {
    var wire := EncodedPacket(Signed(md5, p, requestAuth));
    assert wire[..4] + requestAuth + wire[20..] == EncodedPacket(p.(authenticator := requestAuth));
    forall earlier: Block
      ensures Signed(md5, p.(authenticator := earlier), requestAuth) == Signed(md5, p, requestAuth)
    {
      assert p.(authenticator := earlier).(authenticator := requestAuth) == p.(authenticator := requestAuth);
    }
  }

  /** A client that parses the wire and recomputes the authenticator gets the one it received. */
  lemma {:induction false} ResponseVerifies(md5: Digest, p: PacketData, requestAuth: Block)
    requires WellFormed(p.attributes) && Size(p) < 0x1_0000
    ensures var wire := EncodedPacket(Signed(md5, p, requestAuth));
            HeaderSane(wire) && ParsedPacket(wire, p.secret).Ok? &&
            var q := ParsedPacket(wire, p.secret).value;
            q == Signed(md5, p, requestAuth).(length := Size(p)) && q.identifier == p.identifier &&
            ResponseAuthenticator(md5, q, requestAuth) == q.authenticator == wire[4..20]
  {
    PacketRoundTrip(Signed(md5, p, requestAuth));
    SignedWireAccepted(md5, p, requestAuth);
    var q := Signed(md5, p, requestAuth).(length := Size(p));
    assert EncodedPacket(q.(authenticator := requestAuth)) == EncodedPacket(p.(authenticator := requestAuth));
  }

  /** Two accepted responses to one request that carry the same authenticator are the same wire,
      unless they are an MD5 collision: code, identifier, length and attributes are all bound. */
  lemma {:induction false} AuthenticatorBindsWire(
    md5: Digest, w: seq<byte>, v: seq<byte>, requestAuth: Block, secret: seq<byte>
  )
    requires ClientAccepts(md5, w, requestAuth, secret) && ClientAccepts(md5, v, requestAuth, secret)
    requires w[4..20] == v[4..20]
    requires var x, y := w[..4] + requestAuth + w[20..] + secret, v[..4] + requestAuth + v[20..] + secret;
             x != y ==> md5(x) != md5(y)
    ensures w == v
  {
    var x, y := w[..4] + requestAuth + w[20..] + secret, v[..4] + requestAuth + v[20..] + secret;
    assert x == y && |w| == |v|;
    assert w[..4] == x[..4] == y[..4] == v[..4];
    assert w[20..] == x[20..|w|] == y[20..|v|] == v[20..];
    assert w == w[..4] + w[4..20] + w[20..] && v == v[..4] + v[4..20] + v[20..];
  }
}
