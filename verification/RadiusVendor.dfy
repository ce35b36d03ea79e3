/** Vendor-Specific attributes (section 5.26 of RFC 2865): attributes.go and mschap.go of
    internal/protocol/radius. */
module RadiusVendor {
  import opened Bytes
  import opened Options
  import opened RadiusPacket

  const ATTR_VENDOR_SPECIFIC: byte := 26
  const CODE_ACCESS_ACCEPT: byte := 2
  const CODE_ACCESS_REJECT: byte := 3
  const VENDOR_MICROSOFT := 311
  const MSCHAP2_SUCCESS: byte := 26
  const MSCHAP_ERROR: byte := 2

  type uint32 = n: int | 0 <= n < 0x1_0000_0000

  datatype Vendor = Vendor(id: uint32, typ: byte, value: seq<byte>)

  function EncodeVendorSpecific(vendorID: uint32, attrType: byte, value: seq<byte>): (r: seq<byte>)
    ensures |r| == 6 + |value|
  {
    PutU32(vendorID) + [attrType, LowByte(2 + |value|)] + value
  }

  lemma {:induction false} U32Range(s: seq<byte>)
    requires |s| == 4
    ensures 0 <= U32(s) < 0x1_0000_0000
  {}

  function VendorID(data: seq<byte>): uint32
    requires |data| >= 4
  {
    U32Range(data[..4]);
    U32(data[..4])
  }

  /** None stands for the three error returns. An inner length below 2 makes Go panic. */
  function DecodeVendorSpecific(data: seq<byte>): Option<Vendor>
    requires |data| >= 6 ==> data[5] >= 2
  {
    if |data| < 6 then None
    else if data[5] as int > |data| - 4 then None
    else Some(Vendor(VendorID(data), data[4], data[6..4 + data[5] as int]))
  }

  /** The vendor and type octets of the attribute are those looked for. */
  predicate Names(a: Attribute, vendorID: uint32, attrType: byte) {
    a.typ == ATTR_VENDOR_SPECIFIC && |a.value| >= 5 && VendorID(a.value) == vendorID && a.value[4] == attrType
  }

  predicate Carries(a: Attribute, vendorID: uint32, attrType: byte) {
    Names(a, vendorID, attrType) && |a.value| >= 6
  }

  /** Where the scan indexes, the octets are there: five up to the first match, six in the match
      itself. Attributes behind it are never looked at. */
  predicate ScanSafe(attrs: seq<Attribute>, vendorID: uint32, attrType: byte) {
    forall i ::
      0 <= i < |attrs| && attrs[i].typ == ATTR_VENDOR_SPECIFIC && Unmatched(attrs[..i], vendorID, attrType) ==>
        |attrs[i].value| >= if Names(attrs[i], vendorID, attrType) then 6 else 5
  }

  predicate Unmatched(attrs: seq<Attribute>, vendorID: uint32, attrType: byte) {
    forall j :: 0 <= j < |attrs| ==> !Names(attrs[j], vendorID, attrType)
  }

  /** The first attribute carrying the vendor and type; its value is whatever follows the header. */
  method GetVendorAttribute(attrs: seq<Attribute>, vendorID: uint32, attrType: byte) returns (r: Option<Attribute>)
    requires ScanSafe(attrs, vendorID, attrType)
    ensures IsVendorAttribute(attrs, vendorID, attrType, r)
  {
    for i := 0 to |attrs|
      invariant Unmatched(attrs[..i], vendorID, attrType)
    {
      var attr := attrs[i];
      assert forall j :: 0 <= j < i ==> attrs[j] == attrs[..i][j];
      if attr.typ == ATTR_VENDOR_SPECIFIC {
        var vid, atype := VendorID(attr.value), attr.value[4];
        if vid == vendorID && atype == attrType {
          assert FirstCarrier(attrs, vendorID, attrType, i);
          return Some(Attribute(attrType, attr.value[5], attr.value[6..]));
        }
      }
    }
    assert attrs[..|attrs|] == attrs;
    return None;
  }

  ghost predicate FirstCarrier(attrs: seq<Attribute>, vendorID: uint32, attrType: byte, i: int) {
    0 <= i < |attrs| && Carries(attrs[i], vendorID, attrType) &&
    forall j :: 0 <= j < i ==> !Carries(attrs[j], vendorID, attrType)
  }

  /** What the scan returns, said without the scan. */
  ghost predicate IsVendorAttribute(attrs: seq<Attribute>, vendorID: uint32, attrType: byte, r: Option<Attribute>) {
    match r
    case None => forall a :: a in attrs ==> !Carries(a, vendorID, attrType)
    case Some(out) => exists i :: FirstCarrier(attrs, vendorID, attrType, i) &&
                        out == Attribute(attrType, attrs[i].value[5], attrs[i].value[6..])
  }

  /** The scan has one possible answer. */
  lemma {:induction false} VendorAttributeUnique(attrs: seq<Attribute>, vendorID: uint32, attrType: byte,
                                                 i: int, r: Option<Attribute>)
    requires FirstCarrier(attrs, vendorID, attrType, i) && IsVendorAttribute(attrs, vendorID, attrType, r)
    ensures r == Some(Attribute(attrType, attrs[i].value[5], attrs[i].value[6..]))
  {}

  // ---------- One value, encoded and decoded ----------

  function VendorAttr(vendorID: uint32, attrType: byte, value: seq<byte>): Attribute {
    var v := EncodeVendorSpecific(vendorID, attrType, value);
    Attribute(ATTR_VENDOR_SPECIFIC, LowByte(2 + |v|), v)
  }

  lemma {:induction false} VendorRoundTrip(vendorID: uint32, attrType: byte, value: seq<byte>)
    ensures var d := EncodeVendorSpecific(vendorID, attrType, value);
            VendorID(d) == vendorID && d[4] == attrType && d[5] == LowByte(2 + |value|) && d[6..] == value
    ensures |value| <= 253 ==>
              LowByte(2 + |value|) as int == 2 + |value| &&
              DecodeVendorSpecific(EncodeVendorSpecific(vendorID, attrType, value)) ==
              Some(Vendor(vendorID, attrType, value))
    ensures VendorAttr(vendorID, attrType, value).length as int == 8 + |value| <==> |value| <= 247
  {
    var d := EncodeVendorSpecific(vendorID, attrType, value);
    assert d[..4] == PutU32(vendorID);
    U32RoundTrip(vendorID);
    if |value| <= 253 {
      assert d[6..4 + d[5] as int] == value;
    }
  }

  /** The length-checking decoder and the scan read the same value exactly when the inner length
      accounts for the whole attribute. */
  lemma {:induction false} DecodersAgree(data: seq<byte>)
    requires |data| >= 6 && data[5] >= 2
    ensures DecodeVendorSpecific(data) == Some(Vendor(VendorID(data), data[4], data[6..]))
            <==> data[5] as int == |data| - 4
  {
    if data[5] as int <= |data| - 4 {
      assert |data[6..4 + data[5] as int]| == data[5] as int - 2;
    }
    if data[5] as int == |data| - 4 {
      assert data[6..4 + data[5] as int] == data[6..];
    }
  }

  /** The decoder accepts a value exactly when its header is there and the inner length stays within
      it, and then reads as much as that length says. */
  lemma {:induction false} DecodesExactly(data: seq<byte>)
    requires |data| >= 6 ==> data[5] >= 2
    ensures var r := DecodeVendorSpecific(data);
            (r.Some? <==> |data| >= 6 && data[5] as int <= |data| - 4) &&
            (r.Some? ==> r.value.id == U32(data[..4]) && r.value.typ == data[4] &&
                         |r.value.value| == data[5] as int - 2 && r.value.value <= data[6..])
  {}

  // ---------- The whole pipeline ----------

  /** A client that parses `wire` and scans for the vendor attribute gets `value`. */
  ghost predicate Recovers(wire: seq<byte>, secret: seq<byte>, vendorID: uint32, attrType: byte, value: seq<byte>) {
    HeaderSane(wire) && ParsedPacket(wire, secret).Ok? &&
    var attrs := ParsedPacket(wire, secret).value.attributes;
    ScanSafe(attrs, vendorID, attrType) &&
    exists out :: IsVendorAttribute(attrs, vendorID, attrType, Some(out)) && out.value == value
  }

  /** A safe scan that meets no carrier meets no match at all. */
  lemma {:induction false} NothingMatches(attrs: seq<Attribute>, vendorID: uint32, attrType: byte, n: nat)
    requires ScanSafe(attrs, vendorID, attrType) && n <= |attrs|
    requires forall a :: a in attrs ==> !Carries(a, vendorID, attrType)
    ensures forall j :: 0 <= j < n ==>
              !Names(attrs[j], vendorID, attrType) && (attrs[j].typ == ATTR_VENDOR_SPECIFIC ==> |attrs[j].value| >= 5)
  {
    if n > 0 {
      NothingMatches(attrs, vendorID, attrType, n - 1);
      assert Unmatched(attrs[..n - 1], vendorID, attrType);
      assert attrs[n - 1] in attrs;
    }
  }

  /** A carrier behind attributes that do not match makes the scan safe, whatever comes after. */
  lemma {:induction false} FirstIsSafe(attrs: seq<Attribute>, vendorID: uint32, attrType: byte, i: nat)
    requires i < |attrs| && Carries(attrs[i], vendorID, attrType)
    requires forall j :: 0 <= j < i ==>
               !Names(attrs[j], vendorID, attrType) && (attrs[j].typ == ATTR_VENDOR_SPECIFIC ==> |attrs[j].value| >= 5)
    ensures ScanSafe(attrs, vendorID, attrType) && FirstCarrier(attrs, vendorID, attrType, i)
  {
    forall k | i < k < |attrs| ensures !Unmatched(attrs[..k], vendorID, attrType) {
      assert attrs[..k][i] == attrs[i];
    }
  }

  /** A vendor value added to a well-formed packet that has none of its kind yet survives
      AddAttribute, Encode, ParsePacket and the scan exactly when it has at most 247 octets. */
  lemma {:induction false} VendorValueSurvives(
    p: PacketData, q: PacketData, vendorID: uint32, attrType: byte, value: seq<byte>
  )
    requires WellFormed(p.attributes) && ScanSafe(p.attributes, vendorID, attrType)
    requires forall a :: a in p.attributes ==> !Carries(a, vendorID, attrType)
    requires q == p.(attributes := p.attributes + [VendorAttr(vendorID, attrType, value)]) && Size(q) < 0x1_0000
    ensures Recovers(EncodedPacket(q), q.secret, vendorID, attrType, value) <==> |value| <= 247
  {
    var wire, n := EncodedPacket(q), |p.attributes|;
    VendorRoundTrip(vendorID, attrType, value);
    if |value| <= 247 {
      PacketRoundTrip(q);
      NothingMatches(p.attributes, vendorID, attrType, n);
      FirstIsSafe(q.attributes, vendorID, attrType, n);
      var out := Attribute(attrType, LowByte(2 + |value|), value);
      assert IsVendorAttribute(q.attributes, vendorID, attrType, Some(out));
    } else if Recovers(wire, q.secret, vendorID, attrType, value) {
      ParsedVendorValuesAreShort(wire, q.secret, vendorID, attrType, value);
    }
  }

  lemma {:induction false} ParsedVendorValuesAreShort(
    wire: seq<byte>, secret: seq<byte>, vendorID: uint32, attrType: byte, value: seq<byte>
  )
    requires Recovers(wire, secret, vendorID, attrType, value)
    ensures |value| <= 247
  {
    DatagramRoundTrip(wire, secret);
  }

  /** The first carrier of a vendor and type is recovered whatever attributes follow it, vendor
      attributes too short to scan included. */
  lemma {:induction false} FirstVendorValueWins(
    q: PacketData, i: nat, vendorID: uint32, attrType: byte, value: seq<byte>
  )
    requires WellFormed(q.attributes) && Size(q) < 0x1_0000
    requires i < |q.attributes| && q.attributes[i] == VendorAttr(vendorID, attrType, value)
    requires forall j :: 0 <= j < i && q.attributes[j].typ == ATTR_VENDOR_SPECIFIC ==>
               |q.attributes[j].value| >= 5 && !Names(q.attributes[j], vendorID, attrType)
    ensures Recovers(EncodedPacket(q), q.secret, vendorID, attrType, value)
    ensures var data := EncodeVendorSpecific(vendorID, attrType, value);
            q.attributes[i].value == data && data[5] as int == 2 + |value| &&
            DecodeVendorSpecific(data) == Some(Vendor(vendorID, attrType, value))
  {
    VendorRoundTrip(vendorID, attrType, value);
    PacketRoundTrip(q);
    FirstIsSafe(q.attributes, vendorID, attrType, i);
    assert IsVendorAttribute(q.attributes, vendorID, attrType, Some(Attribute(attrType, LowByte(2 + |value|), value)));
  }

  // ---------- MS-CHAP replies ----------

  method CreateMSCHAPAccept(request: Packet, authResponse: seq<byte>) returns (response: Packet)
    ensures fresh(response)
    ensures response.View() == MSCHAPReply(request.View(), 2, 26, authResponse)
  {
    response := request.CreateResponse(CODE_ACCESS_ACCEPT);
    var vsa := EncodeVendorSpecific(VENDOR_MICROSOFT, MSCHAP2_SUCCESS, authResponse);
    response.AddAttribute(ATTR_VENDOR_SPECIFIC, vsa);
  }

  method CreateMSCHAPError(request: Packet, message: seq<byte>) returns (response: Packet)
    ensures fresh(response)
    ensures response.View() == MSCHAPReply(request.View(), 3, 2, message)
  {
    response := request.CreateResponse(CODE_ACCESS_REJECT);
    var vsa := EncodeVendorSpecific(VENDOR_MICROSOFT, MSCHAP_ERROR, message);
    response.AddAttribute(ATTR_VENDOR_SPECIFIC, vsa);
  }

  function MSCHAPReply(request: PacketData, code: byte, attrType: byte, message: seq<byte>): PacketData {
    var attributes := [VendorAttr(VENDOR_MICROSOFT, attrType, message)];
    PacketData(code, request.identifier, 0, Zeros(16), attributes, request.secret)
  }

  /** End to end: a signed MS-CHAP reply is accepted by the client, carries the request's
      identifier, and delivers its message exactly when that fits one attribute. */
  lemma {:induction false} MSCHAPReplyDelivered(
    md5: Digest, request: PacketData, code: byte, attrType: byte, message: seq<byte>
  )
    requires HEADER_SIZE + 8 + |message| < 0x1_0000
    ensures var reply := MSCHAPReply(request, code, attrType, message);
            var wire := EncodedPacket(Signed(md5, reply, request.authenticator));
            ClientAccepts(md5, wire, request.authenticator, request.secret) &&
            wire[0] == code && wire[1] == request.identifier && wire[20] == 26 &&
            (Recovers(wire, request.secret, 311, attrType, message) <==> |message| <= 247)
  {
    var reply := MSCHAPReply(request, code, attrType, message);
    SignedWireAccepted(md5, reply, request.authenticator);
    var q := Signed(md5, reply, request.authenticator);
    assert |AttributeBytes(q.attributes)| == 8 + |message| by {
      assert q.attributes[1..] == [];
      assert AttributeBytes(q.attributes) == [ATTR_VENDOR_SPECIFIC, q.attributes[0].length] + q.attributes[0].value;
    }
    assert q.attributes == [] + [VendorAttr(VENDOR_MICROSOFT, attrType, message)];
    VendorValueSurvives(q.(attributes := []), q, VENDOR_MICROSOFT, attrType, message);
  }
}
