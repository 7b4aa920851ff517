/**
 * The STUN subset used for endpoint discovery (internal/stun/stun.go), after RFC 5389:
 * Binding requests and responses, XOR-MAPPED-ADDRESS with a fallback on MAPPED-ADDRESS.
 */
module Stun {
  import opened Net

  const HEADER_LEN := 20
  const BINDING_REQUEST: uint16 := 0x0001
  const BINDING_RESPONSE: uint16 := 0x0101
  const MAPPED_ADDRESS: uint16 := 0x0001
  const XOR_MAPPED_ADDRESS: uint16 := 0x0020
  const FAMILY_IPV4: byte := 0x01
  const FAMILY_IPV6: byte := 0x02

  /** The magic cookie 0x2112A442, and its upper half, the mask of ports. */
  const COOKIE: seq<byte> := [0x21, 0x12, 0xA4, 0x42]
  const PORT_MASK: uint16 := 0x2112

  type TxID = id: seq<byte> | |id| == 12 witness seq(12, _ => 0)

  predicate IsMessage(b: seq<byte>) {
    |b| >= HEADER_LEN && b[0] < 0x40 && b[4..8] == COOKIE
  }

  predicate IsBindingResponse(b: seq<byte>) {
    IsMessage(b) && BigEndian16(b[0..2]) == BINDING_RESPONSE
  }

  // ---------------------------------------------------------------- building

  function AddrBytes(a: Addr): (b: seq<byte>)
    ensures |b| == 4 || |b| == 16
  {
    match a
    case V4(b) => b
    case V6(b) => b
  }

  function XorKey(id: TxID): (k: seq<byte>)
    ensures |k| == 16
  {
    COOKIE + id
  }

  function Xored(a: seq<byte>, id: TxID): (r: seq<byte>)
    requires |a| <= 16
    ensures |r| == |a|
  {
    seq(|a|, i requires 0 <= i < |a| => XorByte(a[i], XorKey(id)[i]))
  }

  lemma XoredInvolutive(a: seq<byte>, id: TxID)
    requires |a| <= 16
    ensures Xored(Xored(a, id), id) == a
  {
    forall i | 0 <= i < |a|
      ensures Xored(Xored(a, id), id)[i] == a[i]
    {
      XorByteInvolutive(a[i], XorKey(id)[i]);
    }
  }

  function Header(messageType: uint16, length: uint16, id: TxID): (b: seq<byte>)
    ensures |b| == HEADER_LEN
  {
    PutBigEndian16(messageType) + PutBigEndian16(length) + COOKIE + id
  }

  function RequestBytes(id: TxID): seq<byte> {
    Header(BINDING_REQUEST, 0, id)
  }

  /** The value of the XOR-MAPPED-ADDRESS attribute carrying `addr` (section 15.2). */
  function XorAddressValue(id: TxID, addr: AddrPort): (v: seq<byte>)
    ensures |v| == 4 + |AddrBytes(Unmap(addr.addr))|
  {
    var ip := Unmap(addr.addr);
    [0, if ip.V6? then FAMILY_IPV6 else FAMILY_IPV4] + PutBigEndian16(Xor16(addr.port, PORT_MASK))
    + Xored(AddrBytes(ip), id)
  }

  function ResponseBytes(id: TxID, addr: AddrPort): seq<byte> {
    var value := XorAddressValue(id, addr);
    Header(BINDING_RESPONSE, 4 + |value|, id)
    + PutBigEndian16(XOR_MAPPED_ADDRESS) + PutBigEndian16(|value|) + value
  }

  method BuildBindingRequest(id: TxID) returns (b: array<byte>)
    ensures fresh(b) && b[..] == RequestBytes(id)
  {
    b := new byte[HEADER_LEN](_ => 0);
    CopyInto(b, 0, PutBigEndian16(BINDING_REQUEST));
    CopyInto(b, 2, PutBigEndian16(0));
    assert b[..4] == PutBigEndian16(BINDING_REQUEST) + PutBigEndian16(0);
    CopyInto(b, 4, COOKIE);
    assert b[..8] == PutBigEndian16(BINDING_REQUEST) + PutBigEndian16(0) + COOKIE;
    CopyInto(b, 8, id);
    assert b[..] == b[..HEADER_LEN];
  }

  /** Writes `raw`, xored with the cookie and the transaction id, at `at`. */
  method XorInto(buf: array<byte>, at: nat, raw: seq<byte>, id: TxID)
    requires |raw| <= 16 && at + |raw| <= buf.Length
    modifies buf
    ensures buf[..at + |raw|] == old(buf[..at]) + Xored(raw, id)
  {
    for i := 0 to |raw|
      invariant buf[..at] == old(buf[..at])
      invariant forall k :: 0 <= k < i ==> buf[at + k] == XorByte(raw[k], XorKey(id)[k])
    {
      buf[at + i] := XorByte(raw[i], XorKey(id)[i]);
    }
    assert buf[at..at + |raw|] == Xored(raw, id);
    assert buf[..at + |raw|] == buf[..at] + buf[at..at + |raw|];
  }

  method BuildBindingResponse(id: TxID, addr: AddrPort) returns (b: array<byte>)
    ensures fresh(b) && b[..] == ResponseBytes(id, addr)
  {
    hide Xored, Xor16;
    var ip := Unmap(addr.addr);
    var ipBytes := AddrBytes(ip);
    var attrLen := 4 + |ipBytes|;
    var family: seq<byte> := [0, if ip.V6? then FAMILY_IPV6 else FAMILY_IPV4];
    var port := PutBigEndian16(Xor16(addr.port, PORT_MASK));
    var attr := WriteAttribute(family, port, ipBytes, id);
    assert attr[..] == PutBigEndian16(XOR_MAPPED_ADDRESS) + PutBigEndian16(attrLen) + XorAddressValue(id, addr);
    b := new byte[HEADER_LEN + 4 + attrLen](_ => 0);
    CopyInto(b, 0, Header(BINDING_RESPONSE, 4 + attrLen, id));
    CopyInto(b, HEADER_LEN, attr[..]);
    assert b[..] == b[..HEADER_LEN + 4 + attrLen];
  }

  method WriteAttribute(family: seq<byte>, port: seq<byte>, ipBytes: seq<byte>, id: TxID) returns (attr: array<byte>)
    requires |family| == 2 && |port| == 2 && |ipBytes| <= 16
    ensures fresh(attr)
    ensures attr[..] == PutBigEndian16(XOR_MAPPED_ADDRESS) + PutBigEndian16(4 + |ipBytes|)
                        + (family + port + Xored(ipBytes, id))
  {
    attr := new byte[8 + |ipBytes|](_ => 0);
    CopyInto(attr, 0, PutBigEndian16(XOR_MAPPED_ADDRESS));
    CopyInto(attr, 2, PutBigEndian16(4 + |ipBytes|));
    CopyInto(attr, 4, family);
    CopyInto(attr, 6, port);
    XorInto(attr, 8, ipBytes, id);
    assert attr[..] == attr[..8 + |ipBytes|];
  }

  function ParseBindingRequest(b: seq<byte>): Option<TxID> {
    if IsMessage(b) && BigEndian16(b[0..2]) == BINDING_REQUEST then Some(b[8..20]) else None
  }

  // ---------------------------------------------------------------- attributes

  /** One type-length-value attribute; the padding bytes may hold anything (section 15). */
  datatype Attr = Attr(attrType: uint16, value: seq<byte>, padding: seq<byte>) {
    predicate Valid() {
      |value| < 0x1_0000 && |value| + |padding| == Padded(|value|)
    }
  }

  /** A length rounded up to the next multiple of four. */
  function Padded(n: nat): (r: nat)
    ensures n <= r < n + 4 && r % 4 == 0
  {
    (n + 3) / 4 * 4
  }

  predicate AllValid(attrs: seq<Attr>) {
    forall i :: 0 <= i < |attrs| ==> attrs[i].Valid()
  }

  function SerializeOne(a: Attr): (b: seq<byte>)
    requires a.Valid()
    ensures |b| == 4 + Padded(|a.value|) && |b| % 4 == 0
  {
    PutBigEndian16(a.attrType) + PutBigEndian16(|a.value|) + a.value + a.padding
  }

  function Serialize(attrs: seq<Attr>): (b: seq<byte>)
    requires AllValid(attrs)
  {
    if |attrs| == 0 then [] else SerializeOne(attrs[0]) + Serialize(attrs[1..])
  }

  /** Aligned attributes fill a multiple of four bytes (section 6). */
  lemma {:induction false} SerializeIsAligned(attrs: seq<Attr>)
    requires AllValid(attrs)
    ensures |Serialize(attrs)| % 4 == 0
  {
    if |attrs| > 0 {
      SerializeIsAligned(attrs[1..]);
      var head, rest := |SerializeOne(attrs[0])|, |Serialize(attrs[1..])|;
      assert |Serialize(attrs)| == head + rest && head % 4 == 0;
    }
  }

  function LengthField(x: seq<byte>): uint16
    requires |x| >= 4
  {
    BigEndian16(x[2..4])
  }

  /** A whole attribute, padding included, stands at the front of `x`. */
  predicate StartsWithAttr(x: seq<byte>) {
    |x| >= 4 && 4 + Padded(LengthField(x)) <= |x|
  }

  function FirstAttr(x: seq<byte>): (a: Attr)
    requires StartsWithAttr(x)
    ensures a.Valid()
  {
    var len := LengthField(x);
    Attr(BigEndian16(x[0..2]), x[4..4 + len], x[4 + len..4 + Padded(len)])
  }

  function AfterFirst(x: seq<byte>): seq<byte>
    requires StartsWithAttr(x)
  {
    x[4 + Padded(LengthField(x))..]
  }

  /** The whole attributes at the front of `x`, and what is left after them. */
  function Scan(x: seq<byte>): (r: (seq<Attr>, seq<byte>))
    ensures AllValid(r.0) && !StartsWithAttr(r.1)
  {
    if StartsWithAttr(x) then
      var rest := Scan(AfterFirst(x));
      ([FirstAttr(x)] + rest.0, rest.1)
    else
      ([], x)
  }

  lemma {:induction false} SerializeCons(a: Attr, attrs: seq<Attr>)
    requires a.Valid() && AllValid(attrs)
    ensures Serialize([a] + attrs) == SerializeOne(a) + Serialize(attrs)
  {
  }

  lemma SerializeFirst(x: seq<byte>)
    requires StartsWithAttr(x)
    ensures SerializeOne(FirstAttr(x)) + AfterFirst(x) == x
  {
  }

  /** Scanning loses nothing: the attributes and the remainder make up the input again. */
  lemma {:induction false} SerializeScan(x: seq<byte>)
    ensures Serialize(Scan(x).0) + Scan(x).1 == x
  {
    if StartsWithAttr(x) {
      SerializeScan(AfterFirst(x));
      SerializeFirst(x);
      SerializeCons(FirstAttr(x), Scan(AfterFirst(x)).0);
    }
  }

  lemma FirstOfSerialized(a: Attr, rest: seq<byte>)
    requires a.Valid()
    ensures var x := SerializeOne(a) + rest;
            StartsWithAttr(x) && FirstAttr(x) == a && AfterFirst(x) == rest
  {
  }

  /** Scanning serialised attributes gives them back, whatever their padding. */
  lemma {:induction false} ScanSerialize(attrs: seq<Attr>)
    requires AllValid(attrs)
    ensures Scan(Serialize(attrs)) == (attrs, [])
  {
    if |attrs| > 0 {
      hide SerializeOne, StartsWithAttr, FirstAttr, AfterFirst;
      ScanSerialize(attrs[1..]);
      FirstOfSerialized(attrs[0], Serialize(attrs[1..]));
      assert attrs == [attrs[0]] + attrs[1..];
    }
  }

  /** The remainder holds a whole value but not its padding. */
  predicate Overruns(rest: seq<byte>) {
    |rest| >= 4 && 4 + LengthField(rest) <= |rest| < 4 + Padded(LengthField(rest))
  }

  /** Attributes filling a multiple of four bytes never leave a value without its padding. */
  lemma {:induction false} AlignedNeverOverruns(x: seq<byte>)
    requires |x| % 4 == 0
    ensures |Scan(x).1| % 4 == 0 && !Overruns(Scan(x).1)
  {
    if StartsWithAttr(x) {
      AlignedNeverOverruns(AfterFirst(x));
    }
  }

  // ---------------------------------------------------------------- addresses

  /** The address in an attribute value; any family but IPv6 is read as IPv4. */
  function DecodedAddress(v: seq<byte>, id: TxID, xored: bool): Option<AddrPort> {
    var ipLen := if |v| >= 8 && v[1] == FAMILY_IPV6 then 16 else 4;
    if |v| < 8 || |v| < 4 + ipLen then None
    else
      var port := BigEndian16(v[2..4]);
      var raw := v[4..4 + ipLen];
      var plain := if xored then Xored(raw, id) else raw;
      Some(AddrPort(Unmap(if ipLen == 16 then V6(plain) else V4(plain)),
                    if xored then Xor16(port, PORT_MASK) else port))
  }

  method DecodeAddress(v: seq<byte>, id: TxID, xored: bool) returns (r: Option<AddrPort>)
    ensures r == DecodedAddress(v, id, xored)
  {
    if |v| < 8 {
      return None;
    }
    var ipLen := 4;
    if v[1] == FAMILY_IPV6 {
      ipLen := 16;
    }
    if |v| < 4 + ipLen {
      return None;
    }
    var port := BigEndian16(v[2..4]);
    var ipBytes := new byte[ipLen](_ => 0);
    CopyInto(ipBytes, 0, v[4..4 + ipLen]);
    assert ipBytes[..] == ipBytes[..ipLen] == v[4..4 + ipLen];
    if xored {
      port := Xor16(port, PORT_MASK);
      XorInto(ipBytes, 0, ipBytes[..], id);
      assert ipBytes[..] == ipBytes[..ipLen] == Xored(v[4..4 + ipLen], id);
    }
    r := Some(AddrPort(Unmap(if ipLen == 16 then V6(ipBytes[..]) else V4(ipBytes[..])), port));
  }

  /** The address an attribute contributes as XOR-MAPPED-ADDRESS. */
  function XorMapped(a: Attr, id: TxID): Option<AddrPort> {
    if a.attrType == XOR_MAPPED_ADDRESS then DecodedAddress(a.value, id, true) else None
  }

  /** The address an attribute contributes as MAPPED-ADDRESS. */
  function Mapped(a: Attr, id: TxID): Option<AddrPort> {
    if a.attrType == MAPPED_ADDRESS then DecodedAddress(a.value, id, false) else None
  }

  function FirstXorMapped(attrs: seq<Attr>, id: TxID): (r: Option<AddrPort>)
    ensures r.Some? ==> exists i :: 0 <= i < |attrs| && XorMapped(attrs[i], id) == r
                                    && forall k :: 0 <= k < i ==> XorMapped(attrs[k], id).None?
    ensures r.None? ==> forall k :: 0 <= k < |attrs| ==> XorMapped(attrs[k], id).None?
  {
    if |attrs| == 0 then None
    else if XorMapped(attrs[0], id).Some? then XorMapped(attrs[0], id)
    else FirstXorMapped(attrs[1..], id)
  }

  function LastMapped(attrs: seq<Attr>, id: TxID): (r: Option<AddrPort>)
    ensures r.Some? ==> exists i :: 0 <= i < |attrs| && Mapped(attrs[i], id) == r
                                    && forall k :: i < k < |attrs| ==> Mapped(attrs[k], id).None?
    ensures r.None? ==> forall k :: 0 <= k < |attrs| ==> Mapped(attrs[k], id).None?
  {
    if |attrs| == 0 then None
    else if Mapped(attrs[|attrs| - 1], id).Some? then Mapped(attrs[|attrs| - 1], id)
    else
      assert forall k :: 0 <= k < |attrs| - 1 ==> attrs[..|attrs| - 1][k] == attrs[k];
      LastMapped(attrs[..|attrs| - 1], id)
  }

  // ---------------------------------------------------------------- parsing responses

  /** OutOfRange stands for the advance past the end of the slice that Go answers with a panic. */
  datatype Parsed =
    | Found(id: TxID, addr: AddrPort)
    | NotAResponse
    | Truncated
    | NoAddress(id: TxID)
    | OutOfRange

  /**
   * What an attribute area means: its first decodable XOR-MAPPED-ADDRESS, else its last
   * decodable MAPPED-ADDRESS, else nothing, and out of range when a value lacks its padding.
   */
  function Meaning(x: seq<byte>, id: TxID, earlier: Option<AddrPort>): Parsed {
    var (attrs, rest) := Scan(x);
    if FirstXorMapped(attrs, id).Some? then Found(id, FirstXorMapped(attrs, id).value)
    else if Overruns(rest) then
      var bare := Attr(BigEndian16(rest[0..2]), rest[4..4 + LengthField(rest)], []);
      if XorMapped(bare, id).Some? then Found(id, XorMapped(bare, id).value) else OutOfRange
    else if LastMapped(attrs, id).Some? then Found(id, LastMapped(attrs, id).value)
    else if earlier.Some? then Found(id, earlier.value)
    else NoAddress(id)
  }

  function ParsedResponse(b: seq<byte>): Parsed {
    if !IsBindingResponse(b) then NotAResponse
    else if HEADER_LEN + LengthField(b) > |b| then Truncated
    else Meaning(b[HEADER_LEN..HEADER_LEN + LengthField(b)], b[8..20], None)
  }

  lemma {:induction false} LastMappedCons(attrs: seq<Attr>, id: TxID)
    requires |attrs| > 0
    ensures LastMapped(attrs, id) ==
              if LastMapped(attrs[1..], id).Some? then LastMapped(attrs[1..], id) else Mapped(attrs[0], id)
  {
    if |attrs| > 1 {
      LastMappedCons(attrs[..|attrs| - 1], id);
      assert attrs[1..][..|attrs| - 2] == attrs[..|attrs| - 1][1..];
    }
  }

  /** One turn of the parser's loop on a whole attribute that does not settle the answer. */
  lemma MeaningAfterFirst(x: seq<byte>, id: TxID, earlier: Option<AddrPort>)
    requires StartsWithAttr(x) && XorMapped(FirstAttr(x), id).None?
    ensures Meaning(x, id, earlier) ==
              Meaning(AfterFirst(x), id, if Mapped(FirstAttr(x), id).Some? then Mapped(FirstAttr(x), id) else earlier)
  {
    var attrs := Scan(x).0;
    assert attrs[1..] == Scan(AfterFirst(x)).0;
    LastMappedCons(attrs, id);
  }

  /** The value of the attribute at the front of `x`, whether or not its padding is there. */
  predicate StartsWithValue(x: seq<byte>) {
    |x| >= 4 && 4 + LengthField(x) <= |x|
  }

  function FirstValue(x: seq<byte>): Attr
    requires StartsWithValue(x)
  {
    Attr(BigEndian16(x[0..2]), x[4..4 + LengthField(x)], [])
  }

  lemma MeaningWithoutTurn(x: seq<byte>, id: TxID, earlier: Option<AddrPort>)
    ensures !StartsWithValue(x) ==>
              Meaning(x, id, earlier) == if earlier.Some? then Found(id, earlier.value) else NoAddress(id)
    ensures StartsWithValue(x) && XorMapped(FirstValue(x), id).Some? ==>
              Meaning(x, id, earlier) == Found(id, XorMapped(FirstValue(x), id).value)
    ensures StartsWithValue(x) && XorMapped(FirstValue(x), id).None? && !StartsWithAttr(x) ==>
              Meaning(x, id, earlier) == OutOfRange
  {
  }

  method ParseBindingResponse(b: seq<byte>) returns (r: Parsed)
    ensures r == ParsedResponse(b)
  {
    hide Meaning, DecodedAddress;
    if !IsBindingResponse(b) {
      return NotAResponse;
    }
    var id: TxID := b[8..20];
    var msgLen := BigEndian16(b[2..4]);
    if HEADER_LEN + msgLen > |b| {
      return Truncated;
    }
    var attrs := b[HEADER_LEN..HEADER_LEN + msgLen];
    var mapped: Option<AddrPort> := None;
    while |attrs| >= 4
      invariant Meaning(attrs, id, mapped) == ParsedResponse(b)
      decreases |attrs|
    {
      MeaningWithoutTurn(attrs, id, mapped);
      var attrType := BigEndian16(attrs[0..2]);
      var attrLen := BigEndian16(attrs[2..4]);
      if 4 + attrLen > |attrs| {
        break;
      }
      var value := attrs[4..4 + attrLen];
      ghost var earlier := mapped;
      if attrType == XOR_MAPPED_ADDRESS {
        var ap := DecodeAddress(value, id, true);
        if ap.Some? {
          return Found(id, ap.value);
        }
      } else if attrType == MAPPED_ADDRESS {
        var ap := DecodeAddress(value, id, false);
        if ap.Some? {
          mapped := ap;
        }
      }
      if 4 + Padded(attrLen) > |attrs| {
        return OutOfRange;
      }
      MeaningAfterFirst(attrs, id, earlier);
      attrs := attrs[4 + Padded(attrLen)..];
    }
    MeaningWithoutTurn(attrs, id, mapped);
    r := if mapped.Some? then Found(id, mapped.value) else NoAddress(id);
  }

  // ---------------------------------------------------------------- what the parser guarantees

  /**
   * For every list of attributes with any padding, and any bytes after the message, parsing
   * yields the first decodable XOR-MAPPED-ADDRESS, else the last decodable MAPPED-ADDRESS,
   * else the error; it never leaves the buffer.
   */
  lemma {:induction false} ParseOfAttributes(id: TxID, attrs: seq<Attr>, trailing: seq<byte>)
    requires AllValid(attrs) && |Serialize(attrs)| < 0x1_0000
    ensures ParsedResponse(Header(BINDING_RESPONSE, |Serialize(attrs)|, id) + Serialize(attrs) + trailing) ==
              if FirstXorMapped(attrs, id).Some? then Found(id, FirstXorMapped(attrs, id).value)
              else if LastMapped(attrs, id).Some? then Found(id, LastMapped(attrs, id).value)
              else NoAddress(id)
  {
    var area := Serialize(attrs);
    var b := Header(BINDING_RESPONSE, |area|, id) + area + trailing;
    HeaderFields(BINDING_RESPONSE, |area|, id, area + trailing);
    assert b == Header(BINDING_RESPONSE, |area|, id) + (area + trailing);
    assert b[HEADER_LEN..HEADER_LEN + |area|] == area;
    ScanSerialize(attrs);
  }

  lemma HeaderFields(messageType: uint16, length: uint16, id: TxID, body: seq<byte>)
    ensures var b := Header(messageType, length, id) + body;
            && BigEndian16(b[0..2]) == messageType && BigEndian16(b[2..4]) == length
            && b[4..8] == COOKIE && b[8..20] == id && b[HEADER_LEN..] == body
            && (IsMessage(b) <==> messageType < 0x4000)
  {
  }

  /** A request built for an id is recognised as a request, not as a response, and gives the id back. */
  lemma RequestRoundTrip(id: TxID)
    ensures ParseBindingRequest(RequestBytes(id)) == Some(id) && !IsBindingResponse(RequestBytes(id))
  {
    HeaderFields(BINDING_REQUEST, 0, id, []);
    assert RequestBytes(id) + [] == RequestBytes(id);
  }

  lemma XorAddressDecodes(id: TxID, addr: AddrPort)
    ensures DecodedAddress(XorAddressValue(id, addr), id, true) == Some(UnmapPort(addr))
  {
    var ip, value := Unmap(addr.addr), XorAddressValue(id, addr);
    var port := Xor16(addr.port, PORT_MASK);
    assert value[2..4] == PutBigEndian16(port);
    BigEndian16RoundTrip(port, [0, 0]);
    Xor16Involutive(addr.port, PORT_MASK);
    assert value[4..4 + |AddrBytes(ip)|] == Xored(AddrBytes(ip), id);
    XoredInvolutive(AddrBytes(ip), id);
    UnmapIdempotent(addr.addr);
  }

  /** A response built for any IPv4 or IPv6 address parses back to the id and the unmapped address. */
  lemma ResponseRoundTrip(id: TxID, addr: AddrPort)
    ensures ParsedResponse(ResponseBytes(id, addr)) == Found(id, UnmapPort(addr))
  {
    var value := XorAddressValue(id, addr);
    var attrs := [Attr(XOR_MAPPED_ADDRESS, value, [])];
    assert Serialize(attrs) == SerializeOne(attrs[0]) + Serialize(attrs[1..]) == SerializeOne(attrs[0]);
    assert Header(BINDING_RESPONSE, |Serialize(attrs)|, id) + Serialize(attrs) + [] == ResponseBytes(id, addr);
    ParseOfAttributes(id, attrs, []);
    XorAddressDecodes(id, addr);
  }

  lemma UnmapIdempotent(a: Addr)
    ensures Unmap(Unmap(a)) == Unmap(a)
  {
  }

  // ---------------------------------------------------------------- bits on the wire

  /** Bit for bit, `result` is `given` flipped where `mask` has a one. */
  ghost predicate Flipped(result: nat, given: nat, mask: nat, width: nat) {
    forall i :: 0 <= i < width ==> Bit(result, i) == (Bit(given, i) + Bit(mask, i)) % 2
  }

  lemma XorByteFlips(a: byte, b: byte)
    ensures Flipped(XorByte(a, b), a, b, 8)
  {
    forall i | 0 <= i < 8
      ensures Bit(XorByte(a, b), i) == (Bit(a, i) + Bit(b, i)) % 2
    {
      XorBitsAt(a, b, 8, i);
    }
  }

  lemma Xor16Flips(a: uint16, b: uint16)
    ensures Flipped(Xor16(a, b), a, b, 16)
  {
    forall i | 0 <= i < 16
      ensures Bit(Xor16(a, b), i) == (Bit(a, i) + Bit(b, i)) % 2
    {
      XorBitsAt(a, b, 16, i);
    }
  }

  /** `plain` are the address bytes in an attribute value, unmasked bit by bit when they are xored. */
  ghost predicate AddressOnTheWire(plain: seq<byte>, v: seq<byte>, id: TxID, xored: bool) {
    |v| >= 4 + |plain| && |plain| <= 16 &&
    forall j :: 0 <= j < |plain| ==>
      if xored then Flipped(plain[j], v[4 + j], ([0x21, 0x12, 0xA4, 0x42] + id)[j], 8) else plain[j] == v[4 + j]
  }

  /**
   * What an address attribute means, bit by bit: it is decodable when it holds 4 address bytes,
   * or 16 for family 2; address and port are the bytes of the value, flipped for an
   * XOR-MAPPED-ADDRESS exactly where cookie and id have a one, and an IPv4 address carried in
   * an IPv6 one is taken out.
   */
  lemma DecodedBitByBit(v: seq<byte>, id: TxID, xored: bool)
    ensures DecodedAddress(v, id, xored).Some? <==> |v| >= 8 && (v[1] == 2 ==> |v| >= 20)
    ensures DecodedAddress(v, id, xored).Some? ==>
              var ap, wire := DecodedAddress(v, id, xored).value, 256 * (v[2] as int) + v[3] as int;
              && (if xored then Flipped(ap.port, wire, 0x2112, 16) else ap.port == wire)
              && exists plain: seq<byte> :: AddressOnTheWire(plain, v, id, xored)
                   && |plain| == (if v[1] == 2 then 16 else 4)
                   && ap.addr == (if |plain| == 4 then V4(plain)
                                  else if plain[..12] == [0, 0, 0, 0, 0, 0, 0, 0, 0, 0, 0xFF, 0xFF] then V4(plain[12..])
                                  else V6(plain))
  {
    hide XorByte, Xor16, Flipped;
    if DecodedAddress(v, id, xored).Some? {
      var n := if v[1] == FAMILY_IPV6 then 16 else 4;
      var raw := v[4..4 + n];
      var plain := if xored then Xored(raw, id) else raw;
      BigEndian16RoundTrip(0, v[2..4]);
      Xor16Flips(BigEndian16(v[2..4]), PORT_MASK);
      forall j | 0 <= j < n
        ensures Flipped(XorByte(raw[j], XorKey(id)[j]), v[4 + j], ([0x21, 0x12, 0xA4, 0x42] + id)[j], 8)
      {
        XorByteFlips(raw[j], XorKey(id)[j]);
      }
      assert AddressOnTheWire(plain, v, id, xored);
    }
  }

  /** A request, and a response to an address of n bytes, byte for byte and bit for bit. */
  lemma BuiltBitByBit(id: TxID, addr: AddrPort)
    ensures RequestBytes(id) == [0, 1, 0, 0, 0x21, 0x12, 0xA4, 0x42] + id
    ensures var b, ip, n := ResponseBytes(id, addr), AddrBytes(Unmap(addr.addr)), |AddrBytes(Unmap(addr.addr))|;
            && |b| == 28 + n
            && b[..8] == [1, 1, 0, 8 + n, 0x21, 0x12, 0xA4, 0x42] && b[8..20] == id
            && b[20..26] == [0, 0x20, 0, 4 + n, 0, if n == 16 then 2 else 1]
            && Flipped(256 * (b[26] as int) + b[27] as int, addr.port, 0x2112, 16)
            && forall j :: 0 <= j < n ==> Flipped(b[28 + j], ip[j], ([0x21, 0x12, 0xA4, 0x42] + id)[j], 8)
  {
    hide XorByte, Xor16, Flipped;
    var b, ip := ResponseBytes(id, addr), AddrBytes(Unmap(addr.addr));
    var port := Xor16(addr.port, PORT_MASK);
    BigEndian16RoundTrip(port, PutBigEndian16(port));
    Xor16Flips(addr.port, PORT_MASK);
    assert b[26..28] == PutBigEndian16(port);
    forall j | 0 <= j < |ip|
      ensures Flipped(b[28 + j], ip[j], ([0x21, 0x12, 0xA4, 0x42] + id)[j], 8)
    {
      XorByteFlips(ip[j], XorKey(id)[j]);
      assert b[28 + j] == Xored(ip, id)[j];
    }
  }

  /** The attribute area of a response (section 6 of RFC 5389 wants its length a multiple of four). */
  function AttributeArea(b: seq<byte>): seq<byte>
    requires IsBindingResponse(b) && HEADER_LEN + LengthField(b) <= |b|
  {
    b[HEADER_LEN..HEADER_LEN + LengthField(b)]
  }

  /** The parser leaves the slice exactly when an undecided scan ends on a value without its padding. */
  lemma OutOfRangeIff(b: seq<byte>)
    ensures ParsedResponse(b) == OutOfRange <==>
              && IsBindingResponse(b) && HEADER_LEN + LengthField(b) <= |b|
              && var x := AttributeArea(b);
                 Overruns(Scan(x).1) && FirstXorMapped(Scan(x).0, b[8..20]).None?
                 && XorMapped(FirstValue(Scan(x).1), b[8..20]).None?
    ensures |b| >= 4 && LengthField(b) % 4 == 0 ==> ParsedResponse(b) != OutOfRange
  {
    if IsBindingResponse(b) && HEADER_LEN + LengthField(b) <= |b| && LengthField(b) % 4 == 0 {
      AlignedNeverOverruns(AttributeArea(b));
    }
  }

  /** One attribute of unknown type whose value ends where its padding should start. */
  function BareArea(length: uint16): (area: seq<byte>)
    requires length >= 4
    ensures |area| == length
  {
    PutBigEndian16(0) + PutBigEndian16(length - 4) + seq(length - 4, _ => 0 as byte)
  }

  lemma BareAreaOverruns(length: uint16)
    requires length % 4 != 0 && length >= 5
    ensures var x := BareArea(length);
            Overruns(x) && Scan(x) == ([], x) && FirstValue(x).attrType == 0
  {
    var x := BareArea(length);
    assert x[0..2] == PutBigEndian16(0) && x[2..4] == PutBigEndian16(length - 4);
    BigEndian16RoundTrip(length - 4, [0, 0]);
    BigEndian16RoundTrip(0, [0, 0]);
  }

  /** Every other length is unsafe: from five bytes on, some message of that length leaves the slice. */
  lemma UnalignedLengthOverruns(length: uint16, id: TxID)
    requires length % 4 != 0 && length >= 5
    ensures exists area: seq<byte> :: |area| == length
              && ParsedResponse(Header(BINDING_RESPONSE, length, id) + area) == OutOfRange
  {
    hide BareArea, Overruns, Scan;
    var area := BareArea(length);
    BareAreaOverruns(length);
    HeaderFields(BINDING_RESPONSE, length, id, area);
    assert AttributeArea(Header(BINDING_RESPONSE, length, id) + area) == area;
  }
}
