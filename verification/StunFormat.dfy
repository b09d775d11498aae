/** What a STUN binding response means, stated on its octets: the layout of an address attribute, which responses are
    refused and why, and the address any other response yields. */
module StunFormat {
  import opened Basics
  import opened Bytes
  import opened Stun

  // ---- One address attribute ----

  /** The layout of an address: a reserved octet, the family, the port, the address, and whatever follows. */
  function MappedValue(reserved: byte, a: Address, extra: Octets): Octets {
    [reserved, if a.V4? then 0x01 else 0x02] + a.port + a.ip + extra
  }

  ghost predicate Carries(value: Octets, a: Address) {
    a.Valid() && exists reserved: byte, extra: Octets :: value == MappedValue(reserved, a, extra)
  }

  /** The same address with port and address combined with the cookie, and an IPv6 address with the transaction too. */
  function Masked(a: Address, tid: Octets): Address
    requires |tid| == 12 && a.Valid()
  {
    var cookie := [0x21, 0x12, 0xA4, 0x42];
    match a
    case V4(ip, port) => V4(Xor(ip, cookie), Xor(port, cookie))
    case V6(ip, port) => V6(Xor(ip, cookie + tid), Xor(port, cookie))
  }

  /** The length and family an address attribute must have. */
  predicate Acceptable(value: Octets) {
    |value| >= 8 && (value[1] == 1 || (value[1] == 2 && |value| >= 20))
  }

  lemma MappedParts(reserved: byte, a: Address, extra: Octets)
    requires a.Valid()
    ensures var value := MappedValue(reserved, a, extra);
      && Acceptable(value) && value[1] == (if a.V4? then 1 else 2)
      && value[2..4] == a.port && value[4..4 + |a.ip|] == a.ip
  {
  }

  /** An attribute of an acceptable length and family carries an address. */
  lemma CarriesSome(value: Octets) returns (a: Address)
    requires Acceptable(value)
    ensures Carries(value, a)
  {
    a := if value[1] == 1 then V4(value[4..8], value[2..4]) else V6(value[4..20], value[2..4]);
    assert value == MappedValue(value[0], a, value[4 + |a.ip|..]);
  }

  /** A MAPPED-ADDRESS is read as an address exactly if it carries it, whatever the reserved octet and the octets that
      follow; anything else is refused. */
  lemma MappedIff(value: Octets, a: Address)
    ensures ParseMapped(value) == Ok(a) <==> Carries(value, a)
    ensures ParseMapped(value) == Err(BadAddress) <==> !Acceptable(value)
  {
    if Carries(value, a) {
      var reserved: byte, extra: Octets :| value == MappedValue(reserved, a, extra);
      MappedParts(reserved, a, extra);
    }
    if ParseMapped(value) == Ok(a) {
      assert value == MappedValue(value[0], a, value[4 + |a.ip|..]);
    }
  }

  lemma MaskedTwice(a: Address, tid: Octets)
    requires |tid| == 12 && a.Valid()
    ensures Masked(a, tid).Valid() && Masked(Masked(a, tid), tid) == a
  {
    var cookie := [0x21, 0x12, 0xA4, 0x42];
    XorTwice(a.port, cookie);
    XorTwice(a.ip, if a.V4? then cookie else cookie + tid);
  }

  lemma XorIsMasked(value: Octets, tid: Octets)
    requires |tid| == 12
    ensures match ParseMapped(value)
      case Ok(a) => a.Valid() && ParseXorMapped(value, tid) == Ok(Masked(a, tid))
      case Err(e) => ParseXorMapped(value, tid) == Err(e)
  {
  }

  /** An XOR-MAPPED-ADDRESS is read as an address exactly if it carries that address masked. */
  lemma XorMappedIff(value: Octets, tid: Octets, a: Address)
    requires |tid| == 12 && a.Valid()
    ensures ParseXorMapped(value, tid) == Ok(a) <==> Carries(value, Masked(a, tid))
    ensures ParseXorMapped(value, tid) == Err(BadAddress) <==> !Acceptable(value)
  {
    XorIsMasked(value, tid);
    MaskedTwice(a, tid);
    MappedIff(value, Masked(a, tid));
    match ParseMapped(value)
    case Ok(b) => MaskedTwice(b, tid);
    case Err(_) =>
  }

  // ---- Any response ----

  /** What a response with these attributes must give: nothing if an address attribute is malformed, else the last
      XOR-MAPPED-ADDRESS, else the last MAPPED-ADDRESS. */
  ghost predicate Means(attributes: seq<Attribute>, tid: Octets, r: Result<Address, Error>)
    requires |tid| == 12
  {
    if exists i :: 0 <= i < |attributes| && attributes[i].kind in {0x0001, 0x0020} && !Acceptable(attributes[i].value)
    then r == Err(BadAddress)
    else
      var x, m := LastOf(attributes, 0x0020), LastOf(attributes, 0x0001);
      if x >= 0 then r.Ok? && r.value.Valid() && Carries(attributes[x].value, Masked(r.value, tid))
      else if m >= 0 then r.Ok? && Carries(attributes[m].value, r.value)
      else r == Err(NoAddress)
  }

  lemma {:induction false} MalformedFails(attributes: seq<Attribute>, tid: Octets, found: Found, i: nat)
    requires |tid| == 12 && i < |attributes|
    requires attributes[i].kind in {0x0001, 0x0020} && !Acceptable(attributes[i].value)
    ensures Fold(attributes, ReaderFor(tid), found) == Err(BadAddress)
    decreases |attributes|
  {
    var next := Note(found, attributes[0].kind, attributes[0].value, tid);
    XorIsMasked(attributes[0].value, tid);
    if i > 0 && next.Ok? {
      MalformedFails(attributes[1..], tid, next.value, i - 1);
    }
  }

  function Chosen(r: Result<Found, Error>): Result<Address, Error> {
    match r
    case Err(e) => Err(e)
    case Ok(found) => found.Best()
  }

  lemma FoldMeans(attributes: seq<Attribute>, tid: Octets)
    requires |tid| == 12
    ensures Means(attributes, tid, Chosen(Fold(attributes, ReaderFor(tid), Found(None, None))))
  {
    if i :| 0 <= i < |attributes| && attributes[i].kind in {0x0001, 0x0020} && !Acceptable(attributes[i].value) {
      MalformedFails(attributes, tid, Found(None, None), i);
    } else {
      forall i | 0 <= i < |attributes|
        ensures attributes[i].kind in {0x0001, 0x0020} ==>
          ParseXorMapped(attributes[i].value, tid).Ok? && ParseMapped(attributes[i].value).Ok?
      {
        XorIsMasked(attributes[i].value, tid);
      }
      FoldIsLast(attributes, tid);
      var x, m := LastOf(attributes, 0x0020), LastOf(attributes, 0x0001);
      if x >= 0 {
        LastMeans(attributes[x].value, tid);
      } else if m >= 0 {
        MappedIff(attributes[m].value, ParseMapped(attributes[m].value).value);
      }
    }
  }

  lemma LastMeans(value: Octets, tid: Octets)
    requires |tid| == 12 && Acceptable(value)
    ensures var r := ParseXorMapped(value, tid); r.Ok? && r.value.Valid() && Carries(value, Masked(r.value, tid))
  {
    XorIsMasked(value, tid);
    MaskedTwice(ParseMapped(value).value, tid);
    XorMappedIff(value, tid, ParseXorMapped(value, tid).value);
  }

  /** Any octets are some list of attributes, up to a last one that is cut off. */
  lemma {:induction false} ReadsSome(data: Octets, offset: nat) returns (attributes: seq<Attribute>)
    ensures ReadAll(attributes, data, offset)
    decreases |data| - offset
  {
    if Ends(data, offset) {
      attributes := [];
    } else {
      var length := FromBe(data[offset + 2..offset + 4]);
      var a := Attribute(FromBe(data[offset..offset + 2]), data[offset + 4..offset + 4 + length], []);
      var rest := ReadsSome(data, offset + 4 + PaddedLength(length));
      attributes := [a] + rest;
      assert attributes[1..] == rest;
    }
  }

  function Word(high: byte, low: byte): nat {
    high as int * 0x100 + low as int
  }

  /** The header a client accepts. */
  predicate HeaderOk(data: Octets, tid: Octets) {
    && |data| >= 20 && data[..2] == [0x01, 0x01] && data[4..8] == [0x21, 0x12, 0xA4, 0x42] && data[8..20] == tid
    && 20 + Word(data[2], data[3]) <= |data|
  }

  lemma FromTwo(a: byte, b: byte)
    ensures FromBe([a, b]) == Word(a, b)
  {
    assert [a, b][..1] == [a] && [a][..0] == [];
  }

  lemma HeaderWords(data: Octets)
    requires |data| >= 20
    ensures FromBe(data[..2]) == 0x0101 <==> data[..2] == [0x01, 0x01]
    ensures FromBe(data[2..4]) == Word(data[2], data[3])
  {
    assert data[..2] == [data[0], data[1]] && data[2..4] == [data[2], data[3]];
    FromTwo(data[0], data[1]);
    FromTwo(data[2], data[3]);
  }

  /** Which response is refused for its header, and with what: the first check that fails. */
  lemma HeaderRefused(data: Octets, tid: Octets)
    requires |tid| == 12 && !HeaderOk(data, tid)
    ensures ParseResponse(data, tid) == Err(
      if |data| < 20 then TooShort
      else if data[..2] != [0x01, 0x01] then WrongType
      else if data[4..8] != [0x21, 0x12, 0xA4, 0x42] then WrongCookie
      else if data[8..20] != tid then WrongTransaction
      else Truncated)
  {
    if |data| >= 20 {
      HeaderWords(data);
    }
  }

  /** Any other response is some list of attributes, and what it yields is what they mean. */
  lemma ResponseMeans(data: Octets, tid: Octets) returns (attributes: seq<Attribute>)
    requires |tid| == 12 && HeaderOk(data, tid)
    ensures ReadAll(attributes, data[20..20 + Word(data[2], data[3])], 0)
    ensures Means(attributes, tid, ParseResponse(data, tid))
  {
    HeaderWords(data);
    var body := data[20..20 + Word(data[2], data[3])];
    attributes := ReadsSome(body, 0);
    WalkReads(attributes, body, 0, ReaderFor(tid), Found(None, None));
    FoldMeans(attributes, tid);
  }

  // ---- Particular responses ----

  /** A response that carries only a MAPPED-ADDRESS yields it, for every address of either family, reserved octet and
      octets that follow. */
  lemma OnlyMapped(tid: Octets, peer: Address, reserved: byte, extra: Octets, padding: Octets)
    requires |tid| == 12 && peer.Valid() && 8 + |peer.ip| + |extra| + |padding| < 0x1_0000
    requires |padding| < 4 && (4 + |peer.ip| + |extra| + |padding|) % 4 == 0
    ensures var a := Attribute(0x0001, MappedValue(reserved, peer, extra), padding);
      ParseResponse(Header(tid, |EncodeAttribute(a)|) + EncodeAttribute(a), tid) == Ok(peer)
  {
    var a := Attribute(0x0001, MappedValue(reserved, peer, extra), padding);
    MappedIff(a.value, peer);
    MappedAlone(tid, a, peer);
  }

  lemma MappedAlone(tid: Octets, a: Attribute, peer: Address)
    requires |tid| == 12 && a.Valid() && |EncodeAttribute(a)| < 0x1_0000
    requires a.kind == 0x0001 && ParseMapped(a.value) == Ok(peer)
    ensures ParseResponse(Header(tid, |EncodeAttribute(a)|) + EncodeAttribute(a), tid) == Ok(peer)
  {
    var encoded := EncodeAttribute(a);
    assert [a][1..] == [] && encoded + [] == encoded;
    assert LastOf([a], XOR_MAPPED_ADDRESS) == -1 && LastOf([a], MAPPED_ADDRESS) == 0;
    ParsesLastAddress(tid, [a]);
  }

  lemma HeaderWrites(tid: Octets, length: byte)
    ensures Header(tid, length) == [0x01, 0x01, 0x00, length, 0x21, 0x12, 0xA4, 0x42] + tid
  {
    TwoBytes(0x0101);
    TwoBytes(length);
    Assoc([0x01, 0x01], [0x00, length], COOKIE);
  }

  lemma AttributeWrites(value: Octets)
    requires |value| < 0x100
    ensures EncodeAttribute(Attribute(0x0020, value, [])) == [0x00, 0x20, 0x00, |value|] + value
  {
    TwoBytes(0x0020);
    TwoBytes(|value|);
  }

  /** What the server writes, octet by octet. */
  lemma ServerWrites(tid: Octets, peer: Address)
    requires |tid| == 12 && peer.Valid()
    ensures BuildResponse(tid, peer) ==
      [0x01, 0x01, 0x00, 8 + |peer.ip|, 0x21, 0x12, 0xA4, 0x42] + tid
      + ([0x00, 0x20, 0x00, 4 + |peer.ip|] + MappedValue(0x00, Masked(peer, tid), []))
  {
    HeaderWrites(tid, 8 + |peer.ip|);
    AttributeWrites(AddressValue(tid, peer));
    assert AddressValue(tid, peer) == MappedValue(0x00, Masked(peer, tid), []);
  }
}
