/** STUN binding responses (sections 6, 15, 15.1 and 15.2 of RFC 5389): building one and walking the attributes
    of one. Addresses and ports are octet strings in network order, on which exclusive-or acts octet by octet. */
module Stun {
  import opened Basics
  import opened Bytes

  type Octets = seq<byte>

  datatype Error = TooShort | WrongType | WrongCookie | WrongTransaction | Truncated | BadAddress | NoAddress

  /** An IPv4 or IPv6 address and a port, in network order. */
  datatype Address = V4(ip: Octets, port: Octets) | V6(ip: Octets, port: Octets) {
    predicate Valid() {
      |port| == 2 && |ip| == if V4? then 4 else 16
    }
  }

  const COOKIE: Octets := [0x21, 0x12, 0xA4, 0x42]
  const BINDING_RESPONSE := 0x0101
  const MAPPED_ADDRESS := 0x0001
  const XOR_MAPPED_ADDRESS := 0x0020
  const HEADER_SIZE := 20

  // ---- Exclusive-or ----

  /** `s` combined with the first octets of `key`. */
  function Xor(s: Octets, key: Octets): (r: Octets)
    requires |s| <= |key|
    ensures |r| == |s| && forall i :: 0 <= i < |s| ==> r[i] == XorByte(s[i], key[i])
  {
    if s == [] then [] else [XorByte(s[0], key[0])] + Xor(s[1..], key[1..])
  }

  lemma {:induction false} XorTwice(s: Octets, key: Octets)
    requires |s| <= |key|
    ensures Xor(Xor(s, key), key) == s
  {
    forall i | 0 <= i < |s|
      ensures Xor(Xor(s, key), key)[i] == s[i]
    {
      XorByteTwice(s[i], key[i]);
    }
  }

  /** The loop that combines an address with its key octet by octet. */
  method XorAddress(s: Octets, key: Octets) returns (r: array<byte>)
    requires |s| <= |key|
    ensures fresh(r) && r[..] == Xor(s, key)
  {
    r := new byte[|s|];
    for i := 0 to |s|
      invariant forall j :: 0 <= j < i ==> r[j] == XorByte(s[j], key[j])
    {
      r[i] := XorByte(s[i], key[i]);
    }
  }

  // ---- The server ----

  function Header(tid: Octets, length: nat): Octets {
    Be(BINDING_RESPONSE, 2) + Be(length, 2) + COOKIE + tid
  }

  function AddressValue(tid: Octets, peer: Address): (value: Octets)
    requires |tid| == 12 && peer.Valid()
    ensures |value| == 4 + |peer.ip|
  {
    [0x00, if peer.V4? then 0x01 else 0x02] + Xor(peer.port, COOKIE)
      + Xor(peer.ip, if peer.V4? then COOKIE else COOKIE + tid)
  }

  function BuildResponse(tid: Octets, peer: Address): Octets
    requires |tid| == 12 && peer.Valid()
  {
    var value := AddressValue(tid, peer);
    Header(tid, 4 + |value|) + EncodeAttribute(Attribute(XOR_MAPPED_ADDRESS, value, []))
  }

  // ---- Attributes ----

  lemma U16Back(n: nat)
    requires n < 0x1_0000
    ensures FromBe(Be(n, 2)) == n
  {
    Pow256Values();
    BeRoundTrip(n, 2);
  }

  datatype Attribute = Attribute(kind: nat, value: Octets, padding: Octets) {
    predicate Valid() {
      kind < 0x1_0000 && |value| < 0x1_0000 && |padding| < 4 && (|value| + |padding|) % 4 == 0
    }
  }

  function PaddedLength(length: nat): nat {
    (length + 3) / 4 * 4
  }

  /** The next multiple of four. */
  lemma PadsToFour(length: nat, padding: nat)
    requires padding < 4 && (length + padding) % 4 == 0
    ensures PaddedLength(length) == length + padding
  {
  }

  function EncodeAttribute(a: Attribute): (s: Octets)
    requires a.kind < 0x1_0000 && |a.value| < 0x1_0000
    ensures |s| == 4 + |a.value| + |a.padding|
  {
    Be(a.kind, 2) + Be(|a.value|, 2) + (a.value + a.padding)
  }

  predicate AllValid(attributes: seq<Attribute>) {
    forall i :: 0 <= i < |attributes| ==> attributes[i].Valid()
  }

  function EncodeAll(attributes: seq<Attribute>): Octets
    requires AllValid(attributes)
  {
    if attributes == [] then [] else EncodeAttribute(attributes[0]) + EncodeAll(attributes[1..])
  }

  function ParseXorMapped(value: Octets, tid: Octets): Result<Address, Error>
    requires |tid| == 12
  {
    if |value| < 8 then Err(BadAddress)
    else
      var port := Xor(value[2..4], COOKIE);
      if value[1] == 0x01 then Ok(V4(Xor(value[4..8], COOKIE), port))
      else if value[1] == 0x02 && |value| >= 20 then Ok(V6(Xor(value[4..20], COOKIE + tid), port))
      else Err(BadAddress)
  }

  function ParseMapped(value: Octets): Result<Address, Error> {
    if |value| < 8 then Err(BadAddress)
    else if value[1] == 0x01 then Ok(V4(value[4..8], value[2..4]))
    else if value[1] == 0x02 && |value| >= 20 then Ok(V6(value[4..20], value[2..4]))
    else Err(BadAddress)
  }

  /** What a walk has found so far. */
  datatype Found = Found(xor: Option<Address>, mapped: Option<Address>) {
    function Best(): Result<Address, Error> {
      if xor.Some? then Ok(xor.value) else if mapped.Some? then Ok(mapped.value) else Err(NoAddress)
    }
  }

  /** The effect of one attribute on what has been found. */
  function Note(found: Found, kind: nat, value: Octets, tid: Octets): Result<Found, Error>
    requires |tid| == 12
  {
    if kind == XOR_MAPPED_ADDRESS then
      match ParseXorMapped(value, tid) { case Ok(a) => Ok(found.(xor := Some(a))) case Err(e) => Err(e) }
    else if kind == MAPPED_ADDRESS then
      match ParseMapped(value) { case Ok(a) => Ok(found.(mapped := Some(a))) case Err(e) => Err(e) }
    else Ok(found)
  }

  type Reader = (Found, nat, Octets) -> Result<Found, Error>

  function ReaderFor(tid: Octets): Reader
    requires |tid| == 12
  {
    (found: Found, kind: nat, value: Octets) => Note(found, kind, value, tid)
  }

  function Walk(data: Octets, offset: nat, note: Reader, found: Found): Result<Found, Error>
    decreases |data| - offset
  {
    if offset + 4 > |data| then Ok(found)
    else
      var length := FromBe(data[offset + 2..offset + 4]);
      if offset + 4 + length > |data| then Ok(found)
      else
        match note(found, FromBe(data[offset..offset + 2]), data[offset + 4..offset + 4 + length])
        case Err(e) => Err(e)
        case Ok(next) => Walk(data, offset + 4 + PaddedLength(length), note, next)
  }

  function ParseResponse(data: Octets, tid: Octets): Result<Address, Error>
    requires |tid| == 12
  {
    if |data| < HEADER_SIZE then Err(TooShort)
    else if FromBe(data[..2]) != BINDING_RESPONSE then Err(WrongType)
    else if data[4..8] != COOKIE then Err(WrongCookie)
    else if data[8..20] != tid then Err(WrongTransaction)
    else
      var length := FromBe(data[2..4]);
      if |data| - HEADER_SIZE < length then Err(Truncated)
      else
        match Walk(data[HEADER_SIZE..HEADER_SIZE + length], 0, ReaderFor(tid), Found(None, None))
        case Err(e) => Err(e)
        case Ok(found) => found.Best()
  }

  /** No whole attribute stands at `offset`. */
  predicate Ends(data: Octets, offset: nat) {
    offset + 4 > |data| || offset + 4 + FromBe(data[offset + 2..offset + 4]) > |data|
  }

  lemma WalkEnds(data: Octets, offset: nat, note: Reader, found: Found)
    requires Ends(data, offset)
    ensures Walk(data, offset, note, found) == Ok(found)
  {
  }

  lemma WalkOn(data: Octets, offset: nat, note: Reader, found: Found, length: nat)
    requires offset + 4 + length <= |data| && length == FromBe(data[offset + 2..offset + 4])
    ensures var next := note(found, FromBe(data[offset..offset + 2]), data[offset + 4..offset + 4 + length]);
      Walk(data, offset, note, found) ==
        if next.Ok? then Walk(data, offset + 4 + PaddedLength(length), note, next.value) else Err(next.error)
  {
  }

  /** The client's loop over the attributes. */
  method WalkAttributes(data: Octets, note: Reader) returns (r: Result<Found, Error>)
    ensures r == Walk(data, 0, note, Found(None, None))
  {
    var found := Found(None, None);
    var offset := 0;
    while offset + 4 <= |data|
      invariant Walk(data, offset, note, found) == Walk(data, 0, note, Found(None, None))
      decreases |data| - offset
    {
      var kind := FromBe(data[offset..offset + 2]);
      var length := FromBe(data[offset + 2..offset + 4]);
      if offset + 4 + length > |data| {
        break;
      }
      var value := data[offset + 4..offset + 4 + length];
      WalkOn(data, offset, note, found, length);
      var next := note(found, kind, value);
      if next.Err? {
        return Err(next.error);
      }
      found := next.value;
      offset := offset + 4 + PaddedLength(length);
    }
    WalkEnds(data, offset, note, found);
    return Ok(found);
  }

  method ParseBindingResponse(data: Octets, tid: Octets) returns (r: Result<Address, Error>)
    requires |tid| == 12
    ensures r == ParseResponse(data, tid)
  {
    if |data| < HEADER_SIZE { return Err(TooShort); }
    if FromBe(data[..2]) != BINDING_RESPONSE { return Err(WrongType); }
    if data[4..8] != COOKIE { return Err(WrongCookie); }
    if data[8..20] != tid { return Err(WrongTransaction); }
    var length := FromBe(data[2..4]);
    if |data| - HEADER_SIZE < length { return Err(Truncated); }
    var walked := WalkAttributes(data[HEADER_SIZE..HEADER_SIZE + length], ReaderFor(tid));
    if walked.Err? {
      return Err(walked.error);
    }
    return walked.value.Best();
  }

  // ---- What the walk returns ----

  /** What a list of attributes amounts to, read in order. */
  function Fold(attributes: seq<Attribute>, note: Reader, found: Found): Result<Found, Error> {
    if attributes == [] then Ok(found)
    else
      match note(found, attributes[0].kind, attributes[0].value)
      case Err(e) => Err(e)
      case Ok(next) => Fold(attributes[1..], note, next)
  }

  /** The attribute at `offset` is `a`. */
  ghost predicate ReadsAs(a: Attribute, data: Octets, offset: nat) {
    && offset + 4 + |a.value| <= |data|
    && FromBe(data[offset..offset + 2]) == a.kind
    && FromBe(data[offset + 2..offset + 4]) == |a.value|
    && data[offset + 4..offset + 4 + |a.value|] == a.value
  }

  /** The whole attributes from `offset` on are `attributes`. */
  ghost predicate ReadAll(attributes: seq<Attribute>, data: Octets, offset: nat) {
    if attributes == [] then Ends(data, offset)
    else
      && ReadsAs(attributes[0], data, offset)
      && ReadAll(attributes[1..], data, offset + 4 + PaddedLength(|attributes[0].value|))
  }

  lemma BlockReads(a: Attribute, kind: Octets, length: Octets, data: Octets, offset: nat)
    requires |kind| == 2 && FromBe(kind) == a.kind && |length| == 2 && FromBe(length) == |a.value|
    requires At(data, offset, kind + length + (a.value + a.padding))
    ensures ReadsAs(a, data, offset)
  {
    AtBlock(data, offset, kind, length, a.value, a.padding);
  }

  lemma AttributeAt(a: Attribute, data: Octets, offset: nat)
    requires a.kind < 0x1_0000 && |a.value| < 0x1_0000 && At(data, offset, EncodeAttribute(a))
    ensures ReadsAs(a, data, offset)
  {
    U16Back(a.kind);
    U16Back(|a.value|);
    BlockReads(a, Be(a.kind, 2), Be(|a.value|, 2), data, offset);
  }

  lemma {:induction false} EncodedReads(attributes: seq<Attribute>, data: Octets, offset: nat)
    requires AllValid(attributes)
    requires At(data, offset, EncodeAll(attributes)) && offset + |EncodeAll(attributes)| == |data|
    ensures ReadAll(attributes, data, offset)
    decreases |attributes|
  {
    if attributes != [] {
      var a, rest := attributes[0], attributes[1..];
      AtSplit(data, offset, EncodeAttribute(a), EncodeAll(rest));
      AttributeAt(a, data, offset);
      PadsToFour(|a.value|, |a.padding|);
      EncodedReads(rest, data, offset + |EncodeAttribute(a)|);
    }
  }

  lemma {:induction false} WalkReads(attributes: seq<Attribute>, data: Octets, offset: nat, note: Reader, found: Found)
    requires ReadAll(attributes, data, offset)
    ensures Walk(data, offset, note, found) == Fold(attributes, note, found)
    decreases |attributes|
  {
    if attributes == [] {
      WalkEnds(data, offset, note, found);
    } else {
      var a := attributes[0];
      WalkOn(data, offset, note, found, |a.value|);
      var next := note(found, a.kind, a.value);
      if next.Ok? {
        WalkReads(attributes[1..], data, offset + 4 + PaddedLength(|a.value|), note, next.value);
      }
    }
  }

  /** Walking the octets of any list of padded attributes reads exactly that list. */
  lemma WalkEncoded(attributes: seq<Attribute>, data: Octets, offset: nat, note: Reader, found: Found)
    requires AllValid(attributes)
    requires At(data, offset, EncodeAll(attributes)) && offset + |EncodeAll(attributes)| == |data|
    ensures Walk(data, offset, note, found) == Fold(attributes, note, found)
  {
    EncodedReads(attributes, data, offset);
    WalkReads(attributes, data, offset, note, found);
  }

  /** Attributes of a kind are well-formed addresses. */
  predicate WellFormed(attributes: seq<Attribute>, tid: Octets)
    requires |tid| == 12
  {
    forall i :: 0 <= i < |attributes| ==>
      && (attributes[i].kind == XOR_MAPPED_ADDRESS ==> ParseXorMapped(attributes[i].value, tid).Ok?)
      && (attributes[i].kind == MAPPED_ADDRESS ==> ParseMapped(attributes[i].value).Ok?)
  }

  /** Position of the last attribute of a kind, or -1. */
  function LastOf(attributes: seq<Attribute>, kind: nat): (k: int)
    ensures -1 <= k < |attributes|
    ensures k >= 0 ==> attributes[k].kind == kind
    ensures forall i :: k < i < |attributes| ==> attributes[i].kind != kind
  {
    if attributes == [] then -1
    else if attributes[|attributes| - 1].kind == kind then |attributes| - 1
    else LastOf(attributes[..|attributes| - 1], kind)
  }

  lemma {:induction false} FoldSnoc(attributes: seq<Attribute>, a: Attribute, note: Reader, found: Found)
    ensures var r := Fold(attributes, note, found);
      Fold(attributes + [a], note, found) == if r.Ok? then note(r.value, a.kind, a.value) else r
  {
    if attributes == [] {
      assert ([] + [a])[1..] == [];
    } else {
      assert (attributes + [a])[1..] == attributes[1..] + [a];
      var next := note(found, attributes[0].kind, attributes[0].value);
      if next.Ok? {
        FoldSnoc(attributes[1..], a, note, next.value);
      }
    }
  }

  lemma {:induction false} FoldIsLast(attributes: seq<Attribute>, tid: Octets)
    requires |tid| == 12 && WellFormed(attributes, tid)
    ensures var x := LastOf(attributes, XOR_MAPPED_ADDRESS);
      var m := LastOf(attributes, MAPPED_ADDRESS);
      Fold(attributes, ReaderFor(tid), Found(None, None)) ==
        Ok(Found(if x >= 0 then Some(ParseXorMapped(attributes[x].value, tid).value) else None,
                 if m >= 0 then Some(ParseMapped(attributes[m].value).value) else None))
  {
    if attributes != [] {
      var rest, a := attributes[..|attributes| - 1], attributes[|attributes| - 1];
      assert attributes == rest + [a];
      FoldIsLast(rest, tid);
      FoldSnoc(rest, a, ReaderFor(tid), Found(None, None));
    }
  }

  /** The response that carries a list of attributes. */
  function ResponseWith(tid: Octets, attributes: seq<Attribute>): Octets
    requires AllValid(attributes)
    requires |EncodeAll(attributes)| < 0x1_0000
  {
    Header(tid, |EncodeAll(attributes)|) + EncodeAll(attributes)
  }

  lemma HeaderParts(tid: Octets, body: Octets)
    requires |tid| == 12 && |body| < 0x1_0000
    ensures var data := Header(tid, |body|) + body;
      && |data| == HEADER_SIZE + |body|
      && FromBe(data[..2]) == BINDING_RESPONSE && FromBe(data[2..4]) == |body|
      && data[4..8] == COOKIE && data[8..20] == tid && data[HEADER_SIZE..HEADER_SIZE + |body|] == body
  {
    var data := Header(tid, |body|) + body;
    U16Back(BINDING_RESPONSE);
    U16Back(|body|);
    assert data[..2] == Be(BINDING_RESPONSE, 2) && data[2..4] == Be(|body|, 2);
    assert data[4..8] == COOKIE && data[8..20] == tid;
  }

  /** A response with any padded attributes and well-formed addresses yields the last XOR-MAPPED-ADDRESS, else the
      last MAPPED-ADDRESS, else an error. */
  lemma ParsesLastAddress(tid: Octets, attributes: seq<Attribute>)
    requires |tid| == 12 && WellFormed(attributes, tid)
    requires AllValid(attributes)
    requires |EncodeAll(attributes)| < 0x1_0000
    ensures var x := LastOf(attributes, XOR_MAPPED_ADDRESS);
      var m := LastOf(attributes, MAPPED_ADDRESS);
      ParseResponse(ResponseWith(tid, attributes), tid) ==
        if x >= 0 then ParseXorMapped(attributes[x].value, tid)
        else if m >= 0 then ParseMapped(attributes[m].value)
        else Err(NoAddress)
  {
    var body := EncodeAll(attributes);
    HeaderParts(tid, body);
    WalkEncoded(attributes, body, 0, ReaderFor(tid), Found(None, None));
    FoldIsLast(attributes, tid);
  }

  lemma AddressRoundTrip(tid: Octets, peer: Address)
    requires |tid| == 12 && peer.Valid()
    ensures ParseXorMapped(AddressValue(tid, peer), tid) == Ok(peer)
  {
    var value := AddressValue(tid, peer);
    var key := if peer.V4? then COOKIE else COOKIE + tid;
    assert value[2..4] == Xor(peer.port, COOKIE);
    assert value[4..4 + |peer.ip|] == Xor(peer.ip, key);
    XorTwice(peer.port, COOKIE);
    XorTwice(peer.ip, key);
  }

  /** A response with one well-formed address attribute yields that address. */
  lemma OneAddress(tid: Octets, a: Attribute, peer: Address)
    requires |tid| == 12 && a.Valid() && |EncodeAttribute(a)| < 0x1_0000
    requires a.kind == XOR_MAPPED_ADDRESS && ParseXorMapped(a.value, tid) == Ok(peer)
    ensures ParseResponse(Header(tid, |EncodeAttribute(a)|) + EncodeAttribute(a), tid) == Ok(peer)
  {
    var encoded := EncodeAttribute(a);
    assert [a][1..] == [] && encoded + [] == encoded;
    assert LastOf([a], XOR_MAPPED_ADDRESS) == 0;
    ParsesLastAddress(tid, [a]);
  }

  lemma AddressFits(tid: Octets, peer: Address)
    requires |tid| == 12 && peer.Valid()
    ensures Attribute(XOR_MAPPED_ADDRESS, AddressValue(tid, peer), []).Valid()
  {
  }

  /** The client reads back exactly the address and port the server saw, for every address and transaction. */
  lemma ResponseRoundTrip(tid: Octets, peer: Address)
    requires |tid| == 12 && peer.Valid()
    ensures ParseResponse(BuildResponse(tid, peer), tid) == Ok(peer)
  {
    var a := Attribute(XOR_MAPPED_ADDRESS, AddressValue(tid, peer), []);
    AddressFits(tid, peer);
    AddressRoundTrip(tid, peer);
    OneAddress(tid, a, peer);
  }
}
