/** One-hop onion requests: the client's circuit, the relay's circuit cache, and both directions' wire formats. */
module Onion {
  import opened Basics
  import opened Bytes
  import opened SymbolicCrypto

  const ONION_PREFIX: byte := 0x02
  const SUBTYPE_REQUEST: byte := 0x02
  const SUBTYPE_RESPONSE: byte := 0x03
  const MAX_CIRCUITS := 16
  const U63_LIMIT := 0x8000_0000_0000_0000

  datatype Error =
    | TooShort | MissingPrefix | DecryptFailed | InnerTooShort | WrongSubtype | WrongCircuit | BadLength
    | Replayed | CircuitLimit | NoReply

  /** What the 32 bytes of a public key name; several byte strings may name one point. */
  datatype Point = Point(exponent: nat)

  /** The key both sides derive from the client's ephemeral key and the relay's static key. */
  datatype CircuitKey = CircuitKey(dh: Dh)

  function Agree(secret: nat, peer: Point): CircuitKey {
    CircuitKey(DiffieHellman(secret, Pub(peer.exponent)))
  }

  /** Decoding of public keys and the AEAD, whose third and fourth arguments are text and associated data. */
  datatype Crypto = Crypto(
    point: seq<byte> -> Point,
    seal: (CircuitKey, seq<byte>, seq<byte>, seq<byte>) -> seq<byte>,
    unseal: (CircuitKey, seq<byte>, seq<byte>, seq<byte>) -> Option<seq<byte>>)
  {
    /** Sealing adds a tag and unsealing undoes it. */
    ghost predicate Correct() {
      forall key, nonce, text, ad ::
        var sealed := seal(key, nonce, text, ad); |sealed| > 0 && unseal(key, nonce, sealed, ad) == Some(text)
    }
  }

  /** A circuit is named by the encoded ephemeral public key and the random identifier. */
  datatype CircuitName = CircuitName(pk: seq<byte>, id: seq<byte>) {
    predicate Valid() { |pk| == 32 && |id| == 16 }
  }

  // ---- Nonces ----

  function Material(id: seq<byte>, number: nat): seq<byte> {
    id + Le(number, 8)
  }

  /** The number with its top bit set. */
  function ResponseNumber(number: nat): nat {
    if number < U63_LIMIT then number + U63_LIMIT else number
  }

  function ResponseMaterial(id: seq<byte>, number: nat): seq<byte> {
    Material(id, ResponseNumber(number))
  }

  // ---- Wire formats ----

  function Inner(subtype: byte, id: seq<byte>, payload: seq<byte>): seq<byte> {
    [subtype] + id + Le(|payload| % U32_LIMIT, 4) + payload
  }

  function Header(name: CircuitName, number: nat): seq<byte> {
    [ONION_PREFIX] + name.pk + name.id + Le(number, 8)
  }

  function Request(crypto: Crypto, key: CircuitKey, name: CircuitName, number: nat, payload: seq<byte>): seq<byte> {
    Header(name, number)
    + crypto.seal(key, Material(name.id, number), Inner(SUBTYPE_REQUEST, name.id, payload), name.id)
  }

  function Response(crypto: Crypto, key: CircuitKey, id: seq<byte>, number: nat, payload: seq<byte>): seq<byte> {
    [ONION_PREFIX] + Le(number, 8)
    + crypto.seal(key, ResponseMaterial(id, number), Inner(SUBTYPE_RESPONSE, id, payload), id)
  }

  function NameOf(data: seq<byte>): CircuitName
    requires |data| >= 57
  {
    CircuitName(data[1..33], data[33..49])
  }

  function NumberOf(data: seq<byte>): nat
    requires |data| >= 57
  {
    FromLe(data[49..57])
  }

  function ExtractHeader(data: seq<byte>): Result<(CircuitName, nat), Error> {
    if |data| < 57 then Err(TooShort)
    else if data[0] != ONION_PREFIX then Err(MissingPrefix)
    else Ok((NameOf(data), NumberOf(data)))
  }

  /** The payload an inner text of at least 21 bytes claims to hold. */
  function PayloadOf(inner: seq<byte>): Result<seq<byte>, Error>
    requires |inner| >= 21
  {
    var length := FromLe(inner[17..21]);
    if 21 + length > |inner| then Err(BadLength) else Ok(inner[21..21 + length])
  }

  function DecodeRequest(crypto: Crypto, key: CircuitKey, id: seq<byte>, number: nat, data: seq<byte>)
    : Result<seq<byte>, Error>
  {
    if |data| < 57 then Err(TooShort)
    else if data[0] != ONION_PREFIX then Err(MissingPrefix)
    else
      match crypto.unseal(key, Material(id, number), data[57..], id)
      case None => Err(DecryptFailed)
      case Some(inner) =>
        if inner == [] || inner[0] != SUBTYPE_REQUEST then Err(WrongSubtype)
        else if |inner| < 21 then Err(InnerTooShort)
        else if inner[1..17] != id then Err(WrongCircuit)
        else PayloadOf(inner)
  }

  function DecodeResponse(crypto: Crypto, key: CircuitKey, id: seq<byte>, data: seq<byte>)
    : Result<seq<byte>, Error>
  {
    if |data| < 9 || data[0] != ONION_PREFIX then Err(MissingPrefix)
    else
      match crypto.unseal(key, ResponseMaterial(id, FromLe(data[1..9])), data[9..], id)
      case None => Err(DecryptFailed)
      case Some(inner) =>
        if inner == [] || inner[0] != SUBTYPE_RESPONSE then Err(WrongSubtype)
        else if |inner| < 21 then Err(InnerTooShort)
        else PayloadOf(inner)
  }

  // ---- The relay ----

  datatype Entry = Entry(key: CircuitKey, last: nat)

  type Cache = map<CircuitName, Entry>

  /** What the signaling service answers to a request, if the payload is one it serves. */
  type Backend = seq<byte> -> Option<seq<byte>>

  function RelayKey(crypto: Crypto, secret: nat, pk: seq<byte>): CircuitKey {
    Agree(secret, crypto.point(pk))
  }

  /** The cache check, which runs before decryption: a known circuit's number must grow, a new one must fit. */
  function Admit(crypto: Crypto, secret: nat, cache: Cache, name: CircuitName, number: nat): Result<Cache, Error> {
    if name in cache then
      if number <= cache[name].last then Err(Replayed)
      else Ok(cache[name := cache[name].(last := number)])
    else if |cache| >= MAX_CIRCUITS then Err(CircuitLimit)
    else Ok(cache[name := Entry(RelayKey(crypto, secret, name.pk), number)])
  }

  /** The request inside an admitted frame. */
  function OpenRequest(crypto: Crypto, key: CircuitKey, data: seq<byte>): Result<seq<byte>, Error>
    requires |data| >= 57
  {
    var id := NameOf(data).id;
    match crypto.unseal(key, Material(id, NumberOf(data)), data[57..], id)
    case None => Err(DecryptFailed)
    case Some(inner) =>
      if |inner| < 21 then Err(InnerTooShort)
      else if inner[0] != SUBTYPE_REQUEST then Err(WrongSubtype)
      else PayloadOf(inner)
  }

  function Answer(crypto: Crypto, key: CircuitKey, data: seq<byte>, backend: Backend): Result<seq<byte>, Error>
    requires |data| >= 57
  {
    var payload :- OpenRequest(crypto, key, data);
    match backend(payload)
    case None => Err(NoReply)
    case Some(reply) => Ok(Response(crypto, key, NameOf(data).id, NumberOf(data), reply))
  }

  function Process(crypto: Crypto, secret: nat, cache: Cache, data: seq<byte>, backend: Backend)
    : (Cache, Result<seq<byte>, Error>)
  {
    if |data| < 58 then (cache, Err(TooShort))
    else
      match Admit(crypto, secret, cache, NameOf(data), NumberOf(data))
      case Err(e) => (cache, Err(e))
      case Ok(admitted) => (admitted, Answer(crypto, admitted[NameOf(data)].key, data, backend))
  }

  // ---- Round trips ----

  lemma InnerParts(subtype: byte, id: seq<byte>, payload: seq<byte>)
    requires |id| == 16
    ensures var inner := Inner(subtype, id, payload);
      && |inner| == 21 + |payload| && inner[0] == subtype && inner[1..17] == id
      && PayloadOf(inner) == Ok(payload[..|payload| % U32_LIMIT])
  {
    var inner, length := Inner(subtype, id, payload), Le(|payload| % U32_LIMIT, 4);
    Pow256Values();
    LeRoundTrip(|payload| % U32_LIMIT, 4);
    assert inner[1..17] == id;
    assert inner[17..21] == length;
    assert inner[21..] == payload;
    assert inner[21..21 + |payload| % U32_LIMIT] == payload[..|payload| % U32_LIMIT];
  }

  lemma HeaderParts(name: CircuitName, number: nat, rest: seq<byte>)
    requires name.Valid() && number < U64_LIMIT
    ensures var data := Header(name, number) + rest;
      && |data| == 57 + |rest| && data[0] == ONION_PREFIX
      && NameOf(data) == name && NumberOf(data) == number && data[57..] == rest
  {
    Pow256Values();
    LeRoundTrip(number, 8);
    var data := Header(name, number) + rest;
    assert data[1..33] == name.pk;
    assert data[33..49] == name.id;
    assert data[49..57] == Le(number, 8);
  }

  /** Decoding a request returns its payload cut to the 32-bit length field, so all of it iff it fits. */
  lemma RequestRoundTrip(crypto: Crypto, key: CircuitKey, name: CircuitName, number: nat, payload: seq<byte>)
    requires crypto.Correct() && name.Valid() && number < U64_LIMIT
    ensures var data := Request(crypto, key, name, number, payload);
      && ExtractHeader(data) == Ok((name, number))
      && |data| >= 58
      && DecodeRequest(crypto, key, name.id, number, data) == Ok(payload[..|payload| % U32_LIMIT])
      && OpenRequest(crypto, key, data) == Ok(payload[..|payload| % U32_LIMIT])
      && (DecodeRequest(crypto, key, name.id, number, data) == Ok(payload) <==> |payload| < U32_LIMIT)
  {
    var inner := Inner(SUBTYPE_REQUEST, name.id, payload);
    HeaderParts(name, number, crypto.seal(key, Material(name.id, number), inner, name.id));
    InnerParts(SUBTYPE_REQUEST, name.id, payload);
    CutIff(payload);
  }

  lemma CutIff(payload: seq<byte>)
    ensures payload[..|payload| % U32_LIMIT] == payload <==> |payload| < U32_LIMIT
  {
  }

  lemma ResponseRoundTrip(crypto: Crypto, key: CircuitKey, id: seq<byte>, number: nat, payload: seq<byte>)
    requires crypto.Correct() && |id| == 16 && number < U64_LIMIT
    ensures var data := Response(crypto, key, id, number, payload);
      && DecodeResponse(crypto, key, id, data) == Ok(payload[..|payload| % U32_LIMIT])
      && (DecodeResponse(crypto, key, id, data) == Ok(payload) <==> |payload| < U32_LIMIT)
  {
    Pow256Values();
    LeRoundTrip(number, 8);
    var data := Response(crypto, key, id, number, payload);
    var sealed := crypto.seal(key, ResponseMaterial(id, number), Inner(SUBTYPE_RESPONSE, id, payload), id);
    assert data[1..9] == Le(number, 8);
    assert data[9..] == sealed;
    InnerParts(SUBTYPE_RESPONSE, id, payload);
    CutIff(payload);
  }

  /** The client's key for a circuit: its ephemeral secret against the relay's public key. */
  function ClientKey(ephemeral: nat, relay: Point): CircuitKey {
    Agree(ephemeral, relay)
  }

  /**
   * A whole exchange: whatever the cache holds, a client's request is answered, and the client reads exactly the
   * backend's reply to exactly its payload, if and only if its circuit is known with a smaller number or new
   * with room in the cache.
   */
  lemma ExchangeIff(crypto: Crypto, secret: nat, cache: Cache, ephemeral: nat, name: CircuitName, number: nat,
                    payload: seq<byte>, backend: Backend, reply: seq<byte>)
    requires crypto.Correct() && name.Valid() && number < U64_LIMIT && KeysDerived(crypto, secret, cache)
    requires crypto.point(name.pk) == Point(ephemeral)
    requires |payload| < U32_LIMIT && |reply| < U32_LIMIT && backend(payload) == Some(reply)
    ensures var key := ClientKey(ephemeral, Point(secret));
      var r := Process(crypto, secret, cache, Request(crypto, key, name, number, payload), backend).1;
      && (r.Ok? <==> if name in cache then number > cache[name].last else |cache| < MAX_CIRCUITS)
      && (r.Ok? ==> DecodeResponse(crypto, key, name.id, r.value) == Ok(reply))
  {
    var key := ClientKey(ephemeral, Point(secret));
    RequestRoundTrip(crypto, key, name, number, payload);
    CutIff(payload);
    ResponseRoundTrip(crypto, key, name.id, number, reply);
    var inner := Inner(SUBTYPE_REQUEST, name.id, payload);
    HeaderParts(name, number, crypto.seal(key, Material(name.id, number), inner, name.id));
    assert RelayKey(crypto, secret, name.pk) == key;
  }

  /** Every cached key is the one the relay derives for its circuit. */
  ghost predicate KeysDerived(crypto: Crypto, secret: nat, cache: Cache) {
    forall name :: name in cache ==> cache[name].key == RelayKey(crypto, secret, name.pk)
  }
}
