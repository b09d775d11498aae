/** What a connection to the relay amounts to for the client at its other end: which frames are answered, in what
    order, and why the others are not. */
module OnionConversations {
  import opened Basics
  import opened Bytes
  import opened Onion
  import opened OnionObject

  // ---- The octets ----

  lemma Fits(n: nat)
    requires n < 0x1_0000_0000
    ensures n % U32_LIMIT == n
  {
  }

  lemma InnerLayout(subtype: byte, id: seq<byte>, payload: seq<byte>)
    requires |payload| < 0x1_0000_0000
    ensures Inner(subtype, id, payload) == [subtype] + id + Le(|payload|, 4) + payload
  {
    Fits(|payload|);
  }

  /** A request: prefix, circuit and number, then the subtype, identifier, length and payload sealed under them. */
  lemma RequestLayout(crypto: Crypto, key: CircuitKey, name: CircuitName, number: nat, payload: seq<byte>)
    requires |payload| < 0x1_0000_0000
    ensures var inner := [0x02] + name.id + Le(|payload|, 4) + payload;
      Request(crypto, key, name, number, payload) ==
        [0x02] + name.pk + name.id + Le(number, 8) + crypto.seal(key, name.id + Le(number, 8), inner, name.id)
  {
    InnerLayout(0x02, name.id, payload);
  }

  /** A response: prefix and number, then the same sealed under the number with its top bit set. */
  lemma ResponseLayout(crypto: Crypto, key: CircuitKey, id: seq<byte>, number: nat, payload: seq<byte>)
    requires |payload| < 0x1_0000_0000 && number < 0x8000_0000_0000_0000
    ensures var inner := [0x03] + id + Le(|payload|, 4) + payload;
      Response(crypto, key, id, number, payload) ==
        [0x02] + Le(number, 8) + crypto.seal(key, id + Le(number + 0x8000_0000_0000_0000, 8), inner, id)
  {
    InnerLayout(0x03, id, payload);
  }

  /** Which bytes the decoders of the client library refuse unopened. */
  lemma UndecodedHeaders(crypto: Crypto, key: CircuitKey, id: seq<byte>, number: nat, data: seq<byte>)
    ensures var header, request := ExtractHeader(data), DecodeRequest(crypto, key, id, number, data);
      && (header == Err(TooShort) <==> |data| < 57) && (request == Err(TooShort) <==> |data| < 57)
      && (header == Err(MissingPrefix) <==> |data| >= 57 && data[0] != 0x02)
      && (request == Err(MissingPrefix) <==> |data| >= 57 && data[0] != 0x02)
    ensures DecodeResponse(crypto, key, id, data) == Err(MissingPrefix) <==> |data| < 9 || data[0] != 0x02
  {
  }

  /** Why a frame is refused before it is opened, and that the cache then stays as it was. */
  lemma RefusedUnopened(crypto: Crypto, secret: nat, cache: Cache, data: seq<byte>, backend: Backend)
    ensures var (after, r) := Process(crypto, secret, cache, data, backend);
      && (|data| < 58 ==> r == Err(TooShort) && after == cache)
      && (|data| >= 58 ==>
            var name := CircuitName(data[1..33], data[33..49]);
            var number := FromLe(data[49..57]);
            && (r == Err(Replayed) <==> name in cache && number <= cache[name].last)
            && (r == Err(CircuitLimit) <==> name !in cache && |cache| >= 16)
            && (r == Err(Replayed) || r == Err(CircuitLimit) ==> after == cache)
            && (r != Err(Replayed) && r != Err(CircuitLimit) ==>
                  var key := if name in cache then cache[name].key else RelayKey(crypto, secret, name.pk);
                  after == cache[name := Entry(key, number)]))
  {
  }

  /** A request sealed for its circuit whose inner text names another one: the relay serves it, the client library's
      decoder refuses it. */
  lemma ForeignInner(crypto: Crypto, key: CircuitKey, name: CircuitName, number: nat, other: seq<byte>,
                     payload: seq<byte>)
    requires crypto.Correct() && name.Valid() && number < U64_LIMIT && |payload| < U32_LIMIT
    requires |other| == 16 && other != name.id
    ensures var sealed := crypto.seal(key, Material(name.id, number), Inner(0x02, other, payload), name.id);
      var data := Header(name, number) + sealed;
      && |data| >= 57
      && OpenRequest(crypto, key, data) == Ok(payload)
      && DecodeRequest(crypto, key, name.id, number, data) == Err(WrongCircuit)
  {
    HeaderParts(name, number, crypto.seal(key, Material(name.id, number), Inner(0x02, other, payload), name.id));
    InnerParts(0x02, other, payload);
    CutIff(payload);
  }

  /** What neither decoder opens: a text that is no request, one too short, and one that claims more than it has. */
  lemma BadInner(crypto: Crypto, key: CircuitKey, name: CircuitName, number: nat, inner: seq<byte>)
    requires crypto.Correct() && name.Valid() && number < U64_LIMIT && |inner| >= 21 && inner[1..17] == name.id
    ensures var data := Header(name, number) + crypto.seal(key, Material(name.id, number), inner, name.id);
      && |data| >= 57 && OpenRequest(crypto, key, data) == DecodeRequest(crypto, key, name.id, number, data)
      && (OpenRequest(crypto, key, data) == Err(WrongSubtype) <==> inner[0] != 0x02)
      && (OpenRequest(crypto, key, data) == Err(BadLength) <==>
            inner[0] == 0x02 && 21 + FromLe(inner[17..21]) > |inner|)
  {
    HeaderParts(name, number, crypto.seal(key, Material(name.id, number), inner, name.id));
  }

  /** What the client refuses of what the relay's key has sealed, and why. */
  lemma BadResponse(crypto: Crypto, key: CircuitKey, id: seq<byte>, number: nat, inner: seq<byte>)
    requires crypto.Correct() && number < U64_LIMIT
    ensures var data := [0x02] + Le(number, 8) + crypto.seal(key, ResponseMaterial(id, number), inner, id);
      var r := DecodeResponse(crypto, key, id, data);
      && (r == Err(WrongSubtype) <==> inner == [] || inner[0] != 0x03)
      && (r == Err(InnerTooShort) <==> 0 < |inner| < 21 && inner[0] == 0x03)
      && (r == Err(BadLength) <==> |inner| >= 21 && inner[0] == 0x03 && 21 + FromLe(inner[17..21]) > |inner|)
  {
    Pow256Values();
    LeRoundTrip(number, 8);
    var data := [0x02] + Le(number, 8) + crypto.seal(key, ResponseMaterial(id, number), inner, id);
    assert data[1..9] == Le(number, 8);
    assert data[9..] == crypto.seal(key, ResponseMaterial(id, number), inner, id);
  }

  // ---- What is written ----

  predicate ForRelay(frame: Frame) {
    frame.data != [] && frame.data[0] == 0x02
  }

  /** What the frame at `j` is answered with, in the cache the frames before it leave; nothing if it is not meant for
      the relay or fails. */
  function AnswerTo(crypto: Crypto, secret: nat, frames: seq<Frame>, j: nat): Option<seq<byte>>
    requires j < |frames|
  {
    var cache := Handled(crypto, secret, map[], frames[..j]).0;
    if !ForRelay(frames[j]) then None
    else
      match Process(crypto, secret, cache, frames[j].data, frames[j].backend).1
      case Ok(response) => Some(response)
      case Err(_) => None
  }

  /** What each frame is answered with. */
  function Answers(crypto: Crypto, secret: nat, frames: seq<Frame>): (answers: seq<Option<seq<byte>>>)
    ensures |answers| == |frames|
  {
    seq(|frames|, j requires 0 <= j < |frames| => AnswerTo(crypto, secret, frames, j))
  }

  predicate Ascending(s: seq<nat>) {
    forall i, j :: 0 <= i < j < |s| ==> s[i] < s[j]
  }

  /** `found` is what stands in `all`, in order, at the positions `at`; nothing stands anywhere else. */
  ghost predicate Picks<T(!new)>(all: seq<Option<T>>, at: seq<nat>, found: seq<T>) {
    && Ascending(at) && |at| == |found|
    && (forall k :: 0 <= k < |at| ==> at[k] < |all| && all[at[k]] == Some(found[k]))
    && (forall j :: 0 <= j < |all| && j !in at ==> all[j] == None)
  }

  lemma PicksNext<T(!new)>(all: seq<Option<T>>, at: seq<nat>, found: seq<T>, next: Option<T>)
    requires Picks(all, at, found)
    ensures next.None? ==> Picks(all + [next], at, found)
    ensures next.Some? ==> Picks(all + [next], at + [|all|], found + [next.value])
  {
    var at' := at + [|all|];
    assert forall j :: j in at' <==> j in at || j == |all|;
  }

  lemma AnswersNext(crypto: Crypto, secret: nat, frames: seq<Frame>, n: nat)
    requires |frames| == n + 1
    ensures Answers(crypto, secret, frames)
         == Answers(crypto, secret, frames[..n]) + [AnswerTo(crypto, secret, frames, n)]
  {
    forall j | 0 <= j < n
      ensures AnswerTo(crypto, secret, frames[..n], j) == AnswerTo(crypto, secret, frames, j)
    {
      assert frames[..n][..j] == frames[..j];
    }
  }

  /** The responses written on a connection are the answers to its frames, in order: one for each frame that is
      answered, none for any other. */
  lemma {:induction false} ResponsesInOrder(crypto: Crypto, secret: nat, frames: seq<Frame>) returns (at: seq<nat>)
    ensures Picks(Answers(crypto, secret, frames), at, Handled(crypto, secret, map[], frames).1)
    decreases |frames|
  {
    at := [];
    if frames != [] {
      var n := |frames| - 1;
      at := ResponsesInOrder(crypto, secret, frames[..n]);
      var next := AnswerTo(crypto, secret, frames, n);
      AnswersNext(crypto, secret, frames, n);
      PicksNext(Answers(crypto, secret, frames[..n]), at, Handled(crypto, secret, map[], frames[..n]).1, next);
      if next.Some? {
        at := at + [n];
      }
    }
  }

  // ---- A conversation ----

  /** A client's requests on one circuit, numbered from 0. */
  function Requests(crypto: Crypto, key: CircuitKey, name: CircuitName, payloads: seq<seq<byte>>, backend: Backend)
    : (frames: seq<Frame>)
    ensures |frames| == |payloads|
  {
    seq(|payloads|, i requires 0 <= i < |payloads| => Frame(Request(crypto, key, name, i, payloads[i]), backend))
  }

  ghost predicate Served(backend: Backend, payloads: seq<seq<byte>>) {
    forall i :: 0 <= i < |payloads| ==>
      |payloads[i]| < U32_LIMIT && backend(payloads[i]).Some? && |backend(payloads[i]).value| < U32_LIMIT
  }

  lemma RequestsPrefix(crypto: Crypto, key: CircuitKey, name: CircuitName, payloads: seq<seq<byte>>, backend: Backend,
                       n: nat)
    requires |payloads| == n + 1
    ensures var frames := Requests(crypto, key, name, payloads, backend);
      && frames[..n] == Requests(crypto, key, name, payloads[..n], backend)
      && frames[n] == Frame(Request(crypto, key, name, n, payloads[n]), backend)
  {
  }

  lemma RequestForRelay(crypto: Crypto, key: CircuitKey, name: CircuitName, number: nat, payload: seq<byte>)
    requires crypto.Correct() && name.Valid() && number < U64_LIMIT
    ensures var data := Request(crypto, key, name, number, payload);
      |data| >= 58 && data[0] == 0x02 && NameOf(data) == name && NumberOf(data) == number
  {
    RequestRoundTrip(crypto, key, name, number, payload);
    var inner := Inner(SUBTYPE_REQUEST, name.id, payload);
    HeaderParts(name, number, crypto.seal(key, Material(name.id, number), inner, name.id));
  }

  /** The cache after the first `n` requests of one circuit. */
  function AfterRequests(key: CircuitKey, name: CircuitName, n: nat): Cache {
    if n == 0 then map[] else map[name := Entry(key, n - 1)]
  }

  lemma RequestServed(crypto: Crypto, secret: nat, ephemeral: nat, name: CircuitName, n: nat, payload: seq<byte>,
                      backend: Backend, reply: seq<byte>)
    requires crypto.Correct() && name.Valid() && n < U64_LIMIT && crypto.point(name.pk) == Point(ephemeral)
    requires |payload| < U32_LIMIT && |reply| < U32_LIMIT && backend(payload) == Some(reply)
    ensures var key := ClientKey(ephemeral, Point(secret));
      var (cache, r) := Process(crypto, secret, AfterRequests(key, name, n),
                                Request(crypto, key, name, n, payload), backend);
      && cache == AfterRequests(key, name, n + 1)
      && r.Ok? && DecodeResponse(crypto, key, name.id, r.value) == Ok(reply)
  {
    var key := ClientKey(ephemeral, Point(secret));
    assert RelayKey(crypto, secret, name.pk) == key;
    RequestForRelay(crypto, key, name, n, payload);
    ExchangeIff(crypto, secret, AfterRequests(key, name, n), ephemeral, name, n, payload, backend, reply);
  }

  lemma HandledNext(crypto: Crypto, secret: nat, frames: seq<Frame>, n: nat, cache: Cache, responses: seq<seq<byte>>)
    requires |frames| == n + 1 && Handled(crypto, secret, map[], frames[..n]) == (cache, responses)
    requires ForRelay(frames[n]) && Process(crypto, secret, cache, frames[n].data, frames[n].backend).1.Ok?
    ensures var (after, r) := Process(crypto, secret, cache, frames[n].data, frames[n].backend);
      Handled(crypto, secret, map[], frames) == (after, responses + [r.value])
  {
  }

  /** The answers give the replies to the requests, one by one. */
  ghost predicate Replies(crypto: Crypto, key: CircuitKey, id: seq<byte>, payloads: seq<seq<byte>>, backend: Backend,
                          responses: seq<seq<byte>>)
  {
    && |responses| == |payloads|
    && forall i :: 0 <= i < |payloads| ==>
         backend(payloads[i]).Some? && DecodeResponse(crypto, key, id, responses[i]) == Ok(backend(payloads[i]).value)
  }

  lemma RepliesNext(crypto: Crypto, key: CircuitKey, id: seq<byte>, payloads: seq<seq<byte>>, backend: Backend,
                    responses: seq<seq<byte>>, n: nat, response: seq<byte>)
    requires |payloads| == n + 1 && Replies(crypto, key, id, payloads[..n], backend, responses)
    requires backend(payloads[n]).Some? && DecodeResponse(crypto, key, id, response) == Ok(backend(payloads[n]).value)
    ensures Replies(crypto, key, id, payloads, backend, responses + [response])
  {
    assert forall i :: 0 <= i < n ==> payloads[..n][i] == payloads[i];
  }

  /** A whole conversation: on a new connection every request of a circuit is answered, once and in order, and the
      client reads from each answer the backend's reply to that request. */
  lemma {:induction false} Conversation(crypto: Crypto, secret: nat, ephemeral: nat, name: CircuitName,
                                        payloads: seq<seq<byte>>, backend: Backend)
    requires crypto.Correct() && name.Valid() && crypto.point(name.pk) == Point(ephemeral)
    requires |payloads| <= U64_LIMIT && Served(backend, payloads)
    ensures var key := ClientKey(ephemeral, Point(secret));
      var (cache, responses) := Handled(crypto, secret, map[], Requests(crypto, key, name, payloads, backend));
      cache == AfterRequests(key, name, |payloads|) && Replies(crypto, key, name.id, payloads, backend, responses)
    decreases |payloads|
  {
    if payloads != [] {
      var n, key := |payloads| - 1, ClientKey(ephemeral, Point(secret));
      var frames := Requests(crypto, key, name, payloads, backend);
      Conversation(crypto, secret, ephemeral, name, payloads[..n], backend);
      RequestsPrefix(crypto, key, name, payloads, backend, n);
      var (cache, responses) := Handled(crypto, secret, map[], frames[..n]);
      RequestForRelay(crypto, key, name, n, payloads[n]);
      RequestServed(crypto, secret, ephemeral, name, n, payloads[n], backend, backend(payloads[n]).value);
      HandledNext(crypto, secret, frames, n, cache, responses);
      var r := Process(crypto, secret, cache, frames[n].data, backend).1;
      RepliesNext(crypto, key, name.id, payloads, backend, responses, n, r.value);
    }
  }
}
