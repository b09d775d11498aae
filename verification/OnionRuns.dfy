/** Runs of the relay: the clients' circuits count up, and the relay receives any bytes at all on any number of
    connections, each with a circuit cache of its own. */
module OnionRuns {
  import opened Basics
  import opened Bytes
  import opened Onion

  /** A number used on a circuit. */
  datatype Use = Use(name: CircuitName, number: nat)

  /** A frame the cache check of its connection let through, and whether a response was sealed for it. */
  datatype Accept = Accept(connection: nat, use: Use, answered: bool)

  datatype World = World(
    counters: map<CircuitName, nat>, requests: seq<Use>, caches: map<nat, Cache>, accepted: seq<Accept>)

  datatype Step = ClientSend(name: CircuitName) | RelayReceive(connection: nat, data: seq<byte>, backend: Backend)

  const INITIAL := World(map[], [], map[], [])

  function Counter(w: World, name: CircuitName): nat {
    if name in w.counters then w.counters[name] else 0
  }

  /** A connection starts with an empty cache. */
  function CacheOf(w: World, connection: nat): Cache {
    if connection in w.caches then w.caches[connection] else map[]
  }

  /** A client's counter has not wrapped; the relay may receive anything. */
  predicate Enabled(w: World, s: Step) {
    match s
    case ClientSend(name) => name.Valid() && Counter(w, name) < U64_LIMIT
    case RelayReceive(_, _, _) => true
  }

  function Receive(crypto: Crypto, secret: nat, w: World, connection: nat, data: seq<byte>, backend: Backend): World {
    var before := CacheOf(w, connection);
    var (cache, r) := Process(crypto, secret, before, data, backend);
    var after := w.(caches := w.caches[connection := cache]);
    if |data| < 58 || Admit(crypto, secret, before, NameOf(data), NumberOf(data)).Err? then after
    else after.(accepted := w.accepted + [Accept(connection, Use(NameOf(data), NumberOf(data)), r.Ok?)])
  }

  function Next(crypto: Crypto, secret: nat, w: World, s: Step): World {
    match s
    case ClientSend(name) =>
      w.(counters := w.counters[name := Counter(w, name) + 1], requests := w.requests + [Use(name, Counter(w, name))])
    case RelayReceive(connection, data, backend) => Receive(crypto, secret, w, connection, data, backend)
  }

  function Run(crypto: Crypto, secret: nat, steps: seq<Step>): World {
    if steps == [] then INITIAL
    else Next(crypto, secret, Run(crypto, secret, steps[..|steps| - 1]), steps[|steps| - 1])
  }

  ghost predicate Runs(crypto: Crypto, secret: nat, steps: seq<Step>) {
    steps == [] ||
    var before := steps[..|steps| - 1];
    Runs(crypto, secret, before) && Enabled(Run(crypto, secret, before), steps[|steps| - 1])
  }

  // ---- What every step keeps ----

  ghost predicate ValidUse(u: Use) {
    u.name.Valid() && u.number < U64_LIMIT
  }

  /** Requests are numbered upwards on each circuit. */
  ghost predicate Increasing(log: seq<Use>) {
    forall i, j :: 0 <= i < j < |log| && log[i].name == log[j].name ==> log[i].number < log[j].number
  }

  predicate SamePlace(a: Accept, b: Accept) {
    a.connection == b.connection && a.use.name == b.use.name
  }

  /** Accepted numbers strictly increase along each circuit of each connection. */
  ghost predicate IncreasingOn(accepted: seq<Accept>) {
    forall i, j :: 0 <= i < j < |accepted| && SamePlace(accepted[i], accepted[j]) ==>
      accepted[i].use.number < accepted[j].use.number
  }

  ghost predicate Requested(w: World) {
    && Increasing(w.requests)
    && forall u :: u in w.requests ==> u.name.Valid() && u.number < Counter(w, u.name) <= U64_LIMIT
  }

  /** The cache of the connection remembers the circuit and a number no smaller. */
  ghost predicate Remembered(w: World, a: Accept) {
    var cache := CacheOf(w, a.connection);
    ValidUse(a.use) && a.use.name in cache && a.use.number <= cache[a.use.name].last
  }

  ghost predicate Admitted(w: World) {
    IncreasingOn(w.accepted) && forall a :: a in w.accepted ==> Remembered(w, a)
  }

  ghost predicate CacheOk(crypto: Crypto, secret: nat, cache: Cache) {
    |cache| <= MAX_CIRCUITS && KeysDerived(crypto, secret, cache)
  }

  ghost predicate Inv(crypto: Crypto, secret: nat, w: World) {
    && Requested(w)
    && Admitted(w)
    && CachesOk(crypto, secret, w)
  }

  ghost predicate CachesOk(crypto: Crypto, secret: nat, w: World) {
    forall c :: CacheOk(crypto, secret, CacheOf(w, c))
  }

  lemma SendKeepsInv(crypto: Crypto, secret: nat, w: World, name: CircuitName)
    requires Inv(crypto, secret, w) && Enabled(w, ClientSend(name))
    ensures Inv(crypto, secret, Next(crypto, secret, w, ClientSend(name)))
  {
    var after := Next(crypto, secret, w, ClientSend(name));
    SameCaches(crypto, secret, w, after);
    assert Increasing(after.requests);
  }

  lemma SameCaches(crypto: Crypto, secret: nat, w: World, after: World)
    requires Admitted(w) && CachesOk(crypto, secret, w) && after.accepted == w.accepted
    requires forall c :: CacheOf(after, c) == CacheOf(w, c)
    ensures Admitted(after) && CachesOk(crypto, secret, after)
  {
    forall a | a in after.accepted
      ensures Remembered(after, a)
    {
      assert Remembered(w, a);
    }
  }

  /** A frame is let through only with a number above every earlier one on its circuit and connection. */
  lemma AdmitNewer(crypto: Crypto, secret: nat, w: World, connection: nat, name: CircuitName, number: nat)
    requires Inv(crypto, secret, w) && Admit(crypto, secret, CacheOf(w, connection), name, number).Ok?
    ensures forall a :: a in w.accepted && a.connection == connection && a.use.name == name ==> a.use.number < number
    ensures var cache := Admit(crypto, secret, CacheOf(w, connection), name, number).value;
      && CacheOk(crypto, secret, cache)
      && name in cache && cache[name].last == number
      && forall n :: n in CacheOf(w, connection) && n != name ==> n in cache && cache[n] == CacheOf(w, connection)[n]
  {
    assert CacheOk(crypto, secret, CacheOf(w, connection));
    assert forall a :: a in w.accepted ==> Remembered(w, a);
  }

  lemma IncreasingOnSnoc(accepted: seq<Accept>, a: Accept)
    requires IncreasingOn(accepted)
    requires forall b :: b in accepted && SamePlace(b, a) ==> b.use.number < a.use.number
    ensures IncreasingOn(accepted + [a])
  {
  }

  lemma AcceptKeepsAdmitted(w: World, cache: Cache, a: Accept)
    requires Admitted(w) && ValidUse(a.use) && a.use.name in cache && cache[a.use.name].last == a.use.number
    requires forall b :: b in w.accepted && SamePlace(b, a) ==> b.use.number < a.use.number
    requires forall n :: n in CacheOf(w, a.connection) && n != a.use.name ==>
      n in cache && cache[n] == CacheOf(w, a.connection)[n]
    ensures Admitted(w.(caches := w.caches[a.connection := cache], accepted := w.accepted + [a]))
  {
    var after := w.(caches := w.caches[a.connection := cache], accepted := w.accepted + [a]);
    IncreasingOnSnoc(w.accepted, a);
    forall b | b in after.accepted
      ensures Remembered(after, b)
    {
      if b in w.accepted {
        assert Remembered(w, b);
      }
    }
  }

  lemma CachesAfter(crypto: Crypto, secret: nat, w: World, connection: nat, cache: Cache, after: World)
    requires CacheOk(crypto, secret, cache) && CachesOk(crypto, secret, w)
    requires after.caches == w.caches[connection := cache]
    ensures CachesOk(crypto, secret, after)
  {
    forall c
      ensures CacheOk(crypto, secret, CacheOf(after, c))
    {
      assert CacheOk(crypto, secret, CacheOf(w, c));
    }
  }

  lemma SameCacheKeepsInv(crypto: Crypto, secret: nat, w: World, connection: nat)
    requires Inv(crypto, secret, w)
    ensures Inv(crypto, secret, w.(caches := w.caches[connection := CacheOf(w, connection)]))
  {
    SameCaches(crypto, secret, w, w.(caches := w.caches[connection := CacheOf(w, connection)]));
  }

  lemma AcceptKeepsInv(crypto: Crypto, secret: nat, w: World, a: Accept)
    requires Inv(crypto, secret, w) && ValidUse(a.use)
    requires Admit(crypto, secret, CacheOf(w, a.connection), a.use.name, a.use.number).Ok?
    ensures var cache := Admit(crypto, secret, CacheOf(w, a.connection), a.use.name, a.use.number).value;
      Inv(crypto, secret, w.(caches := w.caches[a.connection := cache], accepted := w.accepted + [a]))
  {
    var cache := Admit(crypto, secret, CacheOf(w, a.connection), a.use.name, a.use.number).value;
    var after := w.(caches := w.caches[a.connection := cache], accepted := w.accepted + [a]);
    AdmitNewer(crypto, secret, w, a.connection, a.use.name, a.use.number);
    AcceptKeepsAdmitted(w, cache, a);
    CachesAfter(crypto, secret, w, a.connection, cache, after);
  }

  lemma ReceiveKeepsInv(crypto: Crypto, secret: nat, w: World, connection: nat, data: seq<byte>, backend: Backend)
    requires Inv(crypto, secret, w)
    ensures Inv(crypto, secret, Receive(crypto, secret, w, connection, data, backend))
  {
    var before := CacheOf(w, connection);
    if |data| < 58 || Admit(crypto, secret, before, NameOf(data), NumberOf(data)).Err? {
      SameCacheKeepsInv(crypto, secret, w, connection);
    } else {
      Pow256Values();
      var r := Process(crypto, secret, before, data, backend).1;
      AcceptKeepsInv(crypto, secret, w, Accept(connection, Use(NameOf(data), NumberOf(data)), r.Ok?));
    }
  }

  lemma {:induction false} RunKeepsInv(crypto: Crypto, secret: nat, steps: seq<Step>)
    requires Runs(crypto, secret, steps)
    ensures Inv(crypto, secret, Run(crypto, secret, steps))
  {
    if steps != [] {
      var before, s := steps[..|steps| - 1], steps[|steps| - 1];
      RunKeepsInv(crypto, secret, before);
      match s
      case ClientSend(name) => SendKeepsInv(crypto, secret, Run(crypto, secret, before), name);
      case RelayReceive(connection, data, backend) =>
        ReceiveKeepsInv(crypto, secret, Run(crypto, secret, before), connection, data, backend);
    }
  }

  /** In every run each connection's cache holds at most 16 circuits and the numbers accepted on each circuit of it
      strictly increase. */
  lemma AcceptedIncrease(crypto: Crypto, secret: nat, steps: seq<Step>, connection: nat)
    requires Runs(crypto, secret, steps)
    ensures |CacheOf(Run(crypto, secret, steps), connection)| <= MAX_CIRCUITS
    ensures IncreasingOn(Run(crypto, secret, steps).accepted)
  {
    RunKeepsInv(crypto, secret, steps);
    assert CacheOk(crypto, secret, CacheOf(Run(crypto, secret, steps), connection));
  }

  /** In every run a circuit's requests are numbered from 0 with none left out. */
  lemma {:induction false} RequestsNumbered(crypto: Crypto, secret: nat, steps: seq<Step>, name: CircuitName, k: nat)
    requires Runs(crypto, secret, steps)
    ensures Use(name, k) in Run(crypto, secret, steps).requests <==> k < Counter(Run(crypto, secret, steps), name)
  {
    if steps != [] {
      RequestsNumbered(crypto, secret, steps[..|steps| - 1], name, k);
    }
  }

  // ---- Nonces ----

  /** The key and the nonce material that something is sealed under. */
  datatype Sealing = Sealing(key: CircuitKey, material: seq<byte>)

  function RequestSealing(crypto: Crypto, secret: nat, u: Use): Sealing {
    Sealing(RelayKey(crypto, secret, u.name.pk), Material(u.name.id, u.number))
  }

  function ResponseSealing(crypto: Crypto, secret: nat, u: Use): Sealing {
    Sealing(RelayKey(crypto, secret, u.name.pk), ResponseMaterial(u.name.id, u.number))
  }

  /** Two circuits share a key and a nonce space: one identifier, and encodings of one point. */
  predicate SameSpace(crypto: Crypto, u: Use, v: Use) {
    u.name.id == v.name.id && crypto.point(u.name.pk) == crypto.point(v.name.pk)
  }

  lemma MaterialInjective(id1: seq<byte>, n1: nat, id2: seq<byte>, n2: nat)
    requires |id1| == 16 && |id2| == 16 && n1 < U64_LIMIT && n2 < U64_LIMIT
    ensures Material(id1, n1) == Material(id2, n2) <==> id1 == id2 && n1 == n2
  {
    var m1, m2 := Material(id1, n1), Material(id2, n2);
    assert m1[..16] == id1 && m2[..16] == id2;
    assert m1[16..] == Le(n1, 8) && m2[16..] == Le(n2, 8);
    Pow256Values();
    LeRoundTrip(n1, 8);
    LeRoundTrip(n2, 8);
  }

  /** The numbers agree on all bits but perhaps the top one. */
  predicate EqualButTop(s: nat, t: nat) {
    s == t || s == t + U63_LIMIT || t == s + U63_LIMIT
  }

  lemma ResponseNumberIff(s: nat, t: nat)
    requires s < U64_LIMIT && t < U64_LIMIT
    ensures ResponseNumber(s) < U64_LIMIT
    ensures ResponseNumber(s) == ResponseNumber(t) <==> EqualButTop(s, t)
    ensures s == ResponseNumber(t) <==> s >= U63_LIMIT && EqualButTop(s, t)
  {
  }

  lemma SealingIff(crypto: Crypto, secret: nat, a: CircuitName, m: nat, b: CircuitName, n: nat)
    requires a.Valid() && b.Valid() && m < U64_LIMIT && n < U64_LIMIT
    ensures Sealing(RelayKey(crypto, secret, a.pk), Material(a.id, m))
         == Sealing(RelayKey(crypto, secret, b.pk), Material(b.id, n))
        <==> crypto.point(a.pk) == crypto.point(b.pk) && a.id == b.id && m == n
  {
    KeysMeetIff(crypto, secret, a.pk, b.pk);
    MaterialInjective(a.id, m, b.id, n);
  }

  /**
   * Exactly when two uses meet under one key and nonce, for each pair of directions: the circuits share a nonce
   * space, and the numbers are equal, or equal but for the top bit between responses, or the request's is the
   * response's with the top bit set.
   */
  lemma SealingsMeetIff(crypto: Crypto, secret: nat, u: Use, v: Use)
    requires ValidUse(u) && ValidUse(v)
    ensures RequestSealing(crypto, secret, u) == RequestSealing(crypto, secret, v) <==>
      SameSpace(crypto, u, v) && u.number == v.number
    ensures ResponseSealing(crypto, secret, u) == ResponseSealing(crypto, secret, v) <==>
      SameSpace(crypto, u, v) && EqualButTop(u.number, v.number)
    ensures RequestSealing(crypto, secret, u) == ResponseSealing(crypto, secret, v) <==>
      SameSpace(crypto, u, v) && u.number >= U63_LIMIT && EqualButTop(u.number, v.number)
  {
    ResponseNumberIff(u.number, v.number);
    ResponseNumberIff(v.number, u.number);
    SealingIff(crypto, secret, u.name, u.number, v.name, v.number);
    SealingIff(crypto, secret, u.name, ResponseNumber(u.number), v.name, ResponseNumber(v.number));
    SealingIff(crypto, secret, u.name, u.number, v.name, ResponseNumber(v.number));
  }

  lemma KeysMeetIff(crypto: Crypto, secret: nat, pk1: seq<byte>, pk2: seq<byte>)
    ensures RelayKey(crypto, secret, pk1) == RelayKey(crypto, secret, pk2) <==> crypto.point(pk1) == crypto.point(pk2)
  {
  }

  predicate RequestsDiffer(crypto: Crypto, secret: nat, w: World) {
    forall i, j :: 0 <= i < j < |w.requests| ==>
      RequestSealing(crypto, secret, w.requests[i]) != RequestSealing(crypto, secret, w.requests[j])
  }

  predicate ResponsesDiffer(crypto: Crypto, secret: nat, w: World) {
    forall i, j :: 0 <= i < j < |w.accepted| && w.accepted[i].answered && w.accepted[j].answered ==>
      ResponseSealing(crypto, secret, w.accepted[i].use) != ResponseSealing(crypto, secret, w.accepted[j].use)
  }

  predicate DirectionsDiffer(crypto: Crypto, secret: nat, w: World) {
    forall i, j :: 0 <= i < |w.requests| && 0 <= j < |w.accepted| && w.accepted[j].answered ==>
      RequestSealing(crypto, secret, w.requests[i]) != ResponseSealing(crypto, secret, w.accepted[j].use)
  }

  /** Nothing is sealed twice under one key and nonce. */
  predicate SealedOnce(crypto: Crypto, secret: nat, w: World) {
    RequestsDiffer(crypto, secret, w) && ResponsesDiffer(crypto, secret, w) && DirectionsDiffer(crypto, secret, w)
  }

  ghost predicate Below(w: World, limit: nat) {
    && (forall u :: u in w.requests ==> u.number < limit)
    && (forall a :: a in w.accepted ==> a.use.number < limit)
  }

  /** Requests of one nonce space are of one circuit. */
  ghost predicate OneCircuit(crypto: Crypto, w: World) {
    forall i, j :: 0 <= i < j < |w.requests| && SameSpace(crypto, w.requests[i], w.requests[j]) ==>
      w.requests[i].name == w.requests[j].name
  }

  /** Frames of one nonce space come on one connection under one encoding. */
  ghost predicate OnePlace(crypto: Crypto, w: World) {
    forall i, j :: 0 <= i < j < |w.accepted| && SameSpace(crypto, w.accepted[i].use, w.accepted[j].use) ==>
      SamePlace(w.accepted[i], w.accepted[j])
  }

  lemma RequestPair(crypto: Crypto, secret: nat, w: World, i: nat, j: nat)
    requires Inv(crypto, secret, w) && OneCircuit(crypto, w) && i < j < |w.requests|
    ensures RequestSealing(crypto, secret, w.requests[i]) != RequestSealing(crypto, secret, w.requests[j])
  {
    assert w.requests[i] in w.requests && w.requests[j] in w.requests;
    SealingsMeetIff(crypto, secret, w.requests[i], w.requests[j]);
  }

  lemma ResponsePair(crypto: Crypto, secret: nat, w: World, i: nat, j: nat)
    requires Inv(crypto, secret, w) && OnePlace(crypto, w) && Below(w, U63_LIMIT) && i < j < |w.accepted|
    ensures ResponseSealing(crypto, secret, w.accepted[i].use) != ResponseSealing(crypto, secret, w.accepted[j].use)
  {
    assert w.accepted[i] in w.accepted && w.accepted[j] in w.accepted;
    assert Remembered(w, w.accepted[i]) && Remembered(w, w.accepted[j]);
    SealingsMeetIff(crypto, secret, w.accepted[i].use, w.accepted[j].use);
  }

  lemma CrossPair(crypto: Crypto, secret: nat, w: World, i: nat, j: nat)
    requires Inv(crypto, secret, w) && Below(w, U63_LIMIT) && i < |w.requests| && j < |w.accepted|
    ensures RequestSealing(crypto, secret, w.requests[i]) != ResponseSealing(crypto, secret, w.accepted[j].use)
  {
    assert w.requests[i] in w.requests && w.accepted[j] in w.accepted;
    assert Remembered(w, w.accepted[j]);
    SealingsMeetIff(crypto, secret, w.requests[i], w.accepted[j].use);
  }

  /**
   * In every run over any number of connections whose numbers stay below 2^63, in which the requests of one point and
   * identifier are of one circuit and their frames come on one connection under one encoding, nothing is sealed
   * twice under one key and nonce.
   */
  lemma NoncesDistinct(crypto: Crypto, secret: nat, steps: seq<Step>)
    requires Runs(crypto, secret, steps)
    requires var w := Run(crypto, secret, steps); Below(w, U63_LIMIT) && OneCircuit(crypto, w) && OnePlace(crypto, w)
    ensures SealedOnce(crypto, secret, Run(crypto, secret, steps))
  {
    var w := Run(crypto, secret, steps);
    RunKeepsInv(crypto, secret, steps);
    forall i, j | 0 <= i < j < |w.requests|
      ensures RequestSealing(crypto, secret, w.requests[i]) != RequestSealing(crypto, secret, w.requests[j])
    {
      RequestPair(crypto, secret, w, i, j);
    }
    forall i, j | 0 <= i < j < |w.accepted|
      ensures ResponseSealing(crypto, secret, w.accepted[i].use) != ResponseSealing(crypto, secret, w.accepted[j].use)
    {
      ResponsePair(crypto, secret, w, i, j);
    }
    forall i, j | 0 <= i < |w.requests| && 0 <= j < |w.accepted|
      ensures RequestSealing(crypto, secret, w.requests[i]) != ResponseSealing(crypto, secret, w.accepted[j].use)
    {
      CrossPair(crypto, secret, w, i, j);
    }
  }

  // ---- The exact condition ----

  /** An empty request for `u`, as its client seals it. */
  function FrameFor(crypto: Crypto, secret: nat, u: Use): seq<byte> {
    Request(crypto, RelayKey(crypto, secret, u.name.pk), u.name, u.number, [])
  }

  /** A frame the cache lets through and the backend serves is answered with the backend's reply. */
  lemma FrameAnswered(crypto: Crypto, secret: nat, cache: Cache, u: Use, backend: Backend, reply: seq<byte>)
    requires crypto.Correct() && ValidUse(u) && KeysDerived(crypto, secret, cache) && backend([]) == Some(reply)
    requires Admit(crypto, secret, cache, u.name, u.number).Ok?
    ensures var data := FrameFor(crypto, secret, u);
      && |data| >= 58 && NameOf(data) == u.name && NumberOf(data) == u.number
      && Process(crypto, secret, cache, data, backend)
         == (Admit(crypto, secret, cache, u.name, u.number).value,
             Ok(Response(crypto, RelayKey(crypto, secret, u.name.pk), u.name.id, u.number, reply)))
  {
    var key := RelayKey(crypto, secret, u.name.pk);
    var inner := Inner(SUBTYPE_REQUEST, u.name.id, []);
    RequestRoundTrip(crypto, key, u.name, u.number, []);
    HeaderParts(u.name, u.number, crypto.seal(key, Material(u.name.id, u.number), inner, u.name.id));
  }

  /** Two frames received one after the other by a new relay. */
  function TwoFrames(c1: nat, d1: seq<byte>, b1: Backend, c2: nat, d2: seq<byte>, b2: Backend): seq<Step> {
    [RelayReceive(c1, d1, b1), RelayReceive(c2, d2, b2)]
  }

  lemma RunsTwoFrames(crypto: Crypto, secret: nat, c1: nat, d1: seq<byte>, b1: Backend,
                      c2: nat, d2: seq<byte>, b2: Backend)
    ensures Runs(crypto, secret, TwoFrames(c1, d1, b1, c2, d2, b2))
    ensures Run(crypto, secret, TwoFrames(c1, d1, b1, c2, d2, b2))
         == Receive(crypto, secret, Receive(crypto, secret, INITIAL, c1, d1, b1), c2, d2, b2)
  {
    var steps := TwoFrames(c1, d1, b1, c2, d2, b2);
    assert steps[..1] == [RelayReceive(c1, d1, b1)] && steps[..1][..0] == [];
    assert Runs(crypto, secret, steps[..1][..0]) && Runs(crypto, secret, steps[..1]);
  }

  lemma ReceiveAnswered(crypto: Crypto, secret: nat, w: World, connection: nat, u: Use, backend: Backend,
                        reply: seq<byte>)
    requires crypto.Correct() && ValidUse(u) && KeysDerived(crypto, secret, CacheOf(w, connection))
    requires Admit(crypto, secret, CacheOf(w, connection), u.name, u.number).Ok? && backend([]) == Some(reply)
    ensures Receive(crypto, secret, w, connection, FrameFor(crypto, secret, u), backend)
      == w.(caches := w.caches[connection := Admit(crypto, secret, CacheOf(w, connection), u.name, u.number).value],
            accepted := w.accepted + [Accept(connection, u, true)])
  {
    FrameAnswered(crypto, secret, CacheOf(w, connection), u, backend, reply);
  }

  lemma SecondAdmitted(crypto: Crypto, secret: nat, c1: nat, u: Use, c2: nat, v: Use, w: World)
    requires c1 == c2 && u.name == v.name ==> u.number < v.number
    requires w.caches == map[c1 := Admit(crypto, secret, map[], u.name, u.number).value]
    ensures KeysDerived(crypto, secret, CacheOf(w, c2))
    ensures Admit(crypto, secret, CacheOf(w, c2), v.name, v.number).Ok?
  {
  }

  /** A new relay answers two requests: on two connections, on two circuits, or with the second number larger. */
  lemma BothAnswered(crypto: Crypto, secret: nat, c1: nat, u: Use, c2: nat, v: Use, b1: Backend, b2: Backend)
    returns (steps: seq<Step>)
    requires crypto.Correct() && ValidUse(u) && ValidUse(v) && b1([]).Some? && b2([]).Some?
    requires c1 == c2 && u.name == v.name ==> u.number < v.number
    ensures steps == TwoFrames(c1, FrameFor(crypto, secret, u), b1, c2, FrameFor(crypto, secret, v), b2)
    ensures Runs(crypto, secret, steps)
    ensures Run(crypto, secret, steps).requests == []
    ensures Run(crypto, secret, steps).accepted == [Accept(c1, u, true), Accept(c2, v, true)]
  {
    var d1, d2 := FrameFor(crypto, secret, u), FrameFor(crypto, secret, v);
    steps := TwoFrames(c1, d1, b1, c2, d2, b2);
    RunsTwoFrames(crypto, secret, c1, d1, b1, c2, d2, b2);
    ReceiveAnswered(crypto, secret, INITIAL, c1, u, b1, b1([]).value);
    SecondAdmitted(crypto, secret, c1, u, c2, v, Receive(crypto, secret, INITIAL, c1, d1, b1));
    ReceiveAnswered(crypto, secret, Receive(crypto, secret, INITIAL, c1, d1, b1), c2, v, b2, b2([]).value);
  }

  lemma RepeatedSealing(crypto: Crypto, secret: nat, w: World, c1: nat, u: Use, c2: nat, v: Use, limit: nat)
    requires w.requests == [] && w.accepted == [Accept(c1, u, true), Accept(c2, v, true)]
    requires ResponseSealing(crypto, secret, u) == ResponseSealing(crypto, secret, v)
    requires u.number < limit && v.number < limit
    ensures Below(w, limit) && !SealedOnce(crypto, secret, w)
  {
    assert w.accepted[0].use == u && w.accepted[1].use == v;
  }

  /** Two encodings of one point: the relay takes them for two circuits and seals two responses alike. */
  lemma TwoEncodings(crypto: Crypto, secret: nat, pk1: seq<byte>, pk2: seq<byte>, id: seq<byte>, number: nat)
    returns (steps: seq<Step>)
    requires crypto.Correct() && |pk1| == 32 && |pk2| == 32 && |id| == 16 && number < U64_LIMIT
    requires pk1 != pk2 && crypto.point(pk1) == crypto.point(pk2)
    ensures Runs(crypto, secret, steps) && Below(Run(crypto, secret, steps), number + 1)
    ensures Within(Run(crypto, secret, steps), 1) && !SealedOnce(crypto, secret, Run(crypto, secret, steps))
  {
    var u, v := Use(CircuitName(pk1, id), number), Use(CircuitName(pk2, id), number);
    steps := BothAnswered(crypto, secret, 0, u, 0, v, _ => Some([]), _ => Some([]));
    SealingsMeetIff(crypto, secret, u, v);
    RepeatedSealing(crypto, secret, Run(crypto, secret, steps), 0, u, 0, v, number + 1);
  }

  /** X25519 ignores the top bit of the last byte of an encoding (section 5 of RFC 7748), so encodings come in pairs. */
  lemma IgnoredBitNotCanonical(crypto: Crypto, pk: seq<byte>)
    requires |pk| == 32 && pk[31] < 0x80 && crypto.point(pk) == crypto.point(pk[31 := pk[31] + 0x80])
    ensures !Canonical(crypto)
  {
    assert pk[31 := pk[31] + 0x80][31] != pk[31];
  }

  /** Two numbers of one circuit that differ in the top bit only: both are accepted, and answered alike. */
  lemma TopBitRepeats(crypto: Crypto, secret: nat, name: CircuitName) returns (steps: seq<Step>)
    requires crypto.Correct() && name.Valid()
    ensures Runs(crypto, secret, steps) && Below(Run(crypto, secret, steps), U63_LIMIT + 1)
    ensures Within(Run(crypto, secret, steps), 1) && !SealedOnce(crypto, secret, Run(crypto, secret, steps))
  {
    var u, v := Use(name, 0), Use(name, U63_LIMIT);
    steps := BothAnswered(crypto, secret, 0, u, 0, v, _ => Some([]), _ => Some([]));
    SealingsMeetIff(crypto, secret, u, v);
    RepeatedSealing(crypto, secret, Run(crypto, secret, steps), 0, u, 0, v, U63_LIMIT + 1);
  }

  /** One frame received on two connections: each has a cache of its own, so both answer, and two replies, however
      different, are sealed under one key and nonce. */
  lemma TwoConnections(crypto: Crypto, secret: nat, u: Use, first: seq<byte>, second: seq<byte>)
    returns (steps: seq<Step>)
    requires crypto.Correct() && ValidUse(u)
    ensures var data, key := FrameFor(crypto, secret, u), RelayKey(crypto, secret, u.name.pk);
      && steps == TwoFrames(0, data, _ => Some(first), 1, data, _ => Some(second))
      && Process(crypto, secret, map[], data, _ => Some(first)).1
         == Ok(Response(crypto, key, u.name.id, u.number, first))
      && Process(crypto, secret, map[], data, _ => Some(second)).1
         == Ok(Response(crypto, key, u.name.id, u.number, second))
    ensures Runs(crypto, secret, steps) && Below(Run(crypto, secret, steps), u.number + 1)
    ensures Within(Run(crypto, secret, steps), 2) && !SealedOnce(crypto, secret, Run(crypto, secret, steps))
  {
    var b1, b2 := _ => Some(first), _ => Some(second);
    FrameAnswered(crypto, secret, map[], u, b1, first);
    FrameAnswered(crypto, secret, map[], u, b2, second);
    steps := BothAnswered(crypto, secret, 0, u, 1, u, b1, b2);
    RepeatedSealing(crypto, secret, Run(crypto, secret, steps), 0, u, 1, u, u.number + 1);
  }

  /** All frames came on the first `connections` connections. */
  ghost predicate Within(w: World, connections: nat) {
    forall a :: a in w.accepted ==> a.connection < connections
  }

  ghost predicate Bounded(w: World, limit: nat, connections: nat) {
    Below(w, limit) && Within(w, connections)
  }

  ghost predicate AlwaysSealedOnce(crypto: Crypto, secret: nat, limit: nat, connections: nat) {
    forall steps :: Runs(crypto, secret, steps) && Bounded(Run(crypto, secret, steps), limit, connections) ==>
      SealedOnce(crypto, secret, Run(crypto, secret, steps))
  }

  /** Every point has one encoding. */
  ghost predicate Canonical(crypto: Crypto) {
    forall pk1, pk2 :: |pk1| == 32 && |pk2| == 32 && crypto.point(pk1) == crypto.point(pk2) ==> pk1 == pk2
  }

  /**
   * Every run with numbers below `limit` on at most `connections` connections seals everything under its own key and
   * nonce if and only if points have one encoding each, the limit does not pass 2^63, and there is one connection.
   */
  lemma SealedOnceIff(crypto: Crypto, secret: nat, limit: nat, connections: nat)
    requires crypto.Correct() && 0 < limit <= U64_LIMIT && connections > 0
    ensures AlwaysSealedOnce(crypto, secret, limit, connections) <==>
      Canonical(crypto) && limit <= U63_LIMIT && connections == 1
  {
    if Canonical(crypto) && limit <= U63_LIMIT && connections == 1 {
      forall steps | Runs(crypto, secret, steps) && Bounded(Run(crypto, secret, steps), limit, connections)
        ensures SealedOnce(crypto, secret, Run(crypto, secret, steps))
      {
        CanonicalRun(crypto, secret, steps);
        NoncesDistinct(crypto, secret, steps);
      }
    } else {
      var steps := FailingRun(crypto, secret, limit, connections);
    }
  }

  lemma FailingRun(crypto: Crypto, secret: nat, limit: nat, connections: nat) returns (steps: seq<Step>)
    requires crypto.Correct() && 0 < limit <= U64_LIMIT && connections > 0
    requires !Canonical(crypto) || limit > U63_LIMIT || connections > 1
    ensures Runs(crypto, secret, steps) && Below(Run(crypto, secret, steps), limit)
    ensures Within(Run(crypto, secret, steps), connections) && !SealedOnce(crypto, secret, Run(crypto, secret, steps))
  {
    var name := CircuitName(Zeros(32), Zeros(16));
    if connections > 1 {
      steps := TwoConnections(crypto, secret, Use(name, 0), [], []);
      LooserBounds(Run(crypto, secret, steps), 1, limit, 2, connections);
    } else if limit > U63_LIMIT {
      steps := TopBitRepeats(crypto, secret, name);
      LooserBounds(Run(crypto, secret, steps), U63_LIMIT + 1, limit, 1, connections);
    } else {
      var pk1, pk2 :| |pk1| == 32 && |pk2| == 32 && crypto.point(pk1) == crypto.point(pk2) && pk1 != pk2;
      steps := TwoEncodings(crypto, secret, pk1, pk2, Zeros(16), 0);
      LooserBounds(Run(crypto, secret, steps), 1, limit, 1, connections);
    }
  }

  lemma LooserBounds(w: World, low: nat, high: nat, few: nat, many: nat)
    requires Below(w, low) && low <= high && Within(w, few) && few <= many
    ensures Below(w, high) && Within(w, many)
  {
  }

  lemma CanonicalRun(crypto: Crypto, secret: nat, steps: seq<Step>)
    requires Canonical(crypto) && Runs(crypto, secret, steps) && Within(Run(crypto, secret, steps), 1)
    ensures OneCircuit(crypto, Run(crypto, secret, steps)) && OnePlace(crypto, Run(crypto, secret, steps))
  {
    RunKeepsInv(crypto, secret, steps);
    var w := Run(crypto, secret, steps);
    assert forall i :: 0 <= i < |w.requests| ==> w.requests[i] in w.requests;
    assert forall i :: 0 <= i < |w.accepted| ==> w.accepted[i] in w.accepted && Remembered(w, w.accepted[i]);
  }
}

module OnionObject {
  import opened Basics
  import opened Bytes
  import opened Onion
  import OnionRuns

  /** The client's side of a circuit. */
  class Circuit {
    const name: CircuitName
    const key: CircuitKey
    var counter: nat

    constructor (name: CircuitName, key: CircuitKey)
      ensures this.name == name && this.key == key && counter == 0
    {
      this.name := name;
      this.key := key;
      counter := 0;
    }

    /** The counter wraps at 64 bits. */
    method NextNonceMaterial() returns (material: seq<byte>)
      requires counter < U64_LIMIT
      modifies `counter
      ensures material == Material(name.id, old(counter))
      ensures counter == (old(counter) + 1) % U64_LIMIT
    {
      material := name.id + Le(counter, 8);
      counter := (counter + 1) % U64_LIMIT;
    }

    method EncodeRelayRequest(crypto: Crypto, payload: seq<byte>) returns (out: seq<byte>)
      requires counter < U64_LIMIT && name.Valid()
      modifies `counter
      ensures out == Request(crypto, key, name, old(counter), payload)
      ensures counter == (old(counter) + 1) % U64_LIMIT
    {
      ghost var number := counter;
      var material := NextNonceMaterial();
      var suffix := material[16..24];
      assert suffix == Le(number, 8);
      var inner := [SUBTYPE_REQUEST];
      inner := inner + name.id;
      inner := inner + Le(|payload| % U32_LIMIT, 4);
      inner := inner + payload;
      var sealed := crypto.seal(key, material, inner, name.id);
      out := [ONION_PREFIX];
      out := out + name.pk;
      out := out + name.id;
      out := out + suffix;
      out := out + sealed;
    }
  }

  /** A payload frame and what the backend answers while it is handled. */
  datatype Frame = Frame(data: seq<byte>, backend: Backend)

  /** The cache and the responses written after some frames; failures write nothing. */
  function Handled(crypto: Crypto, secret: nat, cache: Cache, frames: seq<Frame>): (Cache, seq<seq<byte>>) {
    if frames == [] then (cache, [])
    else
      var n := |frames| - 1;
      var (before, responses) := Handled(crypto, secret, cache, frames[..n]);
      if frames[n].data == [] || frames[n].data[0] != ONION_PREFIX then (before, responses)
      else
        var (after, r) := Process(crypto, secret, before, frames[n].data, frames[n].backend);
        (after, if r.Ok? then responses + [r.value] else responses)
  }

  /** The frames that are not ignored, as steps of a run. */
  function Received(connection: nat, frames: seq<Frame>): seq<OnionRuns.Step> {
    if frames == [] then []
    else
      var n := |frames| - 1;
      var before := Received(connection, frames[..n]);
      if frames[n].data == [] || frames[n].data[0] != ONION_PREFIX then before
      else before + [OnionRuns.RelayReceive(connection, frames[n].data, frames[n].backend)]
  }

  /** Handling a connection's frames is a run of the relay, so what holds of every run holds of its cache. */
  lemma {:induction false} HandledIsRun(crypto: Crypto, secret: nat, connection: nat, frames: seq<Frame>)
    ensures OnionRuns.Runs(crypto, secret, Received(connection, frames))
    ensures Handled(crypto, secret, map[], frames).0
         == OnionRuns.CacheOf(OnionRuns.Run(crypto, secret, Received(connection, frames)), connection)
  {
    if frames != [] {
      var n := |frames| - 1;
      HandledIsRun(crypto, secret, connection, frames[..n]);
      if frames[n].data != [] && frames[n].data[0] == ONION_PREFIX {
        var steps := Received(connection, frames[..n]);
        ReceivedNext(crypto, secret, steps, connection, frames[n]);
      }
    }
  }

  lemma ReceivedNext(crypto: Crypto, secret: nat, steps: seq<OnionRuns.Step>, connection: nat, frame: Frame)
    requires OnionRuns.Runs(crypto, secret, steps)
    ensures var longer := steps + [OnionRuns.RelayReceive(connection, frame.data, frame.backend)];
      var before := OnionRuns.CacheOf(OnionRuns.Run(crypto, secret, steps), connection);
      && OnionRuns.Runs(crypto, secret, longer)
      && OnionRuns.CacheOf(OnionRuns.Run(crypto, secret, longer), connection)
         == Process(crypto, secret, before, frame.data, frame.backend).0
  {
    var longer := steps + [OnionRuns.RelayReceive(connection, frame.data, frame.backend)];
    assert longer[..|longer| - 1] == steps;
  }

  /** The relay's side of a connection. */
  class OnionConnection {
    const crypto: Crypto
    const secret: nat
    var circuits: Cache

    constructor (crypto: Crypto, secret: nat)
      ensures this.crypto == crypto && this.secret == secret && circuits == map[]
    {
      this.crypto := crypto;
      this.secret := secret;
      circuits := map[];
    }

    method ProcessOnionRequest(data: seq<byte>, backend: Backend) returns (r: Result<seq<byte>, Error>)
      modifies this
      ensures (circuits, r) == Process(crypto, secret, old(circuits), data, backend)
    {
      if |data| < 1 + 32 + 16 + 8 + 1 {
        return Err(TooShort);
      }
      var name, number := CircuitName(data[1..33], data[33..49]), FromLe(data[49..57]);
      var key;
      if name in circuits {
        var entry := circuits[name];
        if number <= entry.last {
          return Err(Replayed);
        }
        circuits := circuits[name := entry.(last := number)];
        key := entry.key;
      } else {
        if |circuits| >= MAX_CIRCUITS {
          return Err(CircuitLimit);
        }
        key := RelayKey(crypto, secret, name.pk);
        circuits := circuits[name := Entry(key, number)];
      }
      r := Reply(key, data, backend);
    }

    method Reply(key: CircuitKey, data: seq<byte>, backend: Backend) returns (r: Result<seq<byte>, Error>)
      requires |data| >= 58
      ensures r == Answer(crypto, key, data, backend)
    {
      var id, number := data[33..49], FromLe(data[49..57]);
      var plain := crypto.unseal(key, id + Le(number, 8), data[57..], id);
      if plain.None? {
        return Err(DecryptFailed);
      }
      var inner := plain.value;
      if |inner| < 1 + 16 + 4 {
        return Err(InnerTooShort);
      }
      if inner[0] != SUBTYPE_REQUEST {
        return Err(WrongSubtype);
      }
      var length := FromLe(inner[17..21]);
      if 21 + length > |inner| {
        return Err(BadLength);
      }
      var reply := backend(inner[21..21 + length]);
      if reply.None? {
        return Err(NoReply);
      }
      var text := [SUBTYPE_RESPONSE];
      text := text + id;
      text := text + Le(|reply.value| % U32_LIMIT, 4);
      text := text + reply.value;
      var sealed := crypto.seal(key, ResponseMaterial(id, number), text, id);
      var out := [ONION_PREFIX];
      out := out + Le(number, 8);
      out := out + sealed;
      return Ok(out);
    }

    method HandleConnection(frames: seq<Frame>) returns (responses: seq<seq<byte>>)
      modifies this
      ensures (circuits, responses) == Handled(crypto, secret, old(circuits), frames)
    {
      responses := [];
      for i := 0 to |frames|
        invariant (circuits, responses) == Handled(crypto, secret, old(circuits), frames[..i])
      {
        assert frames[..i + 1][..i] == frames[..i];
        var data := frames[i].data;
        if data != [] && data[0] == ONION_PREFIX {
          var r := ProcessOnionRequest(data, frames[i].backend);
          if r.Ok? {
            responses := responses + [r.value];
          }
        }
      }
      assert frames[..|frames|] == frames;
    }
  }
}
