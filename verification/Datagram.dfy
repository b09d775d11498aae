/** Authenticated, replay-filtered datagrams: number, 32-byte MAC of number and payload, payload. */
module Datagram {
  import opened Basics
  import opened Bytes

  const HEADER_LEN := 40

  type Mac = seq<byte> -> seq<byte>

  ghost predicate IsMac(mac: Mac) {
    forall message :: |mac(message)| == 32
  }

  function Encoded(mac: Mac, number: nat, payload: seq<byte>): seq<byte> {
    Le(number, 8) + mac(Le(number, 8) + payload) + payload
  }

  predicate Verifies(mac: Mac, data: seq<byte>) {
    |data| >= HEADER_LEN && data[8..40] == mac(data[..8] + data[40..])
  }

  /** The payload of a datagram that verifies and whose number is above `last`. */
  function Accepted(mac: Mac, last: nat, data: seq<byte>): Option<seq<byte>> {
    if !Verifies(mac, data) || FromLe(data[..8]) <= last then None else Some(data[40..])
  }

  /** A datagram the peer sent verifies, and is accepted exactly when its number is above every earlier one. */
  lemma EncodedAccepted(mac: Mac, number: nat, payload: seq<byte>, last: nat)
    requires IsMac(mac) && number < U64_LIMIT
    ensures var data := Encoded(mac, number, payload);
      && Verifies(mac, data)
      && FromLe(data[..8]) == number && data[40..] == payload
      && Accepted(mac, last, data) == if number > last then Some(payload) else None
  {
    Pow256Values();
    LeRoundTrip(number, 8);
    var data := Encoded(mac, number, payload);
    assert data[..8] == Le(number, 8);
    assert data[40..] == payload;
    assert data[8..40] == mac(Le(number, 8) + payload);
  }

  // ---- One direction of a connection, over a network that drops, repeats and reorders ----

  datatype World = World(
    sendSeq: nat, sent: seq<seq<byte>>, wire: seq<seq<byte>>,
    recvSeq: nat, numbers: seq<nat>, delivered: seq<seq<byte>>)

  datatype Step = Send(payload: seq<byte>) | Arrive(data: seq<byte>)

  const INITIAL := World(1, [], [], 0, [], [])

  /** The number and payload of `data` are those of a message that was sent. */
  predicate Sent(w: World, data: seq<byte>)
    requires |data| >= 40
  {
    exists i :: 0 <= i < |w.sent| && data[..8] + data[40..] == Le(i + 1, 8) + w.sent[i]
  }

  /** The middle 32 bytes are the MAC of the others. */
  predicate CarriesMac(mac: Mac, data: seq<byte>) {
    |data| >= 40 && data[8..40] == mac(data[..8] + data[40..])
  }

  /** The counter stays within its 64 bits, and only what the sender computed a MAC of arrives with its MAC. */
  predicate Enabled(mac: Mac, w: World, s: Step) {
    match s
    case Send(_) => w.sendSeq < U64_LIMIT
    case Arrive(data) => CarriesMac(mac, data) ==> Sent(w, data)
  }

  function Next(mac: Mac, w: World, s: Step): World {
    match s
    case Send(payload) =>
      w.(sendSeq := w.sendSeq + 1, sent := w.sent + [payload], wire := w.wire + [Encoded(mac, w.sendSeq, payload)])
    case Arrive(data) =>
      match Accepted(mac, w.recvSeq, data)
      case None => w
      case Some(payload) =>
        var number := FromLe(data[..8]);
        w.(recvSeq := number, numbers := w.numbers + [number], delivered := w.delivered + [payload])
  }

  ghost predicate Runs(mac: Mac, steps: seq<Step>) {
    steps == [] ||
    var before := steps[..|steps| - 1];
    Runs(mac, before) && Enabled(mac, Run(mac, before), steps[|steps| - 1])
  }

  function Run(mac: Mac, steps: seq<Step>): World {
    if steps == [] then INITIAL else Next(mac, Run(mac, steps[..|steps| - 1]), steps[|steps| - 1])
  }

  /** `numbers` are strictly increasing positions, counted from one, of `delivered` in `sent`. */
  predicate Subsequence(numbers: seq<nat>, delivered: seq<seq<byte>>, sent: seq<seq<byte>>) {
    && |numbers| == |delivered|
    && (forall k :: 0 <= k < |numbers| ==> 1 <= numbers[k] <= |sent| && delivered[k] == sent[numbers[k] - 1])
    && (forall j, k :: 0 <= j < k < |numbers| ==> numbers[j] < numbers[k])
  }

  ghost predicate OnWire(mac: Mac, w: World) {
    && w.sendSeq == |w.sent| + 1 <= U64_LIMIT
    && |w.wire| == |w.sent|
    && forall i :: 0 <= i < |w.wire| ==> w.wire[i] == Encoded(mac, i + 1, w.sent[i])
  }

  ghost predicate Inv(mac: Mac, w: World) {
    && OnWire(mac, w)
    && Subsequence(w.numbers, w.delivered, w.sent)
    && w.recvSeq == if w.numbers == [] then 0 else w.numbers[|w.numbers| - 1]
  }

  /** What verifies and was sent is on the wire. */
  lemma SentIsOnWire(mac: Mac, w: World, data: seq<byte>)
    requires OnWire(mac, w) && Verifies(mac, data) && Sent(w, data)
    ensures data in w.wire
  {
    var i :| 0 <= i < |w.sent| && data[..8] + data[40..] == Le(i + 1, 8) + w.sent[i];
    var text := data[..8] + data[40..];
    assert data[..8] == text[..8] == Le(i + 1, 8) && data[40..] == text[8..] == w.sent[i];
    ThreeParts(data, 8, 40);
    assert w.wire[i] == data;
  }

  /** Whatever verifies on arrival is one of the peer's datagrams, accepted if and only if it is a newer one. */
  lemma ArrivalIsSent(mac: Mac, w: World, data: seq<byte>) returns (i: nat)
    requires IsMac(mac) && Inv(mac, w) && Verifies(mac, data) && data in w.wire
    ensures i < |w.sent| && FromLe(data[..8]) == i + 1
    ensures Accepted(mac, w.recvSeq, data) == if i + 1 > w.recvSeq then Some(w.sent[i]) else None
  {
    i :| 0 <= i < |w.wire| && w.wire[i] == data;
    EncodedAccepted(mac, i + 1, w.sent[i], w.recvSeq);
  }

  lemma SendKeepsInv(mac: Mac, w: World, payload: seq<byte>)
    requires Inv(mac, w) && w.sendSeq < U64_LIMIT
    ensures Inv(mac, Next(mac, w, Send(payload)))
  {
  }

  lemma SubsequenceSnoc(numbers: seq<nat>, delivered: seq<seq<byte>>, sent: seq<seq<byte>>, i: nat)
    requires Subsequence(numbers, delivered, sent) && i < |sent|
    requires numbers == [] || numbers[|numbers| - 1] < i + 1
    ensures Subsequence(numbers + [i + 1], delivered + [sent[i]], sent)
  {
  }

  lemma AcceptKeepsInv(mac: Mac, w: World, i: nat)
    requires Inv(mac, w) && w.recvSeq < i + 1 <= |w.sent|
    ensures Inv(mac, w.(recvSeq := i + 1, numbers := w.numbers + [i + 1], delivered := w.delivered + [w.sent[i]]))
  {
    SubsequenceSnoc(w.numbers, w.delivered, w.sent, i);
  }

  lemma ArriveKeepsInv(mac: Mac, w: World, data: seq<byte>)
    requires IsMac(mac) && Inv(mac, w) && Enabled(mac, w, Arrive(data))
    ensures Inv(mac, Next(mac, w, Arrive(data)))
  {
    if Accepted(mac, w.recvSeq, data).Some? {
      SentIsOnWire(mac, w, data);
      var i := ArrivalIsSent(mac, w, data);
      AcceptKeepsInv(mac, w, i);
    }
  }

  lemma StepKeepsInv(mac: Mac, w: World, s: Step)
    requires IsMac(mac) && Inv(mac, w) && Enabled(mac, w, s)
    ensures Inv(mac, Next(mac, w, s))
  {
    match s
    case Send(payload) => SendKeepsInv(mac, w, payload);
    case Arrive(data) =>
      ArriveKeepsInv(mac, w, data);
  }

  lemma {:induction false} RunKeepsInv(mac: Mac, steps: seq<Step>)
    requires IsMac(mac) && Runs(mac, steps)
    ensures Inv(mac, Run(mac, steps))
  {
    if steps != [] {
      var before := steps[..|steps| - 1];
      RunKeepsInv(mac, before);
      StepKeepsInv(mac, Run(mac, before), steps[|steps| - 1]);
    }
  }

  /**
   * In every run, whatever the network drops, repeats or reorders, the delivered payloads are a subsequence of
   * the sent ones, each sent datagram delivered at most once.
   */
  lemma DeliveredInOrder(mac: Mac, steps: seq<Step>)
    requires IsMac(mac) && Runs(mac, steps)
    ensures var w := Run(mac, steps); Subsequence(w.numbers, w.delivered, w.sent)
  {
    RunKeepsInv(mac, steps);
  }

  /** Every payload sent, and its datagram arriving at once. */
  function Lossless(mac: Mac, payloads: seq<seq<byte>>): seq<Step> {
    if payloads == [] then []
    else
      var n := |payloads|;
      Lossless(mac, payloads[..n - 1]) + [Send(payloads[n - 1]), Arrive(Encoded(mac, n, payloads[n - 1]))]
  }

  lemma RunSnoc(mac: Mac, steps: seq<Step>, s: Step)
    ensures Run(mac, steps + [s]) == Next(mac, Run(mac, steps), s)
    ensures Runs(mac, steps + [s]) <==> Runs(mac, steps) && Enabled(mac, Run(mac, steps), s)
  {
  }

  lemma SendThenArrive(mac: Mac, w: World, payload: seq<byte>)
    requires IsMac(mac) && w.recvSeq < w.sendSeq == |w.sent| + 1 < U64_LIMIT
    ensures var data := Encoded(mac, w.sendSeq, payload);
      var sent := Next(mac, w, Send(payload));
      var after := Next(mac, sent, Arrive(data));
      && Enabled(mac, w, Send(payload)) && Enabled(mac, sent, Arrive(data))
      && after.sent == w.sent + [payload] && after.delivered == w.delivered + [payload]
      && after.sendSeq == w.sendSeq + 1 && after.recvSeq == w.sendSeq
  {
    EncodedAccepted(mac, w.sendSeq, payload, w.recvSeq);
    EncodedSent(mac, Next(mac, w, Send(payload)), |w.sent|);
  }

  /** What the sender encoded was sent. */
  lemma EncodedSent(mac: Mac, w: World, i: nat)
    requires IsMac(mac) && i < |w.sent|
    ensures var data := Encoded(mac, i + 1, w.sent[i]); |data| >= 40 && Sent(w, data)
  {
    var data := Encoded(mac, i + 1, w.sent[i]);
    assert data[..8] == Le(i + 1, 8) && data[40..] == w.sent[i];
  }

  lemma RunTwice(mac: Mac, steps: seq<Step>, s: Step, t: Step)
    ensures Run(mac, steps + [s, t]) == Next(mac, Next(mac, Run(mac, steps), s), t)
    ensures Runs(mac, steps + [s, t]) <==>
      Runs(mac, steps) && Enabled(mac, Run(mac, steps), s) && Enabled(mac, Next(mac, Run(mac, steps), s), t)
  {
    RunSnoc(mac, steps, s);
    RunSnoc(mac, steps + [s], t);
    assert steps + [s, t] == steps + [s] + [t];
  }

  /** The steps are a run after which exactly `payloads` has been sent and delivered. */
  ghost predicate AllDelivered(mac: Mac, steps: seq<Step>, payloads: seq<seq<byte>>) {
    && Runs(mac, steps)
    && var w := Run(mac, steps);
       w.sent == payloads && w.delivered == payloads && w.sendSeq == |payloads| + 1 && w.recvSeq == |payloads|
  }

  lemma OneMoreDelivered(mac: Mac, steps: seq<Step>, payloads: seq<seq<byte>>, last: seq<byte>)
    requires IsMac(mac) && AllDelivered(mac, steps, payloads) && |payloads| + 1 < U64_LIMIT
    ensures AllDelivered(mac, steps + [Send(last), Arrive(Encoded(mac, |payloads| + 1, last))], payloads + [last])
  {
    SendThenArrive(mac, Run(mac, steps), last);
    RunTwice(mac, steps, Send(last), Arrive(Encoded(mac, |payloads| + 1, last)));
  }

  /** Nothing is lost by the filter itself: over a network that keeps order, everything sent is delivered. */
  lemma {:induction false} LosslessDelivers(mac: Mac, payloads: seq<seq<byte>>)
    requires IsMac(mac) && |payloads| < U64_LIMIT
    ensures AllDelivered(mac, Lossless(mac, payloads), payloads)
  {
    if payloads != [] {
      var before, last := payloads[..|payloads| - 1], payloads[|payloads| - 1];
      LosslessDelivers(mac, before);
      OneMoreDelivered(mac, Lossless(mac, before), before, last);
      assert payloads == before + [last];
    }
  }

  // ---- Both directions, under one key ----

  /** The two directions of a connection: from the first end to the second, and back. Both ends use one MAC key, so
      a datagram of either verifies at both. */
  datatype Duplex = Duplex(there: World, back: World) {
    function Way(isThere: bool): World {
      if isThere then there else back
    }

    function WithWay(isThere: bool, w: World): Duplex {
      if isThere then this.(there := w) else this.(back := w)
    }
  }

  /** A step of one direction: a send of its sender, or an arrival at its receiver. */
  datatype DuplexStep = DuplexStep(isThere: bool, step: Step)

  const DUPLEX_INITIAL := Duplex(INITIAL, INITIAL)

  predicate DuplexEnabled(mac: Mac, d: Duplex, s: DuplexStep) {
    match s.step
    case Send(_) => d.Way(s.isThere).sendSeq < U64_LIMIT
    case Arrive(data) => CarriesMac(mac, data) ==> Sent(d.there, data) || Sent(d.back, data)
  }

  function DuplexNext(mac: Mac, d: Duplex, s: DuplexStep): Duplex {
    d.WithWay(s.isThere, Next(mac, d.Way(s.isThere), s.step))
  }

  function DuplexRun(mac: Mac, steps: seq<DuplexStep>): Duplex {
    if steps == [] then DUPLEX_INITIAL
    else DuplexNext(mac, DuplexRun(mac, steps[..|steps| - 1]), steps[|steps| - 1])
  }

  ghost predicate DuplexRuns(mac: Mac, steps: seq<DuplexStep>) {
    steps == [] ||
    var before := steps[..|steps| - 1];
    DuplexRuns(mac, before) && DuplexEnabled(mac, DuplexRun(mac, before), steps[|steps| - 1])
  }

  /** The receiver's record: increasing numbers that fit 64 bits, the last of them remembered. */
  ghost predicate Recorded(w: World) {
    && |w.numbers| == |w.delivered|
    && (forall k :: 0 <= k < |w.numbers| ==> 1 <= w.numbers[k] < U64_LIMIT)
    && (forall j, k :: 0 <= j < k < |w.numbers| ==> w.numbers[j] < w.numbers[k])
    && w.recvSeq == if w.numbers == [] then 0 else w.numbers[|w.numbers| - 1]
  }

  lemma RecordedSnoc(w: World, number: nat, payload: seq<byte>)
    requires Recorded(w) && w.recvSeq < number < U64_LIMIT
    ensures Recorded(w.(recvSeq := number, numbers := w.numbers + [number], delivered := w.delivered + [payload]))
  {
  }

  lemma ArriveRecorded(mac: Mac, w: World, data: seq<byte>)
    requires Recorded(w)
    ensures Recorded(Next(mac, w, Arrive(data)))
  {
    if Accepted(mac, w.recvSeq, data).Some? {
      Pow256Values();
      RecordedSnoc(w, FromLe(data[..8]), data[40..]);
    }
  }

  lemma SendOnWire(mac: Mac, w: World, payload: seq<byte>)
    requires OnWire(mac, w) && w.sendSeq < U64_LIMIT
    ensures OnWire(mac, Next(mac, w, Send(payload)))
  {
    var after := Next(mac, w, Send(payload));
    forall i | 0 <= i < |after.wire|
      ensures after.wire[i] == Encoded(mac, i + 1, after.sent[i])
    {
      if i < |w.wire| {
        assert after.wire[i] == w.wire[i] && after.sent[i] == w.sent[i];
      }
    }
  }

  lemma {:induction false} DuplexKeeps(mac: Mac, steps: seq<DuplexStep>, isThere: bool)
    requires DuplexRuns(mac, steps)
    ensures OnWire(mac, DuplexRun(mac, steps).Way(isThere)) && Recorded(DuplexRun(mac, steps).Way(isThere))
  {
    if steps != [] {
      var before, s := steps[..|steps| - 1], steps[|steps| - 1];
      DuplexKeeps(mac, before, isThere);
      var w := DuplexRun(mac, before).Way(isThere);
      if s.isThere == isThere {
        match s.step
        case Send(payload) => SendOnWire(mac, w, payload);
        case Arrive(data) => ArriveRecorded(mac, w, data);
      }
    }
  }

  /** A datagram that verifies is the one that carries its number and payload. */
  lemma VerifiedIsEncoded(mac: Mac, data: seq<byte>)
    requires Verifies(mac, data)
    ensures data == Encoded(mac, FromLe(data[..8]), data[40..])
  {
    LeFromLe(data[..8]);
    ThreeParts(data, 8, 40);
  }

  /** An accepted datagram is on the peer's wire exactly when the peer's message of that number is its payload. */
  lemma OnWireIff(mac: Mac, w: World, data: seq<byte>)
    requires IsMac(mac) && OnWire(mac, w) && Verifies(mac, data) && FromLe(data[..8]) > 0
    ensures data in w.wire <==>
      FromLe(data[..8]) <= |w.sent| && data[40..] == w.sent[FromLe(data[..8]) - 1]
  {
    var number := FromLe(data[..8]);
    if data in w.wire {
      var i :| 0 <= i < |w.wire| && w.wire[i] == data;
      WireParts(mac, w, i);
    }
    if number <= |w.sent| && data[40..] == w.sent[number - 1] {
      VerifiedIsEncoded(mac, data);
      assert w.wire[number - 1] == data;
    }
  }

  lemma WireParts(mac: Mac, w: World, i: nat)
    requires IsMac(mac) && OnWire(mac, w) && i < |w.wire|
    ensures |w.wire[i]| >= 40 && FromLe(w.wire[i][..8]) == i + 1 && w.wire[i][40..] == w.sent[i]
  {
    EncodedAccepted(mac, i + 1, w.sent[i], 0);
  }

  lemma SubsequenceSnocIff(w: World, number: nat, payload: seq<byte>)
    requires Recorded(w) && Subsequence(w.numbers, w.delivered, w.sent) && w.recvSeq < number
    ensures Subsequence(w.numbers + [number], w.delivered + [payload], w.sent) <==>
      number <= |w.sent| && payload == w.sent[number - 1]
  {
    var n := |w.numbers|;
    assert (w.numbers + [number])[n] == number && (w.delivered + [payload])[n] == payload;
    if number <= |w.sent| && payload == w.sent[number - 1] {
      SubsequenceSnoc(w.numbers, w.delivered, w.sent, number - 1);
    }
  }

  /**
   * One arrival: deliveries that were in order stay so if and only if the datagram is not accepted or is one the
   * peer has put on the wire.
   */
  lemma ArrivalInOrderIff(mac: Mac, w: World, data: seq<byte>)
    requires IsMac(mac) && OnWire(mac, w) && Recorded(w) && Subsequence(w.numbers, w.delivered, w.sent)
    ensures var after := Next(mac, w, Arrive(data));
      Subsequence(after.numbers, after.delivered, after.sent) <==>
      Accepted(mac, w.recvSeq, data).None? || data in w.wire
  {
    if Accepted(mac, w.recvSeq, data).Some? {
      OnWireIff(mac, w, data);
      SubsequenceSnocIff(w, FromLe(data[..8]), data[40..]);
    }
  }

  /** One step of a direction: a send, or an arrival that is refused or comes from the peer. */
  predicate NotEchoed(mac: Mac, w: World, s: Step) {
    s.Arrive? ==> Accepted(mac, w.recvSeq, s.data).None? || s.data in w.wire
  }

  /** No accepted arrival was off the peer's wire when it came. */
  ghost predicate NoEcho(mac: Mac, steps: seq<DuplexStep>, isThere: bool) {
    steps == [] ||
    var before, s := steps[..|steps| - 1], steps[|steps| - 1];
    && NoEcho(mac, before, isThere)
    && (s.isThere == isThere ==> NotEchoed(mac, DuplexRun(mac, before).Way(isThere), s.step))
  }

  predicate InOrder(w: World) {
    Subsequence(w.numbers, w.delivered, w.sent)
  }

  ghost predicate AlwaysInOrder(mac: Mac, steps: seq<DuplexStep>, isThere: bool) {
    InOrder(DuplexRun(mac, steps).Way(isThere)) &&
    (steps != [] ==> AlwaysInOrder(mac, steps[..|steps| - 1], isThere))
  }

  lemma StepInOrderIff(mac: Mac, w: World, s: Step)
    requires IsMac(mac) && OnWire(mac, w) && Recorded(w) && InOrder(w)
    ensures InOrder(Next(mac, w, s)) <==> NotEchoed(mac, w, s)
  {
    if s.Arrive? {
      ArrivalInOrderIff(mac, w, s.data);
    }
  }

  /**
   * In every run of both directions under one key, an end's deliveries are at every moment a subsequence of what its
   * peer has sent if and only if no datagram it accepted was off its peer's wire when it came.
   */
  lemma {:induction false} InOrderIffNoEcho(mac: Mac, steps: seq<DuplexStep>, isThere: bool)
    requires IsMac(mac) && DuplexRuns(mac, steps)
    ensures AlwaysInOrder(mac, steps, isThere) <==> NoEcho(mac, steps, isThere)
  {
    if steps != [] {
      var before, s := steps[..|steps| - 1], steps[|steps| - 1];
      var w := DuplexRun(mac, before).Way(isThere);
      InOrderIffNoEcho(mac, before, isThere);
      DuplexKeeps(mac, before, isThere);
      if AlwaysInOrder(mac, before, isThere) && s.isThere == isThere {
        StepInOrderIff(mac, w, s.step);
      }
    }
  }

  /** In every run of both directions, whatever is accepted is on the wire of one end or the other. */
  lemma AcceptedFromEither(mac: Mac, steps: seq<DuplexStep>, isThere: bool, data: seq<byte>)
    requires IsMac(mac) && DuplexRuns(mac, steps)
    requires var d := DuplexRun(mac, steps);
      DuplexEnabled(mac, d, DuplexStep(isThere, Arrive(data))) && Accepted(mac, d.Way(isThere).recvSeq, data).Some?
    ensures var d := DuplexRun(mac, steps); data in d.there.wire || data in d.back.wire
  {
    var d := DuplexRun(mac, steps);
    DuplexKeeps(mac, steps, true);
    DuplexKeeps(mac, steps, false);
    if Sent(d.there, data) {
      SentIsOnWire(mac, d.there, data);
    } else {
      SentIsOnWire(mac, d.back, data);
    }
  }

  /** A run with an echo: an end sends, its own datagram comes back to it, and it delivers what nobody sent it. */
  lemma EchoDelivered(mac: Mac, payload: seq<byte>) returns (steps: seq<DuplexStep>)
    requires IsMac(mac)
    ensures DuplexRuns(mac, steps)
    ensures var d := DuplexRun(mac, steps);
      d.back.sent == [] && d.back.delivered == [payload] && !Subsequence(d.back.numbers, d.back.delivered, d.back.sent)
  {
    var data := Encoded(mac, 1, payload);
    var send, arrive := DuplexStep(true, Send(payload)), DuplexStep(false, Arrive(data));
    steps := [send, arrive];
    EncodedAccepted(mac, 1, payload, 0);
    assert steps[..1] == [send] && [send][..0] == [];
    assert DuplexRuns(mac, [send][..0]) && DuplexRun(mac, [send]) == DuplexNext(mac, DUPLEX_INITIAL, send);
    assert DuplexRuns(mac, [send]);
    EncodedSent(mac, DuplexRun(mac, [send]).there, 0);
    assert DuplexRun(mac, steps).back.numbers[0] == 1;
  }
}

module DatagramObject {
  import opened Basics
  import opened Bytes
  import opened Datagram

  /** The XOR-OR loop of a comparison that takes the same time wherever the strings differ is equality. */
  method ConstantTimeEq(a: seq<byte>, b: seq<byte>) returns (equal: bool)
    ensures equal <==> a == b
  {
    if |a| != |b| {
      return false;
    }
    var diff: byte := 0;
    for i := 0 to |a|
      invariant diff == 0 <==> a[..i] == b[..i]
    {
      OrXorZero(diff, a[i], b[i]);
      assert a[..i + 1] == a[..i] + [a[i]] && b[..i + 1] == b[..i] + [b[i]];
      diff := OrByte(diff, XorByte(a[i], b[i]));
    }
    assert a[..|a|] == a && b[..|b|] == b;
    return diff == 0;
  }

  class DtlsSession {
    const mac: Mac
    var sendSeq: nat
    var recvSeq: nat

    constructor (mac: Mac)
      ensures this.mac == mac && sendSeq == 1 && recvSeq == 0
    {
      this.mac := mac;
      sendSeq := 1;
      recvSeq := 0;
    }

    /** The counter wraps at 64 bits; the MAC is written over its placeholder. */
    method SendAuthenticated(payload: seq<byte>) returns (buf: seq<byte>)
      requires IsMac(mac) && sendSeq < U64_LIMIT
      modifies `sendSeq
      ensures buf == Encoded(mac, old(sendSeq), payload)
      ensures sendSeq == (old(sendSeq) + 1) % U64_LIMIT
    {
      var number := sendSeq;
      sendSeq := (sendSeq + 1) % U64_LIMIT;
      buf := Le(number, 8);
      buf := buf + Zeros(32);
      buf := buf + payload;
      var tag := mac(buf[..8] + buf[HEADER_LEN..]);
      assert buf[..8] == Le(number, 8) && buf[HEADER_LEN..] == payload;
      buf := buf[..8] + tag + buf[HEADER_LEN..];
    }

    method VerifyAndStrip(data: seq<byte>) returns (payload: Option<seq<byte>>)
      modifies `recvSeq
      ensures payload == Accepted(mac, old(recvSeq), data)
      ensures recvSeq == if payload.Some? then FromLe(data[..8]) else old(recvSeq)
    {
      if |data| < HEADER_LEN {
        return None;
      }
      var number := FromLe(data[..8]);
      var expected := mac(data[..8] + data[HEADER_LEN..]);
      var same := ConstantTimeEq(data[8..40], expected);
      if !same {
        return None;
      }
      if number <= recvSeq {
        return None;
      }
      recvSeq := number;
      return Some(data[HEADER_LEN..]);
    }
  }
}
