/** The sliding-window chunk sender: it keeps at most a window of unacknowledged chunks in flight. The indices
    acknowledged come from the peer and are not checked. */
module WindowSender {
  import opened Basics

  /** What a run does on its two channels. */
  datatype Event = Sent(index: nat) | Acked(index: nat)

  datatype Outcome = Done | ChannelClosed | BadIndex

  function SentIn(trace: seq<Event>): seq<nat> {
    if trace == [] then []
    else SentIn(trace[..|trace| - 1]) + match trace[|trace| - 1] { case Sent(i) => [i] case Acked(_) => [] }
  }

  function AckedIn(trace: seq<Event>): seq<nat> {
    if trace == [] then []
    else AckedIn(trace[..|trace| - 1]) + match trace[|trace| - 1] { case Acked(i) => [i] case Sent(_) => [] }
  }

  /** Chunks sent less chunks acknowledged. */
  function Outstanding(trace: seq<Event>): int {
    |SentIn(trace)| - |Elements(AckedIn(trace))|
  }

  /** The window is full, or all of `count` chunks are sent, and something is outstanding. */
  predicate Full(trace: seq<Event>, count: nat, window: nat) {
    Outstanding(trace) > 0 && (Outstanding(trace) == window || |SentIn(trace)| == count)
  }

  /** At every moment of the trace from none to `window` chunks are outstanding, and whenever an acknowledgement
      was waited for, the window was full or nothing was left to send. */
  predicate Safe(trace: seq<Event>, count: nat, window: nat) {
    && 0 <= Outstanding(trace) <= window
    && (trace != [] ==>
          var before, last := trace[..|trace| - 1], trace[|trace| - 1];
          Safe(before, count, window) && (last.Acked? ==> Full(before, count, window)))
  }

  /** Each acknowledgement names a chunk sent before it. */
  predicate AcksSent(trace: seq<Event>) {
    trace != [] ==>
      var before, last := trace[..|trace| - 1], trace[|trace| - 1];
      AcksSent(before) && (last.Acked? ==> last.index in SentIn(before))
  }

  function Min(a: nat, b: nat): nat {
    if a <= b then a else b
  }

  /** The subtraction of two machine words, which wraps below zero. */
  function InFlight(sent: nat, acked: nat): nat
    requires sent < U64_LIMIT && acked < U64_LIMIT
  {
    if acked <= sent then sent - acked else sent + U64_LIMIT - acked
  }

  /** It is the one machine word that gives `sent` when `acked` is added back. */
  lemma InFlightWraps(sent: nat, acked: nat)
    requires sent < U64_LIMIT && acked < U64_LIMIT
    ensures InFlight(sent, acked) < U64_LIMIT && (InFlight(sent, acked) + acked) % U64_LIMIT == sent
  {
  }

  // ---- Counting ----

  lemma {:induction false} ElementsSize(s: seq<nat>)
    ensures |Elements(s)| <= |s|
    ensures |Elements(s)| == |s| <==> Distinct(s)
  {
    if s != [] {
      var rest, last := s[..|s| - 1], s[|s| - 1];
      ElementsSize(rest);
      assert s == rest + [last];
      assert Elements(s) == Elements(rest) + {last};
      assert Distinct(s) <==> Distinct(rest) && last !in rest;
      assert last in rest <==> last in Elements(rest);
    }
  }

  lemma TraceAcked(trace: seq<Event>, i: nat)
    ensures SentIn(trace + [Acked(i)]) == SentIn(trace)
    ensures AckedIn(trace + [Acked(i)]) == AckedIn(trace) + [i]
  {
    assert (trace + [Acked(i)])[..|trace|] == trace;
  }

  lemma TraceSent(trace: seq<Event>, i: nat)
    ensures SentIn(trace + [Sent(i)]) == SentIn(trace) + [i]
    ensures AckedIn(trace + [Sent(i)]) == AckedIn(trace)
  {
    assert (trace + [Sent(i)])[..|trace|] == trace;
  }

  /** A peer that acknowledges only what it was sent: the acknowledged chunks are among the sent ones. */
  lemma {:induction false} AckedAreSent(trace: seq<Event>)
    requires AcksSent(trace)
    ensures Elements(AckedIn(trace)) <= Elements(SentIn(trace))
  {
    if trace != [] {
      var before := trace[..|trace| - 1];
      AckedAreSent(before);
      match trace[|trace| - 1]
      case Sent(i) => assert AckedIn(trace) == AckedIn(before) && SentIn(trace) == SentIn(before) + [i];
      case Acked(i) => assert AckedIn(trace) == AckedIn(before) + [i] && SentIn(trace) == SentIn(before);
    }
  }

  /** What holds after `sent` sends and `received` acknowledgements, whatever these name, with `base` acknowledged
      from the start. */
  ghost predicate Progress(indices: seq<nat>, window: nat, acks: seq<nat>, base: set<nat>,
                           trace: seq<Event>, acked: set<nat>, sent: nat, received: nat)
  {
    && sent <= |indices| && received <= |acks|
    && SentIn(trace) == indices[..sent]
    && AckedIn(trace) == acks[..received]
    && acked == base + Elements(acks[..received])
    && (base == {} && window > 0 ==> |acked| <= sent && Safe(trace, |indices|, window))
  }

  /** The first acknowledgement leaves more chunks acknowledged than the first window sent. */
  predicate Jammed(window: nat, base: set<nat>, acks: seq<nat>) {
    acks != [] && window < |base + {acks[0]}|
  }

  /** How many chunks have been sent once sending stops for the next acknowledgement. */
  function Level(count: nat, window: nat, base: set<nat>, acks: seq<nat>, received: nat, acked: nat): (sent: nat)
    ensures sent <= count
  {
    if received == 0 || Jammed(window, base, acks) then Min(count, window) else Min(count, acked + window)
  }

  /** The subtraction that follows an acknowledgement goes below zero exactly when the sender is jammed. */
  ghost predicate Ready(count: nat, window: nat, base: set<nat>, acks: seq<nat>, acked: nat, sent: nat) {
    && acked <= count
    && if Jammed(window, base, acks) then sent == window < acked
       else window > 0 && acked <= sent <= Min(count, acked + window)
  }

  lemma SendStep(indices: seq<nat>, window: nat, acks: seq<nat>, base: set<nat>,
                 trace: seq<Event>, acked: set<nat>, sent: nat, received: nat)
    requires Progress(indices, window, acks, base, trace, acked, sent, received)
    requires sent < |indices| && (base == {} ==> 0 <= sent - |acked| < window)
    ensures Progress(indices, window, acks, base, trace + [Sent(indices[sent])], acked, sent + 1, received)
  {
    TraceSent(trace, indices[sent]);
    assert (trace + [Sent(indices[sent])])[..|trace|] == trace;
    assert indices[..sent + 1] == indices[..sent] + [indices[sent]];
  }

  lemma AckedGrows(acks: seq<nat>, received: nat)
    requires received < |acks|
    ensures acks[..received + 1] == acks[..received] + [acks[received]]
    ensures Elements(acks[..received + 1]) == Elements(acks[..received]) + {acks[received]}
  {
    assert acks[..received + 1] == acks[..received] + [acks[received]];
  }

  lemma AckStep(indices: seq<nat>, window: nat, acks: seq<nat>, base: set<nat>,
                trace: seq<Event>, acked: set<nat>, sent: nat, received: nat)
    requires Progress(indices, window, acks, base, trace, acked, sent, received)
    requires received < |acks|
    requires base == {} && window > 0 ==> |acked| < sent && (sent == |acked| + window || sent == |indices|)
    ensures Progress(indices, window, acks, base, trace + [Acked(acks[received])], acked + {acks[received]},
                     sent, received + 1)
  {
    var a := acks[received];
    AckedGrows(acks, received);
    TraceAcked(trace, a);
    assert (trace + [Acked(a)])[..|trace|] == trace;
    assert acked + {a} == base + Elements(acks[..received + 1]);
    SubsetSize(acked, acked + {a});
  }

  lemma InsertSize(s: set<nat>, a: nat)
    ensures |s| <= |s + {a}| <= |s| + 1
  {
    SubsetSize(s, s + {a});
  }

  /** After any acknowledgement the sender is ready: either jammed, or no more is acknowledged than sent. */
  lemma ReadyAfterAck(count: nat, window: nat, base: set<nat>, acks: seq<nat>, received: nat, acked: set<nat>)
    requires received < |acks| && acked == base + Elements(acks[..received]) && |acked| < count
    ensures Ready(count, window, base, acks, |acked + {acks[received]}|,
                  Level(count, window, base, acks, received, |acked|))
  {
    InsertSize(acked, acks[received]);
    if received == 0 {
      assert acked == base;
    } else {
      assert acks[..received][0] == acks[0];
      assert base + {acks[0]} <= acked;
      SubsetSize(base + {acks[0]}, acked);
      InsertSize(base, acks[0]);
      assert acks[0] in base + {acks[0]};
    }
    assert acks[received] in acked + {acks[received]};
  }

  /** With nothing acknowledged from the start, the window is full whenever the sender waits with chunks left. */
  lemma WaitsFull(count: nat, window: nat, acks: seq<nat>, received: nat, acked: nat)
    requires acked < count && window > 0 && (received == 0 ==> acked == 0)
    ensures var sent := Level(count, window, {}, acks, received, acked);
      acked < sent && (sent == acked + window || sent == count)
  {
    assert acks != [] ==> {} + {acks[0]} == {acks[0]};
  }

  /** What success means: as many different acknowledgements as chunks, all sent if the window is not empty; and
      every chunk was acknowledged exactly when nothing else was, in which case no index was repeated. */
  ghost predicate Succeeded(indices: seq<nat>, window: nat, trace: seq<Event>, acked: set<nat>) {
    && |acked| == |indices|
    && (window > 0 ==> SentIn(trace) == indices)
    && (acked == Elements(indices) <==> acked <= Elements(indices))
    && (acked == Elements(indices) ==> Distinct(indices))
  }

  /** `all` is the indices below `count`, in order. */
  predicate IsRange(all: seq<nat>, count: nat) {
    |all| == count && forall i :: 0 <= i < count ==> all[i] == i
  }

  /** The chunks of the first window exist. */
  predicate FirstExist(indices: seq<nat>, window: nat, chunkCount: nat) {
    forall k :: 0 <= k < Min(|indices|, window) ==> indices[k] < chunkCount
  }

  /** What is to be known before a run for its subtraction to go below zero. */
  predicate Underflows(indices: seq<nat>, window: nat, chunkCount: nat, base: set<nat>, acks: seq<nat>) {
    |base| < |indices| && Jammed(window, base, acks) && FirstExist(indices, window, chunkCount)
  }

  /** For a new sender: an empty window, something to send and any acknowledgement at all. */
  lemma NewUnderflows(indices: seq<nat>, window: nat, chunkCount: nat, acks: seq<nat>)
    ensures Jammed(window, {}, acks) <==> window == 0 && acks != []
    ensures Underflows(indices, window, chunkCount, {}, acks) <==> window == 0 && indices != [] && acks != []
  {
    assert acks != [] ==> {} + {acks[0]} == {acks[0]};
  }

  /** What was sent and acknowledged in a run, however it ended. */
  ghost predicate Kept(indices: seq<nat>, window: nat, acks: seq<nat>, base: set<nat>,
                       trace: seq<Event>, acked: set<nat>)
  {
    && SentIn(trace) <= indices && AckedIn(trace) <= acks && acked == base + Elements(AckedIn(trace))
    && (base == {} && window > 0 ==> Safe(trace, |indices|, window))
    && (AckedIn(trace) != [] ==> |base| < |indices|)
  }

  /** Exactly as many chunks were sent as the acknowledgements taken allow. */
  ghost predicate SentToLevel(indices: seq<nat>, window: nat, acks: seq<nat>, base: set<nat>,
                              trace: seq<Event>, acked: set<nat>)
  {
    SentIn(trace) == indices[..Level(|indices|, window, base, acks, |AckedIn(trace)|, |acked|)]
  }

  /** How a run ended: what was sent and acknowledged, and why it stopped. */
  ghost predicate Ended(indices: seq<nat>, window: nat, chunkCount: nat, acks: seq<nat>, base: set<nat>,
                        trace: seq<Event>, acked: set<nat>, outcome: Outcome)
  {
    && Kept(indices, window, acks, base, trace, acked)
    && match outcome
       case BadIndex =>
         exists k :: 0 <= k < |indices| && SentIn(trace) == indices[..k] && indices[k] >= chunkCount
       case ChannelClosed =>
         && AckedIn(trace) == acks && |base + Elements(acks)| < |indices|
         && SentToLevel(indices, window, acks, base, trace, acked)
         && (base == {} && window > 0 ==> Full(trace, |indices|, window))
         && (base == {} && window == 0 ==> Outstanding(trace) <= 0)
       case Done =>
         && |indices| <= |acked| <= |base + Elements(acks)|
         && SentToLevel(indices, window, acks, base, trace, acked)
         && (base == {} ==> Succeeded(indices, window, trace, acked))
  }

  class TransferSender {
    const chunkCount: nat
    const windowSize: nat
    var acked: set<nat>

    constructor (chunkCount: nat, windowSize: nat)
      ensures this.chunkCount == chunkCount && this.windowSize == windowSize && acked == {}
    {
      this.chunkCount := chunkCount;
      this.windowSize := windowSize;
      acked := {};
    }

    /** Sends the first window. */
    method FirstWindow(indices: seq<nat>, ghost acks: seq<nat>)
      returns (trace: seq<Event>, sentCount: nat, bad: bool)
      ensures Progress(indices, windowSize, acks, acked, trace, acked, sentCount, 0)
      ensures bad <==> !FirstExist(indices, windowSize, chunkCount)
      ensures !bad ==> sentCount == Min(|indices|, windowSize)
      ensures bad ==> sentCount < |indices| && indices[sentCount] >= chunkCount
    {
      trace, sentCount, bad := [], 0, false;
      while sentCount < windowSize && sentCount < |indices|
        invariant sentCount <= Min(|indices|, windowSize)
        invariant forall k :: 0 <= k < sentCount ==> indices[k] < chunkCount
        invariant Progress(indices, windowSize, acks, acked, trace, acked, sentCount, 0)
      {
        if indices[sentCount] >= chunkCount {
          bad := true;
          return;
        }
        SendStep(indices, windowSize, acks, acked, trace, acked, sentCount, 0);
        trace := trace + [Sent(indices[sentCount])];
        sentCount := sentCount + 1;
      }
    }

    /** Sends from `sent` on while the window has room; reports whether its first subtraction went below zero. */
    method FillWindow(indices: seq<nat>, ghost acks: seq<nat>, ghost base: set<nat>, before: seq<Event>, sent: nat,
                      ghost received: nat)
      returns (trace: seq<Event>, sentCount: nat, bad: bool, underflow: bool)
      requires Progress(indices, windowSize, acks, base, before, acked, sent, received) && received > 0
      requires |indices| < U64_LIMIT && Ready(|indices|, windowSize, base, acks, |acked|, sent)
      ensures Progress(indices, windowSize, acks, base, trace, acked, sentCount, received)
      ensures !bad ==> sentCount == Level(|indices|, windowSize, base, acks, received, |acked|)
      ensures bad ==> sentCount < |indices| && indices[sentCount] >= chunkCount
      ensures underflow <==> Jammed(windowSize, base, acks)
    {
      trace, sentCount, bad := before, sent, false;
      underflow := sentCount < |acked|;
      while InFlight(sentCount, |acked|) < windowSize && sentCount < |indices|
        invariant Progress(indices, windowSize, acks, base, trace, acked, sentCount, received)
        invariant Ready(|indices|, windowSize, base, acks, |acked|, sentCount)
        decreases |indices| - sentCount
      {
        if indices[sentCount] >= chunkCount {
          bad := true;
          return;
        }
        SendStep(indices, windowSize, acks, base, trace, acked, sentCount, received);
        trace := trace + [Sent(indices[sentCount])];
        sentCount := sentCount + 1;
      }
    }

    /** Takes one acknowledgement off the channel. */
    method TakeAck(ghost indices: seq<nat>, acks: seq<nat>, ghost base: set<nat>, before: seq<Event>, ghost sent: nat,
                   received: nat)
      returns (trace: seq<Event>)
      requires Progress(indices, windowSize, acks, base, before, acked, sent, received)
      requires received < |acks| && |acked| < |indices|
      requires sent == Level(|indices|, windowSize, base, acks, received, |acked|)
      modifies this
      ensures Progress(indices, windowSize, acks, base, trace, acked, sent, received + 1)
      ensures Ready(|indices|, windowSize, base, acks, |acked|, sent)
    {
      ReadyAfterAck(|indices|, windowSize, base, acks, received, acked);
      if base == {} && windowSize > 0 {
        WaitsFull(|indices|, windowSize, acks, received, |acked|);
      }
      AckStep(indices, windowSize, acks, base, before, acked, sent, received);
      trace := before + [Acked(acks[received])];
      acked := acked + {acks[received]};
    }

    /** Sends the chunks named by `indices`, in order; `acks` is what arrives on the channel before it closes. */
    method RunSelective(indices: seq<nat>, acks: seq<nat>)
      returns (trace: seq<Event>, outcome: Outcome, underflow: bool)
      requires |indices| < U64_LIMIT
      modifies this
      ensures Ended(indices, windowSize, chunkCount, acks, old(acked), trace, acked, outcome)
      ensures underflow <==> Underflows(indices, windowSize, chunkCount, old(acked), acks)
    {
      var bad;
      var sentCount: nat, received: nat := 0, 0;
      ghost var base := acked;
      trace, sentCount, bad := FirstWindow(indices, acks);
      underflow := false;
      ghost var first := !bad;
      while !bad && |acked| < |indices| && received < |acks|
        invariant Progress(indices, windowSize, acks, base, trace, acked, sentCount, received)
        invariant !bad ==> sentCount == Level(|indices|, windowSize, base, acks, received, |acked|)
        invariant bad ==> sentCount < |indices| && indices[sentCount] >= chunkCount
        invariant received == 0 ==> acked == base && bad == !first
        invariant received > 0 ==> first && |base| < |indices| && |acked| <= |indices|
        invariant underflow <==> received > 0 && Jammed(windowSize, base, acks)
        decreases |acks| - received
      {
        trace := TakeAck(indices, acks, base, trace, sentCount, received);
        received := received + 1;
        trace, sentCount, bad, underflow := FillWindow(indices, acks, base, trace, sentCount, received);
      }
      if bad {
        outcome := BadIndex;
        EndedBad(indices, windowSize, chunkCount, acks, base, trace, acked, sentCount, received);
      } else if |acked| < |indices| {
        outcome := ChannelClosed;
        EndedEarly(indices, windowSize, chunkCount, acks, base, trace, acked, sentCount, received);
      } else {
        outcome := Done;
        EndedDone(indices, windowSize, chunkCount, acks, base, trace, acked, sentCount, received);
      }
    }

    /** Sends the first window of the file. */
    method FirstChunks(ghost all: seq<nat>, ghost acks: seq<nat>) returns (trace: seq<Event>, nextToSend: nat)
      requires IsRange(all, chunkCount)
      ensures Progress(all, windowSize, acks, acked, trace, acked, nextToSend, 0)
      ensures nextToSend == Min(chunkCount, windowSize)
    {
      trace, nextToSend := [], 0;
      while nextToSend < chunkCount && nextToSend < windowSize
        invariant nextToSend <= Min(chunkCount, windowSize)
        invariant Progress(all, windowSize, acks, acked, trace, acked, nextToSend, 0)
      {
        SendStep(all, windowSize, acks, acked, trace, acked, nextToSend, 0);
        trace := trace + [Sent(nextToSend)];
        nextToSend := nextToSend + 1;
      }
    }

    /** Sends the following chunks of the file while fewer than a window are in flight. */
    method SendAhead(ghost all: seq<nat>, ghost acks: seq<nat>, ghost base: set<nat>, before: seq<Event>, next: nat,
                     ghost received: nat)
      returns (trace: seq<Event>, nextToSend: nat, underflow: bool)
      requires IsRange(all, chunkCount)
      requires Progress(all, windowSize, acks, base, before, acked, next, received) && received > 0
      requires chunkCount < U64_LIMIT && Ready(chunkCount, windowSize, base, acks, |acked|, next)
      ensures Progress(all, windowSize, acks, base, trace, acked, nextToSend, received)
      ensures nextToSend == Level(chunkCount, windowSize, base, acks, received, |acked|)
      ensures underflow <==> Jammed(windowSize, base, acks)
    {
      trace, nextToSend := before, next;
      underflow := nextToSend < chunkCount && nextToSend < |acked|;
      while nextToSend < chunkCount
        invariant Progress(all, windowSize, acks, base, trace, acked, nextToSend, received)
        invariant Ready(chunkCount, windowSize, base, acks, |acked|, nextToSend)
      {
        if InFlight(nextToSend, |acked|) >= windowSize {
          break;
        }
        SendStep(all, windowSize, acks, base, trace, acked, nextToSend, received);
        trace := trace + [Sent(nextToSend)];
        nextToSend := nextToSend + 1;
      }
    }

    /** Sends every chunk of the file, whose indices are `all`. */
    method Run(ghost all: seq<nat>, acks: seq<nat>) returns (trace: seq<Event>, outcome: Outcome, underflow: bool)
      requires chunkCount < U64_LIMIT && IsRange(all, chunkCount)
      modifies this
      ensures Ended(all, windowSize, chunkCount, acks, old(acked), trace, acked, outcome)
      ensures outcome != BadIndex
      ensures underflow <==> |old(acked)| < chunkCount && Jammed(windowSize, old(acked), acks)
    {
      var nextToSend: nat, received: nat := 0, 0;
      ghost var base := acked;
      trace, nextToSend := FirstChunks(all, acks);
      underflow := false;
      while |acked| < chunkCount && received < |acks|
        invariant Progress(all, windowSize, acks, base, trace, acked, nextToSend, received)
        invariant nextToSend == Level(chunkCount, windowSize, base, acks, received, |acked|)
        invariant received == 0 ==> acked == base
        invariant received > 0 ==> |base| < chunkCount && |acked| <= chunkCount
        invariant underflow <==> received > 0 && Jammed(windowSize, base, acks)
        decreases |acks| - received
      {
        trace := TakeAck(all, acks, base, trace, nextToSend, received);
        received := received + 1;
        trace, nextToSend, underflow := SendAhead(all, acks, base, trace, nextToSend, received);
      }
      if |acked| < chunkCount {
        outcome := ChannelClosed;
        EndedEarly(all, windowSize, chunkCount, acks, base, trace, acked, nextToSend, received);
      } else {
        outcome := Done;
        EndedDone(all, windowSize, chunkCount, acks, base, trace, acked, nextToSend, received);
      }
    }
  }

  lemma EndedBad(indices: seq<nat>, window: nat, chunkCount: nat, acks: seq<nat>, base: set<nat>,
                 trace: seq<Event>, acked: set<nat>, sent: nat, received: nat)
    requires Progress(indices, window, acks, base, trace, acked, sent, received)
    requires sent < |indices| && indices[sent] >= chunkCount && (received > 0 ==> |base| < |indices|)
    ensures Ended(indices, window, chunkCount, acks, base, trace, acked, BadIndex)
  {
  }

  lemma EndedEarly(indices: seq<nat>, window: nat, chunkCount: nat, acks: seq<nat>, base: set<nat>,
                   trace: seq<Event>, acked: set<nat>, sent: nat, received: nat)
    requires Progress(indices, window, acks, base, trace, acked, sent, received)
    requires received == |acks| && |acked| < |indices| && (received == 0 ==> acked == base)
    requires received > 0 ==> |base| < |indices|
    requires sent == Level(|indices|, window, base, acks, received, |acked|)
    ensures Ended(indices, window, chunkCount, acks, base, trace, acked, ChannelClosed)
  {
    assert acks[..received] == acks;
    if base == {} {
      LevelOf(|indices|, window, acks, |acked|);
      assert acked == Elements(AckedIn(trace));
    }
  }

  lemma LevelOf(count: nat, window: nat, acks: seq<nat>, acked: nat)
    requires acked < count && (acks == [] ==> acked == 0)
    ensures var sent := Level(count, window, {}, acks, |acks|, acked);
      if window > 0 then acked < sent && (sent == acked + window || sent == count) else sent <= acked
  {
    if window > 0 {
      WaitsFull(count, window, acks, |acks|, acked);
    } else {
      assert acks != [] ==> {} + {acks[0]} == {acks[0]};
    }
  }

  lemma EndedDone(indices: seq<nat>, window: nat, chunkCount: nat, acks: seq<nat>, base: set<nat>,
                  trace: seq<Event>, acked: set<nat>, sent: nat, received: nat)
    requires Progress(indices, window, acks, base, trace, acked, sent, received)
    requires |acked| >= |indices| && sent == Level(|indices|, window, base, acks, received, |acked|)
    requires (base == {} ==> |acked| <= |indices|) && (received > 0 ==> |base| < |indices|)
    ensures Ended(indices, window, chunkCount, acks, base, trace, acked, Done)
  {
    SubsetSize(acked, base + Elements(acks));
    if base == {} {
      AllAcked(indices, window, acks, trace, acked, sent, received);
    }
  }

  lemma AllAcked(indices: seq<nat>, window: nat, acks: seq<nat>,
                 trace: seq<Event>, acked: set<nat>, sent: nat, received: nat)
    requires Progress(indices, window, acks, {}, trace, acked, sent, received) && |acked| == |indices|
    ensures Succeeded(indices, window, trace, acked)
  {
    assert window > 0 ==> indices[..sent] == indices;
    ElementsSize(indices);
    if acked <= Elements(indices) {
      SubsetSize(acked, Elements(indices));
    }
  }

  /** With a new sender and a peer that acknowledges only what it was sent, success means that every chunk was
      acknowledged and that no index was asked for twice. */
  lemma HonestSuccess(indices: seq<nat>, window: nat, chunkCount: nat, acks: seq<nat>, trace: seq<Event>,
                      acked: set<nat>)
    requires Ended(indices, window, chunkCount, acks, {}, trace, acked, Done) && AcksSent(trace)
    ensures acked == Elements(indices) && Distinct(indices)
  {
    AckedAreSent(trace);
    assert acked == Elements(AckedIn(trace));
    assert Elements(SentIn(trace)) <= Elements(indices);
  }

  /** With a sender that has been used before, as many old acknowledgements as chunks are taken for success at once:
      only the first window goes out. */
  lemma UsedSuccess(indices: seq<nat>, window: nat, chunkCount: nat, acks: seq<nat>, base: set<nat>,
                    trace: seq<Event>, acked: set<nat>, outcome: Outcome)
    requires Ended(indices, window, chunkCount, acks, base, trace, acked, outcome) && |base| >= |indices|
    requires outcome != BadIndex
    ensures outcome == Done && SentIn(trace) == indices[..Min(|indices|, window)]
  {
    SubsetSize(base, base + Elements(acks));
  }
}
