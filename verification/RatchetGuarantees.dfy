/** What a ratchet session guarantees against anyone who can drop, repeat, reorder and relabel what was sent: only the
    peer's messages open, each at most once, and a header is spent by whatever arrives under it first. */
module RatchetGuarantees {
  import opened Basics
  import opened Bytes
  import opened SymbolicCrypto
  import opened Ratchet
  import opened RatchetAgreement
  import opened RatchetRuns

  // ---- At most once ----

  /** A message that was opened never opens again, wherever its end has got to since. */
  lemma OpenedNeverAgain(shared: Key, secrets: seq<nat>, p: Party, m: Sent, drawn: nat)
    requires Distinct(secrets) && drawn !in secrets && InSync(shared, secrets, p) && Genuine(shared, secrets, m)
    requires |p.session.skipped| <= MAX_TOTAL_SKIPPED && (m.epoch, m.packet.number) in p.delivered
    ensures Decrypt(p.session, m.packet, drawn).1.Err?
  {
    if Held(p, (m.packet.ratchetKey, m.packet.number)) {
      StoredKey(shared, secrets, p, m);
      assert false;
    }
    if m.epoch + 1 == p.epoch {
      ReplayBreaks(shared, secrets, p, m, drawn);
    } else {
      SupersededBreaks(shared, secrets, p, m, drawn);
    }
  }

  /** What a packet does to the session is decided by its header. */
  lemma HeaderDecides(s: Session, a: Packet, b: Packet, drawn: nat)
    requires a.ratchetKey == b.ratchetKey && a.number == b.number
    ensures Decrypt(s, a, drawn).0 == Decrypt(s, b, drawn).0
  {
  }

  /** Anything under the header of a message still to come spends it: afterwards that message cannot be opened. */
  lemma HeaderSpent(shared: Key, secrets: seq<nat>, p: Party, m: Sent, forged: Packet, d1: nat, d2: nat)
    requires Distinct(secrets) && d1 !in secrets && d2 !in secrets + [d1]
    requires InSync(shared, secrets, p) && Genuine(shared, secrets, m) && |p.session.skipped| <= MAX_TOTAL_SKIPPED
    requires Timely(p, m) && (m.epoch == p.epoch + 1 ==> |secrets| == p.epoch + 2) && Limit(p, m).None?
    requires forged.ratchetKey == m.packet.ratchetKey && forged.number == m.packet.number
    ensures Decrypt(Decrypt(p.session, forged, d1).0, m.packet, d2).1.Err?
  {
    HeaderDecides(p.session, forged, m.packet, d1);
    ReceiveTimely(shared, secrets, p, m, d1);
    var after := SecretsAfter(secrets, p, m.packet, d1);
    if StepsRatchet(p, m.packet) {
      GenuineExtend(shared, secrets, d1, m);
      DistinctExtend(secrets, d1);
    }
    PerformBound(p.session, DoDecrypt(m.packet, d1));
    OpenedNeverAgain(shared, after, Receive(p, m, d1).0, m, d2);
  }

  lemma DistinctExtend(secrets: seq<nat>, drawn: nat)
    requires Distinct(secrets) && drawn !in secrets
    ensures Distinct(secrets + [drawn])
  {
  }

  // ---- Only the peer's messages ----

  /** An end has stepped only its peer's chains. */
  predicate PeerOnly(p: Party) {
    forall j :: 0 <= j < |p.reach| && j % 2 == p.epoch % 2 ==> p.reach[j] == 0
  }

  lemma ReceivePeerOnly(p: Party, m: Sent, drawn: nat)
    requires PeerOnly(p) && |p.reach| == p.epoch
    ensures PeerOnly(Receive(p, m, drawn).0) && |Receive(p, m, drawn).0.reach| == Receive(p, m, drawn).0.epoch
  {
  }

  lemma StepPeerOnly(w: World, step: Step)
    requires Inv(w) && Enabled(w, step) && PeerOnly(w.initiator) && PeerOnly(w.responder)
    ensures PeerOnly(Next(w, step).initiator) && PeerOnly(Next(w, step).responder)
  {
    if step.Deliver? {
      ReceivePeerOnly(w.End(!w.log[step.index].byInitiator), w.log[step.index], step.drawn);
    }
  }

  lemma {:induction false} RunPeerOnly(w: World, steps: seq<Step>)
    requires Inv(w) && EnabledRun(w, steps) && PeerOnly(w.initiator) && PeerOnly(w.responder)
    ensures PeerOnly(Run(w, steps).initiator) && PeerOnly(Run(w, steps).responder)
    decreases |steps|
  {
    if steps != [] {
      StepPeerOnly(w, steps[0]);
      StepKeepsInv(w, steps[0]);
      RunPeerOnly(Next(w, steps[0]), steps[1..]);
    }
  }

  /** An end does not open what it sent itself. */
  lemma OwnMessageFails(shared: Key, secrets: seq<nat>, p: Party, m: Sent, drawn: nat)
    requires Distinct(secrets) && InSync(shared, secrets, p) && Genuine(shared, secrets, m) && PeerOnly(p)
    requires m.epoch % 2 == p.epoch % 2
    ensures Decrypt(p.session, m.packet, drawn).1.Err?
  {
    if Held(p, (m.packet.ratchetKey, m.packet.number)) {
      StoredKey(shared, secrets, p, m);
      assert false;
    }
    assert p.epoch >= 1 ==> secrets[p.epoch - 1] != secrets[m.epoch];
    if Decrypt(p.session, m.packet, drawn).1.Ok? {
      var base := ChainKey(p.session.rootKey, DiffieHellman(p.session.secret, m.packet.ratchetKey));
      SkipKeysChain(base, m.packet.ratchetKey, 0, m.packet.number, p.session.skipped);
      RootDepth(shared, secrets, p.epoch);
      RootDepth(shared, secrets, m.epoch - 1);
      IterateBase(base, ChainAt(shared, secrets, m.epoch), m.packet.number, m.packet.number);
    }
  }

  /** A ciphertext nobody sealed, or one taken from some message of the run. */
  ghost predicate Available(w: World, c: Ciphertext) {
    c.Garbage? || exists a :: 0 <= a < |w.log| && w.log[a].packet.ciphertext == c
  }

  /** What opens was sealed with the header it came under. */
  lemma OpenBinds(s: Session, m: Packet, drawn: nat)
    requires Decrypt(s, m, drawn).1.Ok?
    ensures m.ciphertext.Sealed? && m.ciphertext.aad == m.ratchetKey && m.ciphertext.nonce.number == m.number
    ensures Decrypt(s, m, drawn).1 == Ok(m.ciphertext.plaintext)
  {
  }

  /** In a reachable state, a packet with any header and any available ciphertext that opens is a message of the peer,
      unopened until then, and opens to its plaintext. */
  lemma OpenedIsGenuine(w: World, isInitiator: bool, packet: Packet, next: nat) returns (a: nat)
    requires Inv(w) && StoredBounded(w) && PeerOnly(w.End(isInitiator)) && next !in w.secrets
    requires Available(w, packet.ciphertext) && Decrypt(w.End(isInitiator).session, packet, next).1.Ok?
    ensures a < |w.log| && w.log[a].packet == packet && w.log[a].byInitiator != isInitiator
    ensures (w.log[a].epoch, packet.number) !in w.End(isInitiator).delivered
    ensures Decrypt(w.End(isInitiator).session, packet, next).1 == Ok(w.log[a].plaintext)
  {
    var p := w.End(isInitiator);
    OpenBinds(p.session, packet, next);
    a :| 0 <= a < |w.log| && w.log[a].packet.ciphertext == packet.ciphertext;
    assert Logged(w, w.log[a]);
    if w.log[a].byInitiator == isInitiator {
      OwnMessageFails(w.shared, w.secrets, p, w.log[a], next);
    } else if (w.log[a].epoch, packet.number) in p.delivered {
      OpenedNeverAgain(w.shared, w.secrets, p, w.log[a], next);
    }
  }

  /** In every run, whatever packet is put together from what was sent: if it opens it is a message of the peer, whole
      and unopened until then. */
  lemma Authenticity(shared: Key, preKey: nat, drawn: nat, steps: seq<Step>, isInitiator: bool, packet: Packet,
                     next: nat)
    returns (a: nat)
    requires preKey != drawn && EnabledRun(InitialWorld(shared, preKey, drawn), steps)
    requires var w := Run(InitialWorld(shared, preKey, drawn), steps);
      && next !in w.secrets && Available(w, packet.ciphertext)
      && Decrypt(w.End(isInitiator).session, packet, next).1.Ok?
    ensures var w := Run(InitialWorld(shared, preKey, drawn), steps);
      && a < |w.log| && w.log[a].packet == packet && w.log[a].byInitiator != isInitiator
      && (w.log[a].epoch, packet.number) !in w.End(isInitiator).delivered
      && Decrypt(w.End(isInitiator).session, packet, next).1 == Ok(w.log[a].plaintext)
  {
    var w0 := InitialWorld(shared, preKey, drawn);
    InitialInv(shared, preKey, drawn);
    RunKeepsInv(w0, steps);
    RunKeepsBounded(w0, steps);
    RunPeerOnly(w0, steps);
    a := OpenedIsGenuine(Run(w0, steps), isInitiator, packet, next);
  }

  // ---- Counters ----

  /** How many messages an end has sent in an epoch. */
  function CountSent(log: seq<Sent>, byInitiator: bool, epoch: nat): nat {
    if log == [] then 0
    else
      var m := log[|log| - 1];
      CountSent(log[..|log| - 1], byInitiator, epoch)
        + if m.byInitiator == byInitiator && m.epoch == epoch then 1 else 0
  }

  /** The counters of an end are the numbers of messages sent in its present epoch and in the one before. */
  predicate Counts(log: seq<Sent>, isInitiator: bool, p: Party) {
    && p.session.sendCount == CountSent(log, isInitiator, p.epoch)
    && p.session.prevSendCount == (if p.epoch >= 2 then CountSent(log, isInitiator, p.epoch - 2) else 0)
    && (p.epoch <= 1 ==> p.session.recvCount == 0)
  }

  lemma {:induction false} NoneSentLater(log: seq<Sent>, byInitiator: bool, epoch: nat)
    requires forall a :: 0 <= a < |log| && log[a].byInitiator == byInitiator ==> log[a].epoch < epoch
    ensures CountSent(log, byInitiator, epoch) == 0
  {
    if log != [] {
      NoneSentLater(log[..|log| - 1], byInitiator, epoch);
    }
  }

  lemma PushedCount(log: seq<Sent>, m: Sent, byInitiator: bool, epoch: nat)
    ensures CountSent(log + [m], byInitiator, epoch) ==
            CountSent(log, byInitiator, epoch) + if m.byInitiator == byInitiator && m.epoch == epoch then 1 else 0
  {
    assert (log + [m])[..|log + [m]| - 1] == log;
  }

  lemma EncryptCounts(log: seq<Sent>, isInitiator: bool, p: Party, plaintext: seq<byte>)
    requires Counts(log, isInitiator, p) && p.session.sendCount < U32_LIMIT - 1
    ensures var (s, r) := Encrypt(p.session, plaintext);
      var after := if r.Err? then log else log + [Sent(r.value, isInitiator, p.epoch, plaintext)];
      Counts(after, isInitiator, p.(session := s))
  {
    var (s, r) := Encrypt(p.session, plaintext);
    if r.Ok? {
      var m := Sent(r.value, isInitiator, p.epoch, plaintext);
      PushedCount(log, m, isInitiator, p.epoch);
      if p.epoch >= 2 {
        PushedCount(log, m, isInitiator, p.epoch - 2);
      }
    }
  }

  lemma PeerSendCounts(log: seq<Sent>, m: Sent, isInitiator: bool, p: Party)
    requires Counts(log, isInitiator, p) && m.byInitiator != isInitiator
    ensures Counts(log + [m], isInitiator, p)
  {
    PushedCount(log, m, isInitiator, p.epoch);
    if p.epoch >= 2 {
      PushedCount(log, m, isInitiator, p.epoch - 2);
    }
  }

  lemma SendCounts(w: World, byInitiator: bool, plaintext: seq<byte>, isInitiator: bool)
    requires Enabled(w, Send(byInitiator, plaintext)) && Counts(w.log, isInitiator, w.End(isInitiator))
    ensures var v := Next(w, Send(byInitiator, plaintext)); Counts(v.log, isInitiator, v.End(isInitiator))
  {
    var p := w.End(byInitiator);
    if byInitiator == isInitiator {
      EncryptCounts(w.log, isInitiator, p, plaintext);
    } else {
      var (s, r) := Encrypt(p.session, plaintext);
      if r.Ok? {
        PeerSendCounts(w.log, Sent(r.value, byInitiator, p.epoch, plaintext), isInitiator, w.End(isInitiator));
      }
    }
  }

  lemma ReceiveCounts(p: Party, m: Sent, drawn: nat, log: seq<Sent>, isInitiator: bool)
    requires Counts(log, isInitiator, p)
    requires StepsRatchet(p, m.packet) ==> CountSent(log, isInitiator, p.epoch + 2) == 0
    requires p.epoch <= 1 ==> p.session.recvChain.None? && p.session.skipped == map[]
    ensures Counts(log, isInitiator, Receive(p, m, drawn).0)
  {
  }

  lemma NoneAhead(w: World, isInitiator: bool)
    requires Inv(w)
    ensures var p := w.End(isInitiator);
      && CountSent(w.log, isInitiator, p.epoch + 2) == 0
      && (p.epoch <= 1 ==> p.session.recvChain.None? && p.session.skipped == map[])
  {
    if w.End(isInitiator).epoch <= 1 {
      NothingStored(w.shared, w.secrets, w.End(isInitiator));
    }
    var epoch := w.End(isInitiator).epoch + 2;
    forall a | 0 <= a < |w.log| && w.log[a].byInitiator == isInitiator
      ensures w.log[a].epoch < epoch
    {
      assert Logged(w, w.log[a]);
    }
    NoneSentLater(w.log, isInitiator, epoch);
  }

  lemma DeliverCounts(w: World, index: nat, drawn: nat, isInitiator: bool)
    requires Enabled(w, Deliver(index, drawn)) && Counts(w.log, isInitiator, w.End(isInitiator))
    requires var p := w.End(isInitiator);
      && CountSent(w.log, isInitiator, p.epoch + 2) == 0
      && (p.epoch <= 1 ==> p.session.recvChain.None? && p.session.skipped == map[])
    ensures var v := Next(w, Deliver(index, drawn)); Counts(v.log, isInitiator, v.End(isInitiator))
  {
    if w.log[index].byInitiator != isInitiator {
      ReceiveCounts(w.End(isInitiator), w.log[index], drawn, w.log, isInitiator);
    }
  }

  lemma NothingStored(shared: Key, secrets: seq<nat>, p: Party)
    requires InSync(shared, secrets, p) && p.epoch <= 1
    ensures p.session.skipped == map[]
  {
    forall k: (PublicKey, nat)
      ensures k !in p.session.skipped
    {
      assert !Held(p, k);
    }
  }

  lemma {:induction false} RunCounts(w: World, steps: seq<Step>, isInitiator: bool)
    requires Inv(w) && EnabledRun(w, steps) && Counts(w.log, isInitiator, w.End(isInitiator))
    ensures Counts(Run(w, steps).log, isInitiator, Run(w, steps).End(isInitiator))
    decreases |steps|
  {
    if steps != [] {
      NoneAhead(w, isInitiator);
      match steps[0] {
        case Send(byInitiator, plaintext) => SendCounts(w, byInitiator, plaintext, isInitiator);
        case Deliver(index, drawn) => DeliverCounts(w, index, drawn, isInitiator);
      }
      StepKeepsInv(w, steps[0]);
      RunCounts(Next(w, steps[0]), steps[1..], isInitiator);
    }
  }

  /** In every run each end's counters are the numbers of messages it has sent under its present ratchet key and under
      the one before. */
  lemma CountersExact(shared: Key, preKey: nat, drawn: nat, steps: seq<Step>, isInitiator: bool)
    requires preKey != drawn && EnabledRun(InitialWorld(shared, preKey, drawn), steps)
    ensures var w := Run(InitialWorld(shared, preKey, drawn), steps); Counts(w.log, isInitiator, w.End(isInitiator))
  {
    InitialInv(shared, preKey, drawn);
    RunCounts(InitialWorld(shared, preKey, drawn), steps, isInitiator);
  }

  /** Before the first answer an initiator has nothing to open with: a packet under the pre-key is refused as such and
      changes nothing. */
  lemma NothingToOpenWith(shared: Key, secrets: seq<nat>, p: Party, m: Packet, drawn: nat)
    requires InSync(shared, secrets, p) && p.epoch == 1 && m.ratchetKey == Pub(secrets[0])
    ensures Decrypt(p.session, m, drawn) == (p.session, Err(NoRecvChain))
  {
    NothingStored(shared, secrets, p);
  }
}
