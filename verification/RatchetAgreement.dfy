/** Two ends of one Double Ratchet session over a network that delays, reorders and drops messages.

    The ratchet secrets drawn in a run form one list: element 0 is the responder's pre-key, odd elements are the
    initiator's and even ones the responder's. An end's epoch is the index of its current secret. */
module RatchetAgreement {
  import opened Basics
  import opened Bytes
  import opened SymbolicCrypto
  import opened Ratchet

  function RootAt(shared: Key, secrets: seq<nat>, epoch: nat): Key
    requires epoch < |secrets|
  {
    if epoch == 0 then shared
    else RootKey(RootAt(shared, secrets, epoch - 1), DiffieHellman(secrets[epoch - 1], Pub(secrets[epoch])))
  }

  /** The first key of the chain on which the owner of `epoch` sends. */
  function ChainAt(shared: Key, secrets: seq<nat>, epoch: nat): Key
    requires 0 < epoch < |secrets|
  {
    ChainKey(RootAt(shared, secrets, epoch - 1), DiffieHellman(secrets[epoch - 1], Pub(secrets[epoch])))
  }

  /** One end: its session, its epoch, how far it has stepped each receiving chain, and what it has opened. */
  datatype Party = Party(session: Session, epoch: nat, reach: seq<nat>, delivered: set<(nat, nat)>)

  datatype Sent = Sent(packet: Packet, byInitiator: bool, epoch: nat, plaintext: seq<byte>)

  /** Every key an end holds is the one its peer derives, and its stored keys are exactly those of the
      numbers it has passed over and not opened. */
  ghost predicate InSync(shared: Key, secrets: seq<nat>, p: Party) {
    && p.epoch < |secrets|
    && p.session.secret == secrets[p.epoch]
    && p.session.rootKey == RootAt(shared, secrets, p.epoch)
    && ChainsInSync(shared, secrets, p)
    && StoredInSync(shared, secrets, p)
  }

  ghost predicate ChainsInSync(shared: Key, secrets: seq<nat>, p: Party)
    requires p.epoch < |secrets|
  {
    && p.session.sendChain ==
         (if p.epoch == 0 then None else Some(Iterate(ChainAt(shared, secrets, p.epoch), p.session.sendCount)))
    && p.session.recvKey == (if p.epoch == 0 then None else Some(Pub(secrets[p.epoch - 1])))
    && p.session.recvChain ==
         (if p.epoch <= 1 then None else Some(Iterate(ChainAt(shared, secrets, p.epoch - 1), p.session.recvCount)))
    && |p.reach| == p.epoch
    && (p.epoch >= 1 ==> p.reach[0] == 0 && p.reach[p.epoch - 1] == p.session.recvCount)
  }

  /** Number `i` of epoch `j` was passed over and is still unopened. */
  ghost predicate Pending(p: Party, j: nat, i: nat) {
    j < |p.reach| && i < p.reach[j] && (j, i) !in p.delivered
  }

  ghost predicate Names(secrets: seq<nat>, k: (PublicKey, nat), j: nat) {
    j < |secrets| && k.0 == Pub(secrets[j])
  }

  ghost predicate Held(p: Party, k: (PublicKey, nat)) {
    k in p.session.skipped
  }

  ghost predicate StoredInSync(shared: Key, secrets: seq<nat>, p: Party) {
    && p.epoch < |secrets| && |p.reach| == p.epoch && (p.epoch >= 1 ==> p.reach[0] == 0)
    && (forall j, i :: (j, i) in p.delivered ==> j < |p.reach| && i < p.reach[j])
    && (forall k: (PublicKey, nat) :: Held(p, k) ==> exists j :: Names(secrets, k, j) && Pending(p, j, k.1))
    && (forall j: nat, i: nat :: Pending(p, j, i) ==>
          && (Pub(secrets[j]), i) in p.session.skipped
          && p.session.skipped[(Pub(secrets[j]), i)] == MessageKey(Iterate(ChainAt(shared, secrets, j), i)))
  }

  /** `m` carries what the owner of `m.epoch` seals under that number. */
  ghost predicate Genuine(shared: Key, secrets: seq<nat>, m: Sent) {
    && 0 < m.epoch < |secrets|
    && m.byInitiator == (m.epoch % 2 == 1)
    && m.packet.number < U32_LIMIT - 1
    && m.packet.ratchetKey == Pub(secrets[m.epoch])
    && var key := MessageKey(Iterate(ChainAt(shared, secrets, m.epoch), m.packet.number));
       m.packet.ciphertext == Sealed(key, Nonce(key, m.packet.number), Pub(secrets[m.epoch]), m.plaintext)
  }

  // ---- Extending the list of secrets ----

  lemma {:induction false} RootExtend(shared: Key, secrets: seq<nat>, drawn: nat, epoch: nat)
    requires epoch < |secrets|
    ensures RootAt(shared, secrets + [drawn], epoch) == RootAt(shared, secrets, epoch)
  {
    if epoch > 0 {
      RootExtend(shared, secrets, drawn, epoch - 1);
    }
  }

  lemma ChainExtend(shared: Key, secrets: seq<nat>, drawn: nat, epoch: nat)
    requires 0 < epoch < |secrets|
    ensures ChainAt(shared, secrets + [drawn], epoch) == ChainAt(shared, secrets, epoch)
  {
    RootExtend(shared, secrets, drawn, epoch - 1);
  }

  lemma InSyncExtend(shared: Key, secrets: seq<nat>, drawn: nat, p: Party)
    requires InSync(shared, secrets, p)
    ensures InSync(shared, secrets + [drawn], p)
  {
    RootExtend(shared, secrets, drawn, p.epoch);
    if p.epoch >= 1 {
      ChainExtend(shared, secrets, drawn, p.epoch);
    }
    if p.epoch >= 2 {
      ChainExtend(shared, secrets, drawn, p.epoch - 1);
    }
    StoredExtend(shared, secrets, drawn, p);
  }

  lemma StoredExtend(shared: Key, secrets: seq<nat>, drawn: nat, p: Party)
    requires StoredInSync(shared, secrets, p)
    ensures StoredInSync(shared, secrets + [drawn], p)
  {
    var longer := secrets + [drawn];
    forall k: (PublicKey, nat) | Held(p, k)
      ensures exists j :: Names(longer, k, j) && Pending(p, j, k.1)
    {
      var j :| Names(secrets, k, j) && Pending(p, j, k.1);
      assert Names(longer, k, j);
    }
    forall j: nat, i: nat | Pending(p, j, i)
      ensures longer[j] == secrets[j] && ChainAt(shared, longer, j) == ChainAt(shared, secrets, j)
    {
      ChainExtend(shared, secrets, drawn, j);
    }
  }

  lemma GenuineExtend(shared: Key, secrets: seq<nat>, drawn: nat, m: Sent)
    requires Genuine(shared, secrets, m)
    ensures Genuine(shared, secrets + [drawn], m)
  {
    ChainExtend(shared, secrets, drawn, m.epoch);
  }

  // ---- Receiving ----

  /** Whether receiving `m` makes `p` take a Diffie-Hellman step. */
  predicate StepsRatchet(p: Party, m: Packet) {
    && (m.ratchetKey, m.number) !in p.session.skipped
    && p.session.recvKey != Some(m.ratchetKey)
  }

  function Receive(p: Party, m: Sent, drawn: nat): (Party, Result<seq<byte>, Error>) {
    var (s, r) := Decrypt(p.session, m.packet, drawn);
    var epoch := if StepsRatchet(p, m.packet) then p.epoch + 2 else p.epoch;
    var reach := if StepsRatchet(p, m.packet) then p.reach + [0, 0] else p.reach;
    (Party(s, epoch, NoteReach(reach, s.recvCount),
           if r.Ok? then p.delivered + {(m.epoch, m.packet.number)} else p.delivered),
     r)
  }

  function NoteReach(reach: seq<nat>, recvCount: nat): seq<nat> {
    if |reach| == 0 then reach else reach[|reach| - 1 := recvCount]
  }

  function SecretsAfter(secrets: seq<nat>, p: Party, m: Packet, drawn: nat): seq<nat> {
    if StepsRatchet(p, m) then secrets + [drawn] else secrets
  }

  /** The limit `p` meets on receiving `m`, if any. */
  function Limit(p: Party, m: Sent): Option<Error> {
    if (m.packet.ratchetKey, m.packet.number) in p.session.skipped then None
    else if StepsRatchet(p, m.packet) then SkipError(p.session.(recvCount := 0), m.packet.number)
    else SkipError(p.session, m.packet.number)
  }

  /** The key is stored, or the number is not behind the current receiving chain, or the epoch is the next one. */
  predicate Timely(p: Party, m: Sent) {
    || (m.packet.ratchetKey, m.packet.number) in p.session.skipped
    || (m.epoch + 1 == p.epoch && m.packet.number >= p.session.recvCount)
    || m.epoch == p.epoch + 1
  }

  /** A stored key that bears the header of a genuine message is that message's key. */
  lemma StoredKey(shared: Key, secrets: seq<nat>, p: Party, m: Sent)
    requires Distinct(secrets) && StoredInSync(shared, secrets, p) && Genuine(shared, secrets, m)
    requires Held(p, (m.packet.ratchetKey, m.packet.number))
    ensures Pending(p, m.epoch, m.packet.number)
    ensures p.session.skipped[(m.packet.ratchetKey, m.packet.number)]
         == MessageKey(Iterate(ChainAt(shared, secrets, m.epoch), m.packet.number))
  {
  }

  lemma ReceiveStored(shared: Key, secrets: seq<nat>, p: Party, m: Sent, drawn: nat)
    requires Distinct(secrets) && InSync(shared, secrets, p) && Genuine(shared, secrets, m)
    requires (m.packet.ratchetKey, m.packet.number) in p.session.skipped
    ensures var (p', r) := Receive(p, m, drawn);
      r == Ok(m.plaintext) && InSync(shared, secrets, p')
  {
    StoredKey(shared, secrets, p, m);
    var p' := Receive(p, m, drawn).0;
    assert p'.session == p.session.(skipped := p.session.skipped - {(m.packet.ratchetKey, m.packet.number)});
    assert p'.reach == p.reach;
    StoredAfterTake(shared, secrets, p, m.epoch, m.packet.number, p');
  }

  lemma StoredAfterTake(shared: Key, secrets: seq<nat>, p: Party, epoch: nat, n: nat, q: Party)
    requires Distinct(secrets) && StoredInSync(shared, secrets, p)
    requires epoch < |secrets| && Pending(p, epoch, n)
    requires q.session.skipped == p.session.skipped - {(Pub(secrets[epoch]), n)}
    requires q.epoch == p.epoch && q.reach == p.reach && q.delivered == p.delivered + {(epoch, n)}
    ensures StoredInSync(shared, secrets, q)
  {
    forall k: (PublicKey, nat) | Held(q, k)
      ensures exists j :: Names(secrets, k, j) && Pending(q, j, k.1)
    {
      assert Held(p, k);
      var j :| Names(secrets, k, j) && Pending(p, j, k.1);
      assert Pending(q, j, k.1);
    }
    forall j: nat, i: nat | Pending(q, j, i)
      ensures (Pub(secrets[j]), i) in q.session.skipped
      ensures q.session.skipped[(Pub(secrets[j]), i)] == MessageKey(Iterate(ChainAt(shared, secrets, j), i))
    {
      assert Pending(p, j, i);
    }
  }

  /** The state of `p` after opening number `n` of its current receiving chain. */
  function AfterOpen(p: Party, s: Session, n: nat): Party
    requires p.epoch >= 1
  {
    Party(s, p.epoch, NoteReach(p.reach, s.recvCount), p.delivered + {(p.epoch - 1, n)})
  }

  lemma SkipAndOpenComputes(s: Session, m: Packet, base: Key)
    requires s.recvChain == Some(Iterate(base, s.recvCount)) && s.recvKey == Some(m.ratchetKey)
    requires s.recvCount <= m.number < U32_LIMIT - 1 && SkipError(s, m.number).None?
    ensures SkipAndOpen(s, m) ==
      (s.(recvChain := Some(Iterate(base, m.number + 1)), recvCount := m.number + 1,
          skipped := SkipKeys(Iterate(base, s.recvCount), m.ratchetKey, s.recvCount, m.number, s.skipped).1),
       Open(MessageKey(Iterate(base, m.number)), m))
  {
    SkipKeysChain(base, m.ratchetKey, s.recvCount, m.number, s.skipped);
  }

  /** The session of `p` after stepping its receiving chain to `n` and opening there. */
  function Opened(p: Party, base: Key, n: nat): Session
    requires p.epoch >= 1 && p.session.recvKey.Some?
  {
    var s := p.session;
    s.(recvChain := Some(Iterate(base, n + 1)), recvCount := n + 1,
       skipped := SkipKeys(Iterate(base, s.recvCount), s.recvKey.value, s.recvCount, n, s.skipped).1)
  }

  lemma OpenedInSync(shared: Key, secrets: seq<nat>, p: Party, n: nat)
    requires Distinct(secrets) && InSync(shared, secrets, p) && p.epoch >= 2 && n >= p.session.recvCount
    ensures InSync(shared, secrets, AfterOpen(p, Opened(p, ChainAt(shared, secrets, p.epoch - 1), n), n))
  {
    StoredAfterOpen(shared, secrets, p, n, Opened(p, ChainAt(shared, secrets, p.epoch - 1), n));
  }

  lemma ReceiveCurrent(shared: Key, secrets: seq<nat>, p: Party, m: Sent)
    requires Distinct(secrets) && InSync(shared, secrets, p) && Genuine(shared, secrets, m)
    requires m.epoch + 1 == p.epoch && m.packet.number >= p.session.recvCount
    ensures var (s, r) := SkipAndOpen(p.session, m.packet);
      match SkipError(p.session, m.packet.number)
      case Some(error) => r == Err(error) && s == p.session
      case None => r == Ok(m.plaintext) && InSync(shared, secrets, AfterOpen(p, s, m.packet.number))
  {
    if SkipError(p.session, m.packet.number).None? {
      var base := ChainAt(shared, secrets, m.epoch);
      SkipAndOpenComputes(p.session, m.packet, base);
      assert SkipAndOpen(p.session, m.packet).0 == Opened(p, base, m.packet.number);
      OpenedInSync(shared, secrets, p, m.packet.number);
    }
  }

  /** `s` is the session of `p` with its receiving chain stepped to `n`, and the message there opened. */
  ghost predicate OpensAt(shared: Key, secrets: seq<nat>, p: Party, n: nat, s: Session) {
    && StoredInSync(shared, secrets, p)
    && p.epoch >= 2 && p.reach[p.epoch - 1] <= n == s.recvCount - 1
    && s.skipped == SkipKeys(Iterate(ChainAt(shared, secrets, p.epoch - 1), p.reach[p.epoch - 1]),
                             Pub(secrets[p.epoch - 1]), p.reach[p.epoch - 1], n, p.session.skipped).1
  }

  lemma HeldAfterOpen(shared: Key, secrets: seq<nat>, p: Party, n: nat, s: Session, k: (PublicKey, nat))
    requires Distinct(secrets) && OpensAt(shared, secrets, p, n, s) && k in s.skipped
    ensures exists j :: Names(secrets, k, j) && Pending(AfterOpen(p, s, n), j, k.1)
  {
    var q := AfterOpen(p, s, n);
    var e := p.epoch - 1;
    SkipKeysStored(ChainAt(shared, secrets, e), Pub(secrets[e]), p.reach[e], n, p.session.skipped, k);
    if k.0 == Pub(secrets[e]) && p.reach[e] <= k.1 < n {
      assert Names(secrets, k, e) && Pending(q, e, k.1);
    } else {
      assert Held(p, k);
      var j :| Names(secrets, k, j) && Pending(p, j, k.1);
      assert Pending(q, j, k.1);
    }
  }

  lemma PendingAfterOpen(shared: Key, secrets: seq<nat>, p: Party, n: nat, s: Session, j: nat, i: nat)
    requires Distinct(secrets) && OpensAt(shared, secrets, p, n, s) && Pending(AfterOpen(p, s, n), j, i)
    ensures (Pub(secrets[j]), i) in s.skipped
    ensures s.skipped[(Pub(secrets[j]), i)] == MessageKey(Iterate(ChainAt(shared, secrets, j), i))
  {
    var e := p.epoch - 1;
    SkipKeysStored(ChainAt(shared, secrets, e), Pub(secrets[e]), p.reach[e], n, p.session.skipped,
                   (Pub(secrets[j]), i));
    if j < e || i < p.reach[e] {
      assert Pending(p, j, i);
    }
  }

  lemma StoredAfterOpen(shared: Key, secrets: seq<nat>, p: Party, n: nat, s: Session)
    requires Distinct(secrets) && OpensAt(shared, secrets, p, n, s)
    ensures StoredInSync(shared, secrets, AfterOpen(p, s, n))
  {
    var q := AfterOpen(p, s, n);
    forall k: (PublicKey, nat) | Held(q, k)
      ensures exists j :: Names(secrets, k, j) && Pending(q, j, k.1)
    {
      HeldAfterOpen(shared, secrets, p, n, s, k);
    }
    forall j: nat, i: nat | Pending(q, j, i)
      ensures (Pub(secrets[j]), i) in s.skipped
      ensures s.skipped[(Pub(secrets[j]), i)] == MessageKey(Iterate(ChainAt(shared, secrets, j), i))
    {
      PendingAfterOpen(shared, secrets, p, n, s, j, i);
    }
  }

  lemma DhStepInSync(shared: Key, secrets: seq<nat>, p: Party, drawn: nat)
    requires InSync(shared, secrets, p)
    requires p.epoch + 2 == |secrets|
    ensures InSync(shared, secrets + [drawn],
                   Party(DhStep(p.session, Pub(secrets[p.epoch + 1]), drawn), p.epoch + 2,
                         p.reach + [0, 0], p.delivered))
  {
    var longer := secrets + [drawn];
    var e := p.epoch;
    RootExtend(shared, secrets, drawn, e);
    StoredExtend(shared, secrets, drawn, p);
    var q := Party(DhStep(p.session, Pub(secrets[e + 1]), drawn), e + 2, p.reach + [0, 0], p.delivered);
    assert longer[e + 1] == secrets[e + 1] && longer[e + 2] == drawn;
    assert RootAt(shared, longer, e + 1)
        == RootKey(RootAt(shared, longer, e), DiffieHellman(longer[e], Pub(longer[e + 1])));
    assert q.session.rootKey == RootAt(shared, longer, e + 2);
    assert ChainsInSync(shared, longer, q);
    StoredAfterStep(shared, longer, p, q);
  }

  lemma StoredAfterStep(shared: Key, secrets: seq<nat>, p: Party, q: Party)
    requires StoredInSync(shared, secrets, p)
    requires p.epoch + 2 == q.epoch < |secrets| && q.reach == p.reach + [0, 0]
    requires q.delivered == p.delivered && q.session.skipped == p.session.skipped
    ensures StoredInSync(shared, secrets, q)
  {
    assert forall j, i :: Pending(q, j, i) <==> Pending(p, j, i);
    forall k: (PublicKey, nat) | Held(q, k)
      ensures exists j :: Names(secrets, k, j) && Pending(q, j, k.1)
    {
      assert Held(p, k);
      var j :| Names(secrets, k, j) && Pending(p, j, k.1);
      assert Pending(q, j, k.1);
    }
  }

  /** A timely genuine message opens to what was sealed unless it meets a limit, and either way the end stays in
      sync. */
  lemma ReceiveTimely(shared: Key, secrets: seq<nat>, p: Party, m: Sent, drawn: nat)
    requires Distinct(secrets) && drawn !in secrets
    requires InSync(shared, secrets, p) && Genuine(shared, secrets, m)
    requires Timely(p, m) && (m.epoch == p.epoch + 1 ==> |secrets| == p.epoch + 2)
    ensures var (p', r) := Receive(p, m, drawn);
      && InSync(shared, SecretsAfter(secrets, p, m.packet, drawn), p')
      && r == match Limit(p, m) { case None => Ok(m.plaintext) case Some(error) => Err(error) }
  {
    if (m.packet.ratchetKey, m.packet.number) in p.session.skipped {
      ReceiveStored(shared, secrets, p, m, drawn);
    } else if m.epoch + 1 == p.epoch {
      ReceiveInChain(shared, secrets, p, m, drawn);
    } else {
      AheadSteps(shared, secrets, p, m);
      ReceiveAhead(shared, secrets, p, m, drawn);
    }
  }

  lemma AheadSteps(shared: Key, secrets: seq<nat>, p: Party, m: Sent)
    requires Distinct(secrets) && InSync(shared, secrets, p) && Genuine(shared, secrets, m)
    requires m.epoch == p.epoch + 1
    ensures StepsRatchet(p, m.packet)
  {
  }

  lemma InChainComputes(p: Party, m: Sent, drawn: nat)
    requires (m.packet.ratchetKey, m.packet.number) !in p.session.skipped
    requires p.session.recvKey == Some(m.packet.ratchetKey) && m.epoch + 1 == p.epoch == |p.reach|
    requires p.reach[p.epoch - 1] == p.session.recvCount
    ensures var (s, r) := SkipAndOpen(p.session, m.packet);
      && (r.Ok? ==> Receive(p, m, drawn) == (AfterOpen(p, s, m.packet.number), r))
      && (r.Err? && s == p.session ==> Receive(p, m, drawn) == (p, r))
      && !StepsRatchet(p, m.packet) && Limit(p, m) == SkipError(p.session, m.packet.number)
  {
    assert NoteReach(p.reach, p.session.recvCount) == p.reach;
  }

  lemma ReceiveInChain(shared: Key, secrets: seq<nat>, p: Party, m: Sent, drawn: nat)
    requires Distinct(secrets) && InSync(shared, secrets, p) && Genuine(shared, secrets, m)
    requires m.epoch + 1 == p.epoch && m.packet.number >= p.session.recvCount
    requires (m.packet.ratchetKey, m.packet.number) !in p.session.skipped
    ensures var (p', r) := Receive(p, m, drawn);
      && InSync(shared, secrets, p') && !StepsRatchet(p, m.packet)
      && r == match Limit(p, m) { case None => Ok(m.plaintext) case Some(error) => Err(error) }
  {
    InChainComputes(p, m, drawn);
    ReceiveCurrent(shared, secrets, p, m);
  }

  /** `p` after its Diffie-Hellman step on the ratchet key of `m`. */
  function Stepped(p: Party, m: Sent, drawn: nat): Party {
    Party(DhStep(p.session, m.packet.ratchetKey, drawn), p.epoch + 2, p.reach + [0, 0], p.delivered)
  }

  lemma AheadComputes(p: Party, m: Sent, drawn: nat)
    requires StepsRatchet(p, m.packet) && m.epoch == p.epoch + 1
    ensures var q := Stepped(p, m, drawn);
      var (s, r) := SkipAndOpen(q.session, m.packet);
      && (r.Ok? ==> Receive(p, m, drawn) == (AfterOpen(q, s, m.packet.number), r))
      && (r.Err? && s == q.session ==> Receive(p, m, drawn) == (q, r))
      && SkipError(q.session, m.packet.number) == Limit(p, m)
  {
    var q := Stepped(p, m, drawn);
    assert NoteReach(q.reach, 0) == q.reach;
  }

  lemma ReceiveAhead(shared: Key, secrets: seq<nat>, p: Party, m: Sent, drawn: nat)
    requires Distinct(secrets) && drawn !in secrets
    requires InSync(shared, secrets, p) && Genuine(shared, secrets, m)
    requires m.epoch == p.epoch + 1 == |secrets| - 1 && StepsRatchet(p, m.packet)
    ensures var (p', r) := Receive(p, m, drawn);
      && InSync(shared, secrets + [drawn], p')
      && r == match Limit(p, m) { case None => Ok(m.plaintext) case Some(error) => Err(error) }
  {
    DhStepInSync(shared, secrets, p, drawn);
    GenuineExtend(shared, secrets, drawn, m);
    ReceiveCurrent(shared, secrets + [drawn], Stepped(p, m, drawn), m);
    AheadComputes(p, m, drawn);
  }

  // ---- Exactly the timely messages keep an end in sync ----

  function Depth(k: Key): nat {
    if k.RootKey? then 1 + Depth(k.root) else 0
  }

  lemma {:induction false} RootDepth(shared: Key, secrets: seq<nat>, epoch: nat)
    requires epoch < |secrets|
    ensures Depth(RootAt(shared, secrets, epoch)) == Depth(shared) + epoch
  {
    if epoch > 0 {
      RootDepth(shared, secrets, epoch - 1);
    }
  }

  lemma {:induction false} IterateBase(a: Key, b: Key, m: nat, n: nat)
    requires a.ChainKey? && b.ChainKey? && Iterate(a, m) == Iterate(b, n)
    ensures a == b && m == n
  {
    if m > 0 && n > 0 {
      IterateBase(a, b, m - 1, n - 1);
    }
  }

  /** Some account of epochs and openings makes `s` an end in sync. */
  ghost predicate Consistent(shared: Key, secrets: seq<nat>, s: Session) {
    exists p: Party :: p.session == s && InSync(shared, secrets, p)
  }

  /** A session whose chain is not at its count is no end in sync. */
  lemma ShiftedBreaks(shared: Key, secrets: seq<nat>, p: Party, s: Session, at: nat)
    requires Distinct(secrets) && InSync(shared, secrets, p) && p.epoch >= 2
    requires s.secret == p.session.secret && s.recvCount != at
    requires s.recvChain == Some(Iterate(ChainAt(shared, secrets, p.epoch - 1), at))
    ensures !Consistent(shared, secrets, s)
  {
    forall q: Party | q.session == s && InSync(shared, secrets, q)
      ensures false
    {
      assert q.epoch == p.epoch;
      IterateInjective(ChainAt(shared, secrets, p.epoch - 1), s.recvCount, at);
    }
  }

  /** What a number of the current chain that does not fit leaves behind: the chain and the count apart. */
  lemma UnfitComputes(s: Session, m: Packet, base: Key, drawn: nat)
    requires s.recvChain == Some(Iterate(base, s.recvCount)) && s.recvKey == Some(m.ratchetKey)
    requires (m.ratchetKey, m.number) !in s.skipped && SkipError(s, m.number).None?
    ensures var at := if m.number < s.recvCount then s.recvCount else m.number;
      var (t, r) := Decrypt(s, m, drawn);
      && t.secret == s.secret && t.recvCount == Increment(m.number)
      && t.recvChain == Some(Iterate(base, at + 1)) && r == Open(MessageKey(Iterate(base, at)), m)
      && (m.number < s.recvCount ==> t == s.(recvChain := t.recvChain, recvCount := t.recvCount))
  {
    if m.number >= s.recvCount {
      SkipKeysChain(base, m.ratchetKey, s.recvCount, m.number, s.skipped);
    }
  }

  lemma ReplayBreaks(shared: Key, secrets: seq<nat>, p: Party, m: Sent, drawn: nat)
    requires Distinct(secrets) && InSync(shared, secrets, p) && Genuine(shared, secrets, m)
    requires |p.session.skipped| <= MAX_TOTAL_SKIPPED
    requires m.epoch + 1 == p.epoch && m.packet.number < p.session.recvCount
    requires (m.packet.ratchetKey, m.packet.number) !in p.session.skipped
    ensures var (s, r) := Decrypt(p.session, m.packet, drawn);
      && r == Err(OpenFailed)
      && s == p.session.(recvChain := Some(Iterate(ChainAt(shared, secrets, m.epoch), p.session.recvCount + 1)),
                         recvCount := m.packet.number + 1)
      && !Consistent(shared, secrets, s)
  {
    var base := ChainAt(shared, secrets, m.epoch);
    UnfitComputes(p.session, m.packet, base, drawn);
    ShiftedBreaks(shared, secrets, p, Decrypt(p.session, m.packet, drawn).0, p.session.recvCount + 1);
    if Decrypt(p.session, m.packet, drawn).1 != Err(OpenFailed) {
      IterateInjective(base, p.session.recvCount, m.packet.number);
    }
  }

  /** A ratchet step on any key but the one the peer has moved on to leaves a state out of sync. */
  lemma WrongKeyBreaks(shared: Key, secrets: seq<nat>, p: Party, m: Packet, drawn: nat)
    requires Distinct(secrets) && drawn !in secrets && InSync(shared, secrets, p) && StepsRatchet(p, m)
    requires |secrets| != p.epoch + 2 || m.ratchetKey != Pub(secrets[p.epoch + 1])
    ensures !Consistent(shared, secrets + [drawn], Decrypt(p.session, m, drawn).0)
  {
    var longer := secrets + [drawn];
    var s := Decrypt(p.session, m, drawn).0;
    var t := DhStep(p.session, m.ratchetKey, drawn);
    assert s.rootKey == t.rootKey && s.recvKey == Some(m.ratchetKey) && s.secret == drawn;
    RootDepth(shared, secrets, p.epoch);
    forall q: Party | q.session == s && InSync(shared, longer, q)
      ensures false
    {
      assert q.epoch == |secrets|;
      RootDepth(shared, longer, q.epoch);
    }
  }

  lemma SupersededBreaks(shared: Key, secrets: seq<nat>, p: Party, m: Sent, drawn: nat)
    requires Distinct(secrets) && drawn !in secrets
    requires InSync(shared, secrets, p) && Genuine(shared, secrets, m)
    requires m.epoch + 1 < p.epoch
    requires (m.packet.ratchetKey, m.packet.number) !in p.session.skipped
    ensures var (s, r) := Decrypt(p.session, m.packet, drawn);
      r.Err? && !Consistent(shared, secrets + [drawn], s)
  {
    assert secrets[m.epoch] != secrets[p.epoch - 1];
    WrongKeyBreaks(shared, secrets, p, m.packet, drawn);
    if Decrypt(p.session, m.packet, drawn).1.Ok? {
      var base := ChainKey(p.session.rootKey, DiffieHellman(p.session.secret, m.packet.ratchetKey));
      SkipKeysChain(base, m.packet.ratchetKey, 0, m.packet.number, p.session.skipped);
      RootDepth(shared, secrets, p.epoch);
      RootDepth(shared, secrets, m.epoch - 1);
      IterateBase(base, ChainAt(shared, secrets, m.epoch), m.packet.number, m.packet.number);
    }
  }

  /** An end that receives a genuine message of its peer stays in sync if and only if the message is timely. */
  lemma InSyncIffTimely(shared: Key, secrets: seq<nat>, p: Party, m: Sent, drawn: nat)
    requires Distinct(secrets) && drawn !in secrets
    requires InSync(shared, secrets, p) && Genuine(shared, secrets, m)
    requires |p.session.skipped| <= MAX_TOTAL_SKIPPED
    requires m.epoch % 2 != p.epoch % 2 && m.epoch <= p.epoch + 1
    requires m.epoch == p.epoch + 1 ==> |secrets| == p.epoch + 2
    ensures Timely(p, m) <==>
      Consistent(shared, SecretsAfter(secrets, p, m.packet, drawn), Decrypt(p.session, m.packet, drawn).0)
  {
    if Timely(p, m) {
      ReceiveTimely(shared, secrets, p, m, drawn);
      assert Receive(p, m, drawn).0.session == Decrypt(p.session, m.packet, drawn).0;
    } else if m.epoch + 1 == p.epoch {
      ReplayBreaks(shared, secrets, p, m, drawn);
    } else {
      assert secrets[m.epoch] != secrets[p.epoch - 1];
      SupersededBreaks(shared, secrets, p, m, drawn);
    }
  }

  // ---- Any packet at all ----

  /** Stepping the current chain to `n` meets a limit, or ends with chain and count at the same place. */
  predicate Fits(s: Session, n: nat) {
    s.recvChain.None? || SkipError(s, n).Some? || s.recvCount <= n < U32_LIMIT - 1
  }

  /** What a header must satisfy: a stored key, a number that fits the current chain, or the key the peer has
      moved on to. Nothing depends on the ciphertext. */
  predicate HeaderTimely(secrets: seq<nat>, p: Party, m: Packet) {
    || (m.ratchetKey, m.number) in p.session.skipped
    || (p.session.recvKey == Some(m.ratchetKey) && Fits(p.session, m.number))
    || (p.session.recvKey != Some(m.ratchetKey)
        && |secrets| == p.epoch + 2 && m.ratchetKey == Pub(secrets[p.epoch + 1]))
  }

  lemma StoredConsistent(shared: Key, secrets: seq<nat>, p: Party, m: Packet, drawn: nat)
    requires Distinct(secrets) && InSync(shared, secrets, p) && Held(p, (m.ratchetKey, m.number))
    ensures Consistent(shared, secrets, Decrypt(p.session, m, drawn).0)
  {
    var k := (m.ratchetKey, m.number);
    var j :| Names(secrets, k, j) && Pending(p, j, k.1);
    var s := p.session.(skipped := p.session.skipped - {k});
    var q := p.(session := s, delivered := p.delivered + {(j, k.1)});
    StoredAfterTake(shared, secrets, p, j, k.1, q);
    assert q.session == s && InSync(shared, secrets, q);
  }

  lemma CurrentConsistent(shared: Key, secrets: seq<nat>, p: Party, m: Packet)
    requires Distinct(secrets) && InSync(shared, secrets, p)
    requires p.session.recvKey == Some(m.ratchetKey) && Fits(p.session, m.number)
    ensures Consistent(shared, secrets, SkipAndOpen(p.session, m).0)
  {
    var s := SkipAndOpen(p.session, m).0;
    if p.session.recvChain.None? || SkipError(p.session, m.number).Some? {
      assert p.session == s;
    } else {
      SkipAndOpenComputes(p.session, m, ChainAt(shared, secrets, p.epoch - 1));
      assert s == Opened(p, ChainAt(shared, secrets, p.epoch - 1), m.number);
      OpenedInSync(shared, secrets, p, m.number);
      assert AfterOpen(p, s, m.number).session == s;
    }
  }

  lemma NextKeyConsistent(shared: Key, secrets: seq<nat>, p: Party, m: Packet, drawn: nat)
    requires Distinct(secrets) && drawn !in secrets && InSync(shared, secrets, p) && StepsRatchet(p, m)
    requires |secrets| == p.epoch + 2 && m.ratchetKey == Pub(secrets[p.epoch + 1]) && m.number < U32_LIMIT
    ensures Consistent(shared, secrets + [drawn], Decrypt(p.session, m, drawn).0)
  {
    DhStepInSync(shared, secrets, p, drawn);
    var q := Party(DhStep(p.session, m.ratchetKey, drawn), p.epoch + 2, p.reach + [0, 0], p.delivered);
    CurrentConsistent(shared, secrets + [drawn], q, m);
  }

  /** Whatever packet arrives, forged ones included, the session stays consistent with its peer if and only if the
      header is timely. */
  lemma ConsistentIff(shared: Key, secrets: seq<nat>, p: Party, m: Packet, drawn: nat)
    requires Distinct(secrets) && drawn !in secrets && InSync(shared, secrets, p)
    requires |p.session.skipped| <= MAX_TOTAL_SKIPPED && m.number < U32_LIMIT
    ensures Consistent(shared, SecretsAfter(secrets, p, m, drawn), Decrypt(p.session, m, drawn).0) <==>
      HeaderTimely(secrets, p, m)
  {
    if Held(p, (m.ratchetKey, m.number)) {
      StoredConsistent(shared, secrets, p, m, drawn);
    } else if p.session.recvKey == Some(m.ratchetKey) {
      if Fits(p.session, m.number) {
        CurrentConsistent(shared, secrets, p, m);
      } else {
        UnfitBreaks(shared, secrets, p, m, drawn);
      }
    } else if |secrets| == p.epoch + 2 && m.ratchetKey == Pub(secrets[p.epoch + 1]) {
      NextKeyConsistent(shared, secrets, p, m, drawn);
    } else {
      WrongKeyBreaks(shared, secrets, p, m, drawn);
    }
  }

  /** A header that names a key the session knows by another encoding of it is taken for a new key: the session is
      lost whatever the number and the ciphertext. */
  lemma RecodedBreaks(shared: Key, secrets: seq<nat>, p: Party, m: Packet, drawn: nat)
    requires Distinct(secrets) && drawn !in secrets && InSync(shared, secrets, p)
    requires |p.session.skipped| <= MAX_TOTAL_SKIPPED && m.number < U32_LIMIT && m.ratchetKey.alias != 0
    ensures !Consistent(shared, SecretsAfter(secrets, p, m, drawn), Decrypt(p.session, m, drawn).0)
  {
    ConsistentIff(shared, secrets, p, m, drawn);
    assert !Held(p, (m.ratchetKey, m.number));
  }

  lemma UnfitBreaks(shared: Key, secrets: seq<nat>, p: Party, m: Packet, drawn: nat)
    requires Distinct(secrets) && InSync(shared, secrets, p) && (m.ratchetKey, m.number) !in p.session.skipped
    requires p.session.recvKey == Some(m.ratchetKey) && !Fits(p.session, m.number) && m.number < U32_LIMIT
    ensures !Consistent(shared, secrets, Decrypt(p.session, m, drawn).0)
  {
    var at := if m.number < p.session.recvCount then p.session.recvCount else m.number;
    UnfitComputes(p.session, m, ChainAt(shared, secrets, p.epoch - 1), drawn);
    ShiftedBreaks(shared, secrets, p, Decrypt(p.session, m, drawn).0, at + 1);
  }

  /** A session whose chain has moved `shift` keys past its count opens no message of that chain. */
  lemma ShiftedChainFails(s: Session, m: Packet, base: Key, shift: nat, drawn: nat)
    requires shift > 0 && !base.NextChain?
    requires s.recvChain == Some(Iterate(base, s.recvCount + shift)) && s.recvKey == Some(m.ratchetKey)
    requires s.recvCount <= m.number && (m.ratchetKey, m.number) !in s.skipped
    requires m.ciphertext.Sealed? ==> m.ciphertext.key == MessageKey(Iterate(base, m.number))
    ensures Decrypt(s, m, drawn).1.Err?
  {
    var moved := Iterate(base, shift);
    IterateAdd(base, shift, s.recvCount);
    SkipKeysChain(moved, m.ratchetKey, s.recvCount, m.number, s.skipped);
    IterateAdd(base, shift, m.number);
    if Decrypt(s, m, drawn).1.Ok? {
      IterateInjective(base, shift + m.number, m.number);
    }
  }

  /** After one replay, no later number of that chain opens: the chain has moved and the count has not. */
  lemma ReplayLosesChain(shared: Key, secrets: seq<nat>, p: Party, replayed: Sent, later: Sent, d1: nat, d2: nat)
    requires Distinct(secrets) && InSync(shared, secrets, p)
    requires Genuine(shared, secrets, replayed) && Genuine(shared, secrets, later)
    requires |p.session.skipped| <= MAX_TOTAL_SKIPPED
    requires replayed.epoch + 1 == p.epoch && replayed.packet.number < p.session.recvCount
    requires (replayed.packet.ratchetKey, replayed.packet.number) !in p.session.skipped
    requires later.epoch == replayed.epoch && later.packet.number >= p.session.recvCount
    ensures var s := Decrypt(p.session, replayed.packet, d1).0;
      Decrypt(s, later.packet, d2).1.Err?
  {
    ReplayBreaks(shared, secrets, p, replayed, d1);
    if Held(p, (later.packet.ratchetKey, later.packet.number)) {
      StoredKey(shared, secrets, p, later);
      assert false;
    }
    ShiftedChainFails(Decrypt(p.session, replayed.packet, d1).0, later.packet, ChainAt(shared, secrets, later.epoch),
                      p.session.recvCount - replayed.packet.number, d2);
  }
}
