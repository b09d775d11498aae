/** Whole runs of a Double Ratchet session: any interleaving of sends at both ends with deliveries in any order. */
module RatchetRuns {
  import opened Basics
  import opened Bytes
  import opened SymbolicCrypto
  import opened Ratchet
  import opened RatchetAgreement

  datatype World = World(shared: Key, secrets: seq<nat>, initiator: Party, responder: Party, log: seq<Sent>) {
    function End(isInitiator: bool): Party {
      if isInitiator then initiator else responder
    }

    function WithEnd(isInitiator: bool, p: Party): World {
      if isInitiator then this.(initiator := p) else this.(responder := p)
    }
  }

  function InitialWorld(shared: Key, preKey: nat, drawn: nat): World {
    World(shared, [preKey, drawn],
          Party(InitSender(shared, Pub(preKey), drawn), 1, [0], {}),
          Party(InitReceiver(shared, preKey), 0, [], {}),
          [])
  }

  datatype Step = Send(byInitiator: bool, plaintext: seq<byte>) | Deliver(index: nat, drawn: nat)

  /** The conditions a run keeps to: counters stay below 2^32, drawn secrets are new, no header is opened twice,
      and a message of a superseded ratchet key comes only if its key is stored. */
  predicate Enabled(w: World, step: Step) {
    match step
    case Send(byInitiator, _) => w.End(byInitiator).session.sendCount < U32_LIMIT - 1
    case Deliver(index, drawn) =>
      && index < |w.log|
      && drawn !in w.secrets
      && var m := w.log[index];
         var p := w.End(!m.byInitiator);
         && (m.epoch, m.packet.number) !in p.delivered
         && (m.epoch + 1 < p.epoch ==> (m.packet.ratchetKey, m.packet.number) in p.session.skipped)
  }

  function Next(w: World, step: Step): World
    requires Enabled(w, step)
  {
    match step
    case Send(byInitiator, plaintext) =>
      var p := w.End(byInitiator);
      var (s, r) := Encrypt(p.session, plaintext);
      var w' := w.WithEnd(byInitiator, p.(session := s));
      if r.Err? then w' else w'.(log := w.log + [Sent(r.value, byInitiator, p.epoch, plaintext)])
    case Deliver(index, drawn) =>
      var m := w.log[index];
      var p := w.End(!m.byInitiator);
      w.WithEnd(!m.byInitiator, Receive(p, m, drawn).0).(secrets := SecretsAfter(w.secrets, p, m.packet, drawn))
  }

  /** What the receiving end returns for a delivery. */
  function Outcome(w: World, index: nat, drawn: nat): Result<seq<byte>, Error>
    requires Enabled(w, Deliver(index, drawn))
  {
    var m := w.log[index];
    Decrypt(w.End(!m.byInitiator).session, m.packet, drawn).1
  }

  predicate EnabledRun(w: World, steps: seq<Step>)
    decreases |steps|
  {
    steps != [] ==> Enabled(w, steps[0]) && EnabledRun(Next(w, steps[0]), steps[1..])
  }

  function Run(w: World, steps: seq<Step>): World
    requires EnabledRun(w, steps)
    decreases |steps|
  {
    if steps == [] then w else Run(Next(w, steps[0]), steps[1..])
  }

  // ---- The invariant ----

  /** Exactly one end is one Diffie-Hellman step ahead of the other, and holds the last secret drawn. */
  predicate OneAhead(w: World) {
    && (w.initiator.epoch == w.responder.epoch + 1 || w.responder.epoch == w.initiator.epoch + 1)
    && w.initiator.epoch % 2 == 1 && w.responder.epoch % 2 == 0
    && |w.secrets| == 1 + if w.initiator.epoch > w.responder.epoch then w.initiator.epoch else w.responder.epoch
  }

  /** `m` was sent by the end it names, no later than that end's present epoch and count. */
  ghost predicate Logged(w: World, m: Sent) {
    && Genuine(w.shared, w.secrets, m)
    && var sender := w.End(m.byInitiator);
       && m.epoch <= sender.epoch
       && (m.epoch == sender.epoch ==> m.packet.number < sender.session.sendCount)
  }

  predicate UniqueHeaders(log: seq<Sent>) {
    forall a, b :: 0 <= a < b < |log| ==>
      log[a].epoch != log[b].epoch || log[a].packet.number != log[b].packet.number
  }

  ghost predicate Inv(w: World) {
    && Distinct(w.secrets)
    && OneAhead(w)
    && InSync(w.shared, w.secrets, w.initiator)
    && InSync(w.shared, w.secrets, w.responder)
    && (forall a :: 0 <= a < |w.log| ==> Logged(w, w.log[a]))
    && UniqueHeaders(w.log)
  }

  lemma InitialInv(shared: Key, preKey: nat, drawn: nat)
    requires preKey != drawn
    ensures Inv(InitialWorld(shared, preKey, drawn))
  {
    var w := InitialWorld(shared, preKey, drawn);
    assert RootAt(shared, w.secrets, 1) == RootKey(RootAt(shared, w.secrets, 0), DiffieHellman(preKey, Pub(drawn)));
    assert StoredInSync(shared, w.secrets, w.initiator);
    assert StoredInSync(shared, w.secrets, w.responder);
  }

  // ---- Sending ----

  lemma EncryptInSync(shared: Key, secrets: seq<nat>, p: Party, plaintext: seq<byte>)
    requires InSync(shared, secrets, p) && p.session.sendCount < U32_LIMIT - 1
    ensures var (s, r) := Encrypt(p.session, plaintext);
      && InSync(shared, secrets, p.(session := s))
      && (r.Ok? <==> p.epoch > 0)
      && (r.Err? ==> r == Err(NoSendChain) && s == p.session)
      && (r.Ok? ==>
            && s.sendCount == p.session.sendCount + 1 && r.value.number == p.session.sendCount
            && Genuine(shared, secrets, Sent(r.value, p.epoch % 2 == 1, p.epoch, plaintext)))
  {
    var q := p.(session := Encrypt(p.session, plaintext).0);
    assert forall k: (PublicKey, nat) :: Held(q, k) <==> Held(p, k);
    assert forall j: nat, i: nat :: Pending(q, j, i) <==> Pending(p, j, i);
  }

  lemma LoggedAfterSend(w: World, byInitiator: bool, plaintext: seq<byte>, m: Sent)
    requires Logged(w, m) && Enabled(w, Send(byInitiator, plaintext))
    ensures Logged(Next(w, Send(byInitiator, plaintext)), m)
  {
  }

  lemma SendKeepsUnique(w: World, byInitiator: bool, plaintext: seq<byte>)
    requires Inv(w) && Enabled(w, Send(byInitiator, plaintext))
    ensures UniqueHeaders(Next(w, Send(byInitiator, plaintext)).log)
  {
    var w' := Next(w, Send(byInitiator, plaintext));
    forall a, b | 0 <= a < b < |w'.log|
      ensures w'.log[a].epoch != w'.log[b].epoch || w'.log[a].packet.number != w'.log[b].packet.number
    {
      assert Logged(w, w.log[a]);
    }
  }

  lemma SendKeepsInv(w: World, byInitiator: bool, plaintext: seq<byte>)
    requires Inv(w) && Enabled(w, Send(byInitiator, plaintext))
    ensures Inv(Next(w, Send(byInitiator, plaintext)))
  {
    var p := w.End(byInitiator);
    EncryptInSync(w.shared, w.secrets, p, plaintext);
    var w' := Next(w, Send(byInitiator, plaintext));
    forall a | 0 <= a < |w'.log|
      ensures Logged(w', w'.log[a])
    {
      if a < |w.log| {
        LoggedAfterSend(w, byInitiator, plaintext, w.log[a]);
      }
    }
    SendKeepsUnique(w, byInitiator, plaintext);
  }

  // ---- Delivering ----

  /** The run conditions make every delivery timely. */
  lemma EnabledIsTimely(w: World, index: nat, drawn: nat)
    requires Inv(w) && Enabled(w, Deliver(index, drawn))
    ensures var m := w.log[index];
      var p := w.End(!m.byInitiator);
      Timely(p, m) && (m.epoch == p.epoch + 1 ==> |w.secrets| == p.epoch + 2)
  {
    var m := w.log[index];
    var p := w.End(!m.byInitiator);
    assert Logged(w, m);
    if m.epoch + 1 == p.epoch && m.packet.number < p.session.recvCount {
      assert Pending(p, m.epoch, m.packet.number);
    }
  }

  /** A delivery returns exactly the plaintext that was sent, unless the gap or the stored keys pass their limit. */
  lemma DeliverReturnsPlaintext(w: World, index: nat, drawn: nat)
    requires Inv(w) && Enabled(w, Deliver(index, drawn))
    ensures var m := w.log[index];
      Outcome(w, index, drawn) ==
        match Limit(w.End(!m.byInitiator), m) { case None => Ok(m.plaintext) case Some(error) => Err(error) }
  {
    var m := w.log[index];
    assert Logged(w, m);
    EnabledIsTimely(w, index, drawn);
    ReceiveTimely(w.shared, w.secrets, w.End(!m.byInitiator), m, drawn);
  }

  lemma DeliverKeepsInv(w: World, index: nat, drawn: nat)
    requires Inv(w) && Enabled(w, Deliver(index, drawn))
    ensures Inv(Next(w, Deliver(index, drawn)))
  {
    var w' := Next(w, Deliver(index, drawn));
    DeliverKeepsEnds(w, index, drawn);
    forall a | 0 <= a < |w'.log|
      ensures Logged(w', w'.log[a])
    {
      LoggedAfter(w, index, drawn, w.log[a]);
    }
  }

  lemma DeliverKeepsEnds(w: World, index: nat, drawn: nat)
    requires Inv(w) && Enabled(w, Deliver(index, drawn))
    ensures var w' := Next(w, Deliver(index, drawn));
      && Distinct(w'.secrets) && OneAhead(w')
      && InSync(w'.shared, w'.secrets, w'.initiator) && InSync(w'.shared, w'.secrets, w'.responder)
  {
    var m := w.log[index];
    ReceiverAfter(w, index, drawn);
    SenderAfter(w, index, drawn);
    EpochsAfter(w, w.End(!m.byInitiator), m, Receive(w.End(!m.byInitiator), m, drawn).0, drawn);
  }

  lemma ReceiverAfter(w: World, index: nat, drawn: nat)
    requires Inv(w) && Enabled(w, Deliver(index, drawn))
    ensures var m := w.log[index];
      var p := w.End(!m.byInitiator);
      && InSync(w.shared, SecretsAfter(w.secrets, p, m.packet, drawn), Receive(p, m, drawn).0)
      && (StepsRatchet(p, m.packet) ==> m.epoch == p.epoch + 1 && |w.secrets| == p.epoch + 2)
  {
    var m := w.log[index];
    var p := w.End(!m.byInitiator);
    assert Logged(w, m);
    EnabledIsTimely(w, index, drawn);
    ReceiveTimely(w.shared, w.secrets, p, m, drawn);
    if StepsRatchet(p, m.packet) {
      StepsOnlyAhead(w.shared, w.secrets, p, m);
    }
  }

  lemma SenderAfter(w: World, index: nat, drawn: nat)
    requires Inv(w) && Enabled(w, Deliver(index, drawn))
    ensures var m := w.log[index];
      InSync(w.shared, SecretsAfter(w.secrets, w.End(!m.byInitiator), m.packet, drawn), w.End(m.byInitiator))
  {
    InSyncExtend(w.shared, w.secrets, drawn, w.End(w.log[index].byInitiator));
  }

  lemma EpochsAfter(w: World, p: Party, m: Sent, p': Party, drawn: nat)
    requires OneAhead(w) && Distinct(w.secrets) && drawn !in w.secrets
    requires p == w.End(!m.byInitiator) && p'.epoch == if StepsRatchet(p, m.packet) then p.epoch + 2 else p.epoch
    requires StepsRatchet(p, m.packet) ==> |w.secrets| == p.epoch + 2
    ensures var w' := w.WithEnd(!m.byInitiator, p').(secrets := SecretsAfter(w.secrets, p, m.packet, drawn));
      Distinct(w'.secrets) && OneAhead(w')
  {
  }

  lemma StepsOnlyAhead(shared: Key, secrets: seq<nat>, p: Party, m: Sent)
    requires InSync(shared, secrets, p) && Genuine(shared, secrets, m) && Timely(p, m) && StepsRatchet(p, m.packet)
    ensures m.epoch == p.epoch + 1
  {
  }

  lemma LoggedAfter(w: World, index: nat, drawn: nat, other: Sent)
    requires Inv(w) && Enabled(w, Deliver(index, drawn)) && Logged(w, other)
    ensures Logged(Next(w, Deliver(index, drawn)), other)
  {
    var m := w.log[index];
    var p := w.End(!m.byInitiator);
    assert Logged(w, m);
    EnabledIsTimely(w, index, drawn);
    if StepsRatchet(p, m.packet) {
      GenuineExtend(w.shared, w.secrets, drawn, other);
    } else {
      DecryptKeepsSending(p.session, m.packet, drawn);
    }
  }

  lemma DecryptKeepsSending(s: Session, p: Packet, drawn: nat)
    requires (p.ratchetKey, p.number) in s.skipped || s.recvKey == Some(p.ratchetKey)
    ensures Decrypt(s, p, drawn).0.sendCount == s.sendCount
  {
  }

  lemma StepKeepsInv(w: World, step: Step)
    requires Inv(w) && Enabled(w, step)
    ensures Inv(Next(w, step))
  {
    match step
    case Send(byInitiator, plaintext) => SendKeepsInv(w, byInitiator, plaintext);
    case Deliver(index, drawn) => DeliverKeepsInv(w, index, drawn);
  }

  lemma {:induction false} RunKeepsInv(w: World, steps: seq<Step>)
    requires Inv(w) && EnabledRun(w, steps)
    ensures Inv(Run(w, steps))
    decreases |steps|
  {
    if steps != [] {
      StepKeepsInv(w, steps[0]);
      RunKeepsInv(Next(w, steps[0]), steps[1..]);
    }
  }

  // ---- Whole runs ----

  /** In every run from a fresh session one end is exactly one Diffie-Hellman step ahead of the other. */
  lemma OneStepAhead(shared: Key, preKey: nat, drawn: nat, steps: seq<Step>)
    requires preKey != drawn
    requires EnabledRun(InitialWorld(shared, preKey, drawn), steps)
    ensures OneAhead(Run(InitialWorld(shared, preKey, drawn), steps))
  {
    InitialInv(shared, preKey, drawn);
    RunKeepsInv(InitialWorld(shared, preKey, drawn), steps);
  }

  predicate StoredBounded(w: World) {
    |w.initiator.session.skipped| <= MAX_TOTAL_SKIPPED && |w.responder.session.skipped| <= MAX_TOTAL_SKIPPED
  }

  lemma StepKeepsBounded(w: World, step: Step)
    requires StoredBounded(w) && Enabled(w, step)
    ensures StoredBounded(Next(w, step))
  {
    match step
    case Send(byInitiator, plaintext) => PerformBound(w.End(byInitiator).session, DoEncrypt(plaintext));
    case Deliver(index, drawn) =>
      PerformBound(w.End(!w.log[index].byInitiator).session, DoDecrypt(w.log[index].packet, drawn));
  }

  lemma {:induction false} RunKeepsBounded(w: World, steps: seq<Step>)
    requires StoredBounded(w) && EnabledRun(w, steps)
    ensures StoredBounded(Run(w, steps))
    decreases |steps|
  {
    if steps != [] {
      StepKeepsBounded(w, steps[0]);
      RunKeepsBounded(Next(w, steps[0]), steps[1..]);
    }
  }

  /** How far the chain of `m` has been stepped at `p`: not at all if `m` brings a new ratchet key. */
  function CountFor(p: Party, m: Sent): nat {
    if p.session.recvKey == Some(m.packet.ratchetKey) then p.session.recvCount else 0
  }

  /** What a delivery returns: the plaintext, if its key is stored or if at most 256 numbers are passed over and at
      most 2048 keys are then stored. */
  ghost predicate Returns(p: Party, m: Sent, r: Result<seq<byte>, Error>) {
    var number, count, kept := m.packet.number, CountFor(p, m), |p.session.skipped|;
    if (m.packet.ratchetKey, number) in p.session.skipped then r == Ok(m.plaintext)
    else
      && number >= count
      && (r == Ok(m.plaintext) <==> number <= count + 256 && kept + (number - count) <= 2048)
      && (r == Err(TooManySkipped) <==> number > count + 256)
      && (r == Err(SkippedLimit) <==> number <= count + 256 && kept + (number - count) > 2048)
  }

  lemma TimelyReturns(shared: Key, secrets: seq<nat>, p: Party, m: Sent, r: Result<seq<byte>, Error>)
    requires Distinct(secrets) && InSync(shared, secrets, p) && Genuine(shared, secrets, m) && Timely(p, m)
    requires r == match Limit(p, m) { case None => Ok(m.plaintext) case Some(error) => Err(error) }
    ensures Returns(p, m, r)
  {
  }

  lemma DeliverReturns(w: World, index: nat, next: nat)
    requires Inv(w) && Enabled(w, Deliver(index, next))
    ensures Returns(w.End(!w.log[index].byInitiator), w.log[index], Outcome(w, index, next))
  {
    EnabledIsTimely(w, index, next);
    DeliverReturnsPlaintext(w, index, next);
    var m := w.log[index];
    assert Logged(w, m);
    TimelyReturns(w.shared, w.secrets, w.End(!m.byInitiator), m, Outcome(w, index, next));
  }

  /** In every run from a fresh session every delivery returns the plaintext that was encrypted, unless it passes over
      more than 256 numbers or more than 2048 keys would be stored. */
  lemma Agreement(shared: Key, preKey: nat, drawn: nat, steps: seq<Step>, index: nat, next: nat)
    requires preKey != drawn
    requires EnabledRun(InitialWorld(shared, preKey, drawn), steps)
    requires Enabled(Run(InitialWorld(shared, preKey, drawn), steps), Deliver(index, next))
    ensures var w := Run(InitialWorld(shared, preKey, drawn), steps);
      && OneAhead(w)
      && Returns(w.End(!w.log[index].byInitiator), w.log[index], Outcome(w, index, next))
  {
    InitialInv(shared, preKey, drawn);
    RunKeepsInv(InitialWorld(shared, preKey, drawn), steps);
    DeliverReturns(Run(InitialWorld(shared, preKey, drawn), steps), index, next);
  }

  // ---- Runs that reach the failures ----

  lemma SendLogs(w: World, byInitiator: bool, plaintext: seq<byte>)
    requires Enabled(w, Send(byInitiator, plaintext)) && w.End(byInitiator).session.sendChain.Some?
    ensures var w' := Next(w, Send(byInitiator, plaintext));
      var p := w.End(byInitiator);
      && w'.secrets == w.secrets && w'.End(!byInitiator) == w.End(!byInitiator)
      && w'.End(byInitiator).epoch == p.epoch && w'.End(byInitiator).delivered == p.delivered
      && w'.End(byInitiator).session.skipped == p.session.skipped
      && w'.End(byInitiator).session.recvKey == p.session.recvKey
      && w'.End(byInitiator).session.sendChain.Some?
      && w'.End(byInitiator).session.sendCount == p.session.sendCount + 1
      && |w'.log| == |w.log| + 1 && w'.log[..|w.log|] == w.log
      && var m := w'.log[|w.log|];
         && m.byInitiator == byInitiator && m.epoch == p.epoch && m.packet.number == p.session.sendCount
         && m.packet.ratchetKey == Pub(p.session.secret)
  {
  }

  /** The first message under a new ratchet key is delivered at once: the receiver moves two epochs on. */
  lemma DeliverFirst(w: World, index: nat, drawn: nat)
    requires Enabled(w, Deliver(index, drawn)) && w.log[index].packet.number == 0
    requires w.End(!w.log[index].byInitiator).session.skipped == map[]
    requires w.End(!w.log[index].byInitiator).session.recvKey != Some(w.log[index].packet.ratchetKey)
    ensures var w' := Next(w, Deliver(index, drawn));
      var m := w.log[index];
      && w'.log == w.log && w'.secrets == w.secrets + [drawn] && w'.End(m.byInitiator) == w.End(m.byInitiator)
      && w'.End(!m.byInitiator).epoch == w.End(!m.byInitiator).epoch + 2
      && w'.End(!m.byInitiator).session.skipped == map[] && w'.End(!m.byInitiator).session.sendCount == 0
      && w'.End(!m.byInitiator).session.secret == drawn && w'.End(!m.byInitiator).session.sendChain.Some?
      && w'.End(!m.byInitiator).session.recvKey == Some(m.packet.ratchetKey)
      && w'.End(!m.byInitiator).session.recvCount == 1
      && w'.End(!m.byInitiator).delivered <= w.End(!m.byInitiator).delivered + {(m.epoch, 0)}
  {
  }

  /** Some run leads from `w` to `v`. */
  ghost predicate Reaches(w: World, v: World) {
    exists steps :: EnabledRun(w, steps) && Run(w, steps) == v
  }

  lemma {:induction false} RunConcat(w: World, steps: seq<Step>, more: seq<Step>)
    requires EnabledRun(w, steps) && EnabledRun(Run(w, steps), more)
    ensures EnabledRun(w, steps + more) && Run(w, steps + more) == Run(Run(w, steps), more)
    decreases |steps|
  {
    if steps == [] {
      assert [] + more == more;
    } else {
      assert (steps + more)[0] == steps[0] && (steps + more)[1..] == steps[1..] + more;
      RunConcat(Next(w, steps[0]), steps[1..], more);
    }
  }

  lemma ReachesStep(w: World, v: World, step: Step)
    requires Reaches(w, v) && Enabled(v, step)
    ensures Reaches(w, Next(v, step))
  {
    var steps :| EnabledRun(w, steps) && Run(w, steps) == v;
    assert [step][1..] == [] && EnabledRun(Next(v, step), []);
    assert EnabledRun(v, [step]) && Run(v, [step]) == Next(v, step);
    RunConcat(w, steps, [step]);
  }

  lemma ReachesStart(w: World)
    ensures Reaches(w, w)
  {
    assert EnabledRun(w, []) && Run(w, []) == w;
  }

  /** The end that is ahead sends the first message of its chain and the other end receives it at once. */
  lemma Exchange(start: World, w: World, end: bool, x: seq<byte>, d: nat) returns (v: World)
    requires Reaches(start, w) && Inv(w) && d !in w.secrets && w.End(end).epoch == w.End(!end).epoch + 1
    requires w.End(end).session.sendCount == 0 && w.End(!end).session.skipped == map[]
    ensures Reaches(start, v) && Inv(v) && v.secrets == w.secrets + [d]
    ensures |v.log| == |w.log| + 1 && v.log[..|w.log|] == w.log
    ensures v.log[|w.log|].byInitiator == end && v.log[|w.log|].epoch == w.End(end).epoch
    ensures v.log[|w.log|].packet.number == 0
    ensures v.End(end).epoch == w.End(end).epoch && v.End(end).session.skipped == w.End(end).session.skipped
    ensures v.End(end).session.sendCount == 1
    ensures v.End(!end).epoch == w.End(!end).epoch + 2 && v.End(!end).session.skipped == map[]
    ensures v.End(!end).session.sendCount == 0 && v.End(!end).session.recvCount == 1
  {
    var u := SendOne(start, w, end, x);
    assert Logged(u, u.log[|w.log|]);
    DeliverFirst(u, |w.log|, d);
    StepKeepsInv(u, Deliver(|w.log|, d));
    ReachesStep(start, u, Deliver(|w.log|, d));
    v := Next(u, Deliver(|w.log|, d));
  }

  /** An end sends one more message, which stays on its way. */
  lemma SendOne(start: World, w: World, end: bool, x: seq<byte>) returns (v: World)
    requires Reaches(start, w) && Inv(w) && Enabled(w, Send(end, x)) && w.End(end).epoch > 0
    ensures Reaches(start, v) && Inv(v) && v.secrets == w.secrets && v.End(!end) == w.End(!end)
    ensures |v.log| == |w.log| + 1 && v.log[..|w.log|] == w.log
    ensures v.log[|w.log|].byInitiator == end && v.log[|w.log|].epoch == w.End(end).epoch
    ensures v.log[|w.log|].packet.number == w.End(end).session.sendCount
    ensures v.End(end).epoch == w.End(end).epoch && v.End(end).session.skipped == w.End(end).session.skipped
    ensures v.End(end).session.sendCount == w.End(end).session.sendCount + 1
  {
    SendLogs(w, end, x);
    StepKeepsInv(w, Send(end, x));
    ReachesStep(start, w, Send(end, x));
    v := Next(w, Send(end, x));
  }

  lemma Start(shared: Key, preKey: nat, drawn: nat) returns (w: World)
    requires preKey != drawn
    ensures w == InitialWorld(shared, preKey, drawn) && Reaches(w, w) && Inv(w)
  {
    w := InitialWorld(shared, preKey, drawn);
    InitialInv(shared, preKey, drawn);
    ReachesStart(w);
  }

  lemma RepeatedArrival(w: World, next: nat)
    requires Inv(w) && |w.log| == 1 && w.log[0].byInitiator && w.log[0].epoch + 1 == w.responder.epoch
    requires w.log[0].packet.number == 0 && w.responder.session.recvCount == 1 && w.responder.session.skipped == map[]
    ensures var (s, r) := Decrypt(w.responder.session, w.log[0].packet, next);
      r == Err(OpenFailed) && !Consistent(w.shared, w.secrets, s)
  {
    assert Logged(w, w.log[0]);
    ReplayBreaks(w.shared, w.secrets, w.responder, w.log[0], next);
  }

  /** A first message delivered twice: the second delivery fails and leaves the session out of sync. */
  lemma ReplayReached(shared: Key, preKey: nat, drawn: nat, x: seq<byte>, d: nat, next: nat) returns (w: World)
    requires preKey != drawn && d !in [preKey, drawn]
    ensures Reaches(InitialWorld(shared, preKey, drawn), w) && |w.log| == 1 && w.log[0].byInitiator
    ensures var (s, r) := Decrypt(w.responder.session, w.log[0].packet, next);
      r == Err(OpenFailed) && !Consistent(w.shared, w.secrets, s)
  {
    var w0 := Start(shared, preKey, drawn);
    w := Exchange(w0, w0, true, x, d);
    RepeatedArrival(w, next);
  }

  /** An unstored message of an old chain, arriving in a reachable state. */
  lemma LateArrival(w: World, index: nat, next: nat)
    requires Inv(w) && index < |w.log| && w.log[index].byInitiator && w.log[index].epoch + 1 < w.responder.epoch
    requires w.responder.session.skipped == map[] && next !in w.secrets
    ensures var (s, r) := Decrypt(w.responder.session, w.log[index].packet, next);
      r.Err? && !Consistent(w.shared, w.secrets + [next], s)
  {
    assert Logged(w, w.log[index]);
    SupersededBreaks(w.shared, w.secrets, w.responder, w.log[index], next);
  }

  /** One message received, and a second one of the same chain sent. */
  lemma ReachSecond(shared: Key, preKey: nat, drawn: nat, x: seq<byte>, d: nat) returns (w: World)
    requires preKey != drawn && d !in [preKey, drawn]
    ensures Reaches(InitialWorld(shared, preKey, drawn), w) && Inv(w) && w.secrets == [preKey, drawn] + [d]
    ensures |w.log| == 2 && w.log[1].byInitiator && w.log[1].epoch == 1
    ensures w.initiator.epoch == 1 && w.initiator.session.skipped == map[]
    ensures w.responder.epoch == 2 && w.responder.session.skipped == map[] && w.responder.session.sendCount == 0
  {
    var w0 := Start(shared, preKey, drawn);
    var w1 := Exchange(w0, w0, true, x, d);
    w := SendOne(w0, w1, true, x);
  }

  /** And an answer received. */
  lemma ReachAnswer(shared: Key, preKey: nat, drawn: nat, x: seq<byte>, d1: nat, d2: nat) returns (w: World)
    requires preKey != drawn && d1 !in [preKey, drawn] && d2 !in [preKey, drawn] + [d1]
    ensures Reaches(InitialWorld(shared, preKey, drawn), w) && Inv(w)
    ensures w.secrets == [preKey, drawn] + [d1] + [d2]
    ensures |w.log| == 3 && w.log[1].byInitiator && w.log[1].epoch == 1
    ensures w.initiator.epoch == 3 && w.initiator.session.sendCount == 0
    ensures w.responder.epoch == 2 && w.responder.session.skipped == map[]
  {
    var w1 := ReachSecond(shared, preKey, drawn, x, d1);
    w := Exchange(InitialWorld(shared, preKey, drawn), w1, false, x, d2);
    assert w.log[..2][1] == w1.log[1];
  }

  /** Plain reordering: the initiator's second message is overtaken by an answer and the answer to that. When it
      arrives it cannot be opened, and the session is out of sync from then on. */
  lemma SupersededReached(shared: Key, preKey: nat, drawn: nat, x: seq<byte>, d1: nat, d2: nat, d3: nat, next: nat)
    returns (w: World)
    requires preKey != drawn && d1 !in [preKey, drawn] && d2 !in [preKey, drawn] + [d1]
    requires d3 !in [preKey, drawn] + [d1] + [d2] && next !in [preKey, drawn] + [d1] + [d2] + [d3]
    ensures Reaches(InitialWorld(shared, preKey, drawn), w)
    ensures |w.log| == 4 && w.log[1].byInitiator && w.log[1].epoch == 1
    ensures var (s, r) := Decrypt(w.responder.session, w.log[1].packet, next);
      r.Err? && !Consistent(w.shared, w.secrets + [next], s)
  {
    var w1 := ReachAnswer(shared, preKey, drawn, x, d1, d2);
    w := Exchange(InitialWorld(shared, preKey, drawn), w1, true, x, d3);
    assert w.log[..3][1] == w1.log[1];
    LateArrival(w, 1, next);
  }

  // ---- Any packet in any run ----

  /** After every run, at either end, any packet whatever leaves the session consistent with its peer if and only if
      its header is timely. */
  lemma AnyPacketIff(shared: Key, preKey: nat, drawn: nat, steps: seq<Step>, isInitiator: bool, m: Packet, next: nat)
    requires preKey != drawn && EnabledRun(InitialWorld(shared, preKey, drawn), steps)
    requires next !in Run(InitialWorld(shared, preKey, drawn), steps).secrets && m.number < U32_LIMIT
    ensures var w := Run(InitialWorld(shared, preKey, drawn), steps);
      var p := w.End(isInitiator);
      Consistent(w.shared, SecretsAfter(w.secrets, p, m, next), Decrypt(p.session, m, next).0) <==>
      HeaderTimely(w.secrets, p, m)
  {
    InitialInv(shared, preKey, drawn);
    RunKeepsInv(InitialWorld(shared, preKey, drawn), steps);
    RunKeepsBounded(InitialWorld(shared, preKey, drawn), steps);
    var w := Run(InitialWorld(shared, preKey, drawn), steps);
    ConsistentIff(w.shared, w.secrets, w.End(isInitiator), m, next);
  }

  /** The receiving chain of `p` is the `recvCount`-th iterate of its peer's chain, and number `i` of that chain is
      stored exactly when it is below `recvCount` and not opened. */
  ghost predicate ChainExact(shared: Key, secrets: seq<nat>, p: Party, i: nat)
    requires 2 <= p.epoch < |secrets|
  {
    var chain := ChainAt(shared, secrets, p.epoch - 1);
    var k := (Pub(secrets[p.epoch - 1]), i);
    && p.session.recvKey == Some(k.0)
    && p.session.recvChain == Some(Iterate(chain, p.session.recvCount))
    && (k in p.session.skipped <==> i < p.session.recvCount && (p.epoch - 1, i) !in p.delivered)
    && (k in p.session.skipped ==> p.session.skipped[k] == MessageKey(Iterate(chain, i)))
  }

  lemma InSyncChainExact(shared: Key, secrets: seq<nat>, p: Party, i: nat)
    requires Distinct(secrets) && InSync(shared, secrets, p) && p.epoch >= 2
    ensures ChainExact(shared, secrets, p, i)
  {
  }

  /** In every run, at each end and for every number. */
  lemma StoredKeysExact(shared: Key, preKey: nat, drawn: nat, steps: seq<Step>, isInitiator: bool, i: nat)
    requires preKey != drawn
    requires EnabledRun(InitialWorld(shared, preKey, drawn), steps)
    ensures var w := Run(InitialWorld(shared, preKey, drawn), steps);
      var p := w.End(isInitiator);
      p.epoch < |w.secrets| && (p.epoch >= 2 ==> ChainExact(w.shared, w.secrets, p, i))
  {
    InitialInv(shared, preKey, drawn);
    RunKeepsInv(InitialWorld(shared, preKey, drawn), steps);
    var w := Run(InitialWorld(shared, preKey, drawn), steps);
    if w.End(isInitiator).epoch >= 2 {
      InSyncChainExact(w.shared, w.secrets, w.End(isInitiator), i);
    }
  }

  /** The chains of two epochs share no message key. */
  lemma MessageKeyUnique(shared: Key, secrets: seq<nat>, j1: nat, i1: nat, j2: nat, i2: nat)
    requires 0 < j1 < |secrets| && 0 < j2 < |secrets|
    requires Iterate(ChainAt(shared, secrets, j1), i1) == Iterate(ChainAt(shared, secrets, j2), i2)
    ensures j1 == j2 && i1 == i2
  {
    IterateBase(ChainAt(shared, secrets, j1), ChainAt(shared, secrets, j2), i1, i2);
    RootDepth(shared, secrets, j1 - 1);
    RootDepth(shared, secrets, j2 - 1);
  }

  lemma LogKeysDistinct(w: World, a: nat, b: nat)
    requires Inv(w) && a < b < |w.log|
    ensures w.log[a].packet.ciphertext.Sealed? && w.log[b].packet.ciphertext.Sealed?
    ensures w.log[a].packet.ciphertext.key != w.log[b].packet.ciphertext.key
  {
    var m, n := w.log[a], w.log[b];
    assert Logged(w, m) && Logged(w, n);
    if m.packet.ciphertext.key == n.packet.ciphertext.key {
      MessageKeyUnique(w.shared, w.secrets, m.epoch, m.packet.number, n.epoch, n.packet.number);
    }
  }

  /** No two messages of a run, of either end, are sealed under the same key. */
  lemma KeysNeverReused(shared: Key, preKey: nat, drawn: nat, steps: seq<Step>, a: nat, b: nat)
    requires preKey != drawn
    requires EnabledRun(InitialWorld(shared, preKey, drawn), steps)
    requires a < b < |Run(InitialWorld(shared, preKey, drawn), steps).log|
    ensures var log := Run(InitialWorld(shared, preKey, drawn), steps).log;
      && log[a].packet.ciphertext.Sealed? && log[b].packet.ciphertext.Sealed?
      && log[a].packet.ciphertext.key != log[b].packet.ciphertext.key
  {
    InitialInv(shared, preKey, drawn);
    RunKeepsInv(InitialWorld(shared, preKey, drawn), steps);
    LogKeysDistinct(Run(InitialWorld(shared, preKey, drawn), steps), a, b);
  }
}
