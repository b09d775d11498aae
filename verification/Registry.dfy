/** The session registry: `peer -> session` and `session -> peer` entries kept by two scripts, and a gauge updated
    after them. A deregistration reads the peer of its session first and runs its script later. */
module Registry {

  datatype Peer = Peer(name: string)
  type SessionId = nat

  datatype Entries = Entries(peers: map<Peer, SessionId>, sessions: map<SessionId, Peer>)

  datatype Registration = New | Refreshed | Replaced

  function Register(e: Entries, id: SessionId, p: Peer): Entries {
    var cleaned := if p in e.peers && e.peers[p] != id then e.sessions - {e.peers[p]} else e.sessions;
    Entries(e.peers[p := id], cleaned[id := p])
  }

  function RegistrationOf(e: Entries, id: SessionId, p: Peer): Registration {
    if p !in e.peers then New else if e.peers[p] == id then Refreshed else Replaced
  }

  /** Whether the script removes the peer's entry. */
  predicate Removes(e: Entries, id: SessionId, p: Peer) {
    p in e.peers && e.peers[p] == id
  }

  function Deregister(e: Entries, id: SessionId, p: Peer): Entries {
    Entries(if Removes(e, id, p) then e.peers - {p} else e.peers, e.sessions - {id})
  }

  /** Both entries of a session are set by one script with one lifetime, so they lapse together. */
  function Lapse(e: Entries, p: Peer): Entries {
    if p in e.peers then Entries(e.peers - {p}, e.sessions - {e.peers[p]}) else e
  }

  /** The two maps are inverses of each other. */
  ghost predicate Inverse(e: Entries) {
    && (forall p :: p in e.peers ==> e.peers[p] in e.sessions && e.sessions[e.peers[p]] == p)
    && (forall id :: id in e.sessions ==> e.sessions[id] in e.peers && e.peers[e.sessions[id]] == id)
  }

  class SessionRegistry {
    var peers: map<Peer, SessionId>
    var sessions: map<SessionId, Peer>
    var gauge: int

    ghost function Value(): Entries
      reads this
    {
      Entries(peers, sessions)
    }

    method HandleRegister(id: SessionId, p: Peer)
      modifies this
      ensures Value() == Register(old(Value()), id, p)
      ensures p in peers && peers[p] == id && id in sessions && sessions[id] == p
      ensures gauge == old(gauge) + if RegistrationOf(old(Value()), id, p) == New then 1 else 0
    {
      var result := New;
      if p in peers {
        if peers[p] == id {
          result := Refreshed;
        } else {
          sessions := sessions - {peers[p]};
          result := Replaced;
        }
      }
      peers := peers[p := id];
      sessions := sessions[id := p];
      if result == New {
        gauge := gauge + 1;
      }
    }

    method HandleDeregister(id: SessionId)
      modifies this
      ensures id !in old(sessions) ==> Value() == old(Value()) && gauge == old(gauge)
      ensures id in old(sessions) ==>
        && Value() == Deregister(old(Value()), id, old(sessions)[id])
        && gauge == old(gauge) - if Removes(old(Value()), id, old(sessions)[id]) then 1 else 0
    {
      if id !in sessions {
        return;
      }
      var p := sessions[id];
      var deleted := p in peers && peers[p] == id;
      if deleted {
        peers := peers - {p};
      }
      sessions := sessions - {id};
      if deleted {
        gauge := gauge - 1;
      }
    }
  }

  // ---- Runs ----

  /** The entries, the gauge and its updates still in flight, the deregistrations between their read and their
      script, who owns each session id, and how many sessions have lapsed. */
  datatype System = System(
    entries: Entries,
    gauge: int,
    increments: nat,
    decrements: nat,
    pending: multiset<(SessionId, Peer)>,
    owner: map<SessionId, Peer>,
    lapsed: nat)

  const INITIAL := System(Entries(map[], map[]), 0, 0, 0, multiset{}, map[], 0)

  datatype Step =
    | DoRegister(id: SessionId, p: Peer)
    | DoRead(id: SessionId)
    | DoScript(id: SessionId, p: Peer)
    | DoLapse(p: Peer)
    | DoIncrement
    | DoDecrement

  /** A script runs after its read, a gauge update after its script. */
  predicate Enabled(y: System, step: Step) {
    match step
    case DoRegister(_, _) => true
    case DoScript(id, p) => (id, p) in y.pending
    case DoLapse(p) => p in y.entries.peers
    case DoIncrement => y.increments > 0
    case DoDecrement => y.decrements > 0
    case DoRead(_) => true
  }

  function Next(y: System, step: Step): System
    requires Enabled(y, step)
  {
    var e := y.entries;
    match step
    case DoRegister(id, p) =>
      y.(entries := Register(e, id, p), owner := y.owner[id := p],
         increments := y.increments + if RegistrationOf(e, id, p) == New then 1 else 0)
    case DoRead(id) =>
      if id in e.sessions then y.(pending := y.pending + multiset{(id, e.sessions[id])}) else y
    case DoScript(id, p) =>
      y.(entries := Deregister(e, id, p), pending := y.pending - multiset{(id, p)},
         decrements := y.decrements + if Removes(e, id, p) then 1 else 0)
    case DoLapse(p) =>
      y.(entries := Lapse(e, p), lapsed := y.lapsed + 1)
    case DoIncrement =>
      y.(gauge := y.gauge + 1, increments := y.increments - 1)
    case DoDecrement =>
      y.(gauge := y.gauge - 1, decrements := y.decrements - 1)
  }

  predicate EnabledRun(y: System, steps: seq<Step>)
    decreases |steps|
  {
    steps != [] ==> Enabled(y, steps[0]) && EnabledRun(Next(y, steps[0]), steps[1..])
  }

  function Run(y: System, steps: seq<Step>): System
    requires EnabledRun(y, steps)
    decreases |steps|
  {
    if steps == [] then y else Run(Next(y, steps[0]), steps[1..])
  }

  /** A registration finds its session id free or its peer's own, and a deregistration script does not find it
      another peer's. */
  predicate Careful(y: System, step: Step) {
    match step
    case DoRegister(id, p) => id in y.entries.sessions ==> y.entries.sessions[id] == p
    case DoScript(id, p) => id in y.entries.sessions ==> y.entries.sessions[id] == p
    case _ => true
  }

  predicate CarefulRun(y: System, steps: seq<Step>)
    requires EnabledRun(y, steps)
    decreases |steps|
  {
    steps != [] ==> Careful(y, steps[0]) && CarefulRun(Next(y, steps[0]), steps[1..])
  }

  /** A session id is only ever registered for one peer, as the gateway's counter gives. */
  predicate OneOwner(y: System, step: Step) {
    step.DoRegister? && step.id in y.owner ==> y.owner[step.id] == step.p
  }

  predicate OneOwnerRun(y: System, steps: seq<Step>)
    requires EnabledRun(y, steps)
    decreases |steps|
  {
    steps != [] ==> OneOwner(y, steps[0]) && OneOwnerRun(Next(y, steps[0]), steps[1..])
  }

  ghost predicate Owned(y: System) {
    && (forall id :: id in y.entries.sessions ==> id in y.owner && y.owner[id] == y.entries.sessions[id])
    && (forall id, p :: (id, p) in y.pending ==> id in y.owner && y.owner[id] == p)
  }

  predicate Counted(y: System) {
    y.gauge + y.increments - y.decrements == |y.entries.peers| + y.lapsed
  }

  ghost predicate Inv(y: System) {
    Inverse(y.entries) && Owned(y) && Counted(y)
  }

  /** However ids are given out, the gauge and its updates in flight account for every peer entry. */
  lemma StepCounted(y: System, step: Step)
    requires Counted(y) && Enabled(y, step)
    ensures Counted(Next(y, step))
  {
    match step
    case DoRegister(id, p) => AddOne(y.entries.peers, p, id);
    case DoScript(id, p) =>
      if Removes(y.entries, id, p) {
        RemoveOne(y.entries.peers, p);
      }
    case DoLapse(p) => RemoveOne(y.entries.peers, p);
    case _ =>
  }

  lemma RemoveOne<K, V>(m: map<K, V>, k: K)
    requires k in m
    ensures |m - {k}| == |m| - 1
  {
  }

  lemma AddOne<K, V>(m: map<K, V>, k: K, v: V)
    ensures |m[k := v]| == |m| + if k in m then 0 else 1
  {
  }

  /** From mutually inverse entries, a registration keeps them so exactly when the session id is free or already
      the peer's own. */
  lemma RegisterInverseIff(e: Entries, id: SessionId, p: Peer)
    requires Inverse(e)
    ensures Inverse(Register(e, id, p)) <==> (id !in e.sessions || e.sessions[id] == p)
  {
    var e' := Register(e, id, p);
    if id in e.sessions && e.sessions[id] != p {
      var q := e.sessions[id];
      assert q in e'.peers && e'.peers[q] == id && e'.sessions[id] == p;
    } else {
      forall id' | id' in e'.sessions
        ensures e'.sessions[id'] in e'.peers && e'.peers[e'.sessions[id']] == id'
      {
        if id' != id {
          assert id' in e.sessions;
        }
      }
    }
  }

  /** A session id taken over by a second peer: the first peer's entry then points at a session that is not its. */
  lemma SharedIdBreaks(id: SessionId, p: Peer, q: Peer)
    requires p != q
    ensures Inverse(Register(Entries(map[], map[]), id, p))
    ensures !Inverse(Register(Register(Entries(map[], map[]), id, p), id, q))
  {
    RegisterInverseIff(Entries(map[], map[]), id, p);
    RegisterInverseIff(Register(Entries(map[], map[]), id, p), id, q);
  }

  /** A deregistration whose session has been superseded changes nothing at all. */
  lemma StaleDeregister(e: Entries, id: SessionId, p: Peer)
    requires Inverse(e) && !Removes(e, id, p)
    requires id in e.sessions ==> e.sessions[id] == p
    ensures Deregister(e, id, p) == e
  {
  }

  lemma DeregisterInverse(e: Entries, id: SessionId, p: Peer)
    requires Inverse(e) && Removes(e, id, p)
    ensures Inverse(Deregister(e, id, p)) && Deregister(e, id, p) == Lapse(e, p)
  {
  }

  /** From mutually inverse entries, a deregistration script keeps them so exactly when the session id is free or
      the peer's own. */
  lemma DeregisterInverseIff(e: Entries, id: SessionId, p: Peer)
    requires Inverse(e)
    ensures Inverse(Deregister(e, id, p)) <==> (id !in e.sessions || e.sessions[id] == p)
  {
    if Removes(e, id, p) {
      DeregisterInverse(e, id, p);
    } else if id in e.sessions {
      var q, after := e.sessions[id], Deregister(e, id, p);
      assert q in after.peers && after.peers[q] !in after.sessions;
    } else {
      StaleDeregister(e, id, p);
    }
  }

  /** One step keeps the entries inverse if and only if it is careful. */
  lemma StepInverseIff(y: System, step: Step)
    requires Inverse(y.entries) && Enabled(y, step)
    ensures Inverse(Next(y, step).entries) <==> Careful(y, step)
  {
    match step
    case DoRegister(id, p) => RegisterInverseIff(y.entries, id, p);
    case DoScript(id, p) => DeregisterInverseIff(y.entries, id, p);
    case DoLapse(p) => DeregisterInverse(y.entries, y.entries.peers[p], p);
    case _ =>
  }

  ghost predicate AlwaysInverse(y: System, steps: seq<Step>)
    requires EnabledRun(y, steps)
    decreases |steps|
  {
    Inverse(y.entries) && (steps != [] ==> AlwaysInverse(Next(y, steps[0]), steps[1..]))
  }

  /** Every interleaving: the entries are inverse at every moment if and only if every registration and every script
      is careful. */
  lemma {:induction false} InverseIffCareful(y: System, steps: seq<Step>)
    requires Inverse(y.entries) && EnabledRun(y, steps)
    ensures AlwaysInverse(y, steps) <==> CarefulRun(y, steps)
    decreases |steps|
  {
    if steps != [] {
      StepInverseIff(y, steps[0]);
      if Careful(y, steps[0]) {
        InverseIffCareful(Next(y, steps[0]), steps[1..]);
      }
    }
  }

  lemma {:induction false} RunKeepsCore(y: System, steps: seq<Step>)
    requires Inverse(y.entries) && Counted(y) && EnabledRun(y, steps) && CarefulRun(y, steps)
    ensures Inverse(Run(y, steps).entries) && Counted(Run(y, steps))
    decreases |steps|
  {
    if steps != [] {
      StepInverseIff(y, steps[0]);
      StepCounted(y, steps[0]);
      RunKeepsCore(Next(y, steps[0]), steps[1..]);
    }
  }

  /** However reads and scripts of deregistrations interleave with careful registrations, the entries stay inverse,
      and with nothing lapsed and no update in flight the gauge is the number of sessions. */
  lemma RegistrySafety(steps: seq<Step>)
    requires EnabledRun(INITIAL, steps) && CarefulRun(INITIAL, steps)
    ensures var y := Run(INITIAL, steps);
      && Inverse(y.entries)
      && (y.lapsed == 0 && y.increments == 0 && y.decrements == 0 ==> y.gauge == |y.entries.sessions|)
  {
    RunKeepsCore(INITIAL, steps);
    InverseSize(Run(INITIAL, steps).entries);
  }

  lemma OwnedIsCareful(y: System, step: Step)
    requires Owned(y) && Enabled(y, step) && OneOwner(y, step)
    ensures Careful(y, step)
  {
  }

  lemma RegisterKeepsOwned(y: System, id: SessionId, p: Peer)
    requires Owned(y) && OneOwner(y, DoRegister(id, p))
    ensures Owned(Next(y, DoRegister(id, p)))
  {
  }

  lemma StepKeepsOwned(y: System, step: Step)
    requires Owned(y) && Enabled(y, step) && OneOwner(y, step)
    ensures Owned(Next(y, step))
  {
    match step
    case DoRegister(id, p) => RegisterKeepsOwned(y, id, p);
    case _ =>
  }

  lemma StepKeepsInv(y: System, step: Step)
    requires Inv(y) && Enabled(y, step) && OneOwner(y, step)
    ensures Careful(y, step) && Inv(Next(y, step))
  {
    OwnedIsCareful(y, step);
    StepInverseIff(y, step);
    StepCounted(y, step);
    StepKeepsOwned(y, step);
  }

  /** Session ids that are never shared make every run careful. */
  lemma {:induction false} OneOwnerIsCareful(y: System, steps: seq<Step>)
    requires Inv(y) && EnabledRun(y, steps) && OneOwnerRun(y, steps)
    ensures CarefulRun(y, steps) && Inv(Run(y, steps))
    decreases |steps|
  {
    if steps != [] {
      StepKeepsInv(y, steps[0]);
      OneOwnerIsCareful(Next(y, steps[0]), steps[1..]);
    }
  }

  lemma {:induction false} InverseSize(e: Entries)
    requires Inverse(e)
    ensures |e.peers| == |e.sessions|
    decreases |e.peers|
  {
    if e.peers == map[] {
      assert e.sessions == map[];
    } else {
      var p :| p in e.peers;
      DeregisterInverse(e, e.peers[p], p);
      RemoveOne(e.peers, p);
      RemoveOne(e.sessions, e.peers[p]);
      InverseSize(Lapse(e, p));
    }
  }

  /** A script whose read came before the peer reconnected leaves the newer session in place. */
  lemma NewerSessionSurvives(y: System, id: SessionId, p: Peer)
    requires Inv(y) && Enabled(y, DoScript(id, p))
    requires p in y.entries.peers && y.entries.peers[p] != id
    ensures Next(y, DoScript(id, p)).entries == y.entries
  {
  }

  // ---- What a lookup finds ----

  /** After a registration the peer and the session name each other. From inverse entries the session the peer had
      before is gone, and every other peer and every other session keeps its entry. */
  lemma RegisterEntries(e: Entries, id: SessionId, p: Peer)
    ensures var e' := Register(e, id, p);
      && p in e'.peers && e'.peers[p] == id && id in e'.sessions && e'.sessions[id] == p
      && (forall q :: q != p ==> (q in e'.peers <==> q in e.peers) && (q in e.peers ==> e'.peers[q] == e.peers[q]))
      && (Inverse(e) ==> forall j :: j != id ==>
            && (j in e'.sessions <==> j in e.sessions && e.sessions[j] != p)
            && (j in e'.sessions ==> e'.sessions[j] == e.sessions[j]))
  {
  }

  /** What a registration is called: new if the peer had no entry, refreshed if its entry stays, else replaced. */
  lemma RegistrationNamed(e: Entries, id: SessionId, p: Peer)
    ensures RegistrationOf(e, id, p) == New <==> |Register(e, id, p).peers| == |e.peers| + 1
    ensures RegistrationOf(e, id, p) == Refreshed <==> Register(e, id, p).peers == e.peers
  {
    AddOne(e.peers, p, id);
    if p in e.peers && e.peers[p] == id {
      assert e.peers[p := id] == e.peers;
    }
  }

  /** From inverse entries, a script for a session that is the peer's removes that pair of entries and no other. */
  lemma DeregisterEntries(e: Entries, id: SessionId, p: Peer)
    requires Inverse(e) && id in e.sessions && e.sessions[id] == p
    ensures var e' := Deregister(e, id, p);
      && p !in e'.peers && id !in e'.sessions
      && (forall q :: q != p ==> (q in e'.peers <==> q in e.peers) && (q in e'.peers ==> e'.peers[q] == e.peers[q]))
      && (forall j :: j != id ==>
            (j in e'.sessions <==> j in e.sessions) && (j in e'.sessions ==> e'.sessions[j] == e.sessions[j]))
  {
  }

  /** A step that is no registration of `p`, no lapse of `p`, and no script for `p` and `id`. */
  predicate Spares(step: Step, id: SessionId, p: Peer) {
    (step.DoRegister? ==> step.p != p) && step != DoLapse(p) && step != DoScript(id, p)
  }

  lemma {:induction false} StaysFound(y: System, steps: seq<Step>, id: SessionId, p: Peer)
    requires EnabledRun(y, steps) && p in y.entries.peers && y.entries.peers[p] == id
    requires forall i :: 0 <= i < |steps| ==> Spares(steps[i], id, p)
    ensures var e := Run(y, steps).entries; p in e.peers && e.peers[p] == id
    decreases |steps|
  {
    if steps != [] {
      assert Spares(steps[0], id, p);
      StaysFound(Next(y, steps[0]), steps[1..], id, p);
    }
  }

  /** In every run, a peer is found under the id of its last registration until a script for that id or a lapse; if the
      run is careful the session is found too. */
  lemma RegisteredIsFound(before: seq<Step>, id: SessionId, p: Peer, after: seq<Step>)
    requires EnabledRun(INITIAL, before)
    requires EnabledRun(Next(Run(INITIAL, before), DoRegister(id, p)), after)
    requires forall i :: 0 <= i < |after| ==> Spares(after[i], id, p)
    ensures var y := Run(INITIAL, before);
      var registered := Next(y, DoRegister(id, p));
      var e := Run(registered, after).entries;
      && p in e.peers && e.peers[p] == id
      && (CarefulRun(INITIAL, before) && Careful(y, DoRegister(id, p)) && CarefulRun(registered, after) ==>
            id in e.sessions && e.sessions[id] == p)
  {
    var y := Run(INITIAL, before);
    var registered := Next(y, DoRegister(id, p));
    StaysFound(registered, after, id, p);
    if CarefulRun(INITIAL, before) && Careful(y, DoRegister(id, p)) && CarefulRun(registered, after) {
      RunKeepsCore(INITIAL, before);
      StepInverseIff(y, DoRegister(id, p));
      StepCounted(y, DoRegister(id, p));
      RunKeepsCore(registered, after);
    }
  }

  lemma {:induction false} StaysGone(y: System, steps: seq<Step>, p: Peer)
    requires EnabledRun(y, steps) && p !in y.entries.peers
    requires forall i :: 0 <= i < |steps| ==> (steps[i].DoRegister? ==> steps[i].p != p)
    ensures p !in Run(y, steps).entries.peers
    decreases |steps|
  {
    if steps != [] {
      assert steps[0].DoRegister? ==> steps[0].p != p;
      StaysGone(Next(y, steps[0]), steps[1..], p);
    }
  }

  /** In every run, a peer whose own session is deregistered or lapses is not found until it registers again. */
  lemma DeregisteredIsGone(before: seq<Step>, step: Step, id: SessionId, p: Peer, after: seq<Step>)
    requires EnabledRun(INITIAL, before) && (step == DoScript(id, p) || step == DoLapse(p))
    requires var y := Run(INITIAL, before);
      && p in y.entries.peers && y.entries.peers[p] == id && Enabled(y, step) && EnabledRun(Next(y, step), after)
    requires forall i :: 0 <= i < |after| ==> (after[i].DoRegister? ==> after[i].p != p)
    ensures p !in Run(Next(Run(INITIAL, before), step), after).entries.peers
  {
    StaysGone(Next(Run(INITIAL, before), step), after, p);
  }
}
