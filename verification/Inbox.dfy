/** The two-phase inbox: messages are stored in a list per inbox, moved into a claim by a fetch, dropped by an
    acknowledgement, and put back when a claim's deadline passes. Each function is one atomic command or script. */
module Inbox {

  const MAX_MESSAGES := 100
  const CLAIM_TTL := 300
  const CLOCK_SKEW := 60

  datatype InboxId = InboxId(name: string)
  datatype Payload = Payload(bytes: seq<int>)

  /** A claim token: the timestamp and a keyed hash of inbox and timestamp, as a term. */
  datatype Token = Token(inbox: InboxId, timestamp: nat)

  datatype Claim = Claim(inbox: InboxId, messages: seq<Payload>)

  datatype Store = Store(lists: map<InboxId, seq<Payload>>, claims: map<Token, Claim>, index: map<Token, nat>) {
    function List(x: InboxId): seq<Payload> {
      if x in lists then lists[x] else []
    }

    /** An empty list stands for a missing key. */
    function WithList(x: InboxId, list: seq<Payload>): Store {
      this.(lists := lists[x := list])
    }
  }

  function Kept(list: seq<Payload>): seq<Payload> {
    if |list| <= MAX_MESSAGES then list else list[..MAX_MESSAGES]
  }

  function Cut(list: seq<Payload>): seq<Payload> {
    if |list| <= MAX_MESSAGES then [] else list[MAX_MESSAGES..]
  }

  function Push(s: Store, x: InboxId, message: Payload): Store {
    s.WithList(x, [message] + s.List(x))
  }

  function Trim(s: Store, x: InboxId): Store {
    s.WithList(x, Kept(s.List(x)))
  }

  function Expire(s: Store, x: InboxId): Store {
    s.WithList(x, [])
  }

  function Fetch(s: Store, x: InboxId, now: nat): Store {
    var messages := s.List(x);
    var token := Token(x, now);
    var claimed := if messages == [] then s
                   else s.(claims := s.claims[token := Claim(x, messages)], index := s.index[token := now + CLAIM_TTL]);
    claimed.WithList(x, [])
  }

  predicate AcceptsToken(x: InboxId, token: Token, now: nat) {
    token.inbox == x && now - token.timestamp <= CLAIM_TTL && token.timestamp <= now + CLOCK_SKEW
  }

  function Forget(s: Store, token: Token): Store {
    s.(claims := s.claims - {token}, index := s.index - {token})
  }

  function Ack(s: Store, x: InboxId, token: Token, now: nat): Store {
    if AcceptsToken(x, token, now) then Forget(s, token) else s
  }

  function Overdue(s: Store, now: nat): set<Token> {
    set t | t in s.index && s.index[t] <= now
  }

  function Recover(s: Store, token: Token): Store {
    if token !in s.claims then s.(index := s.index - {token})
    else
      var claim := s.claims[token];
      Forget(s.WithList(claim.inbox, Kept(claim.messages + s.List(claim.inbox))), token)
  }

  // ---- The scripts as updates of the shared store ----

  class Redis {
    var lists: map<InboxId, seq<Payload>>
    var claims: map<Token, Claim>
    var index: map<Token, nat>

    ghost function Value(): Store
      reads this
    {
      Store(lists, claims, index)
    }

    method LPush(x: InboxId, message: Payload)
      modifies this`lists
      ensures Value() == Push(old(Value()), x, message)
    {
      lists := lists[x := [message] + if x in lists then lists[x] else []];
    }

    method LTrim(x: InboxId)
      modifies this`lists
      ensures Value() == Trim(old(Value()), x)
    {
      var list := if x in lists then lists[x] else [];
      lists := lists[x := if |list| > MAX_MESSAGES then list[..MAX_MESSAGES] else list];
    }

    method FetchScript(x: InboxId, now: nat) returns (messages: seq<Payload>)
      modifies this
      ensures messages == old(Value()).List(x)
      ensures Value() == Fetch(old(Value()), x, now)
    {
      messages := if x in lists then lists[x] else [];
      if |messages| > 0 {
        claims := claims[Token(x, now) := Claim(x, messages)];
        index := index[Token(x, now) := now + CLAIM_TTL];
      }
      lists := lists[x := []];
    }

    method AckScript(x: InboxId, token: Token, now: nat)
      modifies this
      ensures Value() == Ack(old(Value()), x, token, now)
      ensures if token.inbox == x && token.timestamp <= now + 60 && now <= token.timestamp + 300
        then lists == old(lists) && claims == old(claims) - {token} && index == old(index) - {token}
        else Value() == old(Value())
    {
      if !AcceptsToken(x, token, now) {
        return;
      }
      claims := claims - {token};
      index := index - {token};
    }

    method RecoverScript(token: Token) returns (restored: nat)
      modifies this
      ensures Value() == Recover(old(Value()), token)
      ensures restored == if token in old(claims) then |old(claims)[token].messages| else 0
    {
      if token !in claims {
        index := index - {token};
        return 0;
      }
      var claim := claims[token];
      var x := claim.inbox;
      var i := |claim.messages|;
      while i > 0
        invariant 0 <= i <= |claim.messages|
        invariant Value() == old(Value()).(lists := lists)
        invariant i == |claim.messages| ==> lists == old(lists)
        invariant i < |claim.messages| ==>
          lists == old(lists)[x := claim.messages[i..] + old(Value()).List(x)]
        decreases i
      {
        i := i - 1;
        ghost var before := Value().List(x);
        LPush(x, claim.messages[i]);
        assert [claim.messages[i]] + before == claim.messages[i..] + old(Value()).List(x);
      }
      assert Value().List(x) == claim.messages + old(Value()).List(x);
      LTrim(x);
      claims := claims - {token};
      index := index - {token};
      return |claim.messages|;
    }
  }

  // ---- Runs ----

  type Tally = map<InboxId, multiset<Payload>>

  function Count(t: Tally, x: InboxId): multiset<Payload> {
    if x in t then t[x] else multiset{}
  }

  function Note(t: Tally, x: InboxId, messages: seq<Payload>): Tally {
    t[x := Count(t, x) + multiset(messages)]
  }

  /** The store, the trims still owed by pushes, the tokens a recovery worker has read, and an account of what
      was stored and of how messages and claims left. */
  datatype System = System(
    store: Store,
    owed: multiset<InboxId>,
    listed: set<Token>,
    issued: set<Token>,
    calm: set<Token>,
    acked: set<Token>,
    restored: set<Token>,
    stored: Tally,
    confirmed: Tally,
    trimmed: Tally,
    expired: Tally)

  const INITIAL :=
    System(Store(map[], map[], map[]), multiset{}, {}, {}, {}, {}, {}, map[], map[], map[], map[])

  datatype Step =
    | DoPush(x: InboxId, message: Payload)
    | DoTrim(x: InboxId)
    | DoExpire(x: InboxId)
    | DoFetch(x: InboxId, now: nat)
    | DoAck(x: InboxId, token: Token, now: nat)
    | DoList(now: nat)
    | DoRecover(token: Token)

  /** A fetch finds its list empty or its token not held. */
  predicate Careful(y: System, step: Step) {
    step.DoFetch? ==> y.store.List(step.x) == [] || Token(step.x, step.now) !in y.store.claims
  }

  /** The usual run: no inbox is fetched twice in one second; a trim follows its push; a worker recovers only what it
      has read. */
  predicate Enabled(y: System, step: Step) {
    match step
    case DoTrim(x) => x in y.owed
    case DoFetch(x, now) => Token(x, now) !in y.issued
    case DoRecover(token) => token in y.listed
    case _ => true
  }

  function AfterPush(y: System, x: InboxId, message: Payload): System {
    y.(store := Push(y.store, x, message), owed := y.owed + multiset{x}, stored := Note(y.stored, x, [message]))
  }

  function AfterTrim(y: System, x: InboxId): System {
    y.(store := Trim(y.store, x), owed := y.owed - multiset{x}, trimmed := Note(y.trimmed, x, Cut(y.store.List(x))))
  }

  function AfterExpire(y: System, x: InboxId): System {
    y.(store := Expire(y.store, x), expired := Note(y.expired, x, y.store.List(x)))
  }

  function AfterFetch(y: System, x: InboxId, now: nat): System {
    y.(store := Fetch(y.store, x, now), issued := y.issued + {Token(x, now)},
       calm := if x in y.owed then y.calm else y.calm + {Token(x, now)})
  }

  function AfterAck(y: System, x: InboxId, token: Token, now: nat): System {
    if token in y.store.claims && AcceptsToken(x, token, now) then
      var claim := y.store.claims[token];
      y.(store := Ack(y.store, x, token, now), acked := y.acked + {token},
         confirmed := Note(y.confirmed, claim.inbox, claim.messages))
    else
      y.(store := Ack(y.store, x, token, now))
  }

  function AfterList(y: System, now: nat): System {
    y.(listed := y.listed + Overdue(y.store, now))
  }

  function AfterRecover(y: System, token: Token): System {
    if token in y.store.claims then
      var claim := y.store.claims[token];
      y.(store := Recover(y.store, token), restored := y.restored + {token},
         trimmed := Note(y.trimmed, claim.inbox, Cut(claim.messages + y.store.List(claim.inbox))))
    else
      y.(store := Recover(y.store, token))
  }

  function Next(y: System, step: Step): System {
    match step
    case DoPush(x, message) => AfterPush(y, x, message)
    case DoTrim(x) => AfterTrim(y, x)
    case DoExpire(x) => AfterExpire(y, x)
    case DoFetch(x, now) => AfterFetch(y, x, now)
    case DoAck(x, token, now) => AfterAck(y, x, token, now)
    case DoList(now) => AfterList(y, now)
    case DoRecover(token) => AfterRecover(y, token)
  }

  predicate EnabledRun(y: System, steps: seq<Step>)
    decreases |steps|
  {
    steps != [] ==> Enabled(y, steps[0]) && EnabledRun(Next(y, steps[0]), steps[1..])
  }

  predicate CarefulRun(y: System, steps: seq<Step>)
    decreases |steps|
  {
    steps != [] ==> Careful(y, steps[0]) && CarefulRun(Next(y, steps[0]), steps[1..])
  }

  function Run(y: System, steps: seq<Step>): System
    decreases |steps|
  {
    if steps == [] then y else Run(Next(y, steps[0]), steps[1..])
  }

  // ---- What the claims hold for one inbox ----

  function Part(claim: Claim, x: InboxId, v: Payload): nat {
    if claim.inbox == x then multiset(claim.messages)[v] else 0
  }

  /** How many copies of `v` claims hold for inbox `x`. */
  ghost function Held(claims: map<Token, Claim>, x: InboxId, v: Payload): nat {
    if claims == map[] then 0
    else
      var t :| t in claims;
      Part(claims[t], x, v) + Held(claims - {t}, x, v)
  }

  lemma {:induction false} HeldSplit(claims: map<Token, Claim>, x: InboxId, v: Payload, t: Token)
    requires t in claims
    ensures Held(claims, x, v) == Part(claims[t], x, v) + Held(claims - {t}, x, v)
  {
    var u :| u in claims && Held(claims, x, v) == Part(claims[u], x, v) + Held(claims - {u}, x, v);
    if u != t {
      HeldSplit(claims - {u}, x, v, t);
      HeldSplit(claims - {t}, x, v, u);
      assert claims - {u} - {t} == claims - {t} - {u};
    }
  }

  lemma HeldAdd(claims: map<Token, Claim>, x: InboxId, v: Payload, t: Token, claim: Claim)
    requires t !in claims
    ensures Held(claims[t := claim], x, v) == Part(claim, x, v) + Held(claims, x, v)
  {
    HeldSplit(claims[t := claim], x, v, t);
    assert claims[t := claim] - {t} == claims;
  }

  // ---- Invariants ----

  /** How many copies of `v` are accounted for in inbox `x`: in its list, in claims, or gone by one of three ways. */
  ghost function Accounted(y: System, x: InboxId, v: Payload): nat {
    multiset(y.store.List(x))[v] + Held(y.store.claims, x, v)
    + Count(y.confirmed, x)[v] + Count(y.trimmed, x)[v] + Count(y.expired, x)[v]
  }

  /** Every message stored for `x` is in its list or in a claim, or was acknowledged, trimmed or expired: once each. */
  ghost predicate Conserved(y: System, x: InboxId, v: Payload) {
    Count(y.stored, x)[v] == Accounted(y, x, v)
  }

  /** Claim records and claim index go together, and a claim is due 300 seconds after its timestamp. */
  predicate Indexed(s: Store, t: Token) {
    && (t in s.claims <==> t in s.index)
    && (t in s.claims ==>
          s.index[t] == t.timestamp + CLAIM_TTL && s.claims[t].inbox == t.inbox && s.claims[t].messages != [])
  }

  /** A token names at most one claim ever: held, acknowledged or restored, and no two of these. */
  predicate Once(y: System, t: Token) {
    && (t in y.store.claims ==> t in y.issued && t !in y.acked && t !in y.restored)
    && (t in y.acked ==> t in y.issued && t !in y.restored)
    && (t in y.restored ==> t in y.issued)
    && (t in y.calm ==> t in y.issued)
    && (t in y.calm && t in y.store.claims ==> |y.store.claims[t].messages| <= MAX_MESSAGES)
  }

  predicate ClaimOk(y: System, t: Token) {
    Indexed(y.store, t) && Once(y, t)
  }

  /** What holds whether or not a token is used twice. */
  ghost predicate Core(y: System) {
    && (forall t :: Indexed(y.store, t))
    && (forall x :: LengthBounded(y, x))
    && (forall x, v :: Conserved(y, x, v))
  }

  predicate LengthBounded(y: System, x: InboxId) {
    |y.store.List(x)| <= MAX_MESSAGES + y.owed[x]
  }

  ghost predicate Inv(y: System) {
    Core(y) && forall t :: ClaimOk(y, t)
  }

  lemma CutAndKept(list: seq<Payload>, v: Payload)
    ensures multiset(Kept(list))[v] + multiset(Cut(list))[v] == multiset(list)[v]
  {
    assert list == Kept(list) + Cut(list);
  }

  lemma ConcatCount(a: seq<Payload>, b: seq<Payload>, v: Payload)
    ensures multiset(a + b)[v] == multiset(a)[v] + multiset(b)[v]
  {
  }

  lemma NoteAt(t: Tally, x': InboxId, messages: seq<Payload>, x: InboxId, v: Payload)
    ensures Count(Note(t, x', messages), x)[v] == Count(t, x)[v] + if x == x' then multiset(messages)[v] else 0
  {
  }

  lemma PushConserved(y: System, x': InboxId, message: Payload, x: InboxId, v: Payload)
    requires Conserved(y, x, v)
    ensures Conserved(AfterPush(y, x', message), x, v)
  {
    NoteAt(y.stored, x', [message], x, v);
    ConcatCount([message], y.store.List(x'), v);
  }

  lemma TrimConserved(y: System, x': InboxId, x: InboxId, v: Payload)
    requires Conserved(y, x, v)
    ensures Conserved(AfterTrim(y, x'), x, v)
  {
    NoteAt(y.trimmed, x', Cut(y.store.List(x')), x, v);
    CutAndKept(y.store.List(x'), v);
  }

  lemma ExpireConserved(y: System, x': InboxId, x: InboxId, v: Payload)
    requires Conserved(y, x, v)
    ensures Conserved(AfterExpire(y, x'), x, v)
  {
    NoteAt(y.expired, x', y.store.List(x'), x, v);
  }

  lemma FetchConserved(y: System, x': InboxId, now: nat, x: InboxId, v: Payload)
    requires Conserved(y, x, v) && (y.store.List(x') == [] || Token(x', now) !in y.store.claims)
    ensures Conserved(AfterFetch(y, x', now), x, v)
  {
    if y.store.List(x') != [] {
      HeldAdd(y.store.claims, x, v, Token(x', now), Claim(x', y.store.List(x')));
    }
  }

  lemma AckConserved(y: System, x': InboxId, token: Token, now: nat, x: InboxId, v: Payload)
    requires Conserved(y, x, v)
    ensures Conserved(AfterAck(y, x', token, now), x, v)
  {
    if token in y.store.claims {
      var claim := y.store.claims[token];
      HeldSplit(y.store.claims, x, v, token);
      NoteAt(y.confirmed, claim.inbox, claim.messages, x, v);
    } else {
      assert y.store.claims - {token} == y.store.claims;
    }
  }

  lemma RecoverConserved(y: System, token: Token, x: InboxId, v: Payload)
    requires Conserved(y, x, v)
    ensures Conserved(AfterRecover(y, token), x, v)
  {
    if token in y.store.claims {
      var claim := y.store.claims[token];
      var list := claim.messages + y.store.List(claim.inbox);
      HeldSplit(y.store.claims, x, v, token);
      NoteAt(y.trimmed, claim.inbox, Cut(list), x, v);
      CutAndKept(list, v);
      ConcatCount(claim.messages, y.store.List(claim.inbox), v);
      var y' := AfterRecover(y, token);
      assert y'.store.claims == y.store.claims - {token};
      assert y'.store.List(x) == if x == claim.inbox then Kept(list) else y.store.List(x);
    }
  }

  lemma FetchKeepsClaim(y: System, x: InboxId, now: nat, t: Token)
    requires ClaimOk(y, t) && LengthBounded(y, x) && Token(x, now) !in y.issued
    ensures ClaimOk(AfterFetch(y, x, now), t)
  {
  }

  lemma ForgetClaim(s: Store, token: Token, t: Token)
    ensures var s' := Forget(s, token);
      && (t in s'.claims <==> t in s.claims && t != token) && (t in s'.index <==> t in s.index && t != token)
      && (t in s'.claims ==> s'.claims[t] == s.claims[t]) && (t in s'.index ==> s'.index[t] == s.index[t])
  {
  }

  lemma AckKeepsClaim(y: System, x: InboxId, token: Token, now: nat, t: Token)
    requires ClaimOk(y, t)
    ensures ClaimOk(AfterAck(y, x, token, now), t)
  {
    var y' := AfterAck(y, x, token, now);
    if AcceptsToken(x, token, now) {
      ForgetClaim(y.store, token, t);
      assert y'.store == Forget(y.store, token);
    } else {
      assert y' == y;
    }
  }

  lemma RecoverKeepsClaim(y: System, token: Token, t: Token)
    requires ClaimOk(y, t)
    ensures ClaimOk(AfterRecover(y, token), t)
  {
    var y' := AfterRecover(y, token);
    if token in y.store.claims {
      ForgetClaim(y.store, token, t);
      assert y'.store.claims == Forget(y.store, token).claims && y'.store.index == Forget(y.store, token).index;
    } else {
      assert y'.store.claims == y.store.claims && y'.restored == y.restored;
    }
  }

  lemma TrimKeepsLength(y: System, x': InboxId, x: InboxId)
    requires LengthBounded(y, x)
    ensures LengthBounded(AfterTrim(y, x'), x)
  {
  }

  lemma PushKeepsLength(y: System, x': InboxId, message: Payload, x: InboxId)
    requires LengthBounded(y, x)
    ensures LengthBounded(AfterPush(y, x', message), x)
  {
  }

  lemma RecoverKeepsLength(y: System, token: Token, x: InboxId)
    requires LengthBounded(y, x)
    ensures LengthBounded(AfterRecover(y, token), x)
  {
  }

  lemma PushKeepsCore(y: System, x': InboxId, message: Payload)
    requires Core(y)
    ensures Core(AfterPush(y, x', message))
  {
    var after := AfterPush(y, x', message);
    forall t
      ensures Indexed(after.store, t)
    {
      assert Indexed(y.store, t);
    }
    forall x
      ensures LengthBounded(after, x)
    {
      PushKeepsLength(y, x', message, x);
    }
    forall x, v
      ensures Conserved(after, x, v)
    {
      PushConserved(y, x', message, x, v);
    }
  }

  lemma TrimKeepsCore(y: System, x': InboxId)
    requires Core(y)
    ensures Core(AfterTrim(y, x'))
  {
    var after := AfterTrim(y, x');
    forall t
      ensures Indexed(after.store, t)
    {
      assert Indexed(y.store, t);
    }
    forall x
      ensures LengthBounded(after, x)
    {
      TrimKeepsLength(y, x', x);
    }
    forall x, v
      ensures Conserved(after, x, v)
    {
      TrimConserved(y, x', x, v);
    }
  }

  lemma ExpireKeepsCore(y: System, x': InboxId)
    requires Core(y)
    ensures Core(AfterExpire(y, x'))
  {
    var after := AfterExpire(y, x');
    forall t
      ensures Indexed(after.store, t)
    {
      assert Indexed(y.store, t);
    }
    forall x
      ensures LengthBounded(after, x)
    {
      assert LengthBounded(y, x);
    }
    forall x, v
      ensures Conserved(after, x, v)
    {
      ExpireConserved(y, x', x, v);
    }
  }

  lemma FetchKeepsCore(y: System, x': InboxId, now: nat)
    requires Core(y) && Careful(y, DoFetch(x', now))
    ensures Core(AfterFetch(y, x', now))
  {
    var after := AfterFetch(y, x', now);
    forall t
      ensures Indexed(after.store, t)
    {
      assert Indexed(y.store, t);
    }
    forall x
      ensures LengthBounded(after, x)
    {
      assert LengthBounded(y, x);
    }
    forall x, v
      ensures Conserved(after, x, v)
    {
      FetchConserved(y, x', now, x, v);
    }
  }

  lemma AckKeepsCore(y: System, x': InboxId, token: Token, now: nat)
    requires Core(y)
    ensures Core(AfterAck(y, x', token, now))
  {
    var after := AfterAck(y, x', token, now);
    forall t
      ensures Indexed(after.store, t)
    {
      AckIndexed(y.store, x', token, now, t);
    }
    forall x
      ensures LengthBounded(after, x)
    {
      assert LengthBounded(y, x);
    }
    forall x, v
      ensures Conserved(after, x, v)
    {
      AckConserved(y, x', token, now, x, v);
    }
  }

  lemma ListKeepsCore(y: System, now: nat)
    requires Core(y)
    ensures Core(AfterList(y, now))
  {
    var after := AfterList(y, now);
    forall t
      ensures Indexed(after.store, t)
    {
      assert Indexed(y.store, t);
    }
    forall x
      ensures LengthBounded(after, x)
    {
      assert LengthBounded(y, x);
    }
    forall x, v
      ensures Conserved(after, x, v)
    {
      assert Conserved(y, x, v);
    }
  }

  lemma RecoverKeepsCore(y: System, token: Token)
    requires Core(y)
    ensures Core(AfterRecover(y, token))
  {
    var after := AfterRecover(y, token);
    forall t
      ensures Indexed(after.store, t)
    {
      assert Indexed(y.store, t);
      RecoverIndexed(y.store, token, t);
    }
    forall x
      ensures LengthBounded(after, x)
    {
      RecoverKeepsLength(y, token, x);
    }
    forall x, v
      ensures Conserved(after, x, v)
    {
      RecoverConserved(y, token, x, v);
    }
  }

  lemma AckIndexed(s: Store, x: InboxId, token: Token, now: nat, t: Token)
    requires Indexed(s, t)
    ensures Indexed(Ack(s, x, token, now), t)
  {
    ForgetClaim(s, token, t);
  }

  lemma RecoverIndexed(s: Store, token: Token, t: Token)
    requires Indexed(s, t) && Indexed(s, token)
    ensures Indexed(Recover(s, token), t)
  {
    ForgetClaim(s, token, t);
  }

  lemma StepKeepsCore(y: System, step: Step)
    requires Core(y) && Careful(y, step)
    ensures Core(Next(y, step))
  {
    match step
    case DoPush(x, message) => PushKeepsCore(y, x, message);
    case DoTrim(x) => TrimKeepsCore(y, x);
    case DoExpire(x) => ExpireKeepsCore(y, x);
    case DoFetch(x, now) => FetchKeepsCore(y, x, now);
    case DoAck(x, token, now) => AckKeepsCore(y, x, token, now);
    case DoList(now) => ListKeepsCore(y, now);
    case DoRecover(token) => RecoverKeepsCore(y, token);
  }

  lemma StepKeepsClaim(y: System, step: Step, t: Token)
    requires ClaimOk(y, t) && Enabled(y, step) && (step.DoFetch? ==> LengthBounded(y, step.x))
    ensures ClaimOk(Next(y, step), t)
  {
    match step
    case DoFetch(x, now) => FetchKeepsClaim(y, x, now, t);
    case DoAck(x, token, now) => AckKeepsClaim(y, x, token, now, t);
    case DoRecover(token) => RecoverKeepsClaim(y, token, t);
    case _ =>
  }

  /** A token that was never issued is not held. */
  lemma EnabledIsCareful(y: System, step: Step)
    requires Inv(y) && Enabled(y, step)
    ensures Careful(y, step)
  {
    if step.DoFetch? {
      assert ClaimOk(y, Token(step.x, step.now));
    }
  }

  lemma StepKeepsInv(y: System, step: Step)
    requires Inv(y) && Enabled(y, step)
    ensures Inv(Next(y, step))
  {
    EnabledIsCareful(y, step);
    StepKeepsCore(y, step);
    forall t
      ensures ClaimOk(Next(y, step), t)
    {
      assert step.DoFetch? ==> LengthBounded(y, step.x);
      StepKeepsClaim(y, step, t);
    }
  }

  lemma {:induction false} RunKeepsInv(y: System, steps: seq<Step>)
    requires Inv(y) && EnabledRun(y, steps)
    ensures Inv(Run(y, steps))
    decreases |steps|
  {
    if steps != [] {
      StepKeepsInv(y, steps[0]);
      RunKeepsInv(Next(y, steps[0]), steps[1..]);
    }
  }

  lemma {:induction false} RunKeepsCore(y: System, steps: seq<Step>)
    requires Core(y) && CarefulRun(y, steps)
    ensures Core(Run(y, steps))
    decreases |steps|
  {
    if steps != [] {
      StepKeepsCore(y, steps[0]);
      RunKeepsCore(Next(y, steps[0]), steps[1..]);
    }
  }

  lemma InitialCore()
    ensures Core(INITIAL)
  {
  }

  /** In every interleaving in which no fetch finds both a message and its token held: no message is lost or
      invented, lists and claims stay within their bounds, and claim records and claim index name the same tokens. */
  lemma InboxSafety(steps: seq<Step>, x: InboxId)
    requires CarefulRun(INITIAL, steps)
    ensures var y := Run(INITIAL, steps);
      && (forall v :: Conserved(y, x, v))
      && |y.store.List(x)| <= 100 + y.owed[x]
      && y.store.claims.Keys == y.store.index.Keys
  {
    InitialCore();
    RunKeepsCore(INITIAL, steps);
    var y := Run(INITIAL, steps);
    assert LengthBounded(y, x);
    assert forall t :: Indexed(y.store, t) ==> (t in y.store.claims.Keys <==> t in y.store.index.Keys);
  }

  ghost predicate AllConserved(y: System) {
    forall x, v :: Conserved(y, x, v)
  }

  /** Nothing is lost or invented at any moment of the run. */
  ghost predicate AlwaysConserved(y: System, steps: seq<Step>)
    decreases |steps|
  {
    AllConserved(y) && (steps != [] ==> AlwaysConserved(Next(y, steps[0]), steps[1..]))
  }

  /** One step: conservation is kept exactly if the step is careful. */
  lemma StepConservedIff(y: System, step: Step)
    requires Core(y)
    ensures AllConserved(Next(y, step)) <==> Careful(y, step)
  {
    if Careful(y, step) {
      StepKeepsCore(y, step);
    } else {
      assert Next(y, step) == AfterFetch(y, step.x, step.now);
      FetchConservesIff(y, step.x, step.now);
    }
  }

  /** Every interleaving: nothing is lost or invented at any moment if and only if every fetch finds its list empty or
      its token not held. */
  lemma {:induction false} ConservedIffCareful(y: System, steps: seq<Step>)
    requires Core(y)
    ensures AlwaysConserved(y, steps) <==> CarefulRun(y, steps)
    decreases |steps|
  {
    if steps != [] {
      StepConservedIff(y, steps[0]);
      if Careful(y, steps[0]) {
        StepKeepsCore(y, steps[0]);
        ConservedIffCareful(Next(y, steps[0]), steps[1..]);
      }
    }
  }

  /** From the empty store. */
  lemma InboxConservedIff(steps: seq<Step>)
    ensures AlwaysConserved(INITIAL, steps) <==> CarefulRun(INITIAL, steps)
  {
    InitialCore();
    ConservedIffCareful(INITIAL, steps);
  }

  // ---- What happens to one claim ----

  lemma {:induction false} SettledStays(y: System, steps: seq<Step>, t: Token)
    requires Inv(y) && EnabledRun(y, steps)
    requires t in y.acked || t in y.restored
    ensures var y' := Run(y, steps);
      && t !in y'.store.claims
      && (t in y.acked ==> t in y'.acked && t !in y'.restored)
      && (t in y.restored ==> t in y'.restored && t !in y'.acked)
    decreases |steps|
  {
    assert ClaimOk(y, t);
    if steps != [] {
      StepKeepsInv(y, steps[0]);
      SettledStays(Next(y, steps[0]), steps[1..], t);
    }
  }

  /** Once acknowledged or restored, a claim is never put back by a later recovery. */
  lemma NeverRestoredAgain(y: System, steps: seq<Step>, t: Token)
    requires Inv(y) && EnabledRun(y, steps)
    requires t in y.acked || t in y.restored
    ensures var y' := Run(y, steps);
      Next(y', DoRecover(t)).store.lists == y'.store.lists
  {
    SettledStays(y, steps, t);
  }

  lemma ListedAfterDeadline(y: System, now: nat, t: Token)
    requires ClaimOk(y, t) && t in AfterList(y, now).listed && t !in y.listed
    ensures t.timestamp + CLAIM_TTL <= now
  {
  }

  /** One step lists a claim only if it is a listing past the deadline, and restores only listed claims. */
  lemma StepLists(y: System, step: Step, t: Token)
    requires ClaimOk(y, t) && Enabled(y, step) && t !in y.listed && t !in y.restored
    ensures t !in Next(y, step).restored
    ensures t in Next(y, step).listed ==> step.DoList? && t.timestamp + CLAIM_TTL <= step.now
  {
    if step.DoList? && t in Next(y, step).listed {
      ListedAfterDeadline(y, step.now, t);
    }
  }

  /** A claim is restored only after some listing at or past its deadline. */
  lemma {:induction false} RestoredAfterDeadline(y: System, steps: seq<Step>, t: Token)
    requires Inv(y) && EnabledRun(y, steps)
    requires t !in y.listed && t !in y.restored
    requires t in Run(y, steps).listed || t in Run(y, steps).restored
    ensures exists i :: 0 <= i < |steps| && steps[i].DoList? && t.timestamp + 300 <= steps[i].now
    decreases |steps|
  {
    assert ClaimOk(y, t);
    StepLists(y, steps[0], t);
    if t !in Next(y, steps[0]).listed {
      StepKeepsInv(y, steps[0]);
      RestoredAfterDeadline(Next(y, steps[0]), steps[1..], t);
      var i :| 0 <= i < |steps[1..]| && steps[1..][i].DoList? && t.timestamp + CLAIM_TTL <= steps[1..][i].now;
      assert steps[i + 1] == steps[1..][i];
    }
  }

  /** A claim taken with no push in flight goes back whole, in its order, in front of what has come since. */
  lemma RestoredWhole(y: System, t: Token)
    requires Inv(y) && t in y.store.claims && t in y.calm
    ensures var claim := y.store.claims[t];
      var list := Next(y, DoRecover(t)).store.List(t.inbox);
      && |claim.messages| <= |list| <= 100
      && list[..|claim.messages|] == claim.messages
      && list[|claim.messages|..] <= y.store.List(t.inbox)
  {
    assert ClaimOk(y, t);
    var claim := y.store.claims[t];
    var list := Next(y, DoRecover(t)).store.List(t.inbox);
    assert list == Kept(claim.messages + y.store.List(t.inbox));
  }

  /** Without the one-fetch-per-second rule: a fetch keeps every message exactly when the list is empty or the
      token is not already held. */
  lemma FetchConservesIff(y: System, x: InboxId, now: nat)
    requires Indexed(y.store, Token(x, now)) && (forall v :: Conserved(y, x, v))
    ensures (forall v :: Conserved(AfterFetch(y, x, now), x, v)) <==>
      (y.store.List(x) == [] || Token(x, now) !in y.store.claims)
  {
    var token := Token(x, now);
    if y.store.List(x) != [] && token in y.store.claims {
      FetchLosesHeld(y, x, now, y.store.claims[token].messages[0]);
    } else {
      forall v
        ensures Conserved(AfterFetch(y, x, now), x, v)
      {
        FetchConserved(y, x, now, x, v);
      }
    }
  }

  lemma FetchLosesHeld(y: System, x: InboxId, now: nat, v: Payload)
    requires Conserved(y, x, v) && y.store.List(x) != [] && Token(x, now) in y.store.claims
    requires y.store.claims[Token(x, now)].inbox == x && v in y.store.claims[Token(x, now)].messages
    ensures !Conserved(AfterFetch(y, x, now), x, v)
  {
    var token, list, claims := Token(x, now), y.store.List(x), y.store.claims;
    HeldSplit(claims, x, v, token);
    HeldSplit(claims[token := Claim(x, list)], x, v, token);
    assert claims[token := Claim(x, list)] - {token} == claims - {token};
    assert v in multiset(claims[token].messages);
  }

  lemma RunThree(y: System, s1: Step, s2: Step, s3: Step)
    requires Enabled(y, s1) && Enabled(Next(y, s1), s2) && Enabled(Next(Next(y, s1), s2), s3)
    ensures EnabledRun(y, [s1, s2, s3]) && Run(y, [s1, s2, s3]) == Next(Next(Next(y, s1), s2), s3)
  {
    var y1, y2 := Next(y, s1), Next(Next(y, s1), s2);
    assert [s1, s2, s3][1..] == [s2, s3] && [s2, s3][1..] == [s3] && [s3][1..] == [];
    assert EnabledRun(Next(y2, s3), []) && EnabledRun(y2, [s3]) && EnabledRun(y1, [s2, s3]);
    assert Run(y2, [s3]) == Next(y2, s3) && Run(y1, [s2, s3]) == Run(y2, [s3]);
  }

  /** A message claimed, then another stored: the list and the claim hold one each. */
  lemma ClaimThenPush(x: InboxId, a: Payload, b: Payload, now: nat)
    ensures var y := AfterPush(AfterFetch(AfterPush(INITIAL, x, a), x, now), x, b);
      && y.store.List(x) == [b]
      && Token(x, now) in y.store.claims && y.store.claims[Token(x, now)] == Claim(x, [a])
  {
  }

  /** A second fetch under a held token loses what the claim held. */
  lemma HeldThenFetch(y: System, x: InboxId, a: Payload, now: nat)
    requires Inv(y) && y.store.List(x) != []
    requires Token(x, now) in y.store.claims && y.store.claims[Token(x, now)] == Claim(x, [a])
    ensures !Conserved(AfterFetch(y, x, now), x, a)
  {
    assert Conserved(y, x, a);
    FetchLosesHeld(y, x, now, a);
  }

  /** A run that ends with a message claimed and another one stored in the same second. */
  lemma HeldReached(x: InboxId, a: Payload, b: Payload, now: nat) returns (steps: seq<Step>)
    ensures EnabledRun(INITIAL, steps)
    ensures var y := Run(INITIAL, steps);
      && y.store.List(x) == [b]
      && Token(x, now) in y.store.claims && y.store.claims[Token(x, now)] == Claim(x, [a])
  {
    steps := [DoPush(x, a), DoFetch(x, now), DoPush(x, b)];
    RunThree(INITIAL, DoPush(x, a), DoFetch(x, now), DoPush(x, b));
    ClaimThenPush(x, a, b, now);
  }

  /** Two fetches of one inbox in one second, with a message stored before each: the first message is lost. */
  lemma SecondFetchLoses(x: InboxId, a: Payload, b: Payload, now: nat) returns (steps: seq<Step>)
    ensures EnabledRun(INITIAL, steps) && Run(INITIAL, steps).store.List(x) == [b]
    ensures !Conserved(AfterFetch(Run(INITIAL, steps), x, now), x, a)
  {
    steps := HeldReached(x, a, b, now);
    RunKeepsInv(INITIAL, steps);
    HeldThenFetch(Run(INITIAL, steps), x, a, now);
  }
}
