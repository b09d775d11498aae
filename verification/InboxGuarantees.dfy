/** What the inbox promises its users: the newest hundred messages are kept, an acknowledgement in time settles its
    claim for good, and a claim nobody acknowledged comes back once it is due. */
module InboxGuarantees {
  import opened Inbox

  /** `list` is the first hundred of `all`, or all of it. */
  predicate FirstHundred(list: seq<Payload>, all: seq<Payload>) {
    list <= all && |list| == if |all| <= 100 then |all| else 100
  }

  predicate SameClaims(s: Store, s': Store) {
    s'.claims == s.claims && s'.index == s.index
  }

  ghost predicate OtherLists(s: Store, s': Store, x: InboxId) {
    forall z :: z != x ==> s'.List(z) == s.List(z)
  }

  /** Token `t` names nothing any more, and every other token what it did. */
  ghost predicate Dropped(s: Store, s': Store, t: Token) {
    && t !in s'.claims && t !in s'.index
    && (forall u :: u != t ==> (u in s'.claims <==> u in s.claims) && (u in s'.index <==> u in s.index))
    && (forall u :: u in s'.claims ==> s'.claims[u] == s.claims[u])
    && (forall u :: u in s'.index ==> s'.index[u] == s.index[u])
  }

  // ---- The commands ----

  /** Storing puts the new message first and keeps at most a hundred: only the oldest go. */
  lemma StoreKeepsNewest(s: Store, x: InboxId, message: Payload)
    ensures var s' := Trim(Push(s, x, message), x);
      && FirstHundred(s'.List(x), [message] + s.List(x)) && s'.List(x)[0] == message
      && OtherLists(s, s', x) && SameClaims(s, s')
  {
  }

  /** A fetch empties the list; what was in it is claimed for 300 seconds under the inbox and the second. */
  lemma FetchClaims(s: Store, x: InboxId, now: nat)
    ensures var s' := Fetch(s, x, now);
      && s'.List(x) == [] && OtherLists(s, s', x)
      && (s.List(x) == [] ==> SameClaims(s, s'))
      && (s.List(x) != [] ==>
            && s'.claims == s.claims[Token(x, now) := Claim(x, s.List(x))]
            && s'.index == s.index[Token(x, now) := now + 300])
  {
  }

  /** An acknowledgement made for the token's inbox, no more than 300 seconds after its time and no more than 60
      before, drops the claim and its index entry and nothing else. Any other changes nothing. */
  lemma AckInSpan(s: Store, x: InboxId, z: InboxId, t: nat, now: nat)
    ensures var s' := Ack(s, x, Token(z, t), now);
      if z == x && t <= now + 60 && now <= t + 300 then s'.lists == s.lists && Dropped(s, s', Token(z, t)) else s' == s
  {
    ForgetAll(s, Token(z, t));
  }

  lemma ForgetAll(s: Store, t: Token)
    ensures Dropped(s, Forget(s, t), t)
  {
    forall u
      ensures var s' := Forget(s, t);
        && (u in s'.claims <==> u in s.claims && u != t) && (u in s'.index <==> u in s.index && u != t)
        && (u in s'.claims ==> s'.claims[u] == s.claims[u]) && (u in s'.index ==> s'.index[u] == s.index[u])
    {
      ForgetClaim(s, t, u);
    }
  }

  /** A recovery puts a claim's messages back in front and keeps the first hundred; the claim and its index entry are
      gone, the entry also when there was no claim. */
  lemma RecoverPutsBack(s: Store, t: Token)
    requires t in s.claims ==> s.claims[t].inbox == t.inbox
    ensures var s' := Recover(s, t);
      && Dropped(s, s', t) && OtherLists(s, s', t.inbox)
      && (t !in s.claims ==> s'.lists == s.lists)
      && (t in s.claims ==> FirstHundred(s'.List(t.inbox), s.claims[t].messages + s.List(t.inbox)))
  {
    ForgetAll(s, t);
    var s' := Recover(s, t);
    if t in s.claims {
      assert s'.claims == Forget(s, t).claims && s'.index == Forget(s, t).index;
    }
  }

  /** What an acknowledgement does to the account. */
  lemma AckSettles(y: System, x: InboxId, t: Token, now: nat)
    ensures var y' := AfterAck(y, x, t, now);
      if t in y.store.claims && t.inbox == x && t.timestamp <= now + 60 && now <= t.timestamp + 300 then
        y' == y.(store := Forget(y.store, t), acked := y.acked + {t},
                 confirmed := Note(y.confirmed, y.store.claims[t].inbox, y.store.claims[t].messages))
      else
        y' == y.(store := Ack(y.store, x, t, now))
  {
  }

  /** A message is confirmed only by an acknowledgement in time of a claim of its inbox. */
  lemma ConfirmedOnlyBy(y: System, step: Step, x: InboxId)
    requires step.DoAck? ==> Indexed(y.store, step.token)
    ensures Count(Next(y, step).confirmed, x) != Count(y.confirmed, x) ==>
      && step.DoAck? && step.x == x && step.token in y.store.claims
      && step.token.timestamp <= step.now + 60 && step.now <= step.token.timestamp + 300
  {
    match step
    case DoAck(x', token, now) =>
      AckSettles(y, x', token, now);
      if token in y.store.claims && x' != x {
        NoteOther(y.confirmed, x', y.store.claims[token].messages, x);
      }
    case _ =>
  }

  lemma NoteOther(t: Tally, x': InboxId, messages: seq<Payload>, x: InboxId)
    requires x != x'
    ensures Count(Note(t, x', messages), x) == Count(t, x)
  {
  }

  /** A message is pushed out only when its inbox would hold more than a hundred. */
  lemma TrimmedOnlyBy(y: System, step: Step, x: InboxId)
    requires step.DoRecover? ==> Indexed(y.store, step.token)
    ensures Count(Next(y, step).trimmed, x) != Count(y.trimmed, x) ==>
      || (step == DoTrim(x) && |y.store.List(x)| > 100)
      || (step.DoRecover? && step.token.inbox == x && step.token in y.store.claims
          && |y.store.claims[step.token].messages| + |y.store.List(x)| > 100)
  {
    match step
    case DoTrim(x') =>
    case DoAck(x', token, now) => AckSettles(y, x', token, now);
    case DoRecover(token) =>
    case _ =>
  }

  /** A message expires only with the list of its inbox. */
  lemma ExpiredOnlyBy(y: System, step: Step, x: InboxId)
    ensures Count(Next(y, step).expired, x) != Count(y.expired, x) ==> step == DoExpire(x)
  {
    match step
    case DoExpire(x') =>
    case DoAck(x', token, now) => AckSettles(y, x', token, now);
    case _ =>
  }

  // ---- An acknowledgement in time settles a claim ----

  /** Claim `t` holds `messages` still, or they have been confirmed. */
  predicate HeldOrConfirmed(y: System, t: Token, messages: seq<Payload>) {
    || (t in y.store.claims && y.store.claims[t] == Claim(t.inbox, messages))
    || (t in y.acked && multiset(messages) <= Count(y.confirmed, t.inbox))
  }

  lemma ConfirmedGrows(t: Tally, x': InboxId, messages: seq<Payload>, x: InboxId)
    ensures Count(t, x) <= Count(Note(t, x', messages), x)
  {
  }

  lemma AckHolds(y: System, x: InboxId, token: Token, now: nat, t: Token, messages: seq<Payload>)
    requires HeldOrConfirmed(y, t, messages)
    ensures HeldOrConfirmed(AfterAck(y, x, token, now), t, messages)
  {
    AckSettles(y, x, token, now);
    ForgetClaim(y.store, token, t);
    if token in y.store.claims {
      ConfirmedGrows(y.confirmed, y.store.claims[token].inbox, y.store.claims[token].messages, t.inbox);
    }
  }

  lemma RecoverHolds(y: System, token: Token, t: Token, messages: seq<Payload>)
    requires HeldOrConfirmed(y, t, messages) && t != token
    ensures HeldOrConfirmed(AfterRecover(y, token), t, messages)
  {
    ForgetClaim(y.store, token, t);
    var y' := AfterRecover(y, token);
    assert y'.store.claims == if token in y.store.claims then Forget(y.store, token).claims else y.store.claims;
  }

  lemma StepHolds(y: System, step: Step, t: Token, messages: seq<Payload>)
    requires ClaimOk(y, t) && Enabled(y, step) && step != DoRecover(t) && HeldOrConfirmed(y, t, messages)
    ensures HeldOrConfirmed(Next(y, step), t, messages)
  {
    match step
    case DoFetch(x, now) => assert t in y.store.claims ==> t != Token(x, now);
    case DoAck(x, token, now) => AckHolds(y, x, token, now, t, messages);
    case DoRecover(token) => RecoverHolds(y, token, t, messages);
    case _ =>
  }

  lemma {:induction false} RunHolds(y: System, steps: seq<Step>, t: Token, messages: seq<Payload>)
    requires Inv(y) && EnabledRun(y, steps) && DoRecover(t) !in steps && HeldOrConfirmed(y, t, messages)
    ensures HeldOrConfirmed(Run(y, steps), t, messages)
    decreases |steps|
  {
    if steps != [] {
      assert ClaimOk(y, t);
      StepHolds(y, steps[0], t, messages);
      StepKeepsInv(y, steps[0]);
      RunHolds(Next(y, steps[0]), steps[1..], t, messages);
    }
  }

  lemma AckConfirms(y: System, t: Token, messages: seq<Payload>, now: nat)
    requires HeldOrConfirmed(y, t, messages) && t.timestamp <= now + 60 && now <= t.timestamp + 300
    ensures var y' := Next(y, DoAck(t.inbox, t, now));
      t in y'.acked && multiset(messages) <= Count(y'.confirmed, t.inbox)
  {
    AckSettles(y, t.inbox, t, now);
    ConfirmedGrows(y.confirmed, t.inbox, messages, t.inbox);
  }

  /** A claim taken at second `t` and acknowledged in time, before any recovery of it: its messages are confirmed, and
      no later recovery ever puts them back. */
  lemma AckedForGood(before: seq<Step>, x: InboxId, t: nat, wait: seq<Step>, now: nat, after: seq<Step>)
    requires EnabledRun(INITIAL, before)
    requires var y := Run(INITIAL, before);
      && y.store.List(x) != [] && Enabled(y, DoFetch(x, t))
      && EnabledRun(Next(y, DoFetch(x, t)), wait) && DoRecover(Token(x, t)) !in wait
      && t <= now + 60 && now <= t + 300
      && EnabledRun(Next(Run(Next(y, DoFetch(x, t)), wait), DoAck(x, Token(x, t), now)), after)
    ensures var y := Run(INITIAL, before);
      var acked := Next(Run(Next(y, DoFetch(x, t)), wait), DoAck(x, Token(x, t), now));
      var last := Run(acked, after);
      && multiset(y.store.List(x)) <= Count(acked.confirmed, x)
      && Token(x, t) !in last.store.claims && Token(x, t) !in last.restored
      && Next(last, DoRecover(Token(x, t))).store.lists == last.store.lists
  {
    InitialCore();
    RunKeepsInv(INITIAL, before);
    var y, token := Run(INITIAL, before), Token(x, t);
    var claimed := Next(y, DoFetch(x, t));
    StepKeepsInv(y, DoFetch(x, t));
    RunHolds(claimed, wait, token, y.store.List(x));
    RunKeepsInv(claimed, wait);
    var waited := Run(claimed, wait);
    AckConfirms(waited, token, y.store.List(x), now);
    StepKeepsInv(waited, DoAck(x, token, now));
    var acked := Next(waited, DoAck(x, token, now));
    SettledStays(acked, after, token);
    NeverRestoredAgain(acked, after, token);
  }

  // ---- A claim nobody acknowledged comes back ----

  /** A held claim is listed exactly from 300 seconds after it was taken. */
  lemma ListedWhenDue(y: System, t: Token, now: nat)
    requires Indexed(y.store, t) && t in y.store.claims && t !in y.listed
    ensures t in Next(y, DoList(now)).listed <==> t.timestamp + 300 <= now
  {
  }

  /** A step that neither acknowledges `t` for its inbox nor recovers it. */
  predicate Leaves(step: Step, t: Token) {
    step != DoRecover(t) && (step.DoAck? ==> step.token != t)
  }

  lemma StepLeavesClaim(y: System, step: Step, t: Token)
    requires ClaimOk(y, t) && Enabled(y, step) && Leaves(step, t) && t in y.store.claims && t in y.listed
    ensures var y' := Next(y, step);
      t in y'.listed && t in y'.store.claims && y'.store.claims[t] == y.store.claims[t]
  {
    match step
    case DoFetch(x, now) => assert t != Token(x, now);
    case DoAck(x, token, now) =>
      AckSettles(y, x, token, now);
      ForgetClaim(y.store, token, t);
    case DoRecover(token) =>
      ForgetClaim(y.store, token, t);
      assert token in y.store.claims ==> Next(y, step).store.claims == Forget(y.store, token).claims;
    case _ =>
  }

  lemma {:induction false} RunLeavesClaim(y: System, steps: seq<Step>, t: Token)
    requires Inv(y) && EnabledRun(y, steps) && t in y.store.claims && t in y.listed
    requires forall i :: 0 <= i < |steps| ==> Leaves(steps[i], t)
    ensures var y' := Run(y, steps);
      t in y'.listed && t in y'.store.claims && y'.store.claims[t] == y.store.claims[t]
    decreases |steps|
  {
    if steps != [] {
      assert ClaimOk(y, t);
      StepLeavesClaim(y, steps[0], t);
      StepKeepsInv(y, steps[0]);
      RunLeavesClaim(Next(y, steps[0]), steps[1..], t);
    }
  }

  /** A claim found due and left alone can be recovered, and its messages are then at the head of their inbox. */
  lemma DueComesBack(before: seq<Step>, t: Token, now: nat, wait: seq<Step>)
    requires EnabledRun(INITIAL, before)
    requires var y := Run(INITIAL, before);
      && t in y.store.claims && t.timestamp + 300 <= now && EnabledRun(Next(y, DoList(now)), wait)
    requires forall i :: 0 <= i < |wait| ==> Leaves(wait[i], t)
    ensures var y := Run(INITIAL, before);
      var last := Run(Next(y, DoList(now)), wait);
      && Enabled(last, DoRecover(t))
      && FirstHundred(Next(last, DoRecover(t)).store.List(t.inbox),
                      y.store.claims[t].messages + last.store.List(t.inbox))
  {
    InitialCore();
    RunKeepsInv(INITIAL, before);
    var y := Run(INITIAL, before);
    assert ClaimOk(y, t);
    var due := Next(y, DoList(now));
    StepKeepsInv(y, DoList(now));
    RunLeavesClaim(due, wait, t);
    RunKeepsInv(due, wait);
    var last := Run(due, wait);
    assert ClaimOk(last, t);
    RecoverPutsBack(last.store, t);
  }
}
