/**
 * The token-bucket rate limiter, over `real` for the source's floats, and the simple rule it refines: in no
 * window of time is more granted than a full bucket plus what the window refills.
 */
module TokenBucketSpec {
  datatype Bucket = Bucket(capacity: nat, tokens: real, refillRate: real, lastRefill: real)
  datatype Grant = Grant(time: real, amount: nat)
  datatype Request = Request(time: real, amount: nat)

  function Created(capacity: nat, refillRate: real, now: real): Bucket {
    Bucket(capacity, capacity as real, refillRate, now)
  }

  /** What the time since the last refill earns; a clock that stands still or goes back earns nothing. */
  function Gain(b: Bucket, now: real): real {
    if now > b.lastRefill then (now - b.lastRefill) * b.refillRate else 0.0
  }

  function Min(x: real, y: real): real {
    if x <= y then x else y
  }

  function Refilled(b: Bucket, now: real): Bucket {
    b.(tokens := Min(b.tokens + Gain(b, now), b.capacity as real), lastRefill := now)
  }

  predicate Admits(b: Bucket, r: Request) {
    Refilled(b, r.time).tokens >= r.amount as real
  }

  function Consumed(b: Bucket, r: Request): Bucket {
    var refilled := Refilled(b, r.time);
    if Admits(b, r) then refilled.(tokens := refilled.tokens - r.amount as real) else refilled
  }

  // ---- The simple specification ----

  /** What was granted at time `s` or later. */
  function GrantedSince(grants: seq<Grant>, s: real): (total: real)
    ensures total >= 0.0
  {
    if grants == [] then 0.0
    else
      var last := grants[|grants| - 1];
      GrantedSince(grants[..|grants| - 1], s) + if last.time >= s then last.amount as real else 0.0
  }

  /** What a bucket that was full at time `s` would hold at `now`, were it not capped after `s`. */
  function Allowance(capacity: nat, refillRate: real, grants: seq<Grant>, s: real, now: real): real {
    capacity as real + (now - s) * refillRate - GrantedSince(grants, s)
  }

  ghost predicate Bounded(b: Bucket, start: real, grants: seq<Grant>) {
    forall s :: start <= s <= b.lastRefill ==> b.tokens <= Allowance(b.capacity, b.refillRate, grants, s, b.lastRefill)
  }

  ghost predicate Attained(b: Bucket, start: real, grants: seq<Grant>) {
    exists s :: start <= s <= b.lastRefill && b.tokens == Allowance(b.capacity, b.refillRate, grants, s, b.lastRefill)
  }

  /** The level is the minimum, over every moment since the start, of the allowance from that moment. */
  ghost predicate IsMinimum(b: Bucket, start: real, grants: seq<Grant>) {
    && start <= b.lastRefill
    && (forall g :: g in grants ==> g.time <= b.lastRefill)
    && Bounded(b, start, grants)
    && Attained(b, start, grants)
  }

  // ---- Runs ----

  datatype History = History(bucket: Bucket, grants: seq<Grant>)

  function Step(h: History, r: Request): History {
    History(Consumed(h.bucket, r),
            if Admits(h.bucket, r) then h.grants + [Grant(r.time, r.amount)] else h.grants)
  }

  function Run(capacity: nat, refillRate: real, start: real, requests: seq<Request>): History {
    if requests == [] then History(Created(capacity, refillRate, start), [])
    else Step(Run(capacity, refillRate, start, requests[..|requests| - 1]), requests[|requests| - 1])
  }

  function LastTime(start: real, requests: seq<Request>): real {
    if requests == [] then start else requests[|requests| - 1].time
  }

  /** The clock is monotonic. */
  predicate InOrder(start: real, requests: seq<Request>) {
    requests == [] ||
    var before := requests[..|requests| - 1];
    InOrder(start, before) && LastTime(start, before) <= requests[|requests| - 1].time
  }

  lemma {:induction false} NoneSince(grants: seq<Grant>, s: real)
    requires forall g :: g in grants ==> g.time < s
    ensures GrantedSince(grants, s) == 0.0
  {
    if grants != [] {
      NoneSince(grants[..|grants| - 1], s);
    }
  }

  lemma Product(x: real, y: real)
    requires x >= 0.0 && y >= 0.0
    ensures x * y >= 0.0
  {
  }

  lemma AllowanceLater(b: Bucket, grants: seq<Grant>, s: real, last: real, now: real)
    ensures Allowance(b.capacity, b.refillRate, grants, s, now)
         == Allowance(b.capacity, b.refillRate, grants, s, last) + (now - last) * b.refillRate
  {
  }

  lemma RefillBounded(b: Bucket, start: real, grants: seq<Grant>, now: real, s: real)
    requires IsMinimum(b, start, grants) && b.refillRate >= 0.0 && start <= s <= now && b.lastRefill <= now
    ensures Refilled(b, now).tokens <= Allowance(b.capacity, b.refillRate, grants, s, now)
  {
    if s <= b.lastRefill {
      assert b.tokens <= Allowance(b.capacity, b.refillRate, grants, s, b.lastRefill);
      AllowanceLater(b, grants, s, b.lastRefill, now);
    } else {
      NoneSince(grants, s);
      Product(now - s, b.refillRate);
    }
  }

  lemma LevelMovesOn(b: Bucket, grants: seq<Grant>, m: real, now: real)
    requires b.tokens == Allowance(b.capacity, b.refillRate, grants, m, b.lastRefill) && b.lastRefill <= now
    requires b.tokens + Gain(b, now) <= b.capacity as real
    ensures Refilled(b, now).tokens == Allowance(b.capacity, b.refillRate, grants, m, now)
  {
    AllowanceLater(b, grants, m, b.lastRefill, now);
  }

  lemma FilledUp(b: Bucket, grants: seq<Grant>, now: real)
    requires b.tokens <= b.capacity as real && b.tokens + Gain(b, now) > b.capacity as real
    requires forall g :: g in grants ==> g.time <= b.lastRefill
    ensures Refilled(b, now).tokens == Allowance(b.capacity, b.refillRate, grants, now, now)
  {
    NoneSince(grants, now);
  }

  /** The moment whose allowance the level equals: an earlier one, or now if the bucket has filled up. */
  lemma RefillAttained(b: Bucket, start: real, grants: seq<Grant>, now: real) returns (m: real)
    requires IsMinimum(b, start, grants) && b.lastRefill <= now
    ensures start <= m <= now && Refilled(b, now).tokens == Allowance(b.capacity, b.refillRate, grants, m, now)
  {
    if b.tokens + Gain(b, now) <= b.capacity as real {
      m :| start <= m <= b.lastRefill && b.tokens == Allowance(b.capacity, b.refillRate, grants, m, b.lastRefill);
      LevelMovesOn(b, grants, m, now);
    } else {
      assert b.tokens <= Allowance(b.capacity, b.refillRate, grants, b.lastRefill, b.lastRefill);
      m := now;
      FilledUp(b, grants, now);
    }
  }

  lemma RefillKeepsMinimum(b: Bucket, start: real, grants: seq<Grant>, now: real)
    requires IsMinimum(b, start, grants) && b.refillRate >= 0.0 && b.lastRefill <= now
    ensures IsMinimum(Refilled(b, now), start, grants)
  {
    var after := Refilled(b, now);
    forall s | start <= s <= now
      ensures after.tokens <= Allowance(after.capacity, after.refillRate, grants, s, now)
    {
      RefillBounded(b, start, grants, now, s);
    }
    var m := RefillAttained(b, start, grants, now);
    assert after.tokens == Allowance(after.capacity, after.refillRate, grants, m, now);
  }

  lemma GrantCounts(b: Bucket, grants: seq<Grant>, g: Grant, s: real, now: real)
    requires s <= g.time
    ensures Allowance(b.capacity, b.refillRate, grants + [g], s, now)
         == Allowance(b.capacity, b.refillRate, grants, s, now) - g.amount as real
  {
  }

  lemma GrantKeepsMinimum(b: Bucket, start: real, grants: seq<Grant>, amount: nat)
    requires IsMinimum(b, start, grants)
    ensures IsMinimum(b.(tokens := b.tokens - amount as real), start, grants + [Grant(b.lastRefill, amount)])
  {
    var g := Grant(b.lastRefill, amount);
    var after := b.(tokens := b.tokens - amount as real);
    forall s | start <= s <= b.lastRefill
      ensures after.tokens <= Allowance(after.capacity, after.refillRate, grants + [g], s, b.lastRefill)
    {
      GrantCounts(after, grants, g, s, b.lastRefill);
    }
    var m :| start <= m <= b.lastRefill && b.tokens == Allowance(b.capacity, b.refillRate, grants, m, b.lastRefill);
    GrantCounts(after, grants, g, m, b.lastRefill);
    assert after.tokens == Allowance(after.capacity, after.refillRate, grants + [g], m, b.lastRefill);
  }

  /** After every run the level is the minimum of the allowances, and it is never negative. */
  lemma {:induction false} RunIsMinimum(capacity: nat, refillRate: real, start: real, requests: seq<Request>)
    requires refillRate >= 0.0 && InOrder(start, requests)
    ensures var h := Run(capacity, refillRate, start, requests);
      && IsMinimum(h.bucket, start, h.grants)
      && h.bucket.tokens >= 0.0
      && h.bucket.capacity == capacity && h.bucket.refillRate == refillRate
      && h.bucket.lastRefill == LastTime(start, requests)
  {
    var h := Run(capacity, refillRate, start, requests);
    if requests == [] {
      assert h.bucket.tokens == Allowance(h.bucket.capacity, h.bucket.refillRate, [], start, start);
    } else {
      var n := |requests| - 1;
      RunIsMinimum(capacity, refillRate, start, requests[..n]);
      StepIsMinimum(Run(capacity, refillRate, start, requests[..n]), start, requests[n]);
    }
  }

  lemma StepIsMinimum(h: History, start: real, r: Request)
    requires IsMinimum(h.bucket, start, h.grants) && h.bucket.tokens >= 0.0
    requires h.bucket.refillRate >= 0.0 && h.bucket.lastRefill <= r.time
    ensures IsMinimum(Step(h, r).bucket, start, Step(h, r).grants) && Step(h, r).bucket.tokens >= 0.0
  {
    RefillKeepsMinimum(h.bucket, start, h.grants, r.time);
    assert Gain(h.bucket, r.time) >= 0.0 by {
      Product(r.time - h.bucket.lastRefill, h.bucket.refillRate);
    }
    if Admits(h.bucket, r) {
      GrantKeepsMinimum(Refilled(h.bucket, r.time), start, h.grants, r.amount);
    }
  }

  /**
   * Admission is exactly the window rule: the next request is admitted if and only if, for every moment since
   * the bucket was made, what was granted from that moment on plus this request is within the capacity plus
   * what that window refills.
   */
  lemma AdmittedIff(capacity: nat, refillRate: real, start: real, requests: seq<Request>, next: Request)
    requires refillRate >= 0.0 && InOrder(start, requests) && LastTime(start, requests) <= next.time
    ensures var h := Run(capacity, refillRate, start, requests);
      Admits(h.bucket, next) <==>
      forall s :: start <= s <= next.time ==> WithinWindow(capacity, refillRate, h.grants, next, s)
  {
    RunIsMinimum(capacity, refillRate, start, requests);
    AdmitsIffWindows(Run(capacity, refillRate, start, requests), start, next);
  }

  lemma AdmitsIffWindows(h: History, start: real, next: Request)
    requires IsMinimum(h.bucket, start, h.grants) && h.bucket.refillRate >= 0.0 && h.bucket.lastRefill <= next.time
    ensures Admits(h.bucket, next) <==> forall s :: start <= s <= next.time ==>
      WithinWindow(h.bucket.capacity, h.bucket.refillRate, h.grants, next, s)
  {
    forall s | start <= s <= next.time && Admits(h.bucket, next)
      ensures WithinWindow(h.bucket.capacity, h.bucket.refillRate, h.grants, next, s)
    {
      RefillBounded(h.bucket, start, h.grants, next.time, s);
      WindowAllowance(h.bucket, h.grants, next, s);
    }
    var m := RefillAttained(h.bucket, start, h.grants, next.time);
    WindowAllowance(h.bucket, h.grants, next, m);
  }

  lemma WindowAllowance(b: Bucket, grants: seq<Grant>, r: Request, s: real)
    ensures WithinWindow(b.capacity, b.refillRate, grants, r, s) <==>
      r.amount as real <= Allowance(b.capacity, b.refillRate, grants, s, r.time)
  {
  }

  /** Counting from `s`, this grant would stay within the capacity plus what the window refills. */
  predicate WithinWindow(capacity: nat, refillRate: real, grants: seq<Grant>, r: Request, s: real) {
    GrantedSince(grants, s) + r.amount as real <= capacity as real + (r.time - s) * refillRate
  }
}

module TokenBucketObject {
  import opened TokenBucketSpec

  class TokenBucket {
    const capacity: nat
    const refillRate: real
    var tokens: real
    var lastRefill: real

    function View(): Bucket
      reads this
    {
      Bucket(capacity, tokens, refillRate, lastRefill)
    }

    constructor (capacity: nat, refillRate: real, now: real)
      ensures View() == Created(capacity, refillRate, now)
    {
      this.capacity := capacity;
      this.tokens := capacity as real;
      this.refillRate := refillRate;
      this.lastRefill := now;
    }

    method Refill(now: real)
      modifies this
      ensures View() == Refilled(old(View()), now)
    {
      var elapsed := if now > lastRefill then now - lastRefill else 0.0;
      tokens := Min(tokens + elapsed * refillRate, capacity as real);
      lastRefill := now;
    }

    method TryConsume(n: nat, now: real) returns (ok: bool)
      modifies this
      ensures ok == Admits(old(View()), Request(now, n))
      ensures View() == TokenBucketSpec.Consumed(old(View()), Request(now, n))
    {
      Refill(now);
      var cost := n as real;
      if tokens >= cost {
        tokens := tokens - cost;
        ok := true;
      } else {
        ok := false;
      }
    }
  }
}
