/** The per-address request limiter: token buckets that refill with elapsed time, and a
    sweep that forgets idle addresses. Times are integers on one monotonic clock. */
module RateLimit {
  import opened Arith

  datatype Bucket = Bucket(tokens: int, lastCheck: int)

  type Buckets = map<string, Bucket>

  // Requests per window. The code divides by rate and by window / rate, so neither may be zero.
  datatype Policy = Policy(rate: int, window: int) {
    predicate Valid() {
      1 <= rate && 1 <= window / rate
    }

    // Time to earn one token.
    function Quantum(): (q: int)
      requires Valid()
      ensures 1 <= q && rate * q <= window
    {
      Quotient(window, rate);
      window / rate
    }
  }

  // Go's integer division.
  function Truncated(a: int, b: int): (q: int)
    requires 0 < b
  {
    if a < 0 then -(-a / b) else a / b
  }

  // The quotient is rounded toward zero.
  lemma TruncatedTowardZero(a: int, b: int)
    requires 0 < b
    ensures 0 <= a ==> b * Truncated(a, b) <= a < b * (Truncated(a, b) + 1)
    ensures a <= 0 ==> b * (Truncated(a, b) - 1) < a <= b * Truncated(a, b)
  {
    Quotient(a, b);
    Quotient(-a, b);
    Distribute(b, Truncated(a, b), 1);
    Distribute(b, Truncated(a, b), -1);
    if a < 0 {
      assert b * -(-a / b) == -(b * (-a / b));
    } else if a == 0 {
      QuotientAtLeast(0, b, 1);
      QuotientAtLeast(0, b, 0);
    }
  }

  // ---------- One step ----------

  function Refilled(p: Policy, b: Bucket, since: int): (tokens: int)
    requires p.Valid()
  {
    var t := b.tokens + Truncated(since - b.lastCheck, p.Quantum());
    if t > p.rate then p.rate else t
  }

  // The bucket after a request, whose code reads the clock first at `since`, then at `now`.
  function Charged(p: Policy, bs: Buckets, ip: string, since: int, now: int): (b: Bucket)
    requires p.Valid()
  {
    if ip !in bs then Bucket(p.rate - 1, now) else
      var t := Refilled(p, bs[ip], since);
      Bucket(if t > 0 then t - 1 else t, now)
  }

  predicate Admits(p: Policy, bs: Buckets, ip: string, since: int)
    requires p.Valid()
  {
    ip in bs ==> Refilled(p, bs[ip], since) > 0
  }

  predicate Stale(p: Policy, b: Bucket, now: int) {
    now - b.lastCheck > 10 * p.window
  }

  function Swept(p: Policy, bs: Buckets, now: int): (r: Buckets) {
    map ip | ip in bs && !Stale(p, bs[ip], now) :: bs[ip]
  }

  // A sweep forgets exactly the buckets not used for ten windows.
  lemma SweptExactly(p: Policy, bs: Buckets, now: int, ip: string)
    ensures ip in Swept(p, bs, now) <==> ip in bs && now - bs[ip].lastCheck <= 10 * p.window
    ensures ip in Swept(p, bs, now) ==> Swept(p, bs, now)[ip] == bs[ip]
  {
  }

  // ---------- Runs ----------

  datatype Event = Call(ip: string, since: int, now: int) | Sweep(now: int)

  function After(p: Policy, bs: Buckets, e: Event): (r: Buckets)
    requires p.Valid()
  {
    match e
    case Call(ip, since, now) => bs[ip := Charged(p, bs, ip, since, now)]
    case Sweep(now) => Swept(p, bs, now)
  }

  // The answers given to the calls among the events.
  function Answers(p: Policy, bs: Buckets, es: seq<Event>): (r: seq<bool>)
    requires p.Valid()
    decreases |es|
  {
    if es == [] then [] else
      (if es[0].Call? then [Admits(p, bs, es[0].ip, es[0].since)] else [])
      + Answers(p, After(p, bs, es[0]), es[1..])
  }

  // How many requests of one address are let through.
  function Admitted(p: Policy, bs: Buckets, es: seq<Event>, ip: string): (n: nat)
    requires p.Valid()
    decreases |es|
  {
    if es == [] then 0 else
      (if es[0].Call? && es[0].ip == ip && Admits(p, bs, ip, es[0].since) then 1 else 0)
      + Admitted(p, After(p, bs, es[0]), es[1..], ip)
  }

  function WithoutSweeps(es: seq<Event>): (r: seq<Event>) {
    if es == [] then [] else (if es[0].Call? then [es[0]] else []) + WithoutSweeps(es[1..])
  }

  // All clock readings lie between t and u and never step back.
  predicate Chronological(es: seq<Event>, t: int, u: int) {
    if es == [] then t <= u else
      && t <= (if es[0].Call? then es[0].since else es[0].now)
      && (es[0].Call? ==> es[0].since <= es[0].now)
      && Chronological(es[1..], es[0].now, u)
  }

  // Buckets as the limiter leaves them: never overdrawn, never overfull, not from the future.
  predicate Sound(p: Policy, bs: Buckets, t: int) {
    forall ip :: ip in bs ==> 0 <= bs[ip].tokens <= p.rate && bs[ip].lastCheck <= t
  }

  // An address idle for a whole window has earned a full bucket.
  lemma FullAfterWindow(p: Policy, idle: int)
    requires p.Valid() && p.window <= idle
    ensures p.rate <= idle / (p.window / p.rate)
  {
    QuotientAtLeast(idle, p.Quantum(), p.rate);
  }

  lemma {:induction false} EventBounds(es: seq<Event>, t: int, u: int)
    requires Chronological(es, t, u)
    ensures t <= u
  {
    if es != [] {
      EventBounds(es[1..], es[0].now, u);
    }
  }

  lemma StepIsSound(p: Policy, bs: Buckets, e: Event, t: int)
    requires p.Valid() && Sound(p, bs, t) && Chronological([e], t, e.now)
    ensures Sound(p, After(p, bs, e), e.now)
  {
    if e.Call? && e.ip in bs {
      Superadditive(0, e.since - bs[e.ip].lastCheck, e.since - bs[e.ip].lastCheck, p.Quantum());
    }
  }

  // Over any run of events between t and u, requests of one address are admitted at most
  // rate + (u - t) / (window / rate) times; sharper, a known bucket admits no more than its tokens
  // plus what the time since its last check earns.
  lemma {:induction false} AdmissionBound(p: Policy, bs: Buckets, es: seq<Event>, ip: string, t: int, u: int)
    requires p.Valid() && Sound(p, bs, t) && Chronological(es, t, u)
    ensures Admitted(p, bs, es, ip) <= p.rate + (u - t) / (p.window / p.rate)
    ensures ip in bs ==> Admitted(p, bs, es, ip) <= bs[ip].tokens + (u - bs[ip].lastCheck) / (p.window / p.rate)
    decreases |es|
  {
    var q := p.Quantum();
    EventBounds(es, t, u);
    if es == [] {
      Superadditive(0, u - t, u - t, q);
      if ip in bs {
        Superadditive(0, u - bs[ip].lastCheck, u - bs[ip].lastCheck, q);
      }
    } else {
      var e := es[0];
      EventBounds(es[1..], e.now, u);
      StepIsSound(p, bs, e, t);
      AdmissionBound(p, After(p, bs, e), es[1..], ip, e.now, u);
      Superadditive(e.now - t, u - e.now, u - t, q);
      if ip in bs {
        var last := bs[ip].lastCheck;
        if e.Call? {
          Superadditive(e.since - last, u - e.now, u - last, q);
        } else if Stale(p, bs[ip], e.now) {
          Superadditive(e.now - last, u - e.now, u - last, q);
          FullAfterWindow(p, e.now - last);
        }
      }
    }
  }

  // In any span of at most one window an address is admitted at most rate + window / (window / rate)
  // times, which is twice the rate when the rate divides the window.
  lemma WindowBound(p: Policy, bs: Buckets, es: seq<Event>, ip: string, t: int, u: int)
    requires p.Valid() && Sound(p, bs, t) && Chronological(es, t, u) && u - t <= p.window
    ensures Admitted(p, bs, es, ip) <= p.rate + p.window / (p.window / p.rate)
    ensures p.window % p.rate == 0 ==> Admitted(p, bs, es, ip) <= 2 * p.rate
  {
    EventBounds(es, t, u);
    AdmissionBound(p, bs, es, ip, t, u);
    ShorterSpan(u - t, p.window, p.window / p.rate);
    if p.window % p.rate == 0 {
      ExactQuotient(p.window, p.rate);
    }
  }

  lemma ShorterSpan(x: int, y: int, q: int)
    requires 0 < q && 0 <= x <= y
    ensures x / q <= y / q
  {
    Superadditive(0, x, y, q);
  }

  lemma ExactQuotient(a: int, b: int)
    requires 0 < b && a % b == 0 && 0 < a / b
    ensures a / (a / b) == b
  {
    var q := a / b;
    assert a == q * b;
    QuotientAtLeast(a, q, b);
    QuotientAtLeast(a, q, b + 1);
    Distribute(q, b, 1);
  }

  // A known address is admitted exactly when it holds a token or has left the time of one.
  lemma AdmitsExactly(p: Policy, bs: Buckets, ip: string, since: int)
    requires p.Valid() && ip in bs && 0 <= bs[ip].tokens <= p.rate && bs[ip].lastCheck <= since
    ensures Admits(p, bs, ip, since) <==> 0 < bs[ip].tokens || p.window / p.rate <= since - bs[ip].lastCheck
  {
    var elapsed := since - bs[ip].lastCheck;
    QuotientAtLeast(elapsed, p.window / p.rate, 0);
    QuotientAtLeast(elapsed, p.window / p.rate, 1);
  }

  // Each request of the address comes less than q after the one before, the first less than q after `last`.
  predicate Hasty(es: seq<Event>, ip: string, q: int, last: int) {
    if es == [] then true else
    if es[0].Call? && es[0].ip == ip then es[0].since < last + q && Hasty(es[1..], ip, q, es[0].now)
    else Hasty(es[1..], ip, q, last)
  }

  // An address without tokens that keeps asking sooner than window / rate after its last request is
  // never admitted: a refused request starts the time anew, and no sweep comes in between.
  lemma {:induction false} HastyNeverAdmitted(p: Policy, bs: Buckets, es: seq<Event>, ip: string,
                                              t: int, u: int, last: int)
    requires p.Valid() && Sound(p, bs, t) && Chronological(es, t, u)
    requires Hasty(es, ip, p.window / p.rate, last)
    requires if ip in bs then bs[ip] == Bucket(0, last) else last + p.window / p.rate <= t
    ensures Admitted(p, bs, es, ip) == 0
    decreases |es|
  {
    if es != [] {
      var e := es[0];
      StepIsSound(p, bs, e, t);
      if e.Call? && e.ip == ip {
        AdmitsExactly(p, bs, ip, e.since);
        HastyNeverAdmitted(p, After(p, bs, e), es[1..], ip, e.now, u, e.now);
      } else {
        QuantumInWindow(p);
        HastyNeverAdmitted(p, After(p, bs, e), es[1..], ip, e.now, u, last);
      }
    }
  }

  lemma QuantumInWindow(p: Policy)
    requires p.Valid()
    ensures 1 <= p.window / p.rate <= p.window
  {
    MulMonotone(p.window / p.rate, 1, p.rate);
    Quotient(p.window, p.rate);
  }

  // How many requests of one address there are.
  function CallsOf(es: seq<Event>, ip: string): (n: nat) {
    if es == [] then 0 else (if es[0].Call? && es[0].ip == ip then 1 else 0) + CallsOf(es[1..], ip)
  }

  function Tokens(p: Policy, bs: Buckets, ip: string): (n: int) {
    if ip in bs then bs[ip].tokens else p.rate
  }

  // Nobody is refused out of turn: the first requests of an address are admitted for as many tokens
  // as it has, a full bucket for an address not seen before.
  lemma {:induction false} BurstAdmitted(p: Policy, bs: Buckets, es: seq<Event>, ip: string, t: int, u: int)
    requires p.Valid() && Sound(p, bs, t) && Chronological(es, t, u)
    ensures CallsOf(es, ip) <= Admitted(p, bs, es, ip) || Tokens(p, bs, ip) <= Admitted(p, bs, es, ip)
    decreases |es|
  {
    if es != [] {
      var e := es[0];
      StepIsSound(p, bs, e, t);
      BurstAdmitted(p, After(p, bs, e), es[1..], ip, e.now, u);
      if e.Call? && ip in bs {
        Superadditive(0, e.since - bs[ip].lastCheck, e.since - bs[ip].lastCheck, p.Quantum());
      }
    }
  }

  // Each request of the address comes at least q after the one before, the first not before `ready`.
  predicate Spaced(es: seq<Event>, ip: string, q: int, ready: int) {
    if es == [] then true else
    if es[0].Call? && es[0].ip == ip then ready <= es[0].since && Spaced(es[1..], ip, q, es[0].now + q)
    else Spaced(es[1..], ip, q, ready)
  }

  // An address that leaves one token's time between its requests is never refused.
  lemma {:induction false} SpacedNeverRefused(p: Policy, bs: Buckets, es: seq<Event>, ip: string,
                                              t: int, u: int, ready: int)
    requires p.Valid() && Sound(p, bs, t) && Chronological(es, t, u)
    requires Spaced(es, ip, p.window / p.rate, ready)
    requires ip in bs ==> bs[ip].lastCheck + p.window / p.rate <= ready
    ensures Admitted(p, bs, es, ip) == CallsOf(es, ip)
    decreases |es|
  {
    if es != [] {
      var e := es[0];
      StepIsSound(p, bs, e, t);
      if e.Call? && e.ip == ip {
        if ip in bs {
          QuotientAtLeast(e.since - bs[ip].lastCheck, p.Quantum(), 1);
        }
        SpacedNeverRefused(p, After(p, bs, e), es[1..], ip, e.now, u, e.now + p.Quantum());
      } else {
        SpacedNeverRefused(p, After(p, bs, e), es[1..], ip, e.now, u, ready);
      }
    }
  }

  // Every entry that `kept` lacks or shares: what is missing has been idle for a window.
  predicate Forgot(p: Policy, kept: Buckets, all: Buckets, t: int) {
    && (forall ip :: ip in kept ==> ip in all && kept[ip] == all[ip])
    && (forall ip :: ip in all && ip !in kept ==> p.window <= t - all[ip].lastCheck)
  }

  // Sweeping is invisible: no later call is answered differently because idle buckets were
  // deleted in between.
  lemma {:induction false} SweepsAreInvisible(p: Policy, kept: Buckets, all: Buckets, es: seq<Event>, t: int, u: int)
    requires p.Valid() && Sound(p, all, t) && Forgot(p, kept, all, t) && Chronological(es, t, u)
    ensures Answers(p, kept, es) == Answers(p, all, WithoutSweeps(es))
    decreases |es|
  {
    if es != [] {
      var e := es[0];
      assert WithoutSweeps(es) == (if e.Call? then [e] else []) + WithoutSweeps(es[1..]);
      if e.Call? {
        if e.ip in all && e.ip !in kept {
          FullAfterWindow(p, e.since - all[e.ip].lastCheck);
        }
        StepIsSound(p, all, e, t);
        assert WithoutSweeps(es)[0] == e && WithoutSweeps(es)[1..] == WithoutSweeps(es[1..]);
        SweepsAreInvisible(p, After(p, kept, e), After(p, all, e), es[1..], e.now, u);
      } else {
        assert WithoutSweeps(es) == WithoutSweeps(es[1..]);
        SweepsAreInvisible(p, Swept(p, kept, e.now), all, es[1..], e.now, u);
      }
    }
  }

  // ---------- The limiter ----------

  class RateLimiter {
    var buckets: Buckets
    const policy: Policy

    constructor (rate: int, window: int)
      ensures policy == Policy(rate, window) && buckets == map[]
    {
      policy := Policy(rate, window);
      buckets := map[];
    }

    method Allow(ip: string, since: int, now: int) returns (ok: bool)
      requires policy.Valid()
      modifies this
      ensures ok <==> Admits(policy, old(buckets), ip, since)
      ensures buckets == After(policy, old(buckets), Call(ip, since, now))
    {
      if ip !in buckets {
        buckets := buckets[ip := Bucket(policy.rate - 1, now)];
        return true;
      }
      var b := buckets[ip];
      var elapsed := since - b.lastCheck;
      var tokens := b.tokens + Truncated(elapsed, policy.window / policy.rate);
      if tokens > policy.rate {
        tokens := policy.rate;
      }
      if tokens > 0 {
        buckets := buckets[ip := Bucket(tokens - 1, now)];
        return true;
      }
      buckets := buckets[ip := Bucket(tokens, now)];
      return false;
    }

    // One round of the cleanup loop.
    method Cleanup(now: int)
      modifies this
      ensures buckets == Swept(policy, old(buckets), now)
    {
      var ips := buckets.Keys;
      while ips != {}
        invariant ips <= buckets.Keys
        invariant buckets == map ip | ip in old(buckets) && (ip in ips || !Stale(policy, old(buckets)[ip], now))
                               :: old(buckets)[ip]
        decreases ips
      {
        var ip :| ip in ips;
        if now - buckets[ip].lastCheck > 10 * policy.window {
          buckets := buckets - {ip};
        }
        ips := ips - {ip};
      }
    }
  }
}
