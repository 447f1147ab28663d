/**
The per-IP rate limiter: a map of token buckets from which a periodic cleanup evicts the idle ones.

golang.org/x/time/rate keeps tokens in floating point; they are real numbers here, and times are seconds.
A request is one step: the bucket is looked up or created, and then asked.
*/
module RateLimit {
  import opened Wrappers
  import opened History

  const ENTRY_TTL: real := 600.0

  // tokens were left at the time of the last allowed request; a new bucket is full.
  datatype Limiter = Limiter(tokens: real, last: Option<real>)

  datatype IpLimiter = IpLimiter(limiter: Limiter, lastSeen: real)

  type Buckets = map<string, IpLimiter>

  // rps and burst of newRateLimiterMap.
  function Rps(rpm: nat): real { rpm as real / 60.0 }

  function NewLimiter(rpm: nat): Limiter { Limiter(rpm as real, None) }

  // advance: what is in the bucket now, refilled since the last allowed request up to the burst.
  function TokensAt(rpm: nat, l: Limiter, now: real): real {
    var burst := rpm as real;
    var tokens := if l.last.None? || now < l.last.value then l.tokens else l.tokens + Refill(rpm, l.last.value, now);
    if tokens > burst then burst else tokens
  }

  // The tokens that trickle in over a stretch of time.
  function Refill(rpm: nat, from: real, to: real): real { (to - from) * Rps(rpm) }

  // Allow: one token, if there is one. A refusal leaves the bucket as it was.
  function Allow(rpm: nat, l: Limiter, now: real): (Limiter, bool) {
    var tokens := TokensAt(rpm, l, now) - 1.0;
    if 1 <= rpm && tokens >= 0.0 then (Limiter(tokens, Some(now)), true) else (l, false)
  }

  function Ask(rpm: nat, m: Buckets, ip: string, now: real): (Buckets, bool) {
    var limiter := if ip in m then m[ip].limiter else NewLimiter(rpm);
    var (limiter', allowed) := Allow(rpm, limiter, now);
    (m[ip := IpLimiter(limiter', now)], allowed)
  }

  predicate Idle(e: IpLimiter, now: real) { now - e.lastSeen > ENTRY_TTL }

  function Evict(m: Buckets, now: real): Buckets { map ip | ip in m && !Idle(m[ip], now) :: m[ip] }

  class RateLimiterMap {
    const rpm: nat
    var limiters: Buckets

    constructor (requestsPerMinute: nat)
      ensures rpm == requestsPerMinute && limiters == map[]
    {
      rpm, limiters := requestsPerMinute, map[];
    }

    // getLimiter followed by Allow.
    method Request(ip: string, now: real) returns (allowed: bool)
      modifies this
      ensures (limiters, allowed) == Ask(rpm, old(limiters), ip, now)
    {
      if ip !in limiters {
        limiters := limiters[ip := IpLimiter(NewLimiter(rpm), now)];
      } else {
        limiters := limiters[ip := limiters[ip].(lastSeen := now)];
      }
      var (limiter, ok) := Allow(rpm, limiters[ip].limiter, now);
      limiters := limiters[ip := limiters[ip].(limiter := limiter)];
      allowed := ok;
      assert limiters == old(limiters)[ip := IpLimiter(limiter, now)];
    }

    // One tick of cleanup.
    method Cleanup(now: real)
      modifies this
      ensures limiters == Evict(old(limiters), now)
      ensures forall ip :: ip in limiters <==> ip in old(limiters) && now - old(limiters)[ip].lastSeen <= 600.0
      ensures forall ip :: ip in limiters ==> limiters[ip] == old(limiters)[ip]
    {
      var ips := limiters.Keys;
      while ips != {}
        invariant ips <= limiters.Keys <= old(limiters).Keys
        invariant forall ip :: ip in limiters ==> limiters[ip] == old(limiters)[ip]
        invariant forall ip :: ip in limiters && ip !in ips ==> !Idle(limiters[ip], now)
        invariant forall ip :: ip in old(limiters) && ip !in limiters ==> Idle(old(limiters)[ip], now)
        decreases |ips|
      {
        var ip :| ip in ips;
        if now - limiters[ip].lastSeen > ENTRY_TTL {
          limiters := limiters - {ip};
        }
        ips := ips - {ip};
      }
    }
  }

  // ----- Runs -----

  datatype Event = Requests(ip: string, at: real) | Tick(at: real)

  ghost predicate TimeOrdered(events: seq<Event>, from: real) {
    events == [] || (from <= events[0].at && TimeOrdered(events[1..], events[0].at))
  }

  // The answers to the requests of a run; without eviction, ticks do nothing.
  function Answers(rpm: nat, m: Buckets, events: seq<Event>, evicting: bool): seq<bool>
    decreases |events|
  {
    if events == [] then []
    else
      match events[0]
      case Requests(ip, at) =>
        var (m', allowed) := Ask(rpm, m, ip, at);
        [allowed] + Answers(rpm, m', events[1..], evicting)
      case Tick(at) => Answers(rpm, if evicting then Evict(m, at) else m, events[1..], evicting)
  }

  // ----- Eviction is unobservable -----

  ghost predicate Full(rpm: nat, l: Limiter, now: real) { TokensAt(rpm, l, now) == rpm as real }

  ghost predicate Sane(rpm: nat, e: IpLimiter, now: real) {
    && 0.0 <= e.limiter.tokens <= rpm as real
    && (e.limiter.last.None? ==> e.limiter == NewLimiter(rpm))
    && (e.limiter.last.Some? ==> e.limiter.last.value <= e.lastSeen)
    && e.lastSeen <= now
  }

  ghost predicate AllSane(rpm: nat, m: Buckets, now: real) { forall ip :: ip in m ==> Sane(rpm, m[ip], now) }

  // Nothing later can tell the two buckets apart.
  ghost predicate Alike(rpm: nat, a: Limiter, b: Limiter, now: real) {
    a == b || (Full(rpm, a, now) && Full(rpm, b, now))
  }

  // What was evicted is full in the map that keeps everything.
  ghost predicate Simulates(rpm: nat, evicting: Buckets, keeping: Buckets, now: real) {
    && AllSane(rpm, evicting, now) && AllSane(rpm, keeping, now)
    && (forall ip :: ip in evicting ==> ip in keeping && evicting[ip].lastSeen == keeping[ip].lastSeen)
    && (forall ip :: ip in evicting ==> Alike(rpm, evicting[ip].limiter, keeping[ip].limiter, now))
    && (forall ip :: ip in keeping && ip !in evicting ==> Full(rpm, keeping[ip].limiter, now))
  }

  lemma {:induction false} RefillAdds(rpm: nat, a: real, b: real, c: real)
    ensures Refill(rpm, a, c) == Refill(rpm, a, b) + Refill(rpm, b, c)
  {
  }

  lemma {:induction false} RefillNonNegative(rpm: nat, from: real, to: real)
    requires from <= to
    ensures Refill(rpm, from, to) >= 0.0
  {
    LongerIsMore(0.0, to - from, Rps(rpm));
  }

  lemma {:induction false} FullStaysFull(rpm: nat, l: Limiter, now: real, later: real)
    requires Full(rpm, l, now) && now <= later
    ensures Full(rpm, l, later)
  {
    if l.last.Some? {
      RefillAdds(rpm, l.last.value, now, later);
      RefillNonNegative(rpm, now, later);
      if l.last.value <= later { RefillNonNegative(rpm, l.last.value, later); }
    }
  }

  lemma {:induction false} TtlRefills(rpm: nat, from: real, to: real)
    requires to - from >= ENTRY_TTL
    ensures Refill(rpm, from, to) >= rpm as real
  {
    LongerIsMore(600.0, to - from, Rps(rpm));
    assert 600.0 * Rps(rpm) == 10.0 * rpm as real;
  }

  lemma {:induction false} LongerIsMore(elapsed: real, more: real, rate: real)
    requires elapsed <= more && 0.0 <= rate
    ensures elapsed * rate <= more * rate
  {
    assert 0.0 <= (more - elapsed) * rate;
  }

  // Idle for longer than the TTL of ten minutes, a bucket has refilled ten times over.
  lemma {:induction false} IdleIsFull(rpm: nat, e: IpLimiter, now: real)
    requires Sane(rpm, e, now) && Idle(e, now)
    ensures Full(rpm, e.limiter, now)
  {
    if e.limiter.last.Some? {
      TtlRefills(rpm, e.limiter.last.value, now);
    }
  }

  lemma {:induction false} FullAnswers(rpm: nat, l: Limiter, now: real)
    requires Full(rpm, l, now)
    ensures Allow(rpm, l, now) == if rpm >= 1 then (Limiter(rpm as real - 1.0, Some(now)), true) else (l, false)
  {
  }

  lemma {:induction false} SaneLater(rpm: nat, m: Buckets, now: real, later: real)
    requires AllSane(rpm, m, now) && now <= later
    ensures AllSane(rpm, m, later)
  {
    forall ip | ip in m ensures Sane(rpm, m[ip], later) { assert Sane(rpm, m[ip], now); }
  }

  lemma {:induction false} TimePasses(rpm: nat, e: Buckets, k: Buckets, now: real, later: real)
    requires Simulates(rpm, e, k, now) && now <= later
    ensures Simulates(rpm, e, k, later)
  {
    SaneLater(rpm, e, now, later);
    SaneLater(rpm, k, now, later);
    forall ip | ip in e ensures Alike(rpm, e[ip].limiter, k[ip].limiter, later) {
      if e[ip].limiter != k[ip].limiter {
        FullStaysFull(rpm, e[ip].limiter, now, later);
        FullStaysFull(rpm, k[ip].limiter, now, later);
      }
    }
    forall ip | ip in k && ip !in e ensures Full(rpm, k[ip].limiter, later) { FullStaysFull(rpm, k[ip].limiter, now, later); }
  }

  lemma {:induction false} AskSane(rpm: nat, m: Buckets, ip: string, now: real)
    requires AllSane(rpm, m, now)
    ensures AllSane(rpm, Ask(rpm, m, ip, now).0, now)
  {
    var l := if ip in m then m[ip].limiter else NewLimiter(rpm);
    if ip in m { assert Sane(rpm, m[ip], now); }
    LimiterWithinBurst(rpm, l, now);
    assert Sane(rpm, IpLimiter(Allow(rpm, l, now).0, now), now);
  }

  lemma {:induction false} AskAlike(rpm: nat, e: Buckets, k: Buckets, ip: string, now: real)
    requires Simulates(rpm, e, k, now)
    ensures Ask(rpm, e, ip, now).1 == Ask(rpm, k, ip, now).1
    ensures Simulates(rpm, Ask(rpm, e, ip, now).0, Ask(rpm, k, ip, now).0, now)
  {
    var a := if ip in e then e[ip].limiter else NewLimiter(rpm);
    var b := if ip in k then k[ip].limiter else NewLimiter(rpm);
    assert Alike(rpm, a, b, now);
    if a != b {
      FullAnswers(rpm, a, now);
      FullAnswers(rpm, b, now);
    }
    AskSane(rpm, e, ip, now);
    AskSane(rpm, k, ip, now);
  }

  lemma {:induction false} EvictSimulates(rpm: nat, e: Buckets, k: Buckets, now: real)
    requires Simulates(rpm, e, k, now)
    ensures Simulates(rpm, Evict(e, now), k, now)
  {
    forall ip | ip in e && Idle(e[ip], now) ensures Full(rpm, k[ip].limiter, now) {
      assert Sane(rpm, k[ip], now);
      IdleIsFull(rpm, k[ip], now);
    }
  }

  lemma {:induction false} SimulatedAnswers(rpm: nat, e: Buckets, k: Buckets, events: seq<Event>, now: real)
    requires Simulates(rpm, e, k, now) && TimeOrdered(events, now)
    ensures Answers(rpm, e, events, true) == Answers(rpm, k, events, false)
    decreases |events|
  {
    if events != [] {
      var at := events[0].at;
      TimePasses(rpm, e, k, now, at);
      match events[0]
      case Requests(ip, _) =>
        AskAlike(rpm, e, k, ip, at);
        SimulatedAnswers(rpm, Ask(rpm, e, ip, at).0, Ask(rpm, k, ip, at).0, events[1..], at);
      case Tick(_) =>
        EvictSimulates(rpm, e, k, at);
        SimulatedAnswers(rpm, Evict(e, at), k, events[1..], at);
    }
  }

  // For every time-ordered run of requests and cleanup ticks, however the ticks fall, the map allows
  // exactly the requests that a map which never evicts allows.
  lemma {:induction false} EvictionUnobservable(rpm: nat, events: seq<Event>, start: real)
    requires TimeOrdered(events, start)
    ensures Answers(rpm, map[], events, true) == Answers(rpm, map[], events, false)
  {
    SimulatedAnswers(rpm, map[], map[], events, start);
  }

  // ----- What the limit guarantees -----

  // The buckets after one event, and whether it was an allowed request of ip.
  function After(rpm: nat, m: Buckets, e: Event): Buckets {
    match e
    case Requests(ip, at) => Ask(rpm, m, ip, at).0
    case Tick(at) => Evict(m, at)
  }

  function Charge(rpm: nat, m: Buckets, e: Event, ip: string): nat {
    if e.Requests? && e.ip == ip && Ask(rpm, m, ip, e.at).1 then 1 else 0
  }

  // The buckets before each event of a run and after the last.
  function Trace(rpm: nat, m: Buckets, events: seq<Event>): (trace: seq<Buckets>)
    ensures |trace| == |events| + 1 && trace[0] == m
    decreases |events|
  {
    if events == [] then [m] else [m] + Trace(rpm, After(rpm, m, events[0]), events[1..])
  }

  // How many of ip's requests among the first k events of a run are allowed.
  function AllowedOf(rpm: nat, trace: seq<Buckets>, events: seq<Event>, ip: string, k: nat): nat
    requires k <= |events| < |trace|
  {
    if k == 0 then 0 else AllowedOf(rpm, trace, events, ip, k - 1) + Charge(rpm, trace[k - 1], events[k - 1], ip)
  }

  function Min(a: real, b: real): real { if a <= b then a else b }

  function TokensOf(rpm: nat, m: Buckets, ip: string, now: real): real {
    TokensAt(rpm, if ip in m then m[ip].limiter else NewLimiter(rpm), now)
  }

  // A bucket refills at the rate, up to the burst.
  lemma {:induction false} LimiterRefill(rpm: nat, l: Limiter, now: real, later: real)
    requires now <= later && (if l.last.Some? then l.last.value <= now else l == NewLimiter(rpm))
    ensures TokensAt(rpm, l, later) == Min(rpm as real, TokensAt(rpm, l, now) + Refill(rpm, now, later))
  {
    RefillNonNegative(rpm, now, later);
    if l.last.Some? {
      RefillAdds(rpm, l.last.value, now, later);
    }
  }

  lemma {:induction false} RefillAtRate(rpm: nat, m: Buckets, ip: string, now: real, later: real)
    requires AllSane(rpm, m, now) && now <= later
    ensures TokensOf(rpm, m, ip, later) == Min(rpm as real, TokensOf(rpm, m, ip, now) + Refill(rpm, now, later))
  {
    if ip in m { assert Sane(rpm, m[ip], now); }
    LimiterRefill(rpm, if ip in m then m[ip].limiter else NewLimiter(rpm), now, later);
  }

  lemma {:induction false} EvictTokens(rpm: nat, m: Buckets, ip: string, now: real)
    requires AllSane(rpm, m, now)
    ensures AllSane(rpm, Evict(m, now), now)
    ensures TokensOf(rpm, Evict(m, now), ip, now) == TokensOf(rpm, m, ip, now)
  {
    if ip in m && Idle(m[ip], now) {
      IdleIsFull(rpm, m[ip], now);
    }
  }

  lemma {:induction false} LimiterWithinBurst(rpm: nat, l: Limiter, now: real)
    requires 0.0 <= l.tokens <= rpm as real
    ensures 0.0 <= TokensAt(rpm, l, now) <= rpm as real
  {
    if l.last.Some? && l.last.value <= now { RefillNonNegative(rpm, l.last.value, now); }
  }

  lemma {:induction false} AllowTokens(rpm: nat, l: Limiter, now: real)
    requires 0.0 <= l.tokens <= rpm as real
    ensures TokensAt(rpm, Allow(rpm, l, now).0, now) == TokensAt(rpm, l, now) - (if Allow(rpm, l, now).1 then 1.0 else 0.0)
  {
    LimiterWithinBurst(rpm, l, now);
    assert Refill(rpm, now, now) == 0.0;
  }

  // One request costs a token when allowed, and only from its own bucket.
  lemma {:induction false} AskTokens(rpm: nat, m: Buckets, other: string, ip: string, now: real)
    requires AllSane(rpm, m, now)
    ensures TokensOf(rpm, Ask(rpm, m, other, now).0, ip, now)
         == TokensOf(rpm, m, ip, now) - (if other == ip && Ask(rpm, m, other, now).1 then 1.0 else 0.0)
  {
    if other in m { assert Sane(rpm, m[other], now); }
    AllowTokens(rpm, if other in m then m[other].limiter else NewLimiter(rpm), now);
  }

  lemma {:induction false} EventTokens(rpm: nat, m: Buckets, e: Event, ip: string)
    requires AllSane(rpm, m, e.at)
    ensures AllSane(rpm, After(rpm, m, e), e.at)
    ensures TokensOf(rpm, After(rpm, m, e), ip, e.at) == TokensOf(rpm, m, ip, e.at) - Charge(rpm, m, e, ip) as real
  {
    match e
    case Requests(other, at) =>
      AskSane(rpm, m, other, at);
      AskTokens(rpm, m, other, ip, at);
    case Tick(at) =>
      EvictTokens(rpm, m, ip, at);
  }

  lemma {:induction false} TraceStep(rpm: nat, m: Buckets, events: seq<Event>, now: real, k: nat)
    requires TimeOrdered(events, now) && AllSane(rpm, m, now) && k < |events|
    ensures Trace(rpm, m, events)[k + 1] == After(rpm, Trace(rpm, m, events)[k], events[k])
    ensures AllSane(rpm, Trace(rpm, m, events)[k], events[k].at)
    ensures k + 1 < |events| ==> events[k].at <= events[k + 1].at
    decreases |events|
  {
    SaneLater(rpm, m, now, events[0].at);
    if k > 0 {
      EventTokens(rpm, m, events[0], "");
      TraceStep(rpm, After(rpm, m, events[0]), events[1..], events[0].at, k - 1);
    }
  }

  // What ip has left when the k-th event comes.
  function LevelOf(rpm: nat, trace: seq<Buckets>, events: seq<Event>, ip: string, k: nat): real
    requires k < |events| < |trace|
  {
    TokensOf(rpm, trace[k], ip, events[k].at)
  }

  lemma {:induction false} LevelStep(rpm: nat, m: Buckets, events: seq<Event>, ip: string, now: real, k: nat)
    requires TimeOrdered(events, now) && AllSane(rpm, m, now) && k + 1 < |events|
    ensures var trace := Trace(rpm, m, events);
            var left := LevelOf(rpm, trace, events, ip, k) - Charge(rpm, trace[k], events[k], ip) as real;
            LevelOf(rpm, trace, events, ip, k + 1) == Min(rpm as real, left + Refill(rpm, events[k].at, events[k + 1].at))
  {
    var trace := Trace(rpm, m, events);
    TraceStep(rpm, m, events, now, k);
    EventTokens(rpm, trace[k], events[k], ip);
    RefillAtRate(rpm, trace[k + 1], ip, events[k].at, events[k + 1].at);
  }

  lemma {:induction false} TokensWithinBurst(rpm: nat, m: Buckets, ip: string, now: real)
    requires AllSane(rpm, m, now)
    ensures 0.0 <= TokensOf(rpm, m, ip, now) <= rpm as real
  {
    if ip in m { assert Sane(rpm, m[ip], now); }
    LimiterWithinBurst(rpm, if ip in m then m[ip].limiter else NewLimiter(rpm), now);
  }

  // What the burst and the rate leave at event k when the bucket is full at event j.
  function LeftSince(rpm: nat, trace: seq<Buckets>, events: seq<Event>, ip: string, j: nat, k: nat): real
    requires j <= k < |events| < |trace|
  {
    rpm as real + Refill(rpm, events[j].at, events[k].at)
    - (AllowedOf(rpm, trace, events, ip, k) - AllowedOf(rpm, trace, events, ip, j)) as real
  }

  lemma {:induction false} LeftSinceStep(rpm: nat, trace: seq<Buckets>, events: seq<Event>, ip: string, j: nat, k: nat)
    requires j <= k < |events| - 1 && |events| < |trace|
    ensures LeftSince(rpm, trace, events, ip, j, k + 1)
         == LeftSince(rpm, trace, events, ip, j, k) - Charge(rpm, trace[k], events[k], ip) as real
            + Refill(rpm, events[k].at, events[k + 1].at)
  {
    RefillAdds(rpm, events[j].at, events[k].at, events[k + 1].at);
  }

  lemma {:induction false} LeftSinceSelf(rpm: nat, trace: seq<Buckets>, events: seq<Event>, ip: string, k: nat)
    requires k < |events| < |trace|
    ensures LeftSince(rpm, trace, events, ip, k, k) == rpm as real
  {
    assert Refill(rpm, events[k].at, events[k].at) == 0.0;
  }

  // No earlier event leaves less than the bucket holds.
  lemma {:induction false} LevelAtMost(rpm: nat, m: Buckets, events: seq<Event>, ip: string, now: real, j: nat, k: nat)
    requires TimeOrdered(events, now) && AllSane(rpm, m, now) && j <= k < |events|
    ensures var trace := Trace(rpm, m, events);
            0.0 <= LevelOf(rpm, trace, events, ip, k) <= LeftSince(rpm, trace, events, ip, j, k)
  {
    var trace := Trace(rpm, m, events);
    TraceStep(rpm, m, events, now, k);
    TokensWithinBurst(rpm, trace[k], ip, events[k].at);
    LeftSinceSelf(rpm, trace, events, ip, k);
    if j < k {
      LevelAtMost(rpm, m, events, ip, now, j, k - 1);
      LevelStep(rpm, m, events, ip, now, k - 1);
      LeftSinceStep(rpm, trace, events, ip, j, k - 1);
    }
  }

  // The event at which the bucket of a new IP was last cut off at the burst leaves exactly what it holds.
  lemma {:induction false} LevelReached(rpm: nat, m: Buckets, events: seq<Event>, ip: string, now: real, k: nat) returns (j: nat)
    requires TimeOrdered(events, now) && AllSane(rpm, m, now) && ip !in m && k < |events|
    ensures j <= k
    ensures var trace := Trace(rpm, m, events);
            LevelOf(rpm, trace, events, ip, k) == LeftSince(rpm, trace, events, ip, j, k)
  {
    var trace := Trace(rpm, m, events);
    j := k;
    LeftSinceSelf(rpm, trace, events, ip, k);
    if k > 0 {
      LevelStep(rpm, m, events, ip, now, k - 1);
      if LevelOf(rpm, trace, events, ip, k) < rpm as real {
        j := LevelReached(rpm, m, events, ip, now, k - 1);
        LeftSinceStep(rpm, trace, events, ip, j, k - 1);
      }
    }
  }

  lemma {:induction false} RefillIs(rpm: nat, from: real, to: real)
    ensures Refill(rpm, from, to) == (to - from) * rpm as real / 60.0
  {
  }

  lemma {:induction false} LeftSinceIs(rpm: nat, trace: seq<Buckets>, events: seq<Event>, ip: string, j: nat, k: nat)
    requires j <= k < |events| < |trace|
    ensures LeftSince(rpm, trace, events, ip, j, k)
         == rpm as real + (events[k].at - events[j].at) * rpm as real / 60.0
            - (AllowedOf(rpm, trace, events, ip, k) - AllowedOf(rpm, trace, events, ip, j)) as real
  {
    RefillIs(rpm, events[j].at, events[k].at);
  }

  // From event j to event k inclusive, ip would get more than the burst and the rate give if the request
  // at k were allowed.
  predicate Exceeds(rpm: nat, trace: seq<Buckets>, events: seq<Event>, ip: string, j: nat, k: nat)
    requires j <= k < |events| < |trace|
  {
    (AllowedOf(rpm, trace, events, ip, k) - AllowedOf(rpm, trace, events, ip, j) + 1) as real
    > rpm as real + (events[k].at - events[j].at) * rpm as real / 60.0
  }

  lemma {:induction false} ExceedsIff(rpm: nat, trace: seq<Buckets>, events: seq<Event>, ip: string, j: nat, k: nat)
    requires j <= k < |events| < |trace|
    ensures Exceeds(rpm, trace, events, ip, j, k) <==> LeftSince(rpm, trace, events, ip, j, k) < 1.0
  {
    LeftSinceIs(rpm, trace, events, ip, j, k);
  }

  lemma {:induction false} RefusedBelowOne(rpm: nat, m: Buckets, ip: string, now: real)
    requires AllSane(rpm, m, now)
    ensures Ask(rpm, m, ip, now).1 <==> TokensOf(rpm, m, ip, now) >= 1.0
  {
    TokensWithinBurst(rpm, m, ip, now);
  }

  // A request is refused exactly when, over some stretch ending with it, allowing it would give its IP
  // more than the burst plus the rate times the elapsed time. Cleanup ticks may fall anywhere.
  lemma {:induction false} RefusedIffExceeds(rpm: nat, m: Buckets, events: seq<Event>, ip: string, now: real, k: nat)
    requires TimeOrdered(events, now) && AllSane(rpm, m, now) && ip !in m
    requires k < |events| && events[k].Requests? && events[k].ip == ip
    ensures var trace := Trace(rpm, m, events);
            !Ask(rpm, trace[k], ip, events[k].at).1 <==> exists j :: 0 <= j <= k && Exceeds(rpm, trace, events, ip, j, k)
  {
    var trace := Trace(rpm, m, events);
    TraceStep(rpm, m, events, now, k);
    RefusedBelowOne(rpm, trace[k], ip, events[k].at);
    forall j | 0 <= j <= k && Exceeds(rpm, trace, events, ip, j, k)
      ensures LevelOf(rpm, trace, events, ip, k) < 1.0
    {
      LevelAtMost(rpm, m, events, ip, now, j, k);
      ExceedsIff(rpm, trace, events, ip, j, k);
    }
    var j := LevelReached(rpm, m, events, ip, now, k);
    ExceedsIff(rpm, trace, events, ip, j, k);
  }

  // An IP that has been allowed fewer requests than the limit for one minute is allowed the next.
  lemma {:induction false} FirstRequestsAllowed(rpm: nat, m: Buckets, events: seq<Event>, ip: string, now: real, k: nat)
    requires TimeOrdered(events, now) && AllSane(rpm, m, now) && ip !in m
    requires k < |events| && events[k].Requests? && events[k].ip == ip
    requires AllowedOf(rpm, Trace(rpm, m, events), events, ip, k) < rpm
    ensures Ask(rpm, Trace(rpm, m, events)[k], ip, events[k].at).1
  {
    var trace := Trace(rpm, m, events);
    RefusedIffExceeds(rpm, m, events, ip, now, k);
    forall j | 0 <= j <= k
      ensures !Exceeds(rpm, trace, events, ip, j, k)
    {
      TimesGrow(rpm, m, events, now, j, k);
      RefillNonNegative(rpm, events[j].at, events[k].at);
      ExceedsIff(rpm, trace, events, ip, j, k);
    }
  }

  lemma {:induction false} TimesGrow(rpm: nat, m: Buckets, events: seq<Event>, now: real, j: nat, k: nat)
    requires TimeOrdered(events, now) && AllSane(rpm, m, now) && j <= k < |events|
    ensures events[j].at <= events[k].at
  {
    if j < k {
      TimesGrow(rpm, m, events, now, j, k - 1);
      TraceStep(rpm, m, events, now, k - 1);
    }
  }

  lemma {:induction false} ChargeWithin(rpm: nat, m: Buckets, events: seq<Event>, ip: string, now: real, k: nat)
    requires AllSane(rpm, m, now) && TimeOrdered(events, now) && k < |events|
    ensures var trace := Trace(rpm, m, events);
            Charge(rpm, trace[k], events[k], ip) as real <= LevelOf(rpm, trace, events, ip, k)
  {
    var trace := Trace(rpm, m, events);
    TraceStep(rpm, m, events, now, k);
    RefusedBelowOne(rpm, trace[k], ip, events[k].at);
    TokensWithinBurst(rpm, trace[k], ip, events[k].at);
  }

  // Over any stretch of any run, one IP gets at most its burst plus its rate times the elapsed time,
  // cleanup included: an eviction never refunds a token.
  lemma {:induction false} RateHolds(rpm: nat, m: Buckets, events: seq<Event>, ip: string, now: real, j: nat, k: nat)
    requires AllSane(rpm, m, now) && TimeOrdered(events, now) && j <= k < |events|
    ensures var trace := Trace(rpm, m, events);
            (AllowedOf(rpm, trace, events, ip, k + 1) - AllowedOf(rpm, trace, events, ip, j)) as real
            <= rpm as real + (events[k].at - events[j].at) * rpm as real / 60.0
  {
    var trace := Trace(rpm, m, events);
    LevelAtMost(rpm, m, events, ip, now, j, k);
    ChargeWithin(rpm, m, events, ip, now, k);
    LeftSinceIs(rpm, trace, events, ip, j, k);
  }

  // ----- Who has an entry -----

  // The event replaces or evicts the entry of an IP last seen at a time.
  function Forgets(ip: string, seen: real): Event -> bool {
    (e: Event) => match e case Requests(other, _) => other == ip case Tick(at) => at - seen > 600.0
  }

  predicate SeenAt(m: Buckets, ip: string, seen: real) { ip in m && m[ip].lastSeen == seen }

  lemma {:induction false} EntryStep(rpm: nat, m: Buckets, e: Event, ip: string, seen: real)
    ensures SeenAt(After(rpm, m, e), ip, seen) <==> e == Requests(ip, seen) || (SeenAt(m, ip, seen) && !Forgets(ip, seen)(e))
  {
  }

  lemma {:induction false} TraceNext(rpm: nat, m: Buckets, events: seq<Event>, k: nat)
    requires k < |events|
    ensures Trace(rpm, m, events)[k + 1] == After(rpm, Trace(rpm, m, events)[k], events[k])
    decreases |events|
  {
    if k > 0 { TraceNext(rpm, After(rpm, m, events[0]), events[1..], k - 1); }
  }

  function Asks(ip: string, at: real): Event -> bool { (e: Event) => e == Requests(ip, at) }

  // An IP has an entry, last seen at some time, exactly when it asked then, has not asked again and no
  // cleanup has come more than ten minutes later.
  lemma {:induction false} EntryIffSeen(rpm: nat, events: seq<Event>, ip: string, seen: real, k: nat)
    requires k <= |events|
    ensures SeenAt(Trace(rpm, map[], events)[k], ip, seen) <==> Since(events, k, Asks(ip, seen), Forgets(ip, seen))
  {
    if k > 0 {
      EntryIffSeen(rpm, events, ip, seen, k - 1);
      TraceNext(rpm, map[], events, k - 1);
      EntryStep(rpm, Trace(rpm, map[], events)[k - 1], events[k - 1], ip, seen);
      SinceNext(events, k - 1, Asks(ip, seen), Forgets(ip, seen));
    }
  }
}
