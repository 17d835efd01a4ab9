/** The shared cache with expiring keys, the nonce guard and the per-agent rate limiter. */
module Replay {
  import opened Text

  // ---------------------------------------------------------------- the cache

  datatype Entry = Entry(value: nat, deadline: nat)

  type Store = map<string, Entry>

  /** `edge` is 1 when a key is still present in the millisecond of its deadline, 0 when it is not. */
  predicate Live(s: Store, key: string, now: nat, edge: nat)
  {
    key in s && now < s[key].deadline + edge
  }

  /** What a counter stands at. */
  ghost function Standing(s: Store, key: string, now: nat, edge: nat): nat
  {
    if key in s && now < s[key].deadline + edge then s[key].value else 0
  }

  /** SET key 1 EX ttl NX, one atomic command. */
  function SetNx(s: Store, key: string, ttlMs: nat, now: nat, edge: nat): (Store, bool)
  {
    if Live(s, key, now, edge) then (s, false) else (s[key := Entry(1, now + ttlMs)], true)
  }

  /** INCR key; EXPIRE key ttl, one MULTI block. */
  function IncrExpire(s: Store, key: string, ttlMs: nat, now: nat, edge: nat): (Store, nat)
  {
    var n := if Live(s, key, now, edge) then s[key].value + 1 else 1;
    (s[key := Entry(n, now + ttlMs)], n)
  }

  /** What the network may do to one cache command: nothing, block it, or lose its reply. */
  datatype Fault = Healthy | Refused | ReplyLost

  function NonceKey(agentId: string, keyId: string, nonce: string): string
  {
    Join(["agent", "nonce", agentId, keyId, nonce], ':')
  }

  function RateKey(agentId: string, window: nat): string
  {
    Join(["agent", "rate", agentId, PrintNat(window)], ':')
  }

  lemma KeyFormats(agentId: string, keyId: string, nonce: string, window: nat)
    ensures NonceKey(agentId, keyId, nonce) == "agent:nonce:" + agentId + ":" + keyId + ":" + nonce
    ensures RateKey(agentId, window) == "agent:rate:" + agentId + ":" + PrintNat(window)
  {
    FiveParts("agent", "nonce", agentId, keyId, nonce);
    FourParts("agent", "rate", agentId, PrintNat(window));
    assert "agent" + ":" + "nonce" + ":" == "agent:nonce:" && "agent" + ":" + "rate" + ":" == "agent:rate:";
  }

  lemma FourParts(a: string, b: string, c: string, d: string)
    ensures Join([a, b, c, d], ':') == a + ":" + b + ":" + c + ":" + d
  {
    assert [a, b, c, d][1..] == [b, c, d] && [b, c, d][1..] == [c, d] && [c, d][1..] == [d];
    assert Join([c, d], ':') == c + ":" + d && Join([b, c, d], ':') == b + ":" + (c + ":" + d);
  }

  lemma FiveParts(a: string, b: string, c: string, d: string, e: string)
    ensures Join([a, b, c, d, e], ':') == a + ":" + b + ":" + c + ":" + d + ":" + e
  {
    assert [a, b, c, d, e][1..] == [b, c, d, e];
    FourParts(b, c, d, e);
  }

  // ---------------------------------------------------- guard and rate limiter

  /** The fixed window that an instant falls into. */
  function MinuteOf(ms: nat): nat { ms / 60000 }

  const RATE_TTL_MS: nat := 120000

  datatype Claim = Fresh | Seen | Unavailable

  datatype Decision = Decision(allowed: bool, remaining: nat, retryAfterSeconds: int)

  /** Fails closed: without an answer from the cache the nonce is not known to be fresh. */
  function ClaimNonce(s: Store, ttlSeconds: nat, edge: nat, agentId: string, keyId: string, nonce: string,
                      now: nat, fault: Fault): (Store, Claim)
  {
    if fault.Refused? then (s, Unavailable)
    else
      var (s', ok) := SetNx(s, NonceKey(agentId, keyId, nonce), 1000 * ttlSeconds, now, edge);
      (s', if fault.ReplyLost? then Unavailable else if ok then Fresh else Seen)
  }

  /** Fails open. The window is fixed by the clock read at `readAt`, the command runs at `now`. */
  function Consume(s: Store, perMinute: nat, edge: nat, agentId: string,
                   readAt: nat, now: nat, fault: Fault): (Store, Decision)
  {
    if fault.Refused? then (s, Decision(true, perMinute, 0))
    else
      var (s', n) := IncrExpire(s, RateKey(agentId, MinuteOf(readAt)), RATE_TTL_MS, now, edge);
      (s', if fault.ReplyLost? then Decision(true, perMinute, 0)
           else Decision(n <= perMinute, if n <= perMinute then perMinute - n else 0,
                         60 - (now % 60000) / 1000))
  }

  /** The least whole number of seconds that leads into the next minute. */
  ghost predicate NextWindow(now: nat, seconds: int)
  {
    1 <= seconds <= 60 && (now + 1000 * seconds) / 60000 == now / 60000 + 1
    && (now + 1000 * (seconds - 1)) / 60000 == now / 60000
  }

  lemma RetryReachesNextWindow(now: nat)
    ensures NextWindow(now, 60 - (now % 60000) / 1000)
  {
    var minute, within := now / 60000, now % 60000;
    assert now == 60000 * minute + within;
  }

  class Redis {
    var entries: Store
    const edge: nat

    constructor (edge: nat)
      ensures entries == map[] && this.edge == edge
    {
      entries := map[];
      this.edge := edge;
    }

    method SetIfAbsent(key: string, ttlMs: nat, now: nat) returns (ok: bool)
      modifies this
      ensures (entries, ok) == SetNx(old(entries), key, ttlMs, now, edge)
      ensures ok <==> !(key in old(entries) && now < old(entries)[key].deadline + edge)
      ensures entries == if ok then old(entries)[key := Entry(1, now + ttlMs)] else old(entries)
    {
      if key in entries && now < entries[key].deadline + edge {
        return false;
      }
      entries := entries[key := Entry(1, now + ttlMs)];
      return true;
    }

    method Increment(key: string, ttlMs: nat, now: nat) returns (n: nat)
      modifies this
      ensures (entries, n) == IncrExpire(old(entries), key, ttlMs, now, edge)
      ensures n == 1 + Standing(old(entries), key, now, edge) && entries == old(entries)[key := Entry(n, now + ttlMs)]
    {
      n := 1;
      if key in entries && now < entries[key].deadline + edge {
        n := entries[key].value + 1;
      }
      entries := entries[key := Entry(n, now + ttlMs)];
    }
  }

  class ReplayGuard {
    const redis: Redis
    const ttlSeconds: nat

    constructor (redis: Redis, ttlSeconds: nat)
      ensures this.redis == redis && this.ttlSeconds == ttlSeconds
    {
      this.redis := redis;
      this.ttlSeconds := ttlSeconds;
    }

    method ClaimFor(agentId: string, keyId: string, nonce: string, now: nat, fault: Fault) returns (c: Claim)
      modifies redis
      ensures (redis.entries, c)
              == ClaimNonce(old(redis.entries), ttlSeconds, redis.edge, agentId, keyId, nonce, now, fault)
      ensures var key := "agent:nonce:" + agentId + ":" + keyId + ":" + nonce;
              var taken := key in old(redis.entries) && now < old(redis.entries)[key].deadline + redis.edge;
              && c == (if fault != Healthy then Unavailable else if taken then Seen else Fresh)
              && redis.entries == (if fault == Refused || taken then old(redis.entries)
                                   else old(redis.entries)[key := Entry(1, now + 1000 * ttlSeconds)])
    {
      KeyFormats(agentId, keyId, nonce, 0);
      if fault == Refused {
        return Unavailable;
      }
      var ok := redis.SetIfAbsent(NonceKey(agentId, keyId, nonce), 1000 * ttlSeconds, now);
      if fault == ReplyLost {
        return Unavailable;
      }
      return if ok then Fresh else Seen;
    }
  }

  class AgentRateLimiter {
    const redis: Redis
    const perMinute: nat

    constructor (redis: Redis, perMinute: nat)
      ensures this.redis == redis && this.perMinute == perMinute
    {
      this.redis := redis;
      this.perMinute := perMinute;
    }

    method ConsumeFor(agentId: string, readAt: nat, now: nat, fault: Fault) returns (d: Decision)
      modifies redis
      ensures (redis.entries, d)
              == Consume(old(redis.entries), perMinute, redis.edge, agentId, readAt, now, fault)
      ensures var key := "agent:rate:" + agentId + ":" + PrintNat(readAt / 60000);
              var n := 1 + Standing(old(redis.entries), key, now, redis.edge);
              && redis.entries == (if fault == Refused then old(redis.entries)
                                   else old(redis.entries)[key := Entry(n, now + 120000)])
              && (fault != Healthy ==> d == Decision(true, perMinute, 0))
              && (fault == Healthy ==> (d.allowed <==> n <= perMinute) && NextWindow(now, d.retryAfterSeconds)
                                       && d.remaining == if n <= perMinute then perMinute - n else 0)
    {
      KeyFormats(agentId, "", "", MinuteOf(readAt));
      RetryReachesNextWindow(now);
      var key := RateKey(agentId, MinuteOf(readAt));
      if fault == Refused {
        return Decision(true, perMinute, 0);
      }
      var count := redis.Increment(key, RATE_TTL_MS, now);
      if fault == ReplyLost {
        return Decision(true, perMinute, 0);
      }
      var remaining := if count <= perMinute then perMinute - count else 0;
      return Decision(count <= perMinute, remaining, 60 - (now % 60000) / 1000);
    }
  }

  // ------------------------------------------------------------- key isolation

  /** Distinct (agent, key, nonce) triples never share a cache key, thanks to the identifier format. */
  lemma NonceKeyInjective(a: string, k: string, n: string, a': string, k': string, n': string)
    requires ':' !in a && ':' !in k && ':' !in n && ':' !in a' && ':' !in k' && ':' !in n'
    requires NonceKey(a, k, n) == NonceKey(a', k', n')
    ensures a == a' && k == k' && n == n'
  {
    var p, q := ["agent", "nonce", a, k, n], ["agent", "nonce", a', k', n'];
    JoinInjective(p, q, ':');
    assert p[2] == q[2] && p[3] == q[3] && p[4] == q[4];
  }

  lemma RateKeyInjective(a: string, w: nat, a': string, w': nat)
    requires ':' !in a && ':' !in a' && RateKey(a, w) == RateKey(a', w')
    ensures a == a' && w == w'
  {
    var p, q := ["agent", "rate", a, PrintNat(w)], ["agent", "rate", a', PrintNat(w')];
    JoinInjective(p, q, ':');
    assert p[2] == q[2] && p[3] == q[3];
    NatRoundTrip(w);
    NatRoundTrip(w');
  }

  lemma NonceKeyIsNoRateKey(a: string, k: string, n: string, a': string, w: nat)
    ensures NonceKey(a, k, n) != RateKey(a', w)
  {
    var p, q := ["agent", "nonce", a, k, n], ["agent", "rate", a', PrintNat(w)];
    assert Join(p, ':') == "agent" + [':'] + Join(p[1..], ':') && Join(p[1..], ':')[0] == 'n';
    assert Join(q, ':') == "agent" + [':'] + Join(q[1..], ':') && Join(q[1..], ':')[0] == 'r';
    assert Join(p, ':')[6] == 'n' && Join(q, ':')[6] == 'r';
  }
}
