/**
 * The ordered authentication pipeline of an agent request.
 *
 * `Advance` is one uninterrupted stretch of the pipeline, from one await to the next; a request handler is
 * a stage plus the clock readings it took. `AgentAuthenticator` runs the stretches of one handler in a row.
 */
module Authenticate {
  import opened Text
  import opened Replay
  import Credentials
  import Protocol

  // ------------------------------------------------------------------ settings

  datatype Config = Config(
    skew: nat,        // AGENT_CLOCK_SKEW_SECONDS
    ttl: nat,         // AGENT_NONCE_TTL_SECONDS
    perMinute: nat,   // AGENT_RATE_LIMIT_PER_MINUTE
    delay: nat,       // longest time in ms from a clock reading to the cache command that follows it
    wholeSeconds: bool, // every event falls on a whole second, instead of any millisecond
    edge: nat,        // see Replay.Live
    hmac: (string, string) -> string,
    sha256: string -> string)

  /** What the startup validation of the environment lets through. */
  predicate Admissible(c: Config)
  {
    30 <= c.skew <= 300 && 60 <= c.ttl <= 3600 && 1 <= c.perMinute <= 10000 && 2 * c.skew <= c.ttl
  }

  /** Milliseconds between two moments of the clock. */
  function Grain(c: Config): nat { if c.wholeSeconds then 1000 else 1 }

  predicate OnGrain(c: Config, x: nat) { c.wholeSeconds ==> x % 1000 == 0 }

  predicate ClockModel(c: Config)
  {
    OnGrain(c, c.delay) && c.edge <= 1
  }

  // ------------------------------------------------------------------- request

  /** A header as Node presents it; only a single value is usable. */
  datatype HeaderValue = Missing | Single(text: string) | Repeated(texts: seq<string>)

  datatype Request = Request(
    agentId: HeaderValue, serverId: HeaderValue, keyId: HeaderValue, timestamp: HeaderValue,
    nonce: HeaderValue, signature: HeaderValue, protocol: HeaderValue,
    agentVersion: HeaderValue, requestId: HeaderValue,
    verb: string, url: string, body: string)

  datatype Fields = Fields(
    agentId: string, serverId: string, keyId: string, timestamp: int, nonce: string, signature: string,
    protocolVersion: int)

  datatype Code = VALIDATION | CLOCK_SKEW | REPLAY | INVALID_SIGNATURE | CREDENTIAL_REVOKED | RATE_LIMITED | INTERNAL

  datatype AuthError = AuthError(status: nat, code: Code, retryAfter: Option<int>)

  datatype Validation = Valid(fields: Fields) | Invalid(error: AuthError)

  function Header(h: HeaderValue): Option<string>
  {
    match h case Single(t) => Some(t) case _ => None
  }

  predicate IsIdChar(c: char)
  {
    'A' <= c <= 'Z' || 'a' <= c <= 'z' || '0' <= c <= '9' || c == '_' || c == '-'
  }

  predicate IsId(s: string) { 1 <= |s| <= 64 && forall c | c in s :: IsIdChar(c) }

  predicate IsNonce(s: string) { 16 <= |s| <= 128 && forall c | c in s :: IsHexDigit(c) }

  function Text0(h: HeaderValue): string
  {
    match Header(h) case Some(t) => t case None => ""
  }

  /** Presence, formats, then the two numbers, in this order. */
  function Validate(r: Request): Validation
  {
    var a, s, k, t, n, g := Text0(r.agentId), Text0(r.serverId), Text0(r.keyId), Text0(r.timestamp),
                            Text0(r.nonce), Text0(r.signature);
    if a == "" || s == "" || k == "" || t == "" || n == "" || g == "" then
      Invalid(AuthError(401, INVALID_SIGNATURE, None))
    else if !IsId(a) || !IsId(s) || !IsId(k) then Invalid(AuthError(401, INVALID_SIGNATURE, None))
    else if !IsNonce(n) || !IsMac(g) then Invalid(AuthError(401, INVALID_SIGNATURE, None))
    else
      var ts := JsNumber(t);
      if ts.None? || ts.value <= 0 then Invalid(AuthError(401, CLOCK_SKEW, None))
      else
        var pv := JsNumber(if Header(r.protocol).Some? then Header(r.protocol).value else "0");
        if pv.None? || pv.value < 1 then Invalid(AuthError(400, VALIDATION, None))
        else Valid(Fields(a, s, k, ts.value, n, g, pv.value))
  }

  /** Everything before, and everything after, the first question mark. */
  function PathOf(url: string): string
  {
    if url == "" || url[0] == '?' then "" else [url[0]] + PathOf(url[1..])
  }

  function QueryOf(url: string): string
  {
    if url == "" then "" else if url[0] == '?' then url[1..] else QueryOf(url[1..])
  }

  function SignedString(c: Config, r: Request, f: Fields): string
  {
    Protocol.CanonicalRequest(Protocol.RequestParts(
      r.verb, PathOf(r.url), QueryOf(r.url), f.agentId, f.serverId, f.keyId, f.timestamp, f.nonce,
      c.sha256(r.body)))
  }

  // ------------------------------------------------------------------- handler

  datatype Stage =
    | Arrived
    | Limiting
    | Resolving
    | Checking(row: Credentials.Row)
    | Claiming(row: Credentials.Row)
    | Signing(row: Credentials.Row)
    | Accepted(row: Credentials.Row)
    | Rejected(error: AuthError)

  datatype Handler = Handler(
    request: Request,
    fields: Option<Fields>,
    stage: Stage,
    limitedAt: nat,          // clock reading that chose the rate window
    counted: bool,           // the limiter answered and allowed the request
    checkedAt: nat,          // clock reading compared with the timestamp
    triedAt: nat,            // when the nonce command ran
    claimedAt: Option<nat>)  // when the nonce was set for this handler

  function Fresh0(r: Request): Handler
  {
    Handler(r, None, Arrived, 0, false, 0, 0, None)
  }

  function Abs(x: int): nat { if x < 0 then -x else x }

  function CheckClock(c: Config, f: Fields, row: Credentials.Row, h: Handler, now: nat): Handler
  {
    if row.serverId != f.serverId then h.(stage := Rejected(AuthError(401, INVALID_SIGNATURE, None)))
    else if Abs(now / 1000 - f.timestamp) > c.skew then h.(stage := Rejected(AuthError(401, CLOCK_SKEW, None)))
    else h.(stage := Claiming(row), checkedAt := now)
  }

  function TakeNonce(c: Config, f: Fields, row: Credentials.Row, s: Store, h: Handler, now: nat, fault: Fault)
    : (Store, Handler)
  {
    var (s', claim) := ClaimNonce(s, c.ttl, c.edge, f.agentId, f.keyId, f.nonce, now, fault);
    var won := !fault.Refused? && !Live(s, NonceKey(f.agentId, f.keyId, f.nonce), now, c.edge);
    var h' := h.(triedAt := now, claimedAt := if won then Some(now) else None);
    (s', match claim
         case Fresh => h'.(stage := Signing(row))
         case Seen => h'.(stage := Rejected(AuthError(401, REPLAY, None)))
         case Unavailable => h'.(stage := Rejected(AuthError(503, INTERNAL, Some(15)))))
  }

  function TakeRate(c: Config, f: Fields, s: Store, h: Handler, now: nat, fault: Fault): (Store, Handler)
  {
    var (s', d) := Consume(s, c.perMinute, c.edge, f.agentId, h.limitedAt, now, fault);
    (s', if d.allowed then h.(stage := Resolving, counted := fault.Healthy?)
         else h.(stage := Rejected(AuthError(429, RATE_LIMITED, Some(d.retryAfterSeconds)))))
  }

  function CheckSignature(c: Config, f: Fields, row: Credentials.Row, h: Handler): Handler
  {
    if f.signature == c.hmac(row.secret, SignedString(c, h.request, f)) then h.(stage := Accepted(row))
    else h.(stage := Rejected(AuthError(401, INVALID_SIGNATURE, None)))
  }

  /** One stretch of the pipeline at time `now`; a finished handler stays as it is. */
  function Advance(c: Config, t: Credentials.Table, s: Store, h: Handler, now: nat, fault: Fault): (Store, Handler)
  {
    if h.stage.Arrived? then
      match Validate(h.request)
      case Invalid(e) => (s, h.(stage := Rejected(e)))
      case Valid(f) => (s, h.(fields := Some(f), stage := Limiting, limitedAt := now))
    else if h.fields.None? then (s, h)
    else
      var f := h.fields.value;
      match h.stage
      case Limiting => TakeRate(c, f, s, h, now, fault)
      case Resolving =>
        (match Credentials.Resolve(t, f.agentId, f.keyId, now)
         case None => (s, h.(stage := Rejected(AuthError(401, CREDENTIAL_REVOKED, None))))
         case Some(row) => (s, h.(stage := Checking(row))))
      case Checking(row) => (s, CheckClock(c, f, row, h, now))
      case Claiming(row) => TakeNonce(c, f, row, s, h, now, fault)
      case Signing(row) => (s, CheckSignature(c, f, row, h))
      case _ => (s, h)
  }

  // ------------------------------------------------------------- one whole call

  /** When each stretch of one call runs, and what the network does to its two cache commands. */
  datatype Timing = Timing(limitAt: nat, countAt: nat, checkAt: nat, claimAt: nat, rateFault: Fault, nonceFault: Fault)

  /** The clock and the network at each of the six stretches. */
  function Moment(at: Timing, k: nat): (nat, Fault)
  {
    if k == 0 then (at.limitAt, Healthy)
    else if k == 1 then (at.countAt, at.rateFault)
    else if k == 2 then (at.countAt, Healthy)
    else if k == 3 then (at.checkAt, Healthy)
    else if k == 4 then (at.claimAt, at.nonceFault)
    else (at.claimAt, Healthy)
  }

  /** The stretches from the k-th on, run in a row. */
  function Finish(c: Config, t: Credentials.Table, s: Store, h: Handler, at: Timing, k: nat): (Store, Handler)
    decreases 6 - k
  {
    if k >= 6 then (s, h)
    else
      var (now, fault) := Moment(at, k);
      var (s', h') := Advance(c, t, s, h, now, fault);
      Finish(c, t, s', h', at, k + 1)
  }

  lemma {:induction false} RejectedStays(c: Config, t: Credentials.Table, s: Store, h: Handler, at: Timing, k: nat)
    requires h.stage.Rejected?
    ensures Finish(c, t, s, h, at, k) == (s, h)
    decreases 6 - k
  {
    if k < 6 {
      RejectedStays(c, t, s, h, at, k + 1);
    }
  }

  function Alone(c: Config, t: Credentials.Table, s: Store, r: Request, at: Timing): (Store, Handler)
  {
    Finish(c, t, s, Fresh0(r), at, 0)
  }

  class AgentAuthenticator {
    const config: Config
    const credentials: Credentials.CredentialStore
    const replay: ReplayGuard
    const rateLimiter: AgentRateLimiter

    predicate Wired()
    {
      && replay.redis == rateLimiter.redis && replay.redis.edge == config.edge
      && replay.ttlSeconds == config.ttl && rateLimiter.perMinute == config.perMinute
    }

    constructor (config: Config, credentials: Credentials.CredentialStore, replay: ReplayGuard,
                 rateLimiter: AgentRateLimiter)
      requires replay.redis == rateLimiter.redis && replay.redis.edge == config.edge
      requires replay.ttlSeconds == config.ttl && rateLimiter.perMinute == config.perMinute
      ensures Wired() && this.config == config && this.credentials == credentials
      ensures this.replay == replay && this.rateLimiter == rateLimiter
    {
      this.config := config;
      this.credentials := credentials;
      this.replay := replay;
      this.rateLimiter := rateLimiter;
    }

    /** The agent version and the request id are optional; everything else is checked in order. */
    method ReadHeaders(r: Request) returns (v: Validation, agentVersion: string, requestId: string)
      ensures v == Validate(r)
      ensures agentVersion == if r.agentVersion.Single? then r.agentVersion.text else "unknown"
      ensures requestId == if r.requestId.Single? then r.requestId.text else ""
    {
      agentVersion, requestId := "unknown", "";
      if Header(r.agentVersion).Some? { agentVersion := Header(r.agentVersion).value; }
      if Header(r.requestId).Some? { requestId := Header(r.requestId).value; }
      var agentId, serverId, keyId := Header(r.agentId), Header(r.serverId), Header(r.keyId);
      var timestampRaw, nonce, signature := Header(r.timestamp), Header(r.nonce), Header(r.signature);
      var unsigned := AuthError(401, INVALID_SIGNATURE, None);
      if agentId.None? || serverId.None? || keyId.None? || timestampRaw.None? || nonce.None? || signature.None? {
        return Invalid(unsigned), agentVersion, requestId;
      }
      if agentId.value == "" || serverId.value == "" || keyId.value == "" || timestampRaw.value == ""
         || nonce.value == "" || signature.value == "" {
        return Invalid(unsigned), agentVersion, requestId;
      }
      if !IsId(agentId.value) || !IsId(serverId.value) || !IsId(keyId.value) {
        return Invalid(unsigned), agentVersion, requestId;
      }
      if !IsNonce(nonce.value) || !IsMac(signature.value) {
        return Invalid(unsigned), agentVersion, requestId;
      }
      var timestamp := JsNumber(timestampRaw.value);
      if timestamp.None? || timestamp.value <= 0 {
        return Invalid(AuthError(401, CLOCK_SKEW, None)), agentVersion, requestId;
      }
      var protocolVersion := Some(0);
      if Header(r.protocol).Some? {
        protocolVersion := JsNumber(Header(r.protocol).value);
      } else {
        assert JsNumber("0") == Some(0) by { NumberRoundTrip(0); }
      }
      if protocolVersion.None? || protocolVersion.value < 1 {
        return Invalid(AuthError(400, VALIDATION, None)), agentVersion, requestId;
      }
      v := Valid(Fields(agentId.value, serverId.value, keyId.value, timestamp.value, nonce.value,
                        signature.value, protocolVersion.value));
    }

    /** The last two stretches: the nonce, then the signature. */
    method ClaimAndVerify(r: Request, f: Fields, row: Credentials.Row, at: Timing, ghost h: Handler)
      returns (answer: Stage)
      requires Wired() && h.request == r && h.fields == Some(f) && h.stage == Claiming(row)
      modifies replay.redis
      ensures answer == Finish(config, credentials.rows, old(replay.redis.entries), h, at, 4).1.stage
      ensures replay.redis.entries == Finish(config, credentials.rows, old(replay.redis.entries), h, at, 4).0
    {
      ghost var c, t, s := config, credentials.rows, replay.redis.entries;
      ghost var (s1, h1) := Advance(c, t, s, h, at.claimAt, at.nonceFault);
      assert Finish(c, t, s, h, at, 4) == Finish(c, t, s1, h1, at, 5);
      var claim := replay.ClaimFor(f.agentId, f.keyId, f.nonce, at.claimAt, at.nonceFault);
      if claim == Unavailable {
        RejectedStays(c, t, s1, h1, at, 5);
        return Rejected(AuthError(503, INTERNAL, Some(15)));
      }
      if claim == Seen {
        RejectedStays(c, t, s1, h1, at, 5);
        return Rejected(AuthError(401, REPLAY, None));
      }
      ghost var (s2, h2) := Advance(c, t, s1, h1, at.claimAt, Healthy);
      assert Finish(c, t, s1, h1, at, 5) == Finish(c, t, s2, h2, at, 6) == (s2, h2);
      var expected := config.hmac(row.secret, SignedString(config, r, f));
      if f.signature != expected {
        return Rejected(AuthError(401, INVALID_SIGNATURE, None));
      }
      return Accepted(row);
    }

    /** Answers as the stretches of the pipeline run in a row, and leaves the cache as they do. */
    method AuthenticateRequest(r: Request, at: Timing) returns (answer: Stage)
      requires Wired()
      modifies replay.redis
      ensures answer == Alone(config, credentials.rows, old(replay.redis.entries), r, at).1.stage
      ensures replay.redis.entries == Alone(config, credentials.rows, old(replay.redis.entries), r, at).0
    {
      ghost var c, t, s0 := config, credentials.rows, replay.redis.entries;
      ghost var (s1, h1) := Advance(c, t, s0, Fresh0(r), at.limitAt, Healthy);
      assert Finish(c, t, s0, Fresh0(r), at, 0) == Finish(c, t, s1, h1, at, 1);
      var v, _, _ := ReadHeaders(r);
      if v.Invalid? {
        RejectedStays(c, t, s1, h1, at, 1);
        return Rejected(v.error);
      }
      var f := v.fields;
      ghost var (s2, h2) := Advance(c, t, s1, h1, at.countAt, at.rateFault);
      assert Finish(c, t, s1, h1, at, 1) == Finish(c, t, s2, h2, at, 2);
      var rate := rateLimiter.ConsumeFor(f.agentId, at.limitAt, at.countAt, at.rateFault);
      if !rate.allowed {
        RejectedStays(c, t, s2, h2, at, 2);
        return Rejected(AuthError(429, RATE_LIMITED, Some(rate.retryAfterSeconds)));
      }
      ghost var (s3, h3) := Advance(c, t, s2, h2, at.countAt, Healthy);
      assert Finish(c, t, s2, h2, at, 2) == Finish(c, t, s3, h3, at, 3);
      var credential := credentials.ResolveKey(f.agentId, f.keyId, at.countAt);
      if credential.None? {
        RejectedStays(c, t, s3, h3, at, 3);
        return Rejected(AuthError(401, CREDENTIAL_REVOKED, None));
      }
      var row := credential.value;
      ghost var (s4, h4) := Advance(c, t, s3, h3, at.checkAt, Healthy);
      assert Finish(c, t, s3, h3, at, 3) == Finish(c, t, s4, h4, at, 4);
      if row.serverId != f.serverId {
        RejectedStays(c, t, s4, h4, at, 4);
        return Rejected(AuthError(401, INVALID_SIGNATURE, None));
      }
      var skew := Abs(at.checkAt / 1000 - f.timestamp);
      if skew > config.skew {
        RejectedStays(c, t, s4, h4, at, 4);
        return Rejected(AuthError(401, CLOCK_SKEW, None));
      }
      answer := ClaimAndVerify(r, f, row, at, h4);
    }
  }
}
