/** What a call of the authenticator answers, in terms of the request, the key table and the cache alone. */
module Acceptance {
  import opened Text
  import opened Replay
  import opened Authenticate
  import Credentials
  import Protocol

  // ------------------------------------------------------------------- headers

  /** 1 to 64 letters, digits, underscores and hyphens. */
  ghost predicate Identifier(s: string)
  {
    1 <= |s| <= 64 && forall c | c in s ::
      65 <= c as int <= 90 || 97 <= c as int <= 122 || 48 <= c as int <= 57 || c == '_' || c == '-'
  }

  ghost predicate LowerHex(s: string, least: nat, most: nat)
  {
    least <= |s| <= most && forall c | c in s :: 48 <= c as int <= 57 || 97 <= c as int <= 102
  }

  /** The six signed headers are there once each, five of them well-formed. */
  ghost predicate SignedHeaders(r: Request)
  {
    && r.agentId.Single? && r.serverId.Single? && r.keyId.Single? && r.nonce.Single? && r.signature.Single?
    && Identifier(r.agentId.text) && Identifier(r.serverId.text) && Identifier(r.keyId.text)
    && LowerHex(r.nonce.text, 16, 128) && LowerHex(r.signature.text, 64, 64)
    && r.timestamp.Single? && r.timestamp.text != ""
  }

  ghost predicate PositiveNumber(h: HeaderValue, n: int)
  {
    h.Single? && JsNumber(h.text) == Some(n) && n > 0
  }

  ghost predicate Positive(h: HeaderValue)
  {
    h.Single? && JsNumber(h.text).Some? && JsNumber(h.text).value > 0
  }

  /** The headers of the request say exactly this. */
  ghost predicate Presents(r: Request, f: Fields)
  {
    && SignedHeaders(r) && PositiveNumber(r.timestamp, f.timestamp) && PositiveNumber(r.protocol, f.protocolVersion)
    && r.agentId.text == f.agentId && r.serverId.text == f.serverId && r.keyId.text == f.keyId
    && r.nonce.text == f.nonce && r.signature.text == f.signature
  }

  lemma FormatsAreCodes(s: string)
    ensures IsId(s) <==> Identifier(s)
    ensures IsNonce(s) <==> LowerHex(s, 16, 128)
    ensures IsMac(s) <==> LowerHex(s, 64, 64)
  {
  }

  lemma SignedHeadersAre(r: Request)
    ensures SignedHeaders(r)
       <==> Text0(r.timestamp) != "" && IsId(Text0(r.agentId)) && IsId(Text0(r.serverId)) && IsId(Text0(r.keyId))
            && IsNonce(Text0(r.nonce)) && IsMac(Text0(r.signature))
  {
    FormatsAreCodes(Text0(r.agentId));
    FormatsAreCodes(Text0(r.serverId));
    FormatsAreCodes(Text0(r.keyId));
    FormatsAreCodes(Text0(r.nonce));
    FormatsAreCodes(Text0(r.signature));
  }

  /** A missing protocol version counts as 0, which is none. */
  lemma ProtocolIs(r: Request)
    ensures var pv := JsNumber(if Header(r.protocol).Some? then Header(r.protocol).value else "0");
            forall n :: pv == Some(n) && n >= 1 <==> PositiveNumber(r.protocol, n)
  {
    NumberRoundTrip(0);
    DigitCodes(0);
    assert PrintInt(0) == "0";
  }

  /** The headers are accepted if and only if they present some fields, and then as those. */
  lemma ValidExactly(r: Request, f: Fields)
    ensures Validate(r) == Valid(f) <==> Presents(r, f)
  {
    SignedHeadersAre(r);
    ProtocolIs(r);
  }

  /** Otherwise the first of the three checks that fails decides the answer. */
  lemma InvalidExactly(r: Request)
    ensures !SignedHeaders(r) ==> Validate(r) == Invalid(AuthError(401, INVALID_SIGNATURE, None))
    ensures SignedHeaders(r) && !Positive(r.timestamp) ==> Validate(r) == Invalid(AuthError(401, CLOCK_SKEW, None))
    ensures SignedHeaders(r) && Positive(r.timestamp) && !Positive(r.protocol) ==>
              Validate(r) == Invalid(AuthError(400, VALIDATION, None))
  {
    SignedHeadersAre(r);
    ProtocolIs(r);
    if Positive(r.protocol) { assert PositiveNumber(r.protocol, JsNumber(r.protocol.text).value); }
  }

  // -------------------------------------------------------- the signed string

  /** The url before and after its first question mark. */
  ghost predicate Cuts(url: string, path: string, query: string)
  {
    '?' !in path && (url == path + "?" + query || (url == path && query == ""))
  }

  lemma {:induction false} UrlIsCut(url: string)
    ensures Cuts(url, PathOf(url), QueryOf(url))
    ensures '?' in url ==> url == PathOf(url) + "?" + QueryOf(url)
    decreases |url|
  {
    if url != "" {
      assert url == [url[0]] + url[1..];
      if url[0] != '?' { UrlIsCut(url[1..]); }
    }
  }

  lemma {:induction false} CutIsUnique(url: string, path: string, query: string)
    requires Cuts(url, path, query)
    ensures path == PathOf(url) && query == QueryOf(url)
    decreases |url|
  {
    if path != "" {
      assert url[0] == path[0] && path[0] in path && path == [path[0]] + path[1..];
      assert Cuts(url[1..], path[1..], query) by {
        assert path + "?" + query == [path[0]] + (path[1..] + "?" + query);
      }
      CutIsUnique(url[1..], path[1..], query);
    } else if url != "" {
      assert url == "?" + query;
    }
  }

  /** The ten lines that the agent signs. */
  ghost function SignedText(c: Config, r: Request, f: Fields, path: string, query: string): string
  {
    Join(["ZSHIELD-AGENT-V1", Protocol.Upper(r.verb), path, query, f.agentId, f.serverId, f.keyId,
          PrintInt(f.timestamp), f.nonce, c.sha256(r.body)], '\n')
  }

  lemma SignedStringIs(c: Config, r: Request, f: Fields)
    ensures SignedString(c, r, f) == SignedText(c, r, f, PathOf(r.url), QueryOf(r.url))
  {
    Protocol.VersionOne();
    assert "ZSHIELD-AGENT-V" + "1" == "ZSHIELD-AGENT-V1";
  }

  /** The signature is the HMAC of these lines, with path and query cut from the url. */
  ghost predicate SignedWith(c: Config, r: Request, f: Fields, secret: string)
  {
    exists path, query :: Cuts(r.url, path, query) && f.signature == c.hmac(secret, SignedText(c, r, f, path, query))
  }

  lemma SignedWithIs(c: Config, r: Request, f: Fields, secret: string)
    ensures SignedWith(c, r, f, secret) <==> f.signature == c.hmac(secret, SignedString(c, r, f))
  {
    UrlIsCut(r.url);
    SignedStringIs(c, r, f);
    forall path, query | Cuts(r.url, path, query) ensures path == PathOf(r.url) && query == QueryOf(r.url) {
      CutIsUnique(r.url, path, query);
    }
  }

  // ---------------------------------------------------------------- one by one

  /** The counter of the minute, with this request, is within the quota; an unanswered limiter lets everything in. */
  ghost predicate WithinQuota(c: Config, s: Store, f: Fields, at: Timing)
  {
    var key := "agent:rate:" + f.agentId + ":" + PrintNat(at.limitAt / 60000);
    at.rateFault != Healthy || 1 + Standing(s, key, at.countAt, c.edge) <= c.perMinute
  }

  /** The row of the key is usable for that agent. */
  ghost predicate KeyServes(t: Credentials.Table, f: Fields, now: nat)
  {
    && f.keyId in t && t[f.keyId].agentId == f.agentId
    && (t[f.keyId].status == Credentials.ACTIVE || t[f.keyId].status == Credentials.PENDING_ROTATION)
    && (t[f.keyId].expires.Some? ==> now < t[f.keyId].expires.value)
  }

  ghost predicate InWindow(c: Config, f: Fields, now: nat)
  {
    f.timestamp - c.skew <= now / 1000 <= f.timestamp + c.skew
  }

  ghost predicate NonceTaken(c: Config, s: Store, f: Fields, now: nat)
  {
    var key := "agent:nonce:" + f.agentId + ":" + f.keyId + ":" + f.nonce;
    key in s && now < s[key].deadline + c.edge
  }

  // --------------------------------------------------------- the six stretches

  /** The handler before its k-th stretch; the clock readings do not matter here. */
  ghost predicate Reaches(c: Config, t: Credentials.Table, s: Store, r: Request, f: Fields, at: Timing, k: nat,
                          s': Store, h: Handler)
    requires k <= 6
  {
    && Alone(c, t, s, r, at) == Finish(c, t, s', h, at, k)
    && h.request == r && h.fields == Some(f)
  }

  lemma Arrives(c: Config, t: Credentials.Table, s: Store, r: Request, f: Fields, at: Timing) returns (h: Handler)
    requires Presents(r, f)
    ensures Reaches(c, t, s, r, f, at, 1, s, h) && h.stage == Limiting && h.limitedAt == at.limitAt
  {
    ValidExactly(r, f);
    h := Fresh0(r).(fields := Some(f), stage := Limiting, limitedAt := at.limitAt);
    assert Advance(c, t, s, Fresh0(r), at.limitAt, Healthy) == (s, h);
  }

  /** The cache after the counter of the minute has been raised. */
  ghost function Counted(c: Config, s: Store, f: Fields, at: Timing): Store
  {
    var key := "agent:rate:" + f.agentId + ":" + PrintNat(at.limitAt / 60000);
    if at.rateFault == Refused then s
    else s[key := Entry(1 + Standing(s, key, at.countAt, c.edge), at.countAt + 120000)]
  }

  lemma RateIs(c: Config, s: Store, h: Handler, f: Fields, at: Timing)
    requires h.limitedAt == at.limitAt
    ensures var (s', h') := TakeRate(c, f, s, h, at.countAt, at.rateFault);
            && s' == Counted(c, s, f, at) && h'.request == h.request && h'.fields == h.fields
            && (WithinQuota(c, s, f, at) ==> h'.stage == Resolving)
            && (!WithinQuota(c, s, f, at) ==> TooMany(h'.stage, at.countAt))
  {
    KeyFormats(f.agentId, "", "", MinuteOf(at.limitAt));
    RetryReachesNextWindow(at.countAt);
  }

  /** 429, with the seconds to the next window. */
  ghost predicate TooMany(stage: Stage, now: nat)
  {
    exists seconds :: NextWindow(now, seconds) && stage == Rejected(AuthError(429, RATE_LIMITED, Some(seconds)))
  }

  lemma Counts(c: Config, t: Credentials.Table, s: Store, r: Request, f: Fields, at: Timing) returns (h: Handler)
    requires Presents(r, f)
    ensures WithinQuota(c, s, f, at) ==>
              Reaches(c, t, s, r, f, at, 2, Counted(c, s, f, at), h) && h.stage == Resolving
    ensures !WithinQuota(c, s, f, at) ==> TooMany(Alone(c, t, s, r, at).1.stage, at.countAt)
  {
    var h1 := Arrives(c, t, s, r, f, at);
    RateIs(c, s, h1, f, at);
    var (s', h') := Advance(c, t, s, h1, at.countAt, at.rateFault);
    assert Finish(c, t, s, h1, at, 1) == Finish(c, t, s', h', at, 2);
    if !WithinQuota(c, s, f, at) { RejectedStays(c, t, s', h', at, 2); }
    h := h';
  }

  /** A refusal that ends the call with this status and code. */
  ghost predicate Refuses(c: Config, t: Credentials.Table, s: Store, r: Request, at: Timing, status: nat, code: Code,
                          retryAfter: Option<int>)
  {
    Alone(c, t, s, r, at).1.stage == Rejected(AuthError(status, code, retryAfter))
  }

  lemma Resolves(c: Config, t: Credentials.Table, s: Store, r: Request, f: Fields, at: Timing) returns (h: Handler)
    requires Presents(r, f) && WithinQuota(c, s, f, at)
    ensures KeyServes(t, f, at.countAt) ==>
              Reaches(c, t, s, r, f, at, 3, Counted(c, s, f, at), h) && h.stage == Checking(t[f.keyId])
    ensures !KeyServes(t, f, at.countAt) ==> Refuses(c, t, s, r, at, 401, CREDENTIAL_REVOKED, None)
  {
    var h2 := Counts(c, t, s, r, f, at);
    var s' := Counted(c, s, f, at);
    h := Advance(c, t, s', h2, at.countAt, Healthy).1;
    assert Finish(c, t, s', h2, at, 2) == Finish(c, t, s', h, at, 3);
    if !KeyServes(t, f, at.countAt) { RejectedStays(c, t, s', h, at, 3); }
  }

  lemma Checks(c: Config, t: Credentials.Table, s: Store, r: Request, f: Fields, at: Timing) returns (h: Handler)
    requires Presents(r, f) && WithinQuota(c, s, f, at) && KeyServes(t, f, at.countAt)
    ensures t[f.keyId].serverId == f.serverId && InWindow(c, f, at.checkAt) ==>
              Reaches(c, t, s, r, f, at, 4, Counted(c, s, f, at), h) && h.stage == Claiming(t[f.keyId])
    ensures t[f.keyId].serverId != f.serverId ==> Refuses(c, t, s, r, at, 401, INVALID_SIGNATURE, None)
    ensures t[f.keyId].serverId == f.serverId && !InWindow(c, f, at.checkAt) ==>
              Refuses(c, t, s, r, at, 401, CLOCK_SKEW, None)
  {
    var h3 := Resolves(c, t, s, r, f, at);
    var s' := Counted(c, s, f, at);
    h := Advance(c, t, s', h3, at.checkAt, Healthy).1;
    assert Finish(c, t, s', h3, at, 3) == Finish(c, t, s', h, at, 4);
    if h.stage.Rejected? { RejectedStays(c, t, s', h, at, 4); }
  }

  /** The cache after the nonce has been claimed as well. */
  ghost function NonceSet(c: Config, s: Store, f: Fields, at: Timing): Store
  {
    Counted(c, s, f, at)["agent:nonce:" + f.agentId + ":" + f.keyId + ":" + f.nonce
                         := Entry(1, at.claimAt + 1000 * c.ttl)]
  }

  lemma CountingSparesNonce(c: Config, s: Store, f: Fields, at: Timing)
    ensures Live(Counted(c, s, f, at), NonceKey(f.agentId, f.keyId, f.nonce), at.claimAt, c.edge)
       <==> NonceTaken(c, s, f, at.claimAt)
  {
    KeyFormats(f.agentId, f.keyId, f.nonce, at.limitAt / 60000);
    NonceKeyIsNoRateKey(f.agentId, f.keyId, f.nonce, f.agentId, at.limitAt / 60000);
  }

  lemma NonceIs(c: Config, s: Store, h: Handler, f: Fields, row: Credentials.Row, at: Timing)
    ensures var (s', h') := TakeNonce(c, f, row, Counted(c, s, f, at), h, at.claimAt, at.nonceFault);
            && h'.request == h.request && h'.fields == h.fields
            && (at.nonceFault == Healthy && !NonceTaken(c, s, f, at.claimAt) ==>
                  s' == NonceSet(c, s, f, at) && h'.stage == Signing(row))
            && (at.nonceFault != Healthy ==> h'.stage == Rejected(AuthError(503, INTERNAL, Some(15))))
            && (at.nonceFault == Healthy && NonceTaken(c, s, f, at.claimAt) ==>
                  h'.stage == Rejected(AuthError(401, REPLAY, None)))
  {
    KeyFormats(f.agentId, f.keyId, f.nonce, at.limitAt / 60000);
    CountingSparesNonce(c, s, f, at);
  }

  lemma Claims(c: Config, t: Credentials.Table, s: Store, r: Request, f: Fields, at: Timing) returns (h: Handler)
    requires Presents(r, f) && WithinQuota(c, s, f, at) && KeyServes(t, f, at.countAt)
    requires t[f.keyId].serverId == f.serverId && InWindow(c, f, at.checkAt)
    ensures at.nonceFault == Healthy && !NonceTaken(c, s, f, at.claimAt) ==>
              Reaches(c, t, s, r, f, at, 5, NonceSet(c, s, f, at), h) && h.stage == Signing(t[f.keyId])
    ensures at.nonceFault != Healthy ==> Refuses(c, t, s, r, at, 503, INTERNAL, Some(15))
    ensures at.nonceFault == Healthy && NonceTaken(c, s, f, at.claimAt) ==> Refuses(c, t, s, r, at, 401, REPLAY, None)
  {
    var h4 := Checks(c, t, s, r, f, at);
    NonceIs(c, s, h4, f, t[f.keyId], at);
    var (s', h') := Advance(c, t, Counted(c, s, f, at), h4, at.claimAt, at.nonceFault);
    assert Finish(c, t, Counted(c, s, f, at), h4, at, 4) == Finish(c, t, s', h', at, 5);
    if h'.stage.Rejected? { RejectedStays(c, t, s', h', at, 5); }
    h := h';
  }

  lemma Signs(c: Config, t: Credentials.Table, s: Store, r: Request, f: Fields, at: Timing)
    requires Presents(r, f) && WithinQuota(c, s, f, at) && KeyServes(t, f, at.countAt)
    requires t[f.keyId].serverId == f.serverId && InWindow(c, f, at.checkAt)
    requires at.nonceFault == Healthy && !NonceTaken(c, s, f, at.claimAt)
    ensures Alone(c, t, s, r, at).0 == NonceSet(c, s, f, at)
    ensures Alone(c, t, s, r, at).1.stage == if SignedWith(c, r, f, t[f.keyId].secret) then Accepted(t[f.keyId])
                                             else Rejected(AuthError(401, INVALID_SIGNATURE, None))
  {
    var h5 := Claims(c, t, s, r, f, at);
    SignedWithIs(c, r, f, t[f.keyId].secret);
    var s' := NonceSet(c, s, f, at);
    var h := Advance(c, t, s', h5, at.claimAt, Healthy).1;
    assert Finish(c, t, s', h5, at, 5) == Finish(c, t, s', h, at, 6) == (s', h);
  }

  // ----------------------------------------------------------------- theorems

  /** Everything that an acceptance takes. */
  ghost predicate Acceptable(c: Config, t: Credentials.Table, s: Store, r: Request, f: Fields, at: Timing)
  {
    && Presents(r, f) && WithinQuota(c, s, f, at)
    && KeyServes(t, f, at.countAt) && t[f.keyId].serverId == f.serverId
    && InWindow(c, f, at.checkAt)
    && at.nonceFault == Healthy && !NonceTaken(c, s, f, at.claimAt)
    && SignedWith(c, r, f, t[f.keyId].secret)
  }

  /** A request whose headers are refused leaves the cache alone. */
  lemma HeadersRefused(c: Config, t: Credentials.Table, s: Store, r: Request, at: Timing)
    requires forall f :: !Presents(r, f)
    ensures Alone(c, t, s, r, at).0 == s && Alone(c, t, s, r, at).1.stage.Rejected?
    ensures !SignedHeaders(r) ==> Refuses(c, t, s, r, at, 401, INVALID_SIGNATURE, None)
    ensures SignedHeaders(r) && !Positive(r.timestamp) ==> Refuses(c, t, s, r, at, 401, CLOCK_SKEW, None)
    ensures SignedHeaders(r) && Positive(r.timestamp) ==> Refuses(c, t, s, r, at, 400, VALIDATION, None)
  {
    InvalidExactly(r);
    if Validate(r).Valid? { ValidExactly(r, Validate(r).fields); }
    var h := Advance(c, t, s, Fresh0(r), at.limitAt, Healthy).1;
    assert Finish(c, t, s, Fresh0(r), at, 0) == Finish(c, t, s, h, at, 1);
    RejectedStays(c, t, s, h, at, 1);
    if SignedHeaders(r) && Positive(r.timestamp) && Positive(r.protocol) {
      ValidExactly(r, Fields(r.agentId.text, r.serverId.text, r.keyId.text, JsNumber(r.timestamp.text).value,
                             r.nonce.text, r.signature.text, JsNumber(r.protocol.text).value));
    }
  }

  /**
   * A call accepts a request if and only if its headers are well-formed, its agent is within its quota, its key is
   * usable and bound to its server, it is in time, its nonce is free and answered for, and its signature is the HMAC
   * of the ten lines under the secret of that key. The answer then carries the row of the key, and the cache gains
   * the counter and the nonce.
   */
  lemma AcceptedExactly(c: Config, t: Credentials.Table, s: Store, r: Request, at: Timing)
    ensures Alone(c, t, s, r, at).1.stage.Accepted? <==> exists f :: Acceptable(c, t, s, r, f, at)
    ensures forall f | Acceptable(c, t, s, r, f, at) ::
              Alone(c, t, s, r, at).1.stage == Accepted(t[f.keyId]) && Alone(c, t, s, r, at).0 == NonceSet(c, s, f, at)
  {
    forall f | Acceptable(c, t, s, r, f, at)
      ensures Alone(c, t, s, r, at).1.stage == Accepted(t[f.keyId]) && Alone(c, t, s, r, at).0 == NonceSet(c, s, f, at)
    {
      Signs(c, t, s, r, f, at);
    }
    if Alone(c, t, s, r, at).1.stage.Accepted? {
      if f :| Presents(r, f) {
        OnlyAcceptable(c, t, s, r, f, at);
      } else {
        HeadersRefused(c, t, s, r, at);
      }
    }
  }

  lemma OnlyAcceptable(c: Config, t: Credentials.Table, s: Store, r: Request, f: Fields, at: Timing)
    requires Presents(r, f) && Alone(c, t, s, r, at).1.stage.Accepted?
    ensures Acceptable(c, t, s, r, f, at)
  {
    var h2 := Counts(c, t, s, r, f, at);
    var h3 := Resolves(c, t, s, r, f, at);
    var h4 := Checks(c, t, s, r, f, at);
    var h5 := Claims(c, t, s, r, f, at);
    Signs(c, t, s, r, f, at);
  }

  /** The refusals of a request with well-formed headers, in the order of the checks. */
  lemma RefusedExactly(c: Config, t: Credentials.Table, s: Store, r: Request, f: Fields, at: Timing)
    requires Presents(r, f)
    ensures !WithinQuota(c, s, f, at) ==> TooMany(Alone(c, t, s, r, at).1.stage, at.countAt)
    ensures WithinQuota(c, s, f, at) ==>
      if !KeyServes(t, f, at.countAt) then Refuses(c, t, s, r, at, 401, CREDENTIAL_REVOKED, None)
      else if t[f.keyId].serverId != f.serverId then Refuses(c, t, s, r, at, 401, INVALID_SIGNATURE, None)
      else if !InWindow(c, f, at.checkAt) then Refuses(c, t, s, r, at, 401, CLOCK_SKEW, None)
      else if at.nonceFault != Healthy then Refuses(c, t, s, r, at, 503, INTERNAL, Some(15))
      else if NonceTaken(c, s, f, at.claimAt) then Refuses(c, t, s, r, at, 401, REPLAY, None)
      else SignedWith(c, r, f, t[f.keyId].secret) || Refuses(c, t, s, r, at, 401, INVALID_SIGNATURE, None)
  {
    var h2 := Counts(c, t, s, r, f, at);
    if WithinQuota(c, s, f, at) {
      var h3 := Resolves(c, t, s, r, f, at);
      if KeyServes(t, f, at.countAt) {
        var h4 := Checks(c, t, s, r, f, at);
        if t[f.keyId].serverId == f.serverId && InWindow(c, f, at.checkAt) {
          var h5 := Claims(c, t, s, r, f, at);
          if at.nonceFault == Healthy && !NonceTaken(c, s, f, at.claimAt) { Signs(c, t, s, r, f, at); }
        }
      }
    }
  }
}
