/** The pipeline, the canonical string and the nonce together: what an acceptance says about a signed request. */
module SignedOnce {
  import opened Text
  import opened Protocol
  import opened Authenticate
  import opened AuthSafety
  import opened Acceptance
  import Credentials

  /** What the canonical string of a request is made of. */
  function PartsOf(c: Config, r: Request, f: Fields): RequestParts
  {
    RequestParts(r.verb, PathOf(r.url), QueryOf(r.url), f.agentId, f.serverId, f.keyId, f.timestamp, f.nonce,
                 c.sha256(r.body))
  }

  /** The request line of an HTTP request and a printed hash hold no line feed. */
  predicate LineFree(c: Config, r: Request) { LF !in r.verb && LF !in r.url && LF !in c.sha256(r.body) }

  lemma {:induction false} UrlIsLineFree(url: string)
    requires LF !in url
    ensures LF !in PathOf(url) && LF !in QueryOf(url)
  {
    if url != "" && url[0] != '?' { UrlIsLineFree(url[1..]); }
  }

  lemma IdIsLineFree(s: string)
    requires IsId(s)
    ensures LF !in s
  {
    assert !IsIdChar(LF);
  }

  lemma NonceIsLineFree(s: string)
    requires IsNonce(s)
    ensures LF !in s
  {
    assert !IsHexDigit(LF);
  }

  lemma ValidIsLineFree(c: Config, r: Request, f: Fields)
    requires Validate(r) == Valid(f) && LineFree(c, r)
    ensures RequestLineFree(PartsOf(c, r, f))
  {
    UrlIsLineFree(r.url);
    IdIsLineFree(f.agentId);
    IdIsLineFree(f.serverId);
    IdIsLineFree(f.keyId);
    NonceIsLineFree(f.nonce);
  }

  /** The signed request is this one: its url cut at the question mark, its headers and the hash of its body. */
  ghost predicate Describes(c: Config, p: RequestParts, r: Request)
  {
    && Upper(p.verb) == Upper(r.verb)
    && (r.url == p.path + "?" + p.query || (r.url == p.path && p.query == "")) && '?' !in p.path
    && r.agentId == Single(p.agentId) && r.serverId == Single(p.serverId) && r.keyId == Single(p.keyId)
    && r.nonce == Single(p.nonce) && r.timestamp.Single? && JsNumber(r.timestamp.text) == Some(p.timestamp)
    && p.bodyHash == c.sha256(r.body)
  }

  lemma DescribedParts(c: Config, p: RequestParts, r: Request, f: Fields)
    requires Validate(r) == Valid(f)
    ensures Describes(c, p, r)
       <==> Upper(p.verb) == Upper(r.verb) && p.(verb := "") == PartsOf(c, r, f).(verb := "")
  {
    ValidExactly(r, f);
    UrlIsCut(r.url);
    if Describes(c, p, r) { CutIsUnique(r.url, p.path, p.query); }
  }

  /**
   * Handler i accepted a request whose signed string was signed with the key of the row it was resolved to. This
   * is what unforgeability of the MAC gives; `signed` are the requests that the holder of each secret has signed.
   */
  ghost predicate AcceptedOnSignature(c: Config, w: World, i: nat, signed: string -> set<RequestParts>)
  {
    && i < |w.handlers| && w.handlers[i].stage.Accepted? && w.handlers[i].fields.Some?
    && LineFree(c, w.handlers[i].request)
    && exists p | p in signed(w.handlers[i].stage.row.secret) ::
         RequestLineFree(p) && CanonicalRequest(p) == SignedString(c, w.handlers[i].request, w.handlers[i].fields.value)
  }

  /** An accepted request is, up to the case of its method, one that the holder of the key has signed. */
  lemma AcceptedIsTheSignedRequest(c: Config, t: Credentials.Table, events: seq<Event>, i: nat,
                                   signed: string -> set<RequestParts>) returns (p: RequestParts)
    requires AcceptedOnSignature(c, Run(c, Start(t), events), i, signed)
    ensures var h := Run(c, Start(t), events).handlers[i];
            && p in signed(h.stage.row.secret) && Describes(c, p, h.request)
            && Credentials.Usable(h.stage.row.status) && h.stage.row.serverId == p.serverId
            && h.stage.row.agentId == p.agentId
  {
    var h := Run(c, Start(t), events).handlers[i];
    AcceptedIsGenuine(c, t, events, i);
    p :| p in signed(h.stage.row.secret) && RequestLineFree(p)
         && CanonicalRequest(p) == SignedString(c, h.request, h.fields.value);
    ValidIsLineFree(c, h.request, h.fields.value);
    RequestInjective(p, PartsOf(c, h.request, h.fields.value));
    DescribedParts(c, p, h.request, h.fields.value);
  }

  lemma SameMessages(c: Config, p: RequestParts, r: Request, f: Fields, r': Request, f': Fields)
    requires Validate(r) == Valid(f) && Validate(r') == Valid(f') && Describes(c, p, r) && Describes(c, p, r')
    ensures SameMessage(f, f')
  {
    ValidExactly(r, f);
    ValidExactly(r', f');
  }

  /** With a covering lifetime no signed request is accepted by two handlers, in any interleaving. */
  lemma SignedRequestIsAcceptedOnce(c: Config, t: Credentials.Table, events: seq<Event>, i: nat, j: nat,
                                    p: RequestParts)
    requires ClockModel(c) && Covered(c) && i < j < |Run(c, Start(t), events).handlers|
    requires var hs := Run(c, Start(t), events).handlers;
             hs[i].stage.Accepted? && Describes(c, p, hs[i].request) && Describes(c, p, hs[j].request)
    ensures !Run(c, Start(t), events).handlers[j].stage.Accepted?
  {
    var hs := Run(c, Start(t), events).handlers;
    if hs[j].stage.Accepted? {
      AcceptedIsGenuine(c, t, events, i);
      AcceptedIsGenuine(c, t, events, j);
      SameMessages(c, p, hs[i].request, hs[i].fields.value, hs[j].request, hs[j].fields.value);
      AtMostOnce(c, t, events, i, j);
    }
  }
}
