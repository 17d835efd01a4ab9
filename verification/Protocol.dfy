/** The strings that agents and the platform sign. */
module Protocol {
  import opened Text

  const PROTOCOL_VERSION: nat := 1
  const LF := '\n'

  datatype RequestParts = RequestParts(
    verb: string, path: string, query: string,
    agentId: string, serverId: string, keyId: string,
    timestamp: int, nonce: string, bodyHash: string)

  datatype ResponseParts = ResponseParts(
    status: int, requestId: string, timestamp: int, nonce: string, bodyHash: string)

  /** toUpperCase on ASCII letters, the only ones an HTTP method can hold. */
  function UpperChar(c: char): char
  {
    if 'a' <= c <= 'z' then c - 'a' + 'A' else c
  }

  function Upper(s: string): (u: string)
    ensures |u| == |s| && forall i | 0 <= i < |s| :: u[i] == UpperChar(s[i])
  {
    seq(|s|, i requires 0 <= i < |s| => UpperChar(s[i]))
  }

  lemma UpperCodes(c: char)
    ensures UpperChar(c) as int == if 97 <= c as int <= 122 then c as int - 32 else c as int
  {
  }

  function RequestFields(p: RequestParts): seq<string>
  {
    ["ZSHIELD-AGENT-V" + PrintNat(PROTOCOL_VERSION), Upper(p.verb), p.path, p.query,
     p.agentId, p.serverId, p.keyId, PrintInt(p.timestamp), p.nonce, p.bodyHash]
  }

  function CanonicalRequest(p: RequestParts): string
  {
    Join(RequestFields(p), LF)
  }

  function ResponseFields(p: ResponseParts): seq<string>
  {
    ["ZSHIELD-PLATFORM-V" + PrintNat(PROTOCOL_VERSION), PrintInt(p.status), p.requestId,
     PrintInt(p.timestamp), p.nonce, p.bodyHash]
  }

  function CanonicalResponse(p: ResponseParts): string
  {
    Join(ResponseFields(p), LF)
  }

  predicate RequestLineFree(p: RequestParts)
  {
    LF !in p.verb && LF !in p.path && LF !in p.query && LF !in p.agentId && LF !in p.serverId
    && LF !in p.keyId && LF !in p.nonce && LF !in p.bodyHash
  }

  predicate ResponseLineFree(p: ResponseParts)
  {
    LF !in p.requestId && LF !in p.nonce && LF !in p.bodyHash
  }

  lemma VersionOne()
    ensures PrintNat(PROTOCOL_VERSION) == "1"
  {
    DigitCodes(1);
  }

  /** The ten signed fields are recovered, in this order, by splitting at line feeds. */
  lemma RequestSplits(p: RequestParts)
    requires RequestLineFree(p)
    ensures Split(CanonicalRequest(p), '\n')
         == ["ZSHIELD-AGENT-V1", Upper(p.verb), p.path, p.query, p.agentId, p.serverId, p.keyId,
             PrintInt(p.timestamp), p.nonce, p.bodyHash]
  {
    VersionOne();
    FieldsSplit(p);
    assert "ZSHIELD-AGENT-V" + "1" == "ZSHIELD-AGENT-V1";
  }

  lemma FieldsSplit(p: RequestParts)
    requires RequestLineFree(p)
    ensures Split(CanonicalRequest(p), LF) == RequestFields(p)
  {
    assert LF !in PrintNat(PROTOCOL_VERSION) && LF !in "ZSHIELD-AGENT-V";
    assert LF !in Upper(p.verb);
    assert LF !in PrintInt(p.timestamp);
    SplitJoin(RequestFields(p), LF);
  }

  /** Equal signed strings mean equal requests, up to the case of the method. */
  lemma RequestInjective(p: RequestParts, q: RequestParts)
    requires RequestLineFree(p) && RequestLineFree(q)
    ensures CanonicalRequest(p) == CanonicalRequest(q)
            <==> Upper(p.verb) == Upper(q.verb) && p.(verb := "") == q.(verb := "")
  {
    if CanonicalRequest(p) == CanonicalRequest(q) {
      FieldsSplit(p);
      FieldsSplit(q);
      var f, g := RequestFields(p), RequestFields(q);
      assert f[1] == g[1] && f[2] == g[2] && f[3] == g[3] && f[4] == g[4] && f[5] == g[5];
      assert f[6] == g[6] && f[7] == g[7] && f[8] == g[8] && f[9] == g[9];
      PrintIntInjective(p.timestamp, q.timestamp);
    }
  }

  /** And the six of a response. */
  lemma ResponseSplits(p: ResponseParts)
    requires ResponseLineFree(p)
    ensures Split(CanonicalResponse(p), '\n')
         == ["ZSHIELD-PLATFORM-V1", PrintInt(p.status), p.requestId, PrintInt(p.timestamp), p.nonce, p.bodyHash]
  {
    VersionOne();
    assert LF !in PrintNat(PROTOCOL_VERSION) && LF !in "ZSHIELD-PLATFORM-V";
    assert LF !in PrintInt(p.status) && LF !in PrintInt(p.timestamp);
    SplitJoin(ResponseFields(p), LF);
    assert "ZSHIELD-PLATFORM-V" + "1" == "ZSHIELD-PLATFORM-V1";
  }

  lemma ResponseInjective(p: ResponseParts, q: ResponseParts)
    requires ResponseLineFree(p) && ResponseLineFree(q)
    requires CanonicalResponse(p) == CanonicalResponse(q)
    ensures p == q
  {
    assert LF !in PrintNat(PROTOCOL_VERSION) && LF !in "ZSHIELD-PLATFORM-V";
    assert LF !in PrintInt(p.status) && LF !in PrintInt(p.timestamp);
    assert LF !in PrintInt(q.status) && LF !in PrintInt(q.timestamp);
    var f, g := ResponseFields(p), ResponseFields(q);
    JoinInjective(f, g, LF);
    assert f[1] == g[1] && f[2] == g[2] && f[3] == g[3] && f[4] == g[4] && f[5] == g[5];
    PrintIntInjective(p.status, q.status);
    PrintIntInjective(p.timestamp, q.timestamp);
  }

  /** A signed request can never be passed off as a signed response, whatever the fields. */
  lemma RequestIsNoResponse(p: RequestParts, q: ResponseParts)
    ensures CanonicalRequest(p) != CanonicalResponse(q)
  {
    assert CanonicalRequest(p)[8] == 'A';
    assert CanonicalResponse(q)[8] == 'P';
  }

  lemma JoinTwo(a: string, b: string, after: seq<string>)
    requires after != []
    ensures Join([a, b] + after, LF) == (a + [LF] + b) + ([LF] + Join(after, LF))
  {
    var all := [a, b] + after;
    assert all[1..] == [b] + after && all[1..][1..] == after;
    var tail := Join(after, LF);
    assert Join(all[1..], LF) == b + [LF] + tail;
    assert a + [LF] + (b + [LF] + tail) == (a + [LF] + b) + ([LF] + tail);
  }

  lemma {:induction false} SameLinesSameJoin(before: seq<string>, x: seq<string>, y: seq<string>)
    requires x != [] && y != [] && Join(x, LF) == Join(y, LF)
    ensures Join(before + x, LF) == Join(before + y, LF)
  {
    if before == [] {
      assert before + x == x && before + y == y;
    } else {
      assert (before + x)[1..] == before[1..] + x && (before + y)[1..] == before[1..] + y;
      SameLinesSameJoin(before[1..], x, y);
    }
  }

  /** Why line feeds must be kept out: with one in the path, two different requests share a string. */
  lemma LineFeedCollision(p: RequestParts, u: string, v: string, w: string)
    ensures CanonicalRequest(p.(path := u + [LF] + v, query := w))
         == CanonicalRequest(p.(path := u, query := v + [LF] + w))
  {
    var f := RequestFields(p.(path := u + [LF] + v, query := w));
    var g := RequestFields(p.(path := u, query := v + [LF] + w));
    var x, y := [f[2], f[3]] + f[4..], [g[2], g[3]] + g[4..];
    assert f == f[..2] + x && g == g[..2] + y && f[..2] == g[..2] && f[4..] == g[4..];
    JoinTwo(f[2], f[3], f[4..]);
    JoinTwo(g[2], g[3], g[4..]);
    assert (u + [LF] + v) + [LF] + w == u + [LF] + (v + [LF] + w);
    SameLinesSameJoin(f[..2], x, y);
  }
}
