/** The nonce lifetime that replay protection needs, to the millisecond. */
module ReplayExact {
  import opened Text
  import opened Replay
  import opened Authenticate
  import opened AuthSafety
  import Credentials

  // -------------------------------------------------------- one replayed request

  /** A correctly signed request of an installed key without expiry, stamped `skew` seconds after the clock starts. */
  ghost predicate Capture(c: Config, t: Credentials.Table, r: Request, f: Fields, row: Credentials.Row)
  {
    && Validate(r) == Valid(f) && f.timestamp == c.skew
    && f.keyId in t && t[f.keyId] == row && row.agentId == f.agentId && Credentials.Usable(row.status)
    && row.expires == None && row.serverId == f.serverId
    && f.signature == c.hmac(row.secret, SignedString(c, r, f))
  }

  lemma HexSample(c: Config) returns (nonce: string)
    ensures IsNonce(nonce)
  {
    nonce := seq(16, _ => '0');
  }

  /** A request of any installed key of any well-formed identity can be captured. */
  lemma CaptureExists(c: Config, row: Credentials.Row, key: string)
    returns (t: Credentials.Table, r: Request, f: Fields)
    requires Admissible(c) && HmacIsHex(c.hmac)
    requires IsId(row.serverId) && IsId(row.agentId) && IsId(key)
    requires row.status == Credentials.ACTIVE && row.expires == None
    ensures Capture(c, t, r, f, row)
  {
    t := map[key := row];
    var nonce := HexSample(c);
    var draft := Fields(row.agentId, row.serverId, key, c.skew, nonce, "", 1);
    var unsigned := Request(Single(row.agentId), Single(row.serverId), Single(key), Single(PrintInt(c.skew)),
                            Single(nonce), Missing, Single(PrintInt(1)), Missing, Missing, "GET", "", "");
    var mac := c.hmac(row.secret, SignedString(c, unsigned, draft));
    f := draft.(signature := mac);
    r := unsigned.(signature := Single(mac));
    NumberRoundTrip(c.skew);
    NumberRoundTrip(1);
    assert IsMac(mac);
    assert Validate(r) == Valid(f);
    assert SignedString(c, r, f) == SignedString(c, unsigned, draft);
  }

  // ------------------------------------------------------------- building the run

  lemma {:induction false} Unroll(c: Config, w: World, a: seq<Event>, b: seq<Event>)
    ensures Run(c, w, a + b) == Run(c, Run(c, w, a), b)
    decreases |a|
  {
    if a == [] {
      assert a + b == b;
    } else {
      assert (a + b)[0] == a[0] && (a + b)[1..] == a[1..] + b;
      Unroll(c, Next(c, w, a[0]), a[1..], b);
    }
  }

  lemma Then(c: Config, w: World, events: seq<Event>, e: Event) returns (longer: seq<Event>)
    ensures Run(c, w, longer) == Next(c, Run(c, w, events), e)
  {
    longer := events + [e];
    Unroll(c, w, events, [e]);
    assert Run(c, Next(c, Run(c, w, events), e), []) == Next(c, Run(c, w, events), e);
  }

  /** The captured request after its clock check at time `now`. */
  function Waiting(r: Request, f: Fields, row: Credentials.Row, now: nat): Handler
  {
    Handler(r, Some(f), Claiming(row), now, true, now, 0, None)
  }

  function Done(r: Request, f: Fields, row: Credentials.Row, checkedAt: nat, claimedAt: nat): Handler
  {
    Waiting(r, f, row, checkedAt).(stage := Accepted(row), triedAt := claimedAt, claimedAt := Some(claimedAt))
  }

  /** One healthy stretch of the handler that arrived last. */
  lemma Resume(c: Config, w0: World, events: seq<Event>, w: World, others: seq<Handler>, before: Handler,
               s: Store, after: Handler) returns (longer: seq<Event>)
    requires Run(c, w0, events) == w && w.handlers == others + [before] && InTime(c, before, w.now)
    requires Advance(c, w.table, w.store, before, w.now, Healthy) == (s, after)
    ensures Run(c, w0, longer) == w.(store := s, handlers := others + [after])
  {
    longer := Then(c, w0, events, Continue(|others|, Healthy));
    assert w.handlers[|others| := after] == others + [after];
  }

  lemma ReachesLimiter(c: Config, w: World, r: Request, f: Fields, row: Credentials.Row)
    requires Capture(c, w.table, r, f, row)
    ensures Advance(c, w.table, w.store, Fresh0(r), w.now, Healthy)
         == (w.store, Fresh0(r).(fields := Some(f), stage := Limiting, limitedAt := w.now))
  {
  }

  lemma IsCounted(c: Config, w: World, h: Handler, f: Fields)
    requires c.perMinute >= 1 && h.stage.Limiting? && h.fields == Some(f) && h.limitedAt == w.now
    requires RateKey(f.agentId, MinuteOf(w.now)) !in w.store
    ensures Advance(c, w.table, w.store, h, w.now, Healthy)
         == (w.store[RateKey(f.agentId, MinuteOf(w.now)) := Entry(1, w.now + RATE_TTL_MS)],
             h.(stage := Resolving, counted := true))
  {
  }

  lemma PassesClock(c: Config, t: Credentials.Table, s: Store, r: Request, f: Fields, row: Credentials.Row,
                    h: Handler, now: nat)
    requires Capture(c, t, r, f, row) && h.fields == Some(f)
    ensures h.stage.Resolving? ==> Advance(c, t, s, h, now, Healthy) == (s, h.(stage := Checking(row)))
    ensures h.stage == Checking(row) && Abs(now / 1000 - c.skew) <= c.skew ==>
              Advance(c, t, s, h, now, Healthy) == (s, h.(stage := Claiming(row), checkedAt := now))
  {
  }

  /** The cache once the request has been counted at time `now`. */
  function Counted(s: Store, f: Fields, now: nat): Store
  {
    s[RateKey(f.agentId, MinuteOf(now)) := Entry(1, now + RATE_TTL_MS)]
  }

  /** Send the captured request and take it through the clock check. */
  lemma Present(c: Config, w0: World, events: seq<Event>, w: World, r: Request, f: Fields, row: Credentials.Row)
    returns (longer: seq<Event>)
    requires Run(c, w0, events) == w && c.perMinute >= 1 && Capture(c, w.table, r, f, row)
    requires RateKey(f.agentId, MinuteOf(w.now)) !in w.store && Abs(w.now / 1000 - c.skew) <= c.skew
    ensures Run(c, w0, longer)
            == w.(store := Counted(w.store, f, w.now), handlers := w.handlers + [Waiting(r, f, row, w.now)])
  {
    var others := w.handlers;
    var h1 := Fresh0(r).(fields := Some(f), stage := Limiting, limitedAt := w.now);
    var h2 := h1.(stage := Resolving, counted := true);
    var h3 := h2.(stage := Checking(row));
    var s := Counted(w.store, f, w.now);
    longer := Then(c, w0, events, Arrive(r));
    var w1 := w.(handlers := others + [Fresh0(r)]);
    ReachesLimiter(c, w1, r, f, row);
    longer := Resume(c, w0, longer, w1, others, Fresh0(r), w.store, h1);
    var w2 := w.(handlers := others + [h1]);
    IsCounted(c, w2, h1, f);
    longer := Resume(c, w0, longer, w2, others, h1, s, h2);
    longer := Check(c, w0, longer, w.(store := s, handlers := others + [h2]), others, r, f, row, h2);
  }

  lemma Check(c: Config, w0: World, events: seq<Event>, w: World, others: seq<Handler>, r: Request, f: Fields,
              row: Credentials.Row, h: Handler) returns (longer: seq<Event>)
    requires Run(c, w0, events) == w && w.handlers == others + [h] && Capture(c, w.table, r, f, row)
    requires h.stage.Resolving? && h.fields == Some(f) && Abs(w.now / 1000 - c.skew) <= c.skew
    ensures Run(c, w0, longer) == w.(handlers := others + [h.(stage := Claiming(row), checkedAt := w.now)])
  {
    var h1 := h.(stage := Checking(row));
    PassesClock(c, w.table, w.store, r, f, row, h, w.now);
    PassesClock(c, w.table, w.store, r, f, row, h1, w.now);
    longer := Resume(c, w0, events, w, others, h, w.store, h1);
    longer := Resume(c, w0, longer, w.(handlers := others + [h1]), others, h1, w.store,
                     h1.(stage := Claiming(row), checkedAt := w.now));
  }

  lemma ClaimsNonce(c: Config, t: Credentials.Table, s: Store, f: Fields, row: Credentials.Row, h: Handler, now: nat)
    requires h.stage == Claiming(row) && h.fields == Some(f) && !Live(s, KeyOf(f), now, c.edge)
    ensures Advance(c, t, s, h, now, Healthy)
         == (s[KeyOf(f) := Entry(1, now + 1000 * c.ttl)],
             h.(stage := Signing(row), triedAt := now, claimedAt := Some(now)))
  {
  }

  lemma SignsOff(c: Config, t: Credentials.Table, s: Store, r: Request, f: Fields, row: Credentials.Row,
                 h: Handler, now: nat)
    requires Capture(c, t, r, f, row) && h.request == r && h.fields == Some(f) && h.stage == Signing(row)
    ensures Advance(c, t, s, h, now, Healthy) == (s, h.(stage := Accepted(row)))
  {
  }

  /** Claim the nonce while it is free, and finish. */
  lemma Accept(c: Config, w0: World, events: seq<Event>, w: World, others: seq<Handler>, checkedAt: nat,
               r: Request, f: Fields, row: Credentials.Row) returns (longer: seq<Event>)
    requires Run(c, w0, events) == w && Capture(c, w.table, r, f, row)
    requires w.handlers == others + [Waiting(r, f, row, checkedAt)]
    requires w.now <= checkedAt + c.delay && !Live(w.store, KeyOf(f), w.now, c.edge)
    ensures Run(c, w0, longer) == w.(store := w.store[KeyOf(f) := Entry(1, w.now + 1000 * c.ttl)],
                                     handlers := others + [Done(r, f, row, checkedAt, w.now)])
  {
    var h := Waiting(r, f, row, checkedAt);
    var h1 := h.(stage := Signing(row), triedAt := w.now, claimedAt := Some(w.now));
    var s := w.store[KeyOf(f) := Entry(1, w.now + 1000 * c.ttl)];
    ClaimsNonce(c, w.table, w.store, f, row, h, w.now);
    longer := Resume(c, w0, events, w, others, h, s, h1);
    SignsOff(c, w.table, s, r, f, row, h1, w.now);
    longer := Resume(c, w0, longer, w.(store := s, handlers := others + [h1]), others, h1, s,
                     Done(r, f, row, checkedAt, w.now));
  }

  lemma WaitFor(c: Config, w0: World, events: seq<Event>, ms: nat) returns (longer: seq<Event>)
    requires OnGrain(c, ms)
    ensures var w := Run(c, w0, events); Run(c, w0, longer) == w.(now := w.now + ms)
  {
    longer := Then(c, w0, events, Wait(ms / Grain(c)));
  }

  /** The request is accepted the moment it is first sent. */
  lemma FirstTime(c: Config, t: Credentials.Table, r: Request, f: Fields, row: Credentials.Row)
    returns (events: seq<Event>)
    requires c.perMinute >= 1 && Capture(c, t, r, f, row)
    ensures Run(c, AuthSafety.Start(t), events)
         == World(0, Counted(map[], f, 0)[KeyOf(f) := Entry(1, 1000 * c.ttl)], t, [Done(r, f, row, 0, 0)])
  {
    var w0 := AuthSafety.Start(t);
    assert Run(c, w0, []) == w0;
    events := Present(c, w0, [], w0, r, f, row);
    NonceKeyIsNoRateKey(f.agentId, f.keyId, f.nonce, f.agentId, 0);
    var w1 := w0.(store := Counted(map[], f, 0), handlers := [Waiting(r, f, row, 0)]);
    assert [] + [Waiting(r, f, row, 0)] == [Waiting(r, f, row, 0)];
    events := Accept(c, w0, events, w1, [], 0, r, f, row);
  }

  /** Counting a request does not touch its nonce. */
  lemma StillFree(c: Config, s: Store, f: Fields, now: nat, at: nat)
    requires !Live(s, KeyOf(f), at, c.edge)
    ensures !Live(Counted(s, f, now), KeyOf(f), at, c.edge)
  {
    NonceKeyIsNoRateKey(f.agentId, f.keyId, f.nonce, f.agentId, MinuteOf(now));
  }

  /** It is accepted again when its nonce is gone by the time it is claimed. */
  lemma SecondTime(c: Config, w0: World, events: seq<Event>, w: World, r: Request, f: Fields, row: Credentials.Row)
    returns (longer: seq<Event>)
    requires Run(c, w0, events) == w && c.perMinute >= 1 && Capture(c, w.table, r, f, row) && OnGrain(c, c.delay)
    requires RateKey(f.agentId, MinuteOf(w.now)) !in w.store && Abs(w.now / 1000 - c.skew) <= c.skew
    requires !Live(w.store, KeyOf(f), w.now + c.delay, c.edge)
    ensures Run(c, w0, longer).handlers == w.handlers + [Done(r, f, row, w.now, w.now + c.delay)]
  {
    var store, hs := Counted(w.store, f, w.now), w.handlers + [Waiting(r, f, row, w.now)];
    longer := Present(c, w0, events, w, r, f, row);
    assert Run(c, w0, longer) == World(w.now, store, w.table, hs);
    longer := WaitFor(c, w0, longer, c.delay);
    assert Run(c, w0, longer) == World(w.now + c.delay, store, w.table, hs);
    StillFree(c, w.store, f, w.now, w.now + c.delay);
    longer := Accept(c, w0, longer, World(w.now + c.delay, store, w.table, hs), w.handlers, w.now, r, f, row);
  }

  lemma MinutesDiffer(agent: string, m: nat)
    requires IsId(agent) && m > 0
    ensures RateKey(agent, m) != RateKey(agent, 0)
  {
    if RateKey(agent, m) == RateKey(agent, 0) {
      RateKeyInjective(agent, m, agent, 0);
    }
  }

  /** The last moment at which a request stamped `skew` passes the clock check. */
  function LastMoment(c: Config): nat { 1000 * (2 * c.skew + 1) - Grain(c) }

  lemma LastMomentPasses(c: Config)
    requires Admissible(c) && ClockModel(c)
    ensures var late := LastMoment(c);
            OnGrain(c, late) && MinuteOf(late) > 0 && Abs(late / 1000 - c.skew) <= c.skew
    ensures !Covered(c) ==> LastMoment(c) + c.delay >= 1000 * c.ttl + c.edge
  {
  }

  /** A lifetime that falls short lets a captured request in a second time, without any outage. */
  lemma ReplayRun(c: Config, t: Credentials.Table, r: Request, f: Fields, row: Credentials.Row)
    returns (events: seq<Event>)
    requires Admissible(c) && ClockModel(c) && Capture(c, t, r, f, row) && !Covered(c)
    ensures AcceptedTwice(Run(c, AuthSafety.Start(t), events), 0, 1)
  {
    var w0, agent := AuthSafety.Start(t), f.agentId;
    var late := LastMoment(c);
    LastMomentPasses(c);
    events := FirstTime(c, t, r, f, row);
    events := WaitFor(c, w0, events, late);
    var w := World(late, Counted(map[], f, 0)[KeyOf(f) := Entry(1, 1000 * c.ttl)], t, [Done(r, f, row, 0, 0)]);
    NonceKeyIsNoRateKey(agent, f.keyId, f.nonce, agent, MinuteOf(late));
    MinutesDiffer(agent, MinuteOf(late));
    events := SecondTime(c, w0, events, w, r, f, row);
    assert Run(c, w0, events).handlers == [Done(r, f, row, 0, 0), Done(r, f, row, late, late + c.delay)];
  }

  ghost predicate ReplaySafe(c: Config)
  {
    forall t, events: seq<Event>, i: nat, j: nat :: !AcceptedTwice(Run(c, AuthSafety.Start(t), events), i, j)
  }

  /** Replay protection holds over every run exactly when the lifetime covers the clock window. */
  lemma ReplaySafeExactly(c: Config)
    requires Admissible(c) && ClockModel(c) && HmacIsHex(c.hmac)
    ensures ReplaySafe(c) <==> 2000 * c.skew + (1000 - Grain(c)) + c.delay < 1000 * c.ttl + c.edge
  {
    if Covered(c) {
      forall t, events: seq<Event>, i: nat, j: nat ensures !AcceptedTwice(Run(c, AuthSafety.Start(t), events), i, j) {
        AtMostOnce(c, t, events, i, j);
      }
    } else {
      var row := Credentials.Row("s", "a", "", Credentials.ACTIVE, None, None);
      var t, r, f := CaptureExists(c, row, "k");
      var events := ReplayRun(c, t, r, f, row);
      assert AcceptedTwice(Run(c, AuthSafety.Start(t), events), 0, 1);
    }
  }

  /** The startup check is enough in a world of whole seconds where keys outlive their deadline. */
  lemma StartupCheckInWholeSeconds(c: Config)
    requires Admissible(c) && HmacIsHex(c.hmac) && c.wholeSeconds && c.edge == 1 && c.delay == 0
    ensures ReplaySafe(c)
  {
    ReplaySafeExactly(c);
  }

  /** With the millisecond clock the smallest lifetime it lets through is too short, even with no delay. */
  lemma StartupCheckIsTooWeak(c: Config)
    requires Admissible(c) && ClockModel(c) && HmacIsHex(c.hmac) && !c.wholeSeconds && c.ttl == 2 * c.skew
    ensures !ReplaySafe(c)
  {
    ReplaySafeExactly(c);
  }

  /**
   * Of all settings that the startup check lets through, exactly those with a second to spare are safe with a
   * millisecond clock, no delay and keys that are gone at their deadline.
   */
  lemma StartupSettings(c: Config)
    requires ClockModel(c) && HmacIsHex(c.hmac) && !c.wholeSeconds && c.delay == 0 && c.edge == 0
    ensures Admissible(c)
       <==> 30 <= c.skew <= 300 && 60 <= c.ttl <= 3600 && 1 <= c.perMinute <= 10000 && c.ttl >= 2 * c.skew
    ensures Admissible(c) ==> (ReplaySafe(c) <==> c.ttl > 2 * c.skew)
  {
    if Admissible(c) { ReplaySafeExactly(c); }
  }

  /** The shipped settings tolerate a claim that is almost five minutes late. */
  lemma ShippedSettings(c: Config)
    requires Admissible(c) && ClockModel(c) && HmacIsHex(c.hmac) && c.skew == 300 && c.ttl == 900
    requires !c.wholeSeconds && c.edge == 0
    ensures ReplaySafe(c) <==> c.delay <= 299000
  {
    ReplaySafeExactly(c);
  }
}
