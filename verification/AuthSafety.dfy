/**
 * Any number of authentication handlers, interleaved at their awaits, over one shared cache.
 *
 * Anyone may send any request at any time, as often as they like; the clock moves between stretches; the
 * credential table may be replaced at any moment; cache commands may be refused or lose their reply.
 */
module AuthSafety {
  import opened Text
  import opened Replay
  import opened Authenticate
  import Credentials

  datatype World = World(now: nat, store: Store, table: Credentials.Table, handlers: seq<Handler>)

  datatype Event =
    | Arrive(request: Request)
    | Continue(index: nat, fault: Fault)
    | Wait(ticks: nat)
    | Administer(table: Credentials.Table)

  /** A cache command runs at most `delay` after the clock reading before it. */
  predicate InTime(c: Config, h: Handler, now: nat)
  {
    && (h.stage.Limiting? ==> now <= h.limitedAt + c.delay)
    && (h.stage.Claiming? ==> now <= h.checkedAt + c.delay)
  }

  function Next(c: Config, w: World, e: Event): World
  {
    match e
    case Arrive(r) => w.(handlers := w.handlers + [Fresh0(r)])
    case Continue(i, fault) =>
      if i < |w.handlers| && InTime(c, w.handlers[i], w.now) then
        var (s, h) := Advance(c, w.table, w.store, w.handlers[i], w.now, fault);
        w.(store := s, handlers := w.handlers[i := h])
      else w
    case Wait(n) => w.(now := w.now + n * Grain(c))
    case Administer(t) => w.(table := t)
  }

  function Run(c: Config, w: World, events: seq<Event>): World
    decreases |events|
  {
    if events == [] then w else Run(c, Next(c, w, events[0]), events[1..])
  }

  function Start(t: Credentials.Table): World { World(0, map[], t, []) }

  // ---------------------------------------------------- what one handler records

  function KeyOf(f: Fields): string { NonceKey(f.agentId, f.keyId, f.nonce) }

  predicate Started(s: Stage) { !s.Arrived? && !s.Rejected? }

  predicate PastClock(h: Handler) { h.claimedAt.Some? || h.stage.Claiming? || h.stage.Signing? || h.stage.Accepted? }

  ghost predicate ClockChecked(c: Config, h: Handler, now: nat)
  {
    && h.fields.Some? && h.checkedAt <= now && OnGrain(c, h.checkedAt)
    && Abs(h.checkedAt / 1000 - h.fields.value.timestamp) <= c.skew
  }

  ghost predicate ClaimRecorded(c: Config, h: Handler, now: nat)
    requires h.claimedAt.Some?
  {
    && h.checkedAt <= h.claimedAt.value <= now && h.claimedAt.value <= h.checkedAt + c.delay
    && (h.stage.Signing? || h.stage.Accepted? || h.stage.Rejected?)
  }

  ghost predicate Genuine(c: Config, h: Handler, row: Credentials.Row)
    requires h.fields.Some?
  {
    && row.serverId == h.fields.value.serverId && row.agentId == h.fields.value.agentId
    && Credentials.Usable(row.status)
    && h.fields.value.signature == c.hmac(row.secret, SignedString(c, h.request, h.fields.value))
  }

  ghost predicate RowFits(h: Handler, row: Credentials.Row)
    requires h.fields.Some?
  {
    row.agentId == h.fields.value.agentId && Credentials.Usable(row.status)
  }

  ghost predicate HandlerOk(c: Config, h: Handler, now: nat)
  {
    && (h.fields.Some? ==> Validate(h.request) == Valid(h.fields.value))
    && (Started(h.stage) || h.counted || h.claimedAt.Some? ==> h.fields.Some?)
    && (h.counted ==> !h.stage.Arrived? && !h.stage.Limiting?)
    && h.limitedAt <= now && OnGrain(c, h.limitedAt) && h.triedAt <= now
    && (PastClock(h) ==> ClockChecked(c, h, now))
    && (h.claimedAt.Some? ==> ClaimRecorded(c, h, now))
    && (h.stage.Signing? || h.stage.Accepted? ==> h.claimedAt.Some?)
    && (match h.stage
        case Checking(row) => RowFits(h, row)
        case Claiming(row) => RowFits(h, row) && row.serverId == h.fields.value.serverId
        case Signing(row) => RowFits(h, row) && row.serverId == h.fields.value.serverId
        case Accepted(row) => Genuine(c, h, row)
        case _ => true)
  }

  lemma NonceKeepsHandler(c: Config, s: Store, h: Handler, row: Credentials.Row, now: nat, fault: Fault)
    requires HandlerOk(c, h, now) && h.stage == Claiming(row) && InTime(c, h, now)
    ensures HandlerOk(c, TakeNonce(c, h.fields.value, row, s, h, now, fault).1, now)
  {
  }

  lemma RateKeepsHandler(c: Config, s: Store, h: Handler, now: nat, fault: Fault)
    requires HandlerOk(c, h, now) && h.stage.Limiting?
    ensures HandlerOk(c, TakeRate(c, h.fields.value, s, h, now, fault).1, now)
  {
  }

  lemma ClockKeepsHandler(c: Config, h: Handler, row: Credentials.Row, now: nat)
    requires HandlerOk(c, h, now) && h.stage == Checking(row) && OnGrain(c, now)
    ensures HandlerOk(c, CheckClock(c, h.fields.value, row, h, now), now)
  {
  }

  lemma SignatureKeepsHandler(c: Config, h: Handler, row: Credentials.Row, now: nat)
    requires HandlerOk(c, h, now) && h.stage == Signing(row)
    ensures HandlerOk(c, CheckSignature(c, h.fields.value, row, h), now)
  {
  }

  lemma ArrivalKeepsHandler(c: Config, t: Credentials.Table, s: Store, h: Handler, now: nat, fault: Fault)
    requires HandlerOk(c, h, now) && h.stage.Arrived? && OnGrain(c, now)
    ensures HandlerOk(c, Advance(c, t, s, h, now, fault).1, now)
  {
  }

  lemma ResolvingKeepsHandler(c: Config, t: Credentials.Table, s: Store, h: Handler, now: nat, fault: Fault)
    requires HandlerOk(c, h, now) && h.stage.Resolving?
    ensures HandlerOk(c, Advance(c, t, s, h, now, fault).1, now)
  {
  }

  lemma AdvanceKeepsHandler(c: Config, t: Credentials.Table, s: Store, h: Handler, now: nat, fault: Fault)
    requires HandlerOk(c, h, now) && InTime(c, h, now) && OnGrain(c, now)
    ensures HandlerOk(c, Advance(c, t, s, h, now, fault).1, now)
  {
    match h.stage
    case Arrived => ArrivalKeepsHandler(c, t, s, h, now, fault);
    case Limiting => RateKeepsHandler(c, s, h, now, fault);
    case Resolving => ResolvingKeepsHandler(c, t, s, h, now, fault);
    case Checking(row) => ClockKeepsHandler(c, h, row, now);
    case Claiming(row) => NonceKeepsHandler(c, s, h, row, now, fault);
    case Signing(row) => SignatureKeepsHandler(c, h, row, now);
    case Accepted(row) =>
    case Rejected(e) =>
  }

  ghost predicate HandlersOk(c: Config, w: World)
  {
    OnGrain(c, w.now) && forall i | 0 <= i < |w.handlers| :: HandlerOk(c, w.handlers[i], w.now)
  }

  lemma WaitOnGrain(c: Config, now: nat, n: nat)
    requires OnGrain(c, now)
    ensures OnGrain(c, now + n * Grain(c)) && now + n * Grain(c) >= now
  {
    if c.wholeSeconds {
      assert n * Grain(c) == 1000 * n;
    }
  }

  lemma HandlerOkLater(c: Config, h: Handler, now: nat, later: nat)
    requires HandlerOk(c, h, now) && now <= later
    ensures HandlerOk(c, h, later)
  {
  }

  lemma NextKeepsHandlers(c: Config, w: World, e: Event)
    requires HandlersOk(c, w)
    ensures HandlersOk(c, Next(c, w, e))
  {
    match e
    case Arrive(r) =>
    case Continue(i, fault) =>
      if i < |w.handlers| && InTime(c, w.handlers[i], w.now) {
        AdvanceKeepsHandler(c, w.table, w.store, w.handlers[i], w.now, fault);
      }
    case Wait(n) =>
      WaitOnGrain(c, w.now, n);
      forall i | 0 <= i < |w.handlers| ensures HandlerOk(c, w.handlers[i], w.now + n * Grain(c)) {
        HandlerOkLater(c, w.handlers[i], w.now, w.now + n * Grain(c));
      }
    case Administer(t) =>
  }

  // -------------------------------------------------- what the nonce store knows

  /** A successful claim keeps its key occupied for at least its lifetime. */
  ghost predicate ClaimsHeld(c: Config, w: World)
  {
    forall i | 0 <= i < |w.handlers| && w.handlers[i].claimedAt.Some? && w.handlers[i].fields.Some? ::
      KeyOf(w.handlers[i].fields.value) in w.store
      && w.handlers[i].claimedAt.value + 1000 * c.ttl <= w.store[KeyOf(w.handlers[i].fields.value)].deadline
  }

  ghost predicate Clash(a: Handler, b: Handler)
  {
    a.claimedAt.Some? && b.claimedAt.Some? && a.fields.Some? && b.fields.Some?
    && KeyOf(a.fields.value) == KeyOf(b.fields.value)
  }

  ghost predicate Apart(c: Config, a: Handler, b: Handler)
    requires a.claimedAt.Some? && b.claimedAt.Some?
  {
    || a.claimedAt.value + 1000 * c.ttl + c.edge <= b.claimedAt.value
    || b.claimedAt.value + 1000 * c.ttl + c.edge <= a.claimedAt.value
  }

  /** Two successful claims of one key lie a whole lifetime apart. */
  ghost predicate ClaimsApart(c: Config, w: World)
  {
    forall i, j | 0 <= i < j < |w.handlers| && Clash(w.handlers[i], w.handlers[j]) ::
      Apart(c, w.handlers[i], w.handlers[j])
  }

  ghost predicate SameAt(s: Store, s': Store, key: string)
  {
    (key in s <==> key in s') && (key in s ==> s[key] == s'[key])
  }

  ghost predicate Claimed(c: Config, s: Store, h: Handler, s': Store, h': Handler, now: nat)
  {
    && h.stage.Claiming? && h.fields.Some? && h'.fields == h.fields
    && h.claimedAt == None && h'.claimedAt == Some(now)
    && !Live(s, KeyOf(h.fields.value), now, c.edge)
    && s' == s[KeyOf(h.fields.value) := Entry(1, now + 1000 * c.ttl)]
  }

  ghost predicate NoncesAlone(s: Store, h: Handler, s': Store, h': Handler)
  {
    && h'.claimedAt == h.claimedAt && (h.claimedAt.Some? ==> h'.fields == h.fields)
    && forall a, k, n :: SameAt(s, s', NonceKey(a, k, n))
  }

  lemma RateSparesNonces(c: Config, s: Store, h: Handler, now: nat, fault: Fault)
    requires h.stage.Limiting? && h.fields.Some?
    ensures var (s', h') := TakeRate(c, h.fields.value, s, h, now, fault); NoncesAlone(s, h, s', h')
  {
    var f := h.fields.value;
    var s' := TakeRate(c, f, s, h, now, fault).0;
    forall a, k, n ensures SameAt(s, s', NonceKey(a, k, n)) {
      NonceKeyIsNoRateKey(a, k, n, f.agentId, MinuteOf(h.limitedAt));
    }
  }

  lemma NonceIsClaimed(c: Config, s: Store, h: Handler, row: Credentials.Row, now: nat, fault: Fault)
    requires h.fields.Some? && h.stage == Claiming(row) && h.claimedAt == None
    ensures var (s', h') := TakeNonce(c, h.fields.value, row, s, h, now, fault);
            Claimed(c, s, h, s', h', now) || NoncesAlone(s, h, s', h')
  {
  }

  /** The other stretches do not touch the cache. */
  lemma OthersSpareNonces(c: Config, t: Credentials.Table, s: Store, h: Handler, now: nat, fault: Fault)
    requires !h.stage.Limiting? && !h.stage.Claiming? && (h.claimedAt.Some? ==> !h.stage.Arrived?)
    ensures var (s', h') := Advance(c, t, s, h, now, fault);
            && s' == s && h'.claimedAt == h.claimedAt && (h.claimedAt.Some? ==> h'.fields == h.fields)
  {
  }

  /** A stretch either claims one free nonce, or leaves every nonce and the record of claims alone. */
  lemma AdvanceOnNonces(c: Config, t: Credentials.Table, s: Store, h: Handler, now: nat, fault: Fault)
    requires HandlerOk(c, h, now)
    ensures var (s', h') := Advance(c, t, s, h, now, fault);
            Claimed(c, s, h, s', h', now) || NoncesAlone(s, h, s', h')
  {
    match h.stage
    case Limiting => RateSparesNonces(c, s, h, now, fault);
    case Claiming(row) => NonceIsClaimed(c, s, h, row, now, fault);
    case _ => OthersSpareNonces(c, t, s, h, now, fault);
  }

  lemma ClaimingKeepsClaims(c: Config, w: World, i: nat, s': Store, h': Handler)
    requires HandlersOk(c, w) && ClaimsHeld(c, w) && ClaimsApart(c, w) && i < |w.handlers|
    requires Claimed(c, w.store, w.handlers[i], s', h', w.now)
    ensures var w' := w.(store := s', handlers := w.handlers[i := h']); ClaimsHeld(c, w') && ClaimsApart(c, w')
  {
    forall j | 0 <= j < |w.handlers| && j != i && Clash(w.handlers[j], h') ensures Apart(c, w.handlers[j], h') {
      assert HandlerOk(c, w.handlers[j], w.now);
    }
  }

  lemma SparingKeepsClaims(c: Config, w: World, i: nat, s': Store, h': Handler)
    requires HandlersOk(c, w) && ClaimsHeld(c, w) && ClaimsApart(c, w) && i < |w.handlers|
    requires NoncesAlone(w.store, w.handlers[i], s', h')
    ensures var w' := w.(store := s', handlers := w.handlers[i := h']); ClaimsHeld(c, w') && ClaimsApart(c, w')
  {
    var hs := w.handlers[i := h'];
    forall j | 0 <= j < |hs| && hs[j].claimedAt.Some? && hs[j].fields.Some?
      ensures SameAt(w.store, s', KeyOf(hs[j].fields.value)) && w.handlers[j].claimedAt == hs[j].claimedAt
              && w.handlers[j].fields == hs[j].fields
    {
    }
  }

  lemma NextKeepsClaims(c: Config, w: World, e: Event)
    requires HandlersOk(c, w) && ClaimsHeld(c, w) && ClaimsApart(c, w)
    ensures ClaimsHeld(c, Next(c, w, e)) && ClaimsApart(c, Next(c, w, e))
  {
    if e.Continue? && e.index < |w.handlers| && InTime(c, w.handlers[e.index], w.now) {
      var h := w.handlers[e.index];
      var (s', h') := Advance(c, w.table, w.store, h, w.now, e.fault);
      AdvanceOnNonces(c, w.table, w.store, h, w.now, e.fault);
      if Claimed(c, w.store, h, s', h', w.now) {
        ClaimingKeepsClaims(c, w, e.index, s', h');
      } else {
        SparingKeepsClaims(c, w, e.index, s', h');
      }
    }
  }

  // ----------------------------------------------------------- accepted only once

  /** The lifetime of a nonce outlasts every moment at which its timestamp is still accepted. */
  predicate Covered(c: Config)
  {
    2000 * c.skew + (1000 - Grain(c)) + c.delay < 1000 * c.ttl + c.edge
  }

  /** A handler that passed the clock check claims no earlier and no later than this. */
  lemma ClaimBounds(c: Config, h: Handler, now: nat)
    requires ClockModel(c) && HandlerOk(c, h, now) && h.claimedAt.Some?
    ensures 1000 * (h.fields.value.timestamp - c.skew) <= h.claimedAt.value
    ensures h.claimedAt.value <= 1000 * (h.fields.value.timestamp + c.skew + 1) - Grain(c) + c.delay
  {
  }

  ghost predicate SameMessage(a: Fields, b: Fields)
  {
    a.agentId == b.agentId && a.keyId == b.keyId && a.nonce == b.nonce && a.timestamp == b.timestamp
  }

  ghost predicate AcceptedTwice(w: World, i: nat, j: nat)
  {
    && i < j < |w.handlers| && w.handlers[i].stage.Accepted? && w.handlers[j].stage.Accepted?
    && w.handlers[i].fields.Some? && w.handlers[j].fields.Some?
    && SameMessage(w.handlers[i].fields.value, w.handlers[j].fields.value)
  }

  lemma ApartMeansOnce(c: Config, w: World, i: nat, j: nat)
    requires ClockModel(c) && HandlersOk(c, w) && ClaimsApart(c, w) && AcceptedTwice(w, i, j)
    ensures !Covered(c)
  {
    ClaimBounds(c, w.handlers[i], w.now);
    ClaimBounds(c, w.handlers[j], w.now);
    assert Clash(w.handlers[i], w.handlers[j]);
    assert Apart(c, w.handlers[i], w.handlers[j]);
  }

  lemma {:induction false} RunKeepsClaims(c: Config, w: World, events: seq<Event>)
    requires HandlersOk(c, w) && ClaimsHeld(c, w) && ClaimsApart(c, w)
    ensures HandlersOk(c, Run(c, w, events)) && ClaimsApart(c, Run(c, w, events))
    decreases |events|
  {
    if events != [] {
      NextKeepsHandlers(c, w, events[0]);
      NextKeepsClaims(c, w, events[0]);
      RunKeepsClaims(c, Next(c, w, events[0]), events[1..]);
    }
  }

  /** With a covering lifetime no message is accepted twice, in any interleaving of any number of handlers. */
  lemma AtMostOnce(c: Config, t: Credentials.Table, events: seq<Event>, i: nat, j: nat)
    requires ClockModel(c) && Covered(c)
    ensures !AcceptedTwice(Run(c, Start(t), events), i, j)
  {
    RunKeepsClaims(c, Start(t), events);
    if AcceptedTwice(Run(c, Start(t), events), i, j) {
      ApartMeansOnce(c, Run(c, Start(t), events), i, j);
    }
  }

  lemma AcceptedHandler(c: Config, h: Handler, now: nat)
    requires HandlerOk(c, h, now) && h.stage.Accepted?
    ensures h.fields.Some? && Validate(h.request) == Valid(h.fields.value) && Genuine(c, h, h.stage.row)
    ensures Abs(h.checkedAt / 1000 - h.fields.value.timestamp) <= c.skew
  {
  }

  lemma HandlerAt(c: Config, w: World, i: nat)
    requires HandlersOk(c, w) && i < |w.handlers|
    ensures HandlerOk(c, w.handlers[i], w.now)
  {
  }

  /** Whatever the settings, an accepted request is signed with a usable key of the server it names, in time. */
  lemma AcceptedIsGenuine(c: Config, t: Credentials.Table, events: seq<Event>, i: nat)
    requires i < |Run(c, Start(t), events).handlers|
    requires Run(c, Start(t), events).handlers[i].stage.Accepted?
    ensures var h := Run(c, Start(t), events).handlers[i];
            && h.fields.Some? && Validate(h.request) == Valid(h.fields.value)
            && Genuine(c, h, h.stage.row)
            && Abs(h.checkedAt / 1000 - h.fields.value.timestamp) <= c.skew
  {
    RunKeepsClaims(c, Start(t), events);
    var w := Run(c, Start(t), events);
    HandlerAt(c, w, i);
    AcceptedHandler(c, w.handlers[i], w.now);
  }
}
