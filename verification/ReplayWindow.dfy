/** Exactly when nonces protect against replay, and why a refused nonce was really used. */
module ReplayWindow {
  import opened Text
  import opened Replay
  import opened Authenticate
  import opened AuthSafety
  import Credentials

  // ------------------------------------------------------ refusals are justified

  const REPLAYED: Stage := Rejected(AuthError(401, REPLAY, None))

  /** `a` occupied the nonce of `b` when `b` tried it. */
  ghost predicate Explains(c: Config, a: Handler, b: Handler)
  {
    && a.claimedAt.Some? && a.fields.Some? && b.fields.Some?
    && KeyOf(a.fields.value) == KeyOf(b.fields.value)
    && a.claimedAt.value <= b.triedAt < a.claimedAt.value + 1000 * c.ttl + c.edge
  }

  ghost predicate HasClaim(c: Config, hs: seq<Handler>, key: string, deadline: nat, i: nat)
  {
    && i < |hs| && hs[i].claimedAt.Some? && hs[i].fields.Some?
    && KeyOf(hs[i].fields.value) == key && deadline == hs[i].claimedAt.value + 1000 * c.ttl
  }

  ghost predicate OnRecord(c: Config, hs: seq<Handler>, key: string, deadline: nat)
  {
    exists i :: HasClaim(c, hs, key, deadline, i)
  }

  /** Every nonce in the cache was put there by a handler on record. */
  ghost predicate Traced(c: Config, s: Store, hs: seq<Handler>)
  {
    forall a, k, n | NonceKey(a, k, n) in s :: OnRecord(c, hs, NonceKey(a, k, n), s[NonceKey(a, k, n)].deadline)
  }

  ghost predicate HasExplanation(c: Config, hs: seq<Handler>, b: Handler)
  {
    exists i | 0 <= i < |hs| :: Explains(c, hs[i], b)
  }

  ghost predicate Explained(c: Config, hs: seq<Handler>)
  {
    forall j | 0 <= j < |hs| && hs[j].stage == REPLAYED :: HasExplanation(c, hs, hs[j])
  }

  lemma SeenIsLive(c: Config, t: Credentials.Table, s: Store, h: Handler, now: nat, fault: Fault)
    requires HandlerOk(c, h, now) && h.stage != REPLAYED
    requires Advance(c, t, s, h, now, fault).1.stage == REPLAYED
    ensures h.stage.Claiming? && Live(s, KeyOf(h.fields.value), now, c.edge)
    ensures var h' := Advance(c, t, s, h, now, fault).1;
            h'.fields == h.fields && h'.triedAt == now && h'.claimedAt == None
  {
    match h.stage
    case Arrived =>
    case Limiting =>
    case Resolving =>
    case Checking(row) =>
    case Claiming(row) =>
    case Signing(row) =>
    case Accepted(row) =>
    case Rejected(e) =>
  }

  lemma StaysReplayed(c: Config, t: Credentials.Table, s: Store, h: Handler, now: nat, fault: Fault)
    requires h.stage == REPLAYED
    ensures Advance(c, t, s, h, now, fault) == (s, h)
  {
  }

  /** A claim on record stays on record. */
  ghost predicate Extends(hs: seq<Handler>, hs': seq<Handler>)
  {
    |hs| <= |hs'| && forall i | 0 <= i < |hs| && hs[i].claimedAt.Some? ::
                       hs'[i].claimedAt == hs[i].claimedAt && hs'[i].fields == hs[i].fields
  }

  lemma ClaimSurvives(c: Config, hs: seq<Handler>, hs': seq<Handler>, key: string, deadline: nat)
    requires Extends(hs, hs') && OnRecord(c, hs, key, deadline)
    ensures OnRecord(c, hs', key, deadline)
  {
    var i: nat :| HasClaim(c, hs, key, deadline, i);
    assert HasClaim(c, hs', key, deadline, i);
  }

  lemma ExplanationSurvives(c: Config, hs: seq<Handler>, hs': seq<Handler>, b: Handler)
    requires Extends(hs, hs') && HasExplanation(c, hs, b)
    ensures HasExplanation(c, hs', b)
  {
    var i :| 0 <= i < |hs| && Explains(c, hs[i], b);
    assert Explains(c, hs'[i], b);
  }

  lemma ClaimIsTraced(c: Config, w: World, i: nat, s': Store, h': Handler)
    requires i < |w.handlers| && Claimed(c, w.store, w.handlers[i], s', h', w.now)
    ensures var key := KeyOf(w.handlers[i].fields.value);
            key in s' && OnRecord(c, w.handlers[i := h'], key, s'[key].deadline)
  {
    var key := KeyOf(w.handlers[i].fields.value);
    assert HasClaim(c, w.handlers[i := h'], key, s'[key].deadline, i);
  }

  lemma TraceStep(c: Config, w: World, i: nat, s': Store, h': Handler)
    requires Traced(c, w.store, w.handlers) && i < |w.handlers|
    requires Claimed(c, w.store, w.handlers[i], s', h', w.now) || NoncesAlone(w.store, w.handlers[i], s', h')
    ensures Traced(c, s', w.handlers[i := h'])
  {
    var h, hs' := w.handlers[i], w.handlers[i := h'];
    assert Extends(w.handlers, hs');
    forall a, k, n | NonceKey(a, k, n) in s'
      ensures OnRecord(c, hs', NonceKey(a, k, n), s'[NonceKey(a, k, n)].deadline)
    {
      var key := NonceKey(a, k, n);
      if Claimed(c, w.store, h, s', h', w.now) {
        if key == KeyOf(h.fields.value) {
          ClaimIsTraced(c, w, i, s', h');
        } else {
          ClaimSurvives(c, w.handlers, hs', key, w.store[key].deadline);
        }
      } else {
        assert SameAt(w.store, s', key);
        ClaimSurvives(c, w.handlers, hs', key, w.store[key].deadline);
      }
    }
  }

  /** A nonce found occupied was put there by a handler on record, less than a lifetime ago. */
  lemma LiveIsExplained(c: Config, w: World, h: Handler, h': Handler)
    requires HandlersOk(c, w) && Traced(c, w.store, w.handlers)
    requires h.fields.Some? && Live(w.store, KeyOf(h.fields.value), w.now, c.edge)
    requires h'.fields == h.fields && h'.triedAt == w.now
    ensures HasExplanation(c, w.handlers, h')
  {
    var f := h.fields.value;
    var key := NonceKey(f.agentId, f.keyId, f.nonce);
    assert OnRecord(c, w.handlers, key, w.store[key].deadline);
    var x: nat :| HasClaim(c, w.handlers, key, w.store[key].deadline, x);
    assert HandlerOk(c, w.handlers[x], w.now);
    assert Explains(c, w.handlers[x], h');
  }

  lemma ContinueKeepsTraces(c: Config, w: World, i: nat, fault: Fault)
    requires HandlersOk(c, w) && Traced(c, w.store, w.handlers) && Explained(c, w.handlers)
    requires i < |w.handlers| && InTime(c, w.handlers[i], w.now)
    ensures var w' := Next(c, w, Continue(i, fault)); Traced(c, w'.store, w'.handlers) && Explained(c, w'.handlers)
  {
    var h := w.handlers[i];
    var (s', h') := Advance(c, w.table, w.store, h, w.now, fault);
    var hs' := w.handlers[i := h'];
    AdvanceOnNonces(c, w.table, w.store, h, w.now, fault);
    TraceStep(c, w, i, s', h');
    forall j | 0 <= j < |hs'| && hs'[j].stage == REPLAYED ensures HasExplanation(c, hs', hs'[j]) {
      if w.handlers[j].stage == REPLAYED {
        if j == i { StaysReplayed(c, w.table, w.store, h, w.now, fault); }
      } else {
        SeenIsLive(c, w.table, w.store, h, w.now, fault);
        LiveIsExplained(c, w, h, h');
      }
      ExplanationSurvives(c, w.handlers, hs', hs'[j]);
    }
  }

  lemma ArrivalKeepsTraces(c: Config, w: World, r: Request)
    requires Traced(c, w.store, w.handlers) && Explained(c, w.handlers)
    ensures Traced(c, w.store, w.handlers + [Fresh0(r)]) && Explained(c, w.handlers + [Fresh0(r)])
  {
    var hs' := w.handlers + [Fresh0(r)];
    forall a, k, n | NonceKey(a, k, n) in w.store
      ensures OnRecord(c, hs', NonceKey(a, k, n), w.store[NonceKey(a, k, n)].deadline)
    {
      ClaimSurvives(c, w.handlers, hs', NonceKey(a, k, n), w.store[NonceKey(a, k, n)].deadline);
    }
    forall j | 0 <= j < |hs'| && hs'[j].stage == REPLAYED ensures HasExplanation(c, hs', hs'[j]) {
      ExplanationSurvives(c, w.handlers, hs', hs'[j]);
    }
  }

  lemma {:induction false} RunKeepsTraces(c: Config, w: World, events: seq<Event>)
    requires HandlersOk(c, w) && Traced(c, w.store, w.handlers) && Explained(c, w.handlers)
    ensures HandlersOk(c, Run(c, w, events)) && Explained(c, Run(c, w, events).handlers)
    decreases |events|
  {
    if events != [] {
      NextKeepsHandlers(c, w, events[0]);
      match events[0] {
        case Arrive(r) => ArrivalKeepsTraces(c, w, r);
        case Continue(i, fault) =>
          if i < |w.handlers| && InTime(c, w.handlers[i], w.now) { ContinueKeepsTraces(c, w, i, fault); }
        case Wait(n) =>
        case Administer(t) =>
      }
      RunKeepsTraces(c, Next(c, w, events[0]), events[1..]);
    }
  }

  lemma FieldsHaveNoColon(r: Request, f: Fields)
    requires Validate(r) == Valid(f)
    ensures ':' !in f.agentId && ':' !in f.keyId && ':' !in f.nonce
  {
    assert IsId(f.agentId) && IsId(f.keyId) && IsNonce(f.nonce);
  }

  /**
   * A request is refused as a replay only if some request with the same agent, key and nonce took that
   * nonce less than a lifetime before: other agents, and other keys of the agent, never block it.
   */
  lemma RefusedOnlyIfUsed(c: Config, t: Credentials.Table, events: seq<Event>, j: nat)
    requires j < |Run(c, AuthSafety.Start(t), events).handlers|
    requires Run(c, AuthSafety.Start(t), events).handlers[j].stage == REPLAYED
    ensures var hs := Run(c, AuthSafety.Start(t), events).handlers;
            exists i | 0 <= i < |hs| ::
              && Explains(c, hs[i], hs[j])
              && hs[i].fields.value.agentId == hs[j].fields.value.agentId
              && hs[i].fields.value.keyId == hs[j].fields.value.keyId
              && hs[i].fields.value.nonce == hs[j].fields.value.nonce
  {
    RunKeepsTraces(c, AuthSafety.Start(t), events);
    var w := Run(c, AuthSafety.Start(t), events);
    assert HasExplanation(c, w.handlers, w.handlers[j]);
    var i :| 0 <= i < |w.handlers| && Explains(c, w.handlers[i], w.handlers[j]);
    var f, g := w.handlers[i].fields.value, w.handlers[j].fields.value;
    assert HandlerOk(c, w.handlers[i], w.now) && HandlerOk(c, w.handlers[j], w.now);
    FieldsHaveNoColon(w.handlers[i].request, f);
    FieldsHaveNoColon(w.handlers[j].request, g);
    NonceKeyInjective(f.agentId, f.keyId, f.nonce, g.agentId, g.keyId, g.nonce);
  }
}
