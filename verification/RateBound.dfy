/** How many requests of one agent the limiter lets through while the cache answers. */
module RateBound {
  import opened Text
  import opened Replay
  import opened Authenticate
  import opened AuthSafety
  import Credentials

  /** Let through by an answering limiter, in one of the clock minutes lo, ..., hi - 1. */
  predicate Admitted(h: Handler, agent: string, lo: nat, hi: nat)
  {
    h.counted && h.fields.Some? && h.fields.value.agentId == agent && lo <= MinuteOf(h.limitedAt) < hi
  }

  function Count(hs: seq<Handler>, agent: string, lo: nat, hi: nat): nat
  {
    if hs == [] then 0
    else Count(hs[..|hs| - 1], agent, lo, hi) + if Admitted(hs[|hs| - 1], agent, lo, hi) then 1 else 0
  }

  function One(b: bool): nat { if b then 1 else 0 }

  lemma {:induction false} CountUpdate(hs: seq<Handler>, i: nat, h: Handler, agent: string, lo: nat, hi: nat)
    requires i < |hs|
    ensures Count(hs[i := h], agent, lo, hi) + One(Admitted(hs[i], agent, lo, hi))
            == Count(hs, agent, lo, hi) + One(Admitted(h, agent, lo, hi))
  {
    var n := |hs| - 1;
    if i == n {
      assert hs[i := h][..n] == hs[..n];
    } else {
      assert hs[i := h][..n] == hs[..n][i := h];
      CountUpdate(hs[..n], i, h, agent, lo, hi);
    }
  }

  lemma {:induction false} CountSplits(hs: seq<Handler>, agent: string, lo: nat, mid: nat, hi: nat)
    requires lo <= mid <= hi
    ensures Count(hs, agent, lo, hi) == Count(hs, agent, lo, mid) + Count(hs, agent, mid, hi)
  {
    if hs != [] {
      CountSplits(hs[..|hs| - 1], agent, lo, mid, hi);
    }
  }

  // ---------------------------------------------------------------- invariant

  /** The counter of a minute outlives that minute and has counted at least the admitted requests. */
  ghost predicate CounterOk(c: Config, s: Store, hs: seq<Handler>, agent: string, m: nat)
  {
    var n, key := Count(hs, agent, m, m + 1), RateKey(agent, m);
    && n <= c.perMinute
    && (key !in s ==> n == 0)
    && (key in s ==> n <= s[key].value && 60000 * m + RATE_TTL_MS <= s[key].deadline)
  }

  /** The last command of a minute runs before a counter started at the beginning of that minute can expire. */
  predicate CounterOutlives(c: Config) { 60000 - Grain(c) + c.delay < 120000 + c.edge }

  ghost predicate CountersOk(c: Config, w: World)
  {
    forall agent, m: nat | ':' !in agent :: CounterOk(c, w.store, w.handlers, agent, m)
  }

  lemma RateStep(c: Config, s: Store, h: Handler, now: nat, fault: Fault)
    requires h.stage.Limiting? && h.fields.Some? && !h.counted
    ensures var f, key := h.fields.value, RateKey(h.fields.value.agentId, MinuteOf(h.limitedAt));
            var (s', h') := TakeRate(c, f, s, h, now, fault);
            && h'.fields == h.fields && h'.limitedAt == h.limitedAt
            && (s' == s ==> !h'.counted)
            && (s' != s ==>
                  && s'.Keys == s.Keys + {key} && (forall k | k in s && k != key :: s'[k] == s[k])
                  && s'[key].deadline == now + RATE_TTL_MS
                  && (Live(s, key, now, c.edge) ==> s'[key].value == s[key].value + 1)
                  && s'[key].value >= 1
                  && (h'.counted ==> s'[key].value <= c.perMinute))
  {
  }

  lemma NonceStage(c: Config, s: Store, h: Handler, row: Credentials.Row, now: nat, fault: Fault, agent: string, m: nat)
    requires h.stage == Claiming(row) && h.fields.Some?
    ensures var (s', h') := TakeNonce(c, h.fields.value, row, s, h, now, fault);
            && SameAt(s, s', RateKey(agent, m))
            && h'.fields == h.fields && h'.counted == h.counted && h'.limitedAt == h.limitedAt
  {
    var f := h.fields.value;
    NonceKeyIsNoRateKey(f.agentId, f.keyId, f.nonce, agent, m);
  }

  lemma ArrivalStage(c: Config, t: Credentials.Table, s: Store, h: Handler, now: nat, fault: Fault)
    requires h.stage.Arrived? && !h.counted
    ensures var (s', h') := Advance(c, t, s, h, now, fault); s' == s && !h'.counted
  {
  }

  lemma LaterStage(c: Config, t: Credentials.Table, s: Store, h: Handler, now: nat, fault: Fault)
    requires !h.stage.Arrived? && !h.stage.Limiting? && !h.stage.Claiming?
    ensures var (s', h') := Advance(c, t, s, h, now, fault);
            s' == s && h'.counted == h.counted && h'.fields == h.fields && h'.limitedAt == h.limitedAt
  {
  }

  /** Apart from the limiter and the nonce guard, no stretch touches the cache; none but the limiter admits. */
  lemma OtherStages(c: Config, t: Credentials.Table, s: Store, h: Handler, now: nat, fault: Fault)
    requires HandlerOk(c, h, now) && !h.stage.Limiting? && !h.stage.Claiming?
    ensures var (s', h') := Advance(c, t, s, h, now, fault);
            && s' == s && h'.counted == h.counted
            && (h.counted ==> h'.fields == h.fields && h'.limitedAt == h.limitedAt)
  {
    if h.stage.Arrived? { ArrivalStage(c, t, s, h, now, fault); } else { LaterStage(c, t, s, h, now, fault); }
  }

  /** What every stretch but the limiter leaves alone: the counter, and what a request that passed it recorded. */
  ghost predicate SparesCounter(s: Store, h: Handler, s': Store, h': Handler, key: string)
  {
    && SameAt(s, s', key) && h'.counted == h.counted
    && (h.counted ==> h'.fields == h.fields && h'.limitedAt == h.limitedAt)
  }

  lemma OtherStretch(c: Config, t: Credentials.Table, s: Store, h: Handler, now: nat, fault: Fault, agent: string,
                     m: nat)
    requires HandlerOk(c, h, now) && !h.stage.Limiting?
    ensures var (s', h') := Advance(c, t, s, h, now, fault); SparesCounter(s, h, s', h', RateKey(agent, m))
  {
    if h.stage.Claiming? {
      NonceStage(c, s, h, h.stage.row, now, fault, agent, m);
    } else {
      OtherStages(c, t, s, h, now, fault);
    }
  }

  lemma SparedCounter(c: Config, s: Store, hs: seq<Handler>, i: nat, s': Store, h': Handler, agent: string, m: nat)
    requires CounterOk(c, s, hs, agent, m) && i < |hs| && SparesCounter(s, hs[i], s', h', RateKey(agent, m))
    ensures CounterOk(c, s', hs[i := h'], agent, m)
  {
    CountUpdate(hs, i, h', agent, m, m + 1);
  }

  lemma OthersKeepCounter(c: Config, w: World, i: nat, fault: Fault, agent: string, m: nat)
    requires HandlersOk(c, w) && CounterOk(c, w.store, w.handlers, agent, m)
    requires i < |w.handlers| && InTime(c, w.handlers[i], w.now) && !w.handlers[i].stage.Limiting?
    ensures var w' := Next(c, w, Continue(i, fault)); CounterOk(c, w'.store, w'.handlers, agent, m)
  {
    var h := w.handlers[i];
    assert HandlerOk(c, h, w.now);
    OtherStretch(c, w.table, w.store, h, w.now, fault, agent, m);
    var (s', h') := Advance(c, w.table, w.store, h, w.now, fault);
    SparedCounter(c, w.store, w.handlers, i, s', h', agent, m);
  }

  lemma LastReading(c: Config, at: nat, m: nat)
    requires OnGrain(c, at) && at < 60000 * m + 60000
    ensures at <= 60000 * m + 60000 - Grain(c)
  {
    if c.wholeSeconds {
      var seconds := at / 1000;
      assert at == 1000 * seconds;
      assert seconds < 60 * m + 60;
    }
  }

  lemma LastCommand(c: Config, h: Handler, now: nat, m: nat)
    requires CounterOutlives(c) && OnGrain(c, h.limitedAt) && MinuteOf(h.limitedAt) == m
    requires now <= h.limitedAt + c.delay
    ensures now < 60000 * m + RATE_TTL_MS + c.edge
  {
    assert h.limitedAt < 60000 * m + 60000;
    LastReading(c, h.limitedAt, m);
  }

  lemma OwnCounter(c: Config, w: World, i: nat, fault: Fault, agent: string, m: nat)
    requires CounterOutlives(c) && HandlersOk(c, w) && CounterOk(c, w.store, w.handlers, agent, m)
    requires i < |w.handlers| && InTime(c, w.handlers[i], w.now) && w.handlers[i].stage.Limiting?
    requires w.handlers[i].fields.Some? && w.handlers[i].fields.value.agentId == agent
    requires !w.handlers[i].counted && MinuteOf(w.handlers[i].limitedAt) == m
    ensures var h := w.handlers[i];
            var (s', h') := TakeRate(c, h.fields.value, w.store, h, w.now, fault);
            CounterOk(c, s', w.handlers[i := h'], agent, m)
  {
    var h := w.handlers[i];
    assert HandlerOk(c, h, w.now);
    var (s', h') := TakeRate(c, h.fields.value, w.store, h, w.now, fault);
    RateStep(c, w.store, h, w.now, fault);
    CountUpdate(w.handlers, i, h', agent, m, m + 1);
    LastCommand(c, h, w.now, m);
    assert RateKey(agent, m) in w.store ==> Live(w.store, RateKey(agent, m), w.now, c.edge);
  }

  lemma OtherCounter(c: Config, w: World, i: nat, fault: Fault, agent: string, m: nat)
    requires CounterOk(c, w.store, w.handlers, agent, m) && ':' !in agent
    requires i < |w.handlers| && w.handlers[i].stage.Limiting? && !w.handlers[i].counted
    requires w.handlers[i].fields.Some? && ':' !in w.handlers[i].fields.value.agentId
    requires w.handlers[i].fields.value.agentId != agent || MinuteOf(w.handlers[i].limitedAt) != m
    ensures var h := w.handlers[i];
            var (s', h') := TakeRate(c, h.fields.value, w.store, h, w.now, fault);
            CounterOk(c, s', w.handlers[i := h'], agent, m)
  {
    var h := w.handlers[i];
    var f, own := h.fields.value, MinuteOf(h.limitedAt);
    var (s', h') := TakeRate(c, f, w.store, h, w.now, fault);
    RateStep(c, w.store, h, w.now, fault);
    CountUpdate(w.handlers, i, h', agent, m, m + 1);
    if RateKey(agent, m) == RateKey(f.agentId, own) { RateKeyInjective(agent, m, f.agentId, own); }
  }

  /** The counter of a minute cannot have expired when a request of that minute reaches the cache. */
  lemma LimiterKeepsCounter(c: Config, w: World, i: nat, fault: Fault, agent: string, m: nat)
    requires CounterOutlives(c) && HandlersOk(c, w) && CountersOk(c, w) && ':' !in agent
    requires i < |w.handlers| && InTime(c, w.handlers[i], w.now) && w.handlers[i].stage.Limiting?
    ensures var w' := Next(c, w, Continue(i, fault)); CounterOk(c, w'.store, w'.handlers, agent, m)
  {
    var h := w.handlers[i];
    assert HandlerOk(c, h, w.now) && CounterOk(c, w.store, w.handlers, agent, m);
    assert ':' !in h.fields.value.agentId by { assert IsId(h.fields.value.agentId); }
    if h.fields.value.agentId == agent && MinuteOf(h.limitedAt) == m {
      OwnCounter(c, w, i, fault, agent, m);
    } else {
      OtherCounter(c, w, i, fault, agent, m);
    }
  }

  lemma NextKeepsCounters(c: Config, w: World, e: Event)
    requires CounterOutlives(c) && HandlersOk(c, w) && CountersOk(c, w)
    ensures CountersOk(c, Next(c, w, e))
  {
    var w' := Next(c, w, e);
    forall agent, m: nat | ':' !in agent ensures CounterOk(c, w'.store, w'.handlers, agent, m) {
      assert CounterOk(c, w.store, w.handlers, agent, m);
      match e
      case Arrive(r) =>
        assert w'.handlers[..|w.handlers|] == w.handlers;
      case Continue(i, fault) =>
        if i < |w.handlers| && InTime(c, w.handlers[i], w.now) {
          if w.handlers[i].stage.Limiting? {
            LimiterKeepsCounter(c, w, i, fault, agent, m);
          } else {
            OthersKeepCounter(c, w, i, fault, agent, m);
          }
        }
      case Wait(n) =>
      case Administer(t) =>
    }
  }

  lemma {:induction false} RunKeepsCounters(c: Config, w: World, events: seq<Event>)
    requires CounterOutlives(c) && HandlersOk(c, w) && CountersOk(c, w)
    ensures CountersOk(c, Run(c, w, events))
    decreases |events|
  {
    if events != [] {
      NextKeepsHandlers(c, w, events[0]);
      NextKeepsCounters(c, w, events[0]);
      RunKeepsCounters(c, Next(c, w, events[0]), events[1..]);
    }
  }

  // ----------------------------------------------------------------- theorems

  /** In every clock minute an agent gets at most `perMinute` requests through an answering limiter. */
  lemma PerMinute(c: Config, t: Credentials.Table, events: seq<Event>, agent: string, m: nat)
    requires CounterOutlives(c) && ':' !in agent
    ensures Count(Run(c, AuthSafety.Start(t), events).handlers, agent, m, m + 1) <= c.perMinute
  {
    RunKeepsCounters(c, AuthSafety.Start(t), events);
    var w := Run(c, AuthSafety.Start(t), events);
    assert CounterOk(c, w.store, w.handlers, agent, m);
  }

  lemma {:induction false} PerMinutes(c: Config, t: Credentials.Table, events: seq<Event>, agent: string, lo: nat,
                                      n: nat)
    requires CounterOutlives(c) && ':' !in agent
    ensures Count(Run(c, AuthSafety.Start(t), events).handlers, agent, lo, lo + n) <= n * c.perMinute
    decreases n
  {
    var hs := Run(c, AuthSafety.Start(t), events).handlers;
    if n == 0 {
      Empty(hs, agent, lo);
    } else {
      PerMinutes(c, t, events, agent, lo, n - 1);
      PerMinute(c, t, events, agent, lo + n - 1);
      CountSplits(hs, agent, lo, lo + n - 1, lo + n);
      assert (n - 1) * c.perMinute + c.perMinute == n * c.perMinute;
    }
  }

  lemma {:induction false} Empty(hs: seq<Handler>, agent: string, lo: nat)
    ensures Count(hs, agent, lo, lo) == 0
  {
    if hs != [] {
      Empty(hs[..|hs| - 1], agent, lo);
    }
  }

  /** Let through with a clock reading in the half-open interval from `from` of `length` milliseconds. */
  function CountWithin(hs: seq<Handler>, agent: string, from: nat, length: nat): nat
  {
    if hs == [] then 0
    else
      var h := hs[|hs| - 1];
      CountWithin(hs[..|hs| - 1], agent, from, length)
      + One(h.counted && h.fields.Some? && h.fields.value.agentId == agent && from <= h.limitedAt < from + length)
  }

  lemma {:induction false} WithinMinutes(hs: seq<Handler>, agent: string, from: nat, length: nat, lo: nat, hi: nat)
    requires lo <= MinuteOf(from) && from + length <= 60000 * hi
    ensures CountWithin(hs, agent, from, length) <= Count(hs, agent, lo, hi)
  {
    if hs != [] {
      WithinMinutes(hs[..|hs| - 1], agent, from, length, lo, hi);
    }
  }

  /** Hence any interval of L milliseconds lets through at most (ceil(L / 60000) + 1) * perMinute requests. */
  lemma AnyInterval(c: Config, t: Credentials.Table, events: seq<Event>, agent: string, from: nat, length: nat)
    requires CounterOutlives(c) && ':' !in agent
    ensures CountWithin(Run(c, AuthSafety.Start(t), events).handlers, agent, from, length)
            <= ((length + 59999) / 60000 + 1) * c.perMinute
  {
    var hs := Run(c, AuthSafety.Start(t), events).handlers;
    var lo, n := MinuteOf(from), (length + 59999) / 60000 + 1;
    assert from + length <= 60000 * (lo + n);
    WithinMinutes(hs, agent, from, length, lo, lo + n);
    PerMinutes(c, t, events, agent, lo, n);
  }
}
