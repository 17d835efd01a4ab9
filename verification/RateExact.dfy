/** When the expiry of a rate counter is long enough, to the millisecond. */
module RateExact {
  import opened Text
  import opened Replay
  import opened Authenticate
  import opened AuthSafety
  import opened RateBound
  import Credentials
  import ReplayExact

  /** Any agent can send a request that reaches the limiter. */
  lemma SomeRequest(agent: string) returns (r: Request, f: Fields)
    requires IsId(agent)
    ensures Validate(r) == Valid(f) && f.agentId == agent
  {
    var nonce: string, signature: string := seq(16, _ => '0'), seq(64, _ => '0');
    NumberRoundTrip(1);
    f := Fields(agent, agent, agent, 1, nonce, signature, 1);
    r := Request(Single(agent), Single(agent), Single(agent), Single(PrintInt(1)), Single(nonce), Single(signature),
                 Single(PrintInt(1)), Missing, Missing, "GET", "", "");
    assert IsNonce(nonce) && IsMac(signature);
  }

  /** A handler that read the clock at `at` and is about to ask the limiter. */
  function Asking(r: Request, f: Fields, at: nat): Handler
  {
    Fresh0(r).(fields := Some(f), stage := Limiting, limitedAt := at)
  }

  /** The same handler once it has been let through. */
  function LetThrough(r: Request, f: Fields, at: nat): Handler
  {
    Asking(r, f, at).(stage := Resolving, counted := true)
  }

  function Ask(c: Config, w: World, r: Request, f: Fields): World
  {
    w.(handlers := w.handlers + [Asking(r, f, w.now)])
  }

  /** A valid request arrives and reads the clock. */
  lemma AsksNow(c: Config, w0: World, events: seq<Event>, w: World, r: Request, f: Fields) returns (longer: seq<Event>)
    requires Run(c, w0, events) == w && Validate(r) == Valid(f)
    ensures Run(c, w0, longer) == Ask(c, w, r, f)
  {
    longer := ReplayExact.Then(c, w0, events, Arrive(r));
    var w1 := w.(handlers := w.handlers + [Fresh0(r)]);
    longer := ReplayExact.Resume(c, w0, longer, w1, w.handlers, Fresh0(r), w.store, Asking(r, f, w.now));
  }

  /** The limiter lets it through when its counter has expired or has room. */
  lemma Passes(c: Config, t: Credentials.Table, s: Store, h: Handler, f: Fields, now: nat, n: nat)
    requires h.stage.Limiting? && h.fields == Some(f) && 1 <= n <= c.perMinute
    requires var key := RateKey(f.agentId, MinuteOf(h.limitedAt));
             n == if Live(s, key, now, c.edge) then s[key].value + 1 else 1
    ensures Advance(c, t, s, h, now, Healthy)
         == (s[RateKey(f.agentId, MinuteOf(h.limitedAt)) := Entry(n, now + RATE_TTL_MS)],
             h.(stage := Resolving, counted := true))
  {
  }

  lemma PassesNow(c: Config, w0: World, events: seq<Event>, w: World, others: seq<Handler>, r: Request, f: Fields,
                  at: nat, n: nat) returns (longer: seq<Event>)
    requires Run(c, w0, events) == w && w.handlers == others + [Asking(r, f, at)] && 1 <= n <= c.perMinute
    requires at <= w.now <= at + c.delay
    requires var key := RateKey(f.agentId, MinuteOf(at));
             n == if Live(w.store, key, w.now, c.edge) then w.store[key].value + 1 else 1
    ensures Run(c, w0, longer)
         == w.(store := w.store[RateKey(f.agentId, MinuteOf(at)) := Entry(n, w.now + RATE_TTL_MS)],
               handlers := others + [LetThrough(r, f, at)])
  {
    var h := Asking(r, f, at);
    Passes(c, w.table, w.store, h, f, w.now, n);
    longer := ReplayExact.Resume(c, w0, events, w, others, h,
                                 w.store[RateKey(f.agentId, MinuteOf(at)) := Entry(n, w.now + RATE_TTL_MS)],
                                 LetThrough(r, f, at));
  }

  function Same(h: Handler, n: nat): seq<Handler> { seq(n, _ => h) }

  function Flooded(t: Credentials.Table, r: Request, f: Fields, n: nat): World
  {
    World(0, if n == 0 then map[] else map[RateKey(f.agentId, 0) := Entry(n, RATE_TTL_MS)], t,
          Same(LetThrough(r, f, 0), n))
  }

  /** At the first instant n requests are let through, for any n up to the limit. */
  lemma {:induction false} Flood(c: Config, t: Credentials.Table, r: Request, f: Fields, n: nat)
    returns (events: seq<Event>)
    requires Validate(r) == Valid(f) && n <= c.perMinute
    ensures Run(c, AuthSafety.Start(t), events) == Flooded(t, r, f, n)
    decreases n
  {
    var w0 := AuthSafety.Start(t);
    if n == 0 {
      events := [];
      assert Same(LetThrough(r, f, 0), 0) == [];
    } else {
      events := Flood(c, t, r, f, n - 1);
      var w := Flooded(t, r, f, n - 1);
      events := AsksNow(c, w0, events, w, r, f);
      events := PassesNow(c, w0, events, Ask(c, w, r, f), w.handlers, r, f, 0, n);
      assert Same(LetThrough(r, f, 0), n) == w.handlers + [LetThrough(r, f, 0)];
    }
  }

  lemma {:induction false} CountSame(h: Handler, n: nat, agent: string)
    requires Admitted(h, agent, 0, 1)
    ensures Count(Same(h, n), agent, 0, 1) == n
  {
    if n > 0 {
      assert Same(h, n)[..n - 1] == Same(h, n - 1);
      CountSame(h, n - 1, agent);
    }
  }

  /** When the counter can expire inside its minute, one request more than the limit gets through. */
  lemma OneTooMany(c: Config, t: Credentials.Table, agent: string) returns (events: seq<Event>)
    requires ClockModel(c) && c.perMinute >= 1 && !CounterOutlives(c) && IsId(agent)
    ensures Count(Run(c, AuthSafety.Start(t), events).handlers, agent, 0, 1) == c.perMinute + 1
  {
    var w0 := AuthSafety.Start(t);
    var r, f := SomeRequest(agent);
    var late := 60000 - Grain(c);
    events := Flood(c, t, r, f, c.perMinute);
    events := ReplayExact.WaitFor(c, w0, events, late);
    var w := Flooded(t, r, f, c.perMinute).(now := late);
    events := AsksNow(c, w0, events, w, r, f);
    events := ReplayExact.WaitFor(c, w0, events, c.delay);
    events := PassesNow(c, w0, events, Ask(c, w, r, f).(now := late + c.delay), w.handlers, r, f, late, 1);
    var hs := w.handlers + [LetThrough(r, f, late)];
    assert hs[..|hs| - 1] == w.handlers;
    CountSame(LetThrough(r, f, 0), c.perMinute, agent);
  }

  ghost predicate WithinLimit(c: Config, t: Credentials.Table, events: seq<Event>, agent: string, m: nat)
  {
    Count(Run(c, AuthSafety.Start(t), events).handlers, agent, m, m + 1) <= c.perMinute
  }

  ghost predicate RateSafe(c: Config)
  {
    forall t, events, agent, m: nat | ':' !in agent :: WithinLimit(c, t, events, agent, m)
  }

  /** The limit holds in every clock minute of every run exactly when no counter can expire inside its minute. */
  lemma RateSafeExactly(c: Config)
    requires Admissible(c) && ClockModel(c)
    ensures RateSafe(c) <==> 60000 - Grain(c) + c.delay < 120000 + c.edge
  {
    if CounterOutlives(c) {
      forall t, events, agent, m: nat | ':' !in agent ensures WithinLimit(c, t, events, agent, m) {
        PerMinute(c, t, events, agent, m);
      }
    } else {
      var t: Credentials.Table, agent := map[], "a";
      var events := OneTooMany(c, t, agent);
      assert !WithinLimit(c, t, events, agent, 0);
    }
  }
}
