/**
 * Key rotation as a two-party protocol over a network that loses, delays and reorders messages.
 *
 * The agent keeps its old key with its secret, and keeps its latest candidate until a handshake signed with that
 * candidate succeeds. A request is signed with the secret that the agent holds for its key. The platform
 * authenticates a request and executes it in two separate steps, so any other step may come between them. Messages
 * are sets: a message that is never delivered is lost, and a request may even be delivered more than once. Only a
 * rotation reply, the sole copy of a secret, is consumed by its delivery.
 */
module Rotation {
  import opened Text
  import opened Credentials

  /** A key as the agent has it: its identifier and the secret that came with it. */
  datatype Held = Held(key: string, secret: string)

  datatype Request = RotateRequest(signer: Held) | HandshakeRequest(signer: Held)

  /** An authenticated request, with the row as `resolve` read it. */
  datatype Context = RotateContext(key: string, row: Row) | HandshakeContext(key: string, row: Row)

  datatype Agent = Agent(primary: Held, candidate: Option<Held>)

  datatype World = World(
    table: Table,
    agentId: string,
    sent: set<Request>,
    authenticated: set<Context>,
    rotateReplies: set<Held>,
    handshakeReplies: set<string>,
    agent: Agent,
    received: set<string>)

  datatype Event =
    | AskRotation(signer: Held)
    | AskHandshake(signer: Held)
    | Authenticate(request: Request, now: int)
    | ServeRotation(context: Context, newKey: string, secret: string)
    | ServeHandshake(context: Context)
    | DeliverRotation(reply: Held)
    | DeliverHandshake(key: string)

  function Holds(a: Agent): set<Held>
  {
    {a.primary} + if a.candidate.Some? then {a.candidate.value} else {}
  }

  /** A rotation is begun from the row read at authentication, whatever happened to the key since. */
  function Serve(w: World, c: Context, newKey: string, secret: string): World
  {
    match Issue(w.table, newKey, PendingRow(c.row, c.key, secret))
    case Committed(t) => w.(table := t, rotateReplies := w.rotateReplies + {Held(newKey, secret)})
    case Aborted => w
  }

  /** Only a handshake signed with a pending key commits, and an aborted commit sends no reply. */
  function Shake(w: World, c: Context): World
  {
    if c.row.status != PENDING_ROTATION then w.(handshakeReplies := w.handshakeReplies + {c.key})
    else
      match CommitRotation(w.table, c.key)
      case Committed(t) => w.(table := t, handshakeReplies := w.handshakeReplies + {c.key})
      case Aborted => w
  }

  function Switch(a: Agent, k: string): Agent
  {
    if a.candidate.Some? && a.candidate.value.key == k then Agent(a.candidate.value, None) else a
  }

  function Step(w: World, e: Event): World
  {
    match e
    case AskRotation(s) =>
      if s in Holds(w.agent) then w.(sent := w.sent + {RotateRequest(s)}) else w
    case AskHandshake(s) =>
      if s in Holds(w.agent) then w.(sent := w.sent + {HandshakeRequest(s)}) else w
    case Authenticate(r, now) =>
      if r !in w.sent then w
      else (match Resolve(w.table, w.agentId, r.signer.key, now)
            case None => w
            case Some(row) =>
              var k := r.signer.key;
              var c := if r.RotateRequest? then RotateContext(k, row) else HandshakeContext(k, row);
              if r.signer.secret == row.secret then w.(authenticated := w.authenticated + {c}) else w)
    case ServeRotation(c, newKey, secret) =>
      if c in w.authenticated && c.RotateContext? then Serve(w, c, newKey, secret) else w
    case ServeHandshake(c) =>
      if c in w.authenticated && c.HandshakeContext? then Shake(w, c) else w
    case DeliverRotation(h) =>
      if h !in w.rotateReplies then w
      else w.(rotateReplies := w.rotateReplies - {h}, received := w.received + {h.key},
              agent := w.agent.(candidate := Some(h)))
    case DeliverHandshake(k) =>
      if k in w.handshakeReplies then w.(agent := Switch(w.agent, k)) else w
  }

  function Run(w: World, events: seq<Event>): World
    decreases |events|
  {
    if events == [] then w else Run(Step(w, events[0]), events[1..])
  }

  /** One installed key, ACTIVE and without expiry, and an idle network. */
  ghost predicate Installed(w: World, serverId: string)
  {
    && w.agent.candidate == None
    && ExactlyOneActive(w.table, serverId, w.agent.primary.key)
    && w.table[w.agent.primary.key].supersedes == None && w.table[w.agent.primary.key].expires == None
    && w.table[w.agent.primary.key].agentId == w.agentId
    && w.table[w.agent.primary.key].secret == w.agent.primary.secret
    && Linked(w.table)
    && w.sent == {} && w.authenticated == {} && w.rotateReplies == {} && w.handshakeReplies == {}
    && w.received == {w.agent.primary.key}
  }

  /** The key the agent relies on: its candidate when it has one. */
  function Relied(a: Agent): Held
  {
    if a.candidate.Some? then a.candidate.value else a.primary
  }

  // ---------------------------------------------------------------- invariant

  ghost predicate MessagesKnown(w: World)
  {
    && w.received <= w.table.Keys && (forall h | h in Holds(w.agent) :: h.key in w.received)
    && (forall h | h in w.rotateReplies :: h.key in w.table && h.key !in w.received)
    && (forall r | r in w.sent :: r.signer.key in w.received)
    && (forall c | c in w.authenticated :: c.key in w.received && c.row.agentId == w.agentId)
  }

  /** The row of the key belongs to the agent, holds the same secret and does not expire. */
  ghost predicate Fits(w: World, h: Held)
  {
    && h.key in w.table && w.table[h.key].secret == h.secret
    && w.table[h.key].agentId == w.agentId && w.table[h.key].expires == None
  }

  /**
   * Replies in flight name untouched pending keys, these and the relied-on key fit their rows, and no received key
   * supersedes the relied-on key.
   */
  ghost predicate KeysIntact(w: World)
  {
    && Relied(w.agent).key in w.table
    && (forall h | h in w.rotateReplies :: Fits(w, h) && w.table[h.key].status == PENDING_ROTATION)
    && (forall k, p | k in w.table && w.table[k].supersedes == Some(p) ::
          p in w.table && forall h | h in w.rotateReplies :: h.key != p)
    && (forall k | k in w.table && k in w.received :: w.table[k].supersedes != Some(Relied(w.agent).key))
    && Fits(w, Relied(w.agent)) && Usable(w.table[Relied(w.agent).key].status)
  }

  lemma ServeKeeps(w: World, c: Context, newKey: string, secret: string)
    requires MessagesKnown(w) && KeysIntact(w) && c in w.authenticated
    ensures MessagesKnown(Serve(w, c, newKey, secret)) && KeysIntact(Serve(w, c, newKey, secret))
  {
    var w' := Serve(w, c, newKey, secret);
    if newKey !in w.table && w' != w {
      assert w'.table == w.table[newKey := PendingRow(c.row, c.key, secret)];
      assert c.key in w.received && forall h | h in w'.rotateReplies :: h.key != c.key;
    }
  }

  /** What a promotion keeps in the table; only the promoted key and its predecessor change their status. */
  lemma CommitPreserves(t: Table, n: string)
    requires CommitRotation(t, n).Committed?
    ensures var r := CommitRotation(t, n).table;
            && r.Keys == t.Keys
            && (forall k | k in t :: r[k].supersedes == t[k].supersedes && r[k].agentId == t[k].agentId
                                  && r[k].expires == t[k].expires && r[k].secret == t[k].secret)
            && (forall k | k in t && k != n && (n in t ==> t[n].supersedes != Some(k)) :: r[k] == t[k])
            && (n in t && t[n].status == PENDING_ROTATION ==> r[n].status == ACTIVE)
            && (n in t && t[n].status != PENDING_ROTATION ==> r == t)
  {
  }

  lemma ShakeKeepsKeys(w: World, n: string, t: Table)
    requires MessagesKnown(w) && KeysIntact(w) && n in w.received
    requires CommitRotation(w.table, n) == Committed(t)
    ensures KeysIntact(w.(table := t))
  {
    CommitPreserves(w.table, n);
    assert w.table[n].supersedes != Some(Relied(w.agent).key);
    forall h | h in w.rotateReplies ensures t[h.key] == w.table[h.key] {
      assert h.key !in w.received && w.table[n].supersedes != Some(h.key);
    }
  }

  lemma ShakeKeeps(w: World, c: Context)
    requires MessagesKnown(w) && KeysIntact(w) && c in w.authenticated
    ensures MessagesKnown(Shake(w, c)) && KeysIntact(Shake(w, c))
  {
    if c.row.status == PENDING_ROTATION && CommitRotation(w.table, c.key).Committed? {
      CommitPreserves(w.table, c.key);
      ShakeKeepsKeys(w, c.key, CommitRotation(w.table, c.key).table);
    }
  }

  lemma DeliverKeeps(w: World, h: Held)
    requires MessagesKnown(w) && KeysIntact(w)
    ensures MessagesKnown(Step(w, DeliverRotation(h))) && KeysIntact(Step(w, DeliverRotation(h)))
  {
    if h in w.rotateReplies {
      forall x | x in w.rotateReplies && x.key == h.key ensures x == h { assert Fits(w, x) && Fits(w, h); }
    }
  }

  lemma AskKeeps(w: World, e: Event)
    requires MessagesKnown(w) && KeysIntact(w) && (e.AskRotation? || e.AskHandshake? || e.Authenticate?)
    ensures MessagesKnown(Step(w, e)) && KeysIntact(Step(w, e))
  {
    var w' := Step(w, e);
    assert w'.table == w.table && w'.agent == w.agent && w'.received == w.received;
    assert w'.rotateReplies == w.rotateReplies && w'.agentId == w.agentId;
    assert KeysIntact(w');
  }

  lemma SwitchKeeps(w: World, k: string)
    requires MessagesKnown(w) && KeysIntact(w)
    ensures MessagesKnown(Step(w, DeliverHandshake(k))) && KeysIntact(Step(w, DeliverHandshake(k)))
  {
    var a := Switch(w.agent, k);
    assert Relied(a) == Relied(w.agent) && Holds(a) <= Holds(w.agent);
  }

  lemma RequestKeeps(w: World, e: Event)
    requires MessagesKnown(w) && KeysIntact(w) && (e.ServeRotation? || e.ServeHandshake?)
    ensures MessagesKnown(Step(w, e)) && KeysIntact(Step(w, e))
  {
    if e.context in w.authenticated {
      if e.ServeRotation? { ServeKeeps(w, e.context, e.newKey, e.secret); } else { ShakeKeeps(w, e.context); }
    }
  }

  lemma StepKeeps(w: World, e: Event)
    requires MessagesKnown(w) && KeysIntact(w)
    ensures MessagesKnown(Step(w, e)) && KeysIntact(Step(w, e))
  {
    match e
    case DeliverRotation(h) => DeliverKeeps(w, h);
    case DeliverHandshake(k) => SwitchKeeps(w, k);
    case ServeRotation(_, _, _) => RequestKeeps(w, e);
    case ServeHandshake(_) => RequestKeeps(w, e);
    case _ => AskKeeps(w, e);
  }

  lemma {:induction false} RunKeeps(w: World, events: seq<Event>)
    requires MessagesKnown(w) && KeysIntact(w)
    ensures MessagesKnown(Run(w, events)) && KeysIntact(Run(w, events))
    decreases |events|
  {
    if events != [] {
      StepKeeps(w, events[0]);
      RunKeeps(Step(w, events[0]), events[1..]);
    }
  }

  ghost predicate HoldsAcceptedKey(w: World, now: int)
  {
    exists h | h in Holds(w.agent) ::
      Resolve(w.table, w.agentId, h.key, now).Some? && w.table[h.key].secret == h.secret
  }

  /** In every reachable state, at any time, the agent holds an accepted key together with the secret of its row. */
  lemma AgentNeverLockedOut(w: World, serverId: string, events: seq<Event>, now: int)
    requires Installed(w, serverId)
    ensures HoldsAcceptedKey(Run(w, events), now)
  {
    RunKeeps(w, events);
    var r := Run(w, events);
    assert Relied(r.agent) in Holds(r.agent) && Resolve(r.table, r.agentId, Relied(r.agent).key, now).Some?;
  }

  // ------------------------------------------------------ when the agent switches

  /** The key is known and no longer waits for its handshake. */
  ghost predicate Promoted(t: Table, k: string) { k in t && t[k].status != PENDING_ROTATION }

  /** The old key of the agent, answered handshakes and contexts read as such are all of promoted keys. */
  ghost predicate SwitchesInOrder(w: World)
  {
    && Promoted(w.table, w.agent.primary.key)
    && (forall k | k in w.handshakeReplies :: Promoted(w.table, k))
    && (forall c | c in w.authenticated :: c.key in w.table)
    && (forall c | c in w.authenticated && c.row.status != PENDING_ROTATION :: Promoted(w.table, c.key))
  }

  lemma IssueKeepsPromoted(t: Table, n: string, row: Row)
    ensures forall k | Promoted(t, k) :: Promoted(After(Issue(t, n, row), t), k)
    ensures t.Keys <= After(Issue(t, n, row), t).Keys
  {
  }

  lemma CommitKeepsPromoted(t: Table, n: string)
    requires n in t && CommitRotation(t, n).Committed?
    ensures var r := CommitRotation(t, n).table;
            r.Keys == t.Keys && Promoted(r, n) && forall k | Promoted(t, k) :: Promoted(r, k)
  {
  }

  lemma ServingKeepsOrder(w: World, e: Event)
    requires SwitchesInOrder(w) && (e.ServeRotation? || e.ServeHandshake?)
    ensures SwitchesInOrder(Step(w, e))
  {
    var c := e.context;
    if c in w.authenticated {
      if e.ServeRotation? {
        IssueKeepsPromoted(w.table, e.newKey, PendingRow(c.row, c.key, e.secret));
      } else if c.row.status == PENDING_ROTATION && CommitRotation(w.table, c.key).Committed? {
        CommitKeepsPromoted(w.table, c.key);
      }
    }
  }

  lemma {:induction false} RunKeepsOrder(w: World, events: seq<Event>)
    requires SwitchesInOrder(w)
    ensures SwitchesInOrder(Run(w, events))
    decreases |events|
  {
    if events != [] {
      var e := events[0];
      if e.ServeRotation? || e.ServeHandshake? { ServingKeepsOrder(w, e); }
      RunKeepsOrder(Step(w, e), events[1..]);
    }
  }

  /** In every reachable state the agent has given up an old key only for one that the platform had promoted. */
  lemma SwitchesAfterPromotion(w: World, serverId: string, events: seq<Event>)
    requires Installed(w, serverId)
    ensures Promoted(Run(w, events).table, Run(w, events).agent.primary.key)
  {
    RunKeepsOrder(w, events);
  }

  /** A handshake is answered unless it is for a pending key whose promotion aborts; the answer makes it the old key. */
  lemma HandshakeAnswered(w: World, c: Context)
    requires c in w.authenticated && c.HandshakeContext? && c.key !in w.handshakeReplies
    ensures var r := Step(w, ServeHandshake(c));
            && (c.key in r.handshakeReplies
                <==> c.row.status != PENDING_ROTATION || CommitRotation(w.table, c.key).Committed?)
            && (c.key in r.handshakeReplies && w.agent.candidate.Some? && w.agent.candidate.value.key == c.key ==>
                  Step(r, DeliverHandshake(c.key)).agent == Agent(w.agent.candidate.value, None))
  {
  }

  // --------------------------------------------------- which handshakes commit

  /** The row that an authenticated request carries belongs to the server of its key. */
  ghost predicate ContextsFit(w: World)
  {
    forall c | c in w.authenticated :: c.key in w.table && w.table[c.key].serverId == c.row.serverId
  }

  /** What one step means for the table. */
  function OpOf(w: World, e: Event): Option<Op>
  {
    match e
    case ServeRotation(c, newKey, secret) =>
      if c in w.authenticated && c.RotateContext? then Some(Begin(c.row, c.key, newKey, secret)) else None
    case ServeHandshake(c) =>
      if c in w.authenticated && c.HandshakeContext? && c.row.status == PENDING_ROTATION
      then Some(Promotion(c.key)) else None
    case _ => None
  }

  lemma StepOnTable(w: World, e: Event)
    ensures Step(w, e).table == if OpOf(w, e).Some? then Apply(w.table, OpOf(w, e).value) else w.table
  {
  }

  lemma StepKeepsOneActive(w: World, e: Event, serverId: string, k: string) returns (k': string)
    requires ExactlyOneActive(w.table, serverId, k) && Linked(w.table) && ContextsFit(w)
    ensures ExactlyOneActive(Step(w, e).table, serverId, k') && Linked(Step(w, e).table)
    ensures ContextsFit(Step(w, e))
  {
    StepOnTable(w, e);
    k' := k;
    if OpOf(w, e).Some? { k' := RotationStep(w.table, OpOf(w, e).value, serverId, k); }
  }

  lemma {:induction false} RunKeepsOneActive(w: World, events: seq<Event>, serverId: string, k: string)
    returns (k': string)
    requires ExactlyOneActive(w.table, serverId, k) && Linked(w.table) && ContextsFit(w)
    ensures ExactlyOneActive(Run(w, events).table, serverId, k') && Linked(Run(w, events).table)
    decreases |events|
  {
    k' := k;
    if events != [] {
      k' := StepKeepsOneActive(w, events[0], serverId, k);
      k' := RunKeepsOneActive(Step(w, events[0]), events[1..], serverId, k');
    }
  }

  /**
   * In every reachable state the handshake of a pending key of the server commits if and only if its predecessor is
   * the ACTIVE key of the server.
   */
  lemma HandshakeCommitsExactly(w: World, serverId: string, events: seq<Event>, n: string)
    requires Installed(w, serverId)
    requires var t := Run(w, events).table; n in t && t[n].serverId == serverId && t[n].status == PENDING_ROTATION
    ensures var t := Run(w, events).table;
            CommitRotation(t, n).Committed?
            <==> t[n].supersedes.Some? && t[n].supersedes.value in t && t[t[n].supersedes.value].status == ACTIVE
  {
    var active := RunKeepsOneActive(w, events, serverId, w.agent.primary.key);
    PromotionExact(Run(w, events).table, n);
  }

  // ------------------------------------------------------------------ a limit

  /** A server on which key `a` is installed for the agent of `row`. */
  function Start(a: string, row: Row): World
  {
    World(map[a := row], row.agentId, {}, {}, {}, {}, Agent(Held(a, row.secret), None), {a})
  }

  lemma {:induction false} Unroll(w: World, a: seq<Event>, b: seq<Event>)
    ensures Run(w, a + b) == Run(Run(w, a), b)
    decreases |a|
  {
    if a == [] {
      assert a + b == b;
    } else {
      assert (a + b)[0] == a[0] && (a + b)[1..] == a[1..] + b;
      Unroll(Step(w, a[0]), a[1..], b);
    }
  }

  lemma Then(w: World, events: seq<Event>, e: Event) returns (longer: seq<Event>)
    ensures Run(w, longer) == Step(Run(w, events), e)
  {
    longer := events + [e];
    Unroll(w, events, [e]);
    assert Run(Step(Run(w, events), e), []) == Step(Run(w, events), e);
  }

  /** One served rotation adds one pending successor and one reply. */
  lemma ServeOnce(w: World, a: string, row: Row, newKey: string, secret: string)
    requires newKey !in w.table && RotateContext(a, row) in w.authenticated && OneActive(w.table)
    ensures Step(w, ServeRotation(RotateContext(a, row), newKey, secret))
         == w.(table := w.table[newKey := PendingRow(row, a, secret)],
               rotateReplies := w.rotateReplies + {Held(newKey, secret)})
    ensures OneActive(w.table[newKey := PendingRow(row, a, secret)])
  {
  }

  /** The agent asks for a rotation with its key, and the request is authenticated. */
  lemma AskOnce(a: string, row: Row) returns (events: seq<Event>)
    requires row.status == ACTIVE && row.expires == None
    ensures Run(Start(a, row), events)
         == Start(a, row).(sent := {RotateRequest(Held(a, row.secret))}, authenticated := {RotateContext(a, row)})
  {
    var w := Start(a, row);
    assert Run(w, []) == w;
    events := Then(w, [], AskRotation(Held(a, row.secret)));
    events := Then(w, events, Authenticate(RotateRequest(Held(a, row.secret)), 0));
  }

  /** One key is rotated twice: both candidates are pending and both replies are on their way. */
  lemma TwoReplies(a: string, b: string, c: string, row: Row, s1: string, s2: string) returns (events: seq<Event>)
    requires a != b && b != c && a != c
    requires row.status == ACTIVE && row.supersedes == None && row.expires == None
    ensures Run(Start(a, row), events) == Start(a, row).(
              table := map[a := row, b := PendingRow(row, a, s1), c := PendingRow(row, a, s2)],
              sent := {RotateRequest(Held(a, row.secret))}, authenticated := {RotateContext(a, row)},
              rotateReplies := {Held(b, s1), Held(c, s2)})
  {
    var asked := AskOnce(a, row);
    var w1 := Run(Start(a, row), asked);
    events := Then(Start(a, row), asked, ServeRotation(RotateContext(a, row), b, s1));
    ServeOnce(w1, a, row, b, s1);
    var w2 := Run(Start(a, row), events);
    events := Then(Start(a, row), events, ServeRotation(RotateContext(a, row), c, s2));
    ServeOnce(w2, a, row, c, s2);
    assert {} + {Held(b, s1)} + {Held(c, s2)} == {Held(b, s1), Held(c, s2)};
  }

  /** The first reply is delivered and the agent asks for a handshake with that candidate. */
  lemma FirstCandidate(w: World, a: Held, b: Held, c: Held) returns (events: seq<Event>)
    requires a != b && b != c && a != c && w.rotateReplies == {b, c}
    requires w.agent == Agent(a, None) && w.handshakeReplies == {}
    requires Fits(w, b) && w.table[b.key].status == PENDING_ROTATION
    ensures var r := Run(w, events);
            && r.table == w.table && r.agent == Agent(a, Some(b)) && r.rotateReplies == {c}
            && HandshakeContext(b.key, w.table[b.key]) in r.authenticated && r.agentId == w.agentId
            && r.handshakeReplies == {}
  {
    assert Run(w, []) == w;
    events := Then(w, [], DeliverRotation(b));
    events := Then(w, events, AskHandshake(b));
    assert HandshakeRequest(b) in Run(w, events).sent;
    events := Then(w, events, Authenticate(HandshakeRequest(b), 0));
  }

  /** Two pending successors of one key: promoting the first makes promoting the second impossible. */
  lemma SecondPromotionAborts(t: Table, a: string, b: string, c: string) returns (promoted: Table)
    requires a != b && b != c && a != c && t.Keys == {a, b, c}
    requires t[a].status == ACTIVE && t[a].supersedes == None
    requires t[b].status == PENDING_ROTATION && t[b].supersedes == Some(a)
    requires t[c].status == PENDING_ROTATION && t[c].supersedes == Some(a)
    requires t[a].serverId == t[b].serverId == t[c].serverId
    ensures promoted == t[a := t[a].(status := SUPERSEDED)][b := t[b].(status := ACTIVE)]
    ensures CommitRotation(t, b) == Committed(promoted) && CommitRotation(promoted, c) == Aborted
  {
    PromotionExact(t, b);
    promoted := SetStatus(Retired(t, b), b, ACTIVE);
    RetiredKeepsIndex(t, b);
    assert OneActive(t) && OnlyPredecessorActive(t, b);
    PromotionExact(promoted, c);
    assert !OnlyPredecessorActive(promoted, c) by {
      assert promoted[b].status == ACTIVE && promoted[c].supersedes != Some(b);
    }
  }

  /** The handshake of the first candidate is served, and the reply with the second one arrives late. */
  lemma LateReply(w: World, b: string, c: Held, promoted: Table) returns (events: seq<Event>)
    requires b in w.table && HandshakeContext(b, w.table[b]) in w.authenticated
    requires w.table[b].status == PENDING_ROTATION && CommitRotation(w.table, b) == Committed(promoted)
    requires c in w.rotateReplies
    ensures var r := Run(w, events);
            && r.table == promoted && r.agent == w.agent.(candidate := Some(c)) && r.agentId == w.agentId
            && b in r.handshakeReplies
  {
    assert Run(w, []) == w;
    events := Then(w, [], ServeHandshake(HandshakeContext(b, w.table[b])));
    events := Then(w, events, DeliverRotation(c));
  }

  /**
   * Holding an accepted key is not enough to finish a rotation: when two rotation replies arrive around one
   * handshake, the agent's only accepted key is a candidate whose promotion aborts, and the late reply to
   * the handshake that did succeed is of no use to it.
   */
  lemma CandidateCanBeStranded(a: string, b: string, c: string, row: Row, s1: string, s2: string)
    returns (events: seq<Event>)
    requires a != b && b != c && a != c
    requires row.status == ACTIVE && row.supersedes == None && row.expires == None
    ensures
      var r := Run(Start(a, row), events);
      && Installed(Start(a, row), row.serverId)
      && Holds(r.agent) == {Held(a, row.secret), Held(c, s2)}
      && (forall now :: Resolve(r.table, r.agentId, a, now) == None && Resolve(r.table, r.agentId, c, now).Some?)
      && CommitRotation(r.table, c) == Aborted
      && b in r.handshakeReplies && Step(r, DeliverHandshake(b)).agent == r.agent
  {
    var w0 := Start(a, row);
    var first := TwoReplies(a, b, c, row, s1, s2);
    var w1 := Run(w0, first);
    var second := FirstCandidate(w1, Held(a, row.secret), Held(b, s1), Held(c, s2));
    var w2 := Run(w1, second);
    var promoted := SecondPromotionAborts(w2.table, a, b, c);
    var third := LateReply(w2, b, Held(c, s2), promoted);
    Unroll(w0, first, second);
    Unroll(w0, first + second, third);
    events := first + second + third;
  }
}
