/** Row-level security over transactions on a pool of reused connections. */
module Db {
  import opened Text

  // ---------------------------------------------------------- rows and policies

  /** Every table has the tenant policy; three groups have one more policy each. */
  datatype Table = TenantOnly | Memberships | ApiCredentials | PlatformVisible

  datatype Key = Key(table: Table, org: string, id: string)
  datatype Row = Row(user: string, data: string)
  type Rows = map<Key, Row>

  /** The settings app.organization_id, app.user_id, app.agent_lookup and app.platform_admin. */
  datatype Settings = Settings(org: Option<string>, user: Option<string>, agentLookup: bool, platformAdmin: bool)

  const CLEAN: Settings := Settings(None, None, false, false)

  predicate TenantPolicy(s: Settings, k: Key) { s.org == Some(k.org) }

  predicate PlatformPolicy(s: Settings, k: Key) { k.table == PlatformVisible && s.platformAdmin }

  /** Permissive policies are combined by OR. */
  predicate MayRead(s: Settings, k: Key, r: Row)
  {
    || TenantPolicy(s, k) || PlatformPolicy(s, k)
    || (k.table == Memberships && s.user == Some(r.user))
    || (k.table == ApiCredentials && s.org.None? && s.agentLookup)
  }

  predicate MayWrite(s: Settings, k: Key) { TenantPolicy(s, k) || PlatformPolicy(s, k) }

  // ----------------------------------------------------------------- statements

  datatype Action =
    | Select(where: (Key, Row) -> bool)
    | Insert(key: Key, row: Row)
    | Update(where: (Key, Row) -> bool, change: Row -> Row)
    | Delete(where: (Key, Row) -> bool)
    | Finish(ok: bool)

  datatype Answer = Found(rows: Rows) | Affected(count: nat) | Denied

  /** Uncommitted writes of a transaction; None stands for a deleted row. */
  type Overlay = map<Key, Option<Row>>

  function Current(db: Rows, o: Overlay): Rows
  {
    map k | k in db.Keys + o.Keys && (k in o ==> o[k].Some?) :: if k in o then o[k].value else db[k]
  }

  function Visible(db: Rows, o: Overlay, s: Settings, where: (Key, Row) -> bool): Rows
  {
    var now := Current(db, o);
    map k | k in now && MayRead(s, k, now[k]) && where(k, now[k]) :: now[k]
  }

  function Targets(db: Rows, o: Overlay, s: Settings, where: (Key, Row) -> bool): Rows
  {
    var now := Current(db, o);
    map k | k in now && MayWrite(s, k) && where(k, now[k]) :: now[k]
  }

  function Changed(targets: Rows, change: Row -> Row): Overlay
  {
    map k | k in targets :: Some(change(targets[k]))
  }

  function Deleted(targets: Rows): Overlay
  {
    map k | k in targets :: Option<Row>.None
  }

  /** A row that the policies do not let in, or whose key is taken, makes the statement fail. */
  function Exec(db: Rows, o: Overlay, s: Settings, a: Action): (Overlay, Answer)
    requires !a.Finish?
  {
    match a
    case Select(where) => (o, Found(Visible(db, o, s, where)))
    case Insert(k, r) =>
      if !MayWrite(s, k) || k in Current(db, o) then (o, Denied) else (o[k := Some(r)], Affected(1))
    case Update(where, change) =>
      var targets := Targets(db, o, s, where);
      (o + Changed(targets, change), Affected(|targets|))
    case Delete(where) =>
      var targets := Targets(db, o, s, where);
      (o + Deleted(targets), Affected(|targets|))
  }

  // --------------------------------------------------------------- transactions

  datatype Kind = Tenant(org: string) | User(user: string) | AgentLookup | PlatformAdmin

  /** What a caller does with the connection: the next statement depends on the answers so far. */
  datatype Program = Program(decide: seq<Answer> -> Action, limit: nat)

  predicate IsIdChar(c: char) { '0' <= c <= '9' || 'a' <= c <= 'z' }

  predicate IsId(s: string, prefix: string)
  {
    |s| == |prefix| + 26 && prefix <= s && forall c | c in s[|prefix|..] :: IsIdChar(c)
  }

  /** Identifiers are checked before they are written into the statement that sets them. */
  predicate Conforms(kind: Kind)
  {
    match kind
    case Tenant(org) => IsId(org, "org_")
    case User(user) => IsId(user, "usr_")
    case _ => true
  }

  function SetLocal(s: Settings, kind: Kind): Settings
  {
    match kind
    case Tenant(org) => s.(org := Some(org))
    case User(user) => s.(user := Some(user))
    case AgentLookup => s.(agentLookup := true)
    case PlatformAdmin => s.(platformAdmin := true)
  }

  datatype Outcome = Committed | RolledBack | Refused

  datatype Result = Result(kind: Kind, answers: seq<Answer>, outcome: Outcome)

  datatype Tx = Tx(kind: Kind, settings: Settings, overlay: Overlay, answers: seq<Answer>, program: Program)

  datatype Next = Going(tx: Tx) | Ended(db: Rows, result: Result)

  function Merge(db: Rows, o: Overlay): Rows { Current(db, o) }

  /** One statement; an error, or a program that never finishes, ends in ROLLBACK. */
  function StepTx(db: Rows, tx: Tx): Next
  {
    if |tx.answers| >= tx.program.limit then Ended(db, Result(tx.kind, tx.answers, RolledBack))
    else
      var a := tx.program.decide(tx.answers);
      if a.Finish? then
        if a.ok then Ended(Merge(db, tx.overlay), Result(tx.kind, tx.answers, Committed))
        else Ended(db, Result(tx.kind, tx.answers, RolledBack))
      else
        var (o, answer) := Exec(db, tx.overlay, tx.settings, a);
        if answer.Denied? then Ended(db, Result(tx.kind, tx.answers + [Denied], RolledBack))
        else Going(tx.(overlay := o, answers := tx.answers + [answer]))
  }

  /** A transaction that nothing interrupts. */
  function Complete(db: Rows, tx: Tx): (Rows, Result)
    decreases tx.program.limit - |tx.answers|
  {
    match StepTx(db, tx)
    case Going(tx') => Complete(db, tx')
    case Ended(db', result) => (db', result)
  }

  function Alone(db: Rows, kind: Kind, program: Program): (Rows, Result)
  {
    if !Conforms(kind) then (db, Result(kind, [], Refused))
    else Complete(db, Tx(kind, SetLocal(CLEAN, kind), map[], [], program))
  }

  class Database {
    var rows: Rows

    constructor ()
      ensures rows == map[]
    {
      rows := map[];
    }
  }

  /** A connection of the pool: session settings live as long as it does, local ones until the transaction ends. */
  class PooledConnection {
    const db: Database
    var session: Settings
    var local: Option<Settings>
    var overlay: Overlay

    predicate Idle()
      reads this
    {
      session == CLEAN && local.None? && overlay == map[]
    }

    constructor (db: Database)
      ensures this.db == db && Idle()
      ensures session == Settings(None, None, false, false) && local == None && overlay == map[]
    {
      this.db := db;
      session, local, overlay := CLEAN, None, map[];
    }

    method Begin()
      requires local.None?
      modifies this
      ensures local == Some(session) && overlay == map[] && session == old(session)
    {
      local, overlay := Some(session), map[];
    }

    method SetLocalFor(kind: Kind)
      requires local.Some?
      modifies this`local
      ensures local == Some(SetLocal(old(local.value), kind))
    {
      match kind
      case Tenant(org) => local := Some(local.value.(org := Some(org)));
      case User(user) => local := Some(local.value.(user := Some(user)));
      case AgentLookup => local := Some(local.value.(agentLookup := true));
      case PlatformAdmin => local := Some(local.value.(platformAdmin := true));
    }

    method Query(a: Action) returns (answer: Answer)
      requires local.Some? && !a.Finish?
      modifies this`overlay
      ensures (overlay, answer) == Exec(db.rows, old(overlay), local.value, a)
    {
      var (o, r) := Exec(db.rows, overlay, local.value, a);
      overlay, answer := o, r;
    }

    method Commit()
      modifies this, db
      ensures db.rows == Merge(old(db.rows), old(overlay))
      ensures local.None? && overlay == map[] && session == old(session)
    {
      db.rows := Merge(db.rows, overlay);
      local, overlay := None, map[];
    }

    method Rollback()
      modifies this
      ensures local.None? && overlay == map[] && session == old(session)
    {
      local, overlay := None, map[];
    }

    /** withTenant, withUser, withAgentLookup, withPlatformAdmin: whatever happens, the connection goes back clean. */
    method With(kind: Kind, program: Program) returns (result: Result)
      requires Idle()
      modifies this, db
      ensures Idle() && session == Settings(None, None, false, false) && local == None && overlay == map[]
      ensures (db.rows, result) == Alone(old(db.rows), kind, program)
    {
      if !Conforms(kind) {
        return Result(kind, [], Refused);
      }
      Begin();
      SetLocalFor(kind);
      var answers: seq<Answer> := [];
      while |answers| < program.limit
        invariant session == CLEAN && local == Some(SetLocal(CLEAN, kind)) && db.rows == old(db.rows)
        invariant |answers| <= program.limit
        invariant Complete(db.rows, Tx(kind, SetLocal(CLEAN, kind), overlay, answers, program))
               == Alone(old(db.rows), kind, program)
        decreases program.limit - |answers|
      {
        var a := program.decide(answers);
        if a.Finish? {
          if a.ok {
            Commit();
            return Result(kind, answers, Committed);
          }
          Rollback();
          return Result(kind, answers, RolledBack);
        }
        var answer := Query(a);
        answers := answers + [answer];
        if answer.Denied? {
          Rollback();
          return Result(kind, answers, RolledBack);
        }
      }
      Rollback();
      return Result(kind, answers, RolledBack);
    }
  }

  // ------------------------------------------------------------ interleaved runs

  datatype Conn = Conn(session: Settings, tx: Option<Tx>)

  datatype World = World(db: Rows, pool: seq<Conn>, results: seq<Result>)

  datatype Event = Open(c: nat, kind: Kind, program: Program) | Step(c: nat)

  /** A connection in use is not handed out: the caller waits, and nothing happens. */
  function Apply(w: World, e: Event): World
  {
    match e
    case Open(c, kind, program) =>
      if !Conforms(kind) then w.(results := w.results + [Result(kind, [], Refused)])
      else if c >= |w.pool| || w.pool[c].tx.Some? then w
      else
        var session := w.pool[c].session;
        w.(pool := w.pool[c := Conn(session, Some(Tx(kind, SetLocal(session, kind), map[], [], program)))])
    case Step(c) =>
      if c >= |w.pool| || w.pool[c].tx.None? then w
      else
        match StepTx(w.db, w.pool[c].tx.value)
        case Going(tx) => w.(pool := w.pool[c := w.pool[c].(tx := Some(tx))])
        case Ended(db, result) =>
          World(db, w.pool[c := w.pool[c].(tx := None)], w.results + [result])
  }

  function Run(w: World, events: seq<Event>): World
    decreases |events|
  {
    if events == [] then w else Run(Apply(w, events[0]), events[1..])
  }

  function Steps(c: nat, n: nat): seq<Event> { seq(n, _ => Step(c)) }

  lemma {:induction false} StepsComplete(w: World, c: nat) returns (n: nat)
    requires c < |w.pool| && w.pool[c].tx.Some?
    ensures var done := Complete(w.db, w.pool[c].tx.value);
            var w' := Run(w, Steps(c, n));
            && w'.db == done.0 && w'.results == w.results + [done.1]
            && w'.pool == w.pool[c := w.pool[c].(tx := None)]
    decreases w.pool[c].tx.value.program.limit - |w.pool[c].tx.value.answers|
  {
    var w1 := Apply(w, Step(c));
    match StepTx(w.db, w.pool[c].tx.value)
    case Going(tx) =>
      var m := StepsComplete(w1, c);
      n := m + 1;
      assert Steps(c, n)[0] == Step(c) && Steps(c, n)[1..] == Steps(c, m);
      assert w1.pool[c := w1.pool[c].(tx := None)] == w.pool[c := w.pool[c].(tx := None)];
    case Ended(db, result) =>
      n := 1;
      assert Steps(c, 1)[0] == Step(c) && Steps(c, 1)[1..] == [];
  }

  /** A transaction whose statements nothing separates does what the uninterrupted one does; a refused one nothing. */
  lemma UninterruptedIsAlone(w: World, c: nat, kind: Kind, program: Program) returns (n: nat)
    requires c < |w.pool| && w.pool[c] == Conn(CLEAN, None)
    ensures var w' := Run(w, [Open(c, kind, program)] + Steps(c, n));
            && w'.pool == w.pool
            && w'.db == Alone(w.db, kind, program).0
            && w'.results == w.results + [Alone(w.db, kind, program).1]
  {
    var begun := Apply(w, Open(c, kind, program));
    n := 0;
    if Conforms(kind) { n := StepsComplete(begun, c); }
    var events := [Open(c, kind, program)] + Steps(c, n);
    assert events[0] == Open(c, kind, program) && events[1..] == Steps(c, n);
    assert Steps(c, 0) == [];
    assert begun.pool[c := begun.pool[c].(tx := None)] == w.pool;
  }
}
