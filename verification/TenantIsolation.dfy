/** What one tenant sees and keeps does not depend on the transactions of the others. */
module TenantIsolation {
  import opened Text
  import opened Db

  /** The rows of one tenant. */
  function Slice(db: Rows, t: string): Rows
  {
    map k | k in db && k.org == t :: db[k]
  }

  function ResultsOf(results: seq<Result>, t: string): seq<Result>
  {
    if results == [] then []
    else
      var last := results[|results| - 1];
      ResultsOf(results[..|results| - 1], t) + if last.kind == Tenant(t) then [last] else []
  }

  lemma ResultsAppend(results: seq<Result>, r: Result, t: string)
    ensures ResultsOf(results + [r], t) == ResultsOf(results, t) + if r.kind == Tenant(t) then [r] else []
  {
    assert (results + [r])[..|results|] == results;
  }

  /** A transaction in flight: local settings of its own kind only, and writes that its policies let through. */
  ghost predicate TxOk(tx: Tx)
  {
    tx.settings == SetLocal(CLEAN, tx.kind) && forall k | k in tx.overlay :: MayWrite(tx.settings, k)
  }

  ghost predicate ConnOk(conn: Conn) { conn.session == CLEAN && (conn.tx.Some? ==> TxOk(conn.tx.value)) }

  ghost predicate PoolOk(pool: seq<Conn>) { forall c | 0 <= c < |pool| :: ConnOk(pool[c]) }

  predicate Serves(conn: Conn, t: string) { conn.tx.Some? && conn.tx.value.kind == Tenant(t) }

  predicate Conducts(w: World, c: nat, t: string) { c < |w.pool| && Serves(w.pool[c], t) }

  /** Whether the event takes effect for the tenant: it opens or continues one of its transactions. */
  predicate Mine(w: World, e: Event, t: string)
  {
    match e
    case Open(c, kind, _) =>
      kind == Tenant(t) && (!Conforms(kind) || (c < |w.pool| && w.pool[c].tx.None?))
    case Step(c) => Conducts(w, c, t)
  }

  /** The run with every transaction removed but those of the tenant. */
  function Only(w: World, events: seq<Event>, t: string): seq<Event>
    decreases |events|
  {
    if events == [] then []
    else (if Mine(w, events[0], t) then [events[0]] else []) + Only(Apply(w, events[0]), events[1..], t)
  }

  // ------------------------------------------------------------- one transaction

  /** The writes of a transaction to the rows of one tenant. */
  function Part(o: Overlay, t: string): Overlay
  {
    map k | k in o && k.org == t :: o[k]
  }

  /** Only a platform administrator's settings would let a transaction of another kind write into the slice. */
  lemma OverlayOfOthers(tx: Tx, t: string, k: Key)
    requires TxOk(tx) && tx.kind != Tenant(t) && !tx.kind.PlatformAdmin? && k in tx.overlay
    ensures k.org != t
  {
  }

  lemma CurrentAgrees(db: Rows, db': Rows, o: Overlay, t: string, k: Key)
    requires Slice(db, t) == Slice(db', t) && k.org == t
    ensures k in Current(db, o) <==> k in Current(db', o)
    ensures k in Current(db, o) ==> Current(db, o)[k] == Current(db', o)[k]
  {
    assert k in db <==> k in Slice(db, t);
    assert k in db' <==> k in Slice(db', t);
    assert k in db ==> db[k] == Slice(db, t)[k];
    assert k in db' ==> db'[k] == Slice(db', t)[k];
  }

  lemma VisibleAgrees(db: Rows, db': Rows, o: Overlay, t: string, where: (Key, Row) -> bool)
    requires Slice(db, t) == Slice(db', t)
    ensures var s := SetLocal(CLEAN, Tenant(t)); Visible(db, o, s, where) == Visible(db', o, s, where)
  {
    var s := SetLocal(CLEAN, Tenant(t));
    var a, b := Visible(db, o, s, where), Visible(db', o, s, where);
    forall k ensures (k in a <==> k in b) && (k in a ==> a[k] == b[k]) {
      if k.org == t { CurrentAgrees(db, db', o, t, k); }
    }
  }

  lemma TargetsAgree(db: Rows, db': Rows, o: Overlay, t: string, where: (Key, Row) -> bool)
    requires Slice(db, t) == Slice(db', t)
    ensures var s := SetLocal(CLEAN, Tenant(t)); Targets(db, o, s, where) == Targets(db', o, s, where)
  {
    var s := SetLocal(CLEAN, Tenant(t));
    var a, b := Targets(db, o, s, where), Targets(db', o, s, where);
    forall k ensures (k in a <==> k in b) && (k in a ==> a[k] == b[k]) {
      if k.org == t { CurrentAgrees(db, db', o, t, k); }
    }
  }

  /** A tenant's statement does and answers the same on two databases with the same slice. */
  lemma ExecAgrees(db: Rows, db': Rows, o: Overlay, t: string, a: Action)
    requires Slice(db, t) == Slice(db', t) && !a.Finish?
    ensures var s := SetLocal(CLEAN, Tenant(t)); Exec(db, o, s, a) == Exec(db', o, s, a)
  {
    match a
    case Select(where) => VisibleAgrees(db, db', o, t, where);
    case Insert(k, r) => if k.org == t { CurrentAgrees(db, db', o, t, k); }
    case Update(where, change) => TargetsAgree(db, db', o, t, where);
    case Delete(where) => TargetsAgree(db, db', o, t, where);
  }

  lemma MergeAgrees(db: Rows, db': Rows, o: Overlay, t: string)
    requires Slice(db, t) == Slice(db', t)
    ensures Slice(Merge(db, o), t) == Slice(Merge(db', o), t)
  {
    var a, b := Slice(Merge(db, o), t), Slice(Merge(db', o), t);
    forall k ensures (k in a <==> k in b) && (k in a ==> a[k] == b[k]) {
      if k.org == t { CurrentAgrees(db, db', o, t, k); }
    }
  }

  /** On the slice, merging all writes is merging the writes to the slice. */
  lemma MergeOfPart(db: Rows, db': Rows, o: Overlay, t: string)
    requires Slice(db, t) == Slice(db', t)
    ensures Slice(Merge(db, o), t) == Slice(Merge(db', Part(o, t)), t)
  {
    var a, b := Slice(Merge(db, o), t), Slice(Merge(db', Part(o, t)), t);
    forall k ensures (k in a <==> k in b) && (k in a ==> a[k] == b[k]) {
      if k.org == t { CurrentAgrees(db, db', o, t, k); }
    }
  }

  lemma MergeOfNothing(db: Rows)
    ensures Merge(db, map[]) == db
  {
  }

  lemma ExecKeepsOverlay(db: Rows, tx: Tx, a: Action)
    requires TxOk(tx) && !a.Finish?
    ensures forall k | k in Exec(db, tx.overlay, tx.settings, a).0 :: MayWrite(tx.settings, k)
  {
  }

  lemma StepKeepsTxOk(db: Rows, tx: Tx)
    requires TxOk(tx)
    ensures StepTx(db, tx).Going? ==> TxOk(StepTx(db, tx).tx) && StepTx(db, tx).tx.kind == tx.kind
    ensures StepTx(db, tx).Ended? ==> StepTx(db, tx).result.kind == tx.kind
  {
    if |tx.answers| < tx.program.limit {
      var a := tx.program.decide(tx.answers);
      if !a.Finish? { ExecKeepsOverlay(db, tx, a); }
    }
  }

  /** The next statement of the tenant, on two databases with the same slice. */
  lemma StepAgrees(db: Rows, db': Rows, tx: Tx, t: string)
    requires Slice(db, t) == Slice(db', t) && TxOk(tx) && tx.kind == Tenant(t)
    ensures StepTx(db, tx).Going? ==> StepTx(db', tx) == StepTx(db, tx)
    ensures StepTx(db, tx).Ended? ==>
              StepTx(db', tx).Ended? && StepTx(db', tx).result == StepTx(db, tx).result
              && Slice(StepTx(db', tx).db, t) == Slice(StepTx(db, tx).db, t)
  {
    if |tx.answers| < tx.program.limit {
      var a := tx.program.decide(tx.answers);
      if a.Finish? {
        MergeAgrees(db, db', tx.overlay, t);
      } else {
        ExecAgrees(db, db', tx.overlay, t, a);
      }
    }
  }

  /** The next statement of another tenant, a user or an agent look-up leaves the slice alone. */
  lemma StepOfOthers(db: Rows, tx: Tx, t: string)
    requires TxOk(tx) && tx.kind != Tenant(t) && !tx.kind.PlatformAdmin?
    ensures StepTx(db, tx).Ended? ==> Slice(StepTx(db, tx).db, t) == Slice(db, t)
  {
    forall k | k in tx.overlay ensures k.org != t { OverlayOfOthers(tx, t, k); }
    assert Part(tx.overlay, t) == map[];
    MergeOfPart(db, db, tx.overlay, t);
    MergeOfNothing(db);
  }

  /** What a platform administrator's COMMIT does to the slice is merge its writes to the slice. */
  lemma StepOfAdmin(db: Rows, db': Rows, tx: Tx, t: string)
    requires Slice(db, t) == Slice(db', t)
    ensures StepTx(db, tx).Ended? ==>
              Slice(StepTx(db, tx).db, t) == if StepTx(db, tx).result.outcome.Committed?
                                             then Slice(Merge(db', Part(tx.overlay, t)), t) else Slice(db', t)
  {
    MergeOfPart(db, db', tx.overlay, t);
  }

  // ------------------------------------------------------------------ simulation

  /** A connection is the same where the tenant has it, and unused where anybody else has it. */
  ghost predicate PoolsAlike(pool: seq<Conn>, pool': seq<Conn>, t: string)
  {
    && PoolOk(pool) && |pool| == |pool'|
    && forall c | 0 <= c < |pool| :: pool'[c] == if Serves(pool[c], t) then pool[c] else Conn(CLEAN, None)
  }

  ghost predicate Sim(w: World, w': World, t: string)
  {
    && Slice(w.db, t) == Slice(w'.db, t)
    && ResultsOf(w.results, t) == ResultsOf(w'.results, t)
    && PoolsAlike(w.pool, w'.pool, t)
  }

  lemma ChangeBoth(pool: seq<Conn>, pool': seq<Conn>, c: nat, conn: Conn, t: string)
    requires PoolsAlike(pool, pool', t) && c < |pool| && ConnOk(conn)
    requires Serves(conn, t) || conn.tx.None?
    ensures PoolsAlike(pool[c := conn], pool'[c := conn], t)
  {
  }

  lemma ChangeOne(pool: seq<Conn>, pool': seq<Conn>, c: nat, conn: Conn, t: string)
    requires PoolsAlike(pool, pool', t) && c < |pool| && ConnOk(conn)
    requires !Serves(pool[c], t) && !Serves(conn, t)
    ensures PoolsAlike(pool[c := conn], pool', t)
  {
  }

  lemma MineStepsAlike(w: World, w': World, c: nat, t: string)
    requires Sim(w, w', t) && Conducts(w, c, t)
    ensures Sim(Apply(w, Step(c)), Apply(w', Step(c)), t)
  {
    assert ConnOk(w.pool[c]) && w'.pool[c] == w.pool[c];
    var tx := w.pool[c].tx.value;
    StepAgrees(w.db, w'.db, tx, t);
    StepKeepsTxOk(w.db, tx);
    match StepTx(w.db, tx)
    case Going(next) => ChangeBoth(w.pool, w'.pool, c, w.pool[c].(tx := Some(next)), t);
    case Ended(db, result) =>
      ChangeBoth(w.pool, w'.pool, c, w.pool[c].(tx := None), t);
      ResultsAppend(w.results, result, t);
      ResultsAppend(w'.results, result, t);
  }

  lemma MineOpensAlike(w: World, w': World, e: Event, t: string)
    requires Sim(w, w', t) && e.Open? && Mine(w, e, t)
    ensures Sim(Apply(w, e), Apply(w', e), t)
  {
    if Conforms(e.kind) {
      assert ConnOk(w.pool[e.c]) && w'.pool[e.c] == Conn(CLEAN, None) == w.pool[e.c];
      var tx := Tx(e.kind, SetLocal(CLEAN, e.kind), map[], [], e.program);
      ChangeBoth(w.pool, w'.pool, e.c, Conn(CLEAN, Some(tx)), t);
    } else {
      ResultsAppend(w.results, Result(e.kind, [], Refused), t);
      ResultsAppend(w'.results, Result(e.kind, [], Refused), t);
    }
  }

  /** What reaches the tenant: its own events, and the rows of it that an administrator's COMMIT writes. */
  datatype Own = Act(event: Event) | Patch(overlay: Overlay)

  function ApplyOwn(w: World, o: Own): World
  {
    match o
    case Act(e) => Apply(w, e)
    case Patch(overlay) => w.(db := Merge(w.db, overlay))
  }

  function RunOwn(w: World, steps: seq<Own>): World
    decreases |steps|
  {
    if steps == [] then w else RunOwn(ApplyOwn(w, steps[0]), steps[1..])
  }

  predicate AdminCommits(w: World, e: Event)
  {
    && e.Step? && e.c < |w.pool| && w.pool[e.c].tx.Some? && w.pool[e.c].tx.value.kind.PlatformAdmin?
    && StepTx(w.db, w.pool[e.c].tx.value).Ended? && StepTx(w.db, w.pool[e.c].tx.value).result.outcome.Committed?
  }

  function FeltAt(w: World, e: Event, t: string): seq<Own>
  {
    if Mine(w, e, t) then [Act(e)]
    else if AdminCommits(w, e) then [Patch(Part(w.pool[e.c].tx.value.overlay, t))]
    else []
  }

  function Felt(w: World, events: seq<Event>, t: string): seq<Own>
    decreases |events|
  {
    if events == [] then [] else FeltAt(w, events[0], t) + Felt(Apply(w, events[0]), events[1..], t)
  }

  lemma OthersStep(w: World, w': World, c: nat, t: string)
    requires Sim(w, w', t) && !Conducts(w, c, t) && !AdminCommits(w, Step(c))
    ensures Sim(Apply(w, Step(c)), w', t)
  {
    if c < |w.pool| && w.pool[c].tx.Some? {
      assert ConnOk(w.pool[c]);
      var tx := w.pool[c].tx.value;
      if tx.kind.PlatformAdmin? { StepOfAdmin(w.db, w.db, tx, t); } else { StepOfOthers(w.db, tx, t); }
      StepKeepsTxOk(w.db, tx);
      match StepTx(w.db, tx)
      case Going(next) => ChangeOne(w.pool, w'.pool, c, w.pool[c].(tx := Some(next)), t);
      case Ended(db, result) =>
        ChangeOne(w.pool, w'.pool, c, w.pool[c].(tx := None), t);
        ResultsAppend(w.results, result, t);
    }
  }

  lemma AdminCommitIsPatch(w: World, w': World, c: nat, t: string)
    requires Sim(w, w', t) && AdminCommits(w, Step(c))
    ensures Sim(Apply(w, Step(c)), ApplyOwn(w', Patch(Part(w.pool[c].tx.value.overlay, t))), t)
  {
    assert ConnOk(w.pool[c]);
    var tx := w.pool[c].tx.value;
    StepOfAdmin(w.db, w'.db, tx, t);
    StepKeepsTxOk(w.db, tx);
    ChangeOne(w.pool, w'.pool, c, w.pool[c].(tx := None), t);
    ResultsAppend(w.results, StepTx(w.db, tx).result, t);
  }

  lemma OthersOpen(w: World, w': World, e: Event, t: string)
    requires Sim(w, w', t) && e.Open? && !Mine(w, e, t)
    ensures Sim(Apply(w, e), w', t)
  {
    if !Conforms(e.kind) {
      ResultsAppend(w.results, Result(e.kind, [], Refused), t);
    } else if e.c < |w.pool| && w.pool[e.c].tx.None? {
      assert ConnOk(w.pool[e.c]);
      var tx := Tx(e.kind, SetLocal(CLEAN, e.kind), map[], [], e.program);
      ChangeOne(w.pool, w'.pool, e.c, Conn(CLEAN, Some(tx)), t);
    }
  }

  lemma EventIsFelt(w: World, w': World, e: Event, t: string)
    requires Sim(w, w', t)
    ensures Sim(Apply(w, e), RunOwn(w', FeltAt(w, e, t)), t)
  {
    if Mine(w, e, t) {
      assert RunOwn(w', [Act(e)]) == RunOwn(Apply(w', e), []);
      if e.Open? { MineOpensAlike(w, w', e, t); } else { MineStepsAlike(w, w', e.c, t); }
    } else if AdminCommits(w, e) {
      var patch := Patch(Part(w.pool[e.c].tx.value.overlay, t));
      assert RunOwn(w', [patch]) == RunOwn(ApplyOwn(w', patch), []);
      AdminCommitIsPatch(w, w', e.c, t);
    } else if e.Open? {
      OthersOpen(w, w', e, t);
    } else {
      OthersStep(w, w', e.c, t);
    }
  }

  lemma {:induction false} UnrollOwn(w: World, a: seq<Own>, b: seq<Own>)
    ensures RunOwn(w, a + b) == RunOwn(RunOwn(w, a), b)
    decreases |a|
  {
    if a == [] {
      assert a + b == b;
    } else {
      assert (a + b)[0] == a[0] && (a + b)[1..] == a[1..] + b;
      UnrollOwn(ApplyOwn(w, a[0]), a[1..], b);
    }
  }

  lemma {:induction false} RunsAlike(w: World, w': World, events: seq<Event>, t: string)
    requires Sim(w, w', t)
    ensures Sim(Run(w, events), RunOwn(w', Felt(w, events, t)), t)
    decreases |events|
  {
    if events != [] {
      var first := FeltAt(w, events[0], t);
      EventIsFelt(w, w', events[0], t);
      RunsAlike(Apply(w, events[0]), RunOwn(w', first), events[1..], t);
      UnrollOwn(w', first, Felt(Apply(w, events[0]), events[1..], t));
    }
  }

  ghost predicate AllIdle(w: World)
  {
    forall c | 0 <= c < |w.pool| :: w.pool[c] == Conn(CLEAN, None)
  }

  /**
   * Non-interference without any condition: over every interleaving of transactions of any tenants, users, agent
   * look-ups and platform administrators on reused connections, the results of a tenant and its rows are those of
   * its own transactions alone, with the administrators' committed writes to its own rows put in where they commit.
   */
  lemma OnlyPatchesAreFelt(w: World, events: seq<Event>, t: string)
    requires AllIdle(w)
    ensures var full, alone := Run(w, events), RunOwn(w, Felt(w, events, t));
            && ResultsOf(full.results, t) == ResultsOf(alone.results, t)
            && Slice(full.db, t) == Slice(alone.db, t)
  {
    RunsAlike(w, w, events, t);
  }

  // -------------------------------------------- administrators who spare a tenant

  /** No statement of the program targets a row of the tenant. */
  ghost predicate Spares(p: Program, t: string)
  {
    forall answers ::
      match p.decide(answers)
      case Insert(k, _) => k.org != t
      case Update(where, _) => forall k: Key, r: Row | k.org == t :: !where(k, r)
      case Delete(where) => forall k: Key, r: Row | k.org == t :: !where(k, r)
      case _ => true
  }

  ghost predicate OpenSpares(e: Event, t: string) { e.Open? && e.kind.PlatformAdmin? ==> Spares(e.program, t) }

  /** Platform administrators may read every tenant and write the rows of every other one. */
  ghost predicate AdminsSpare(events: seq<Event>, t: string) { forall e | e in events :: OpenSpares(e, t) }

  ghost predicate TxSpares(tx: Tx, t: string)
  {
    tx.kind.PlatformAdmin? ==> Spares(tx.program, t) && forall k | k in tx.overlay :: k.org != t
  }

  ghost predicate PoolSpares(pool: seq<Conn>, t: string)
  {
    forall c | 0 <= c < |pool| && pool[c].tx.Some? :: TxSpares(pool[c].tx.value, t)
  }

  lemma StepSpares(db: Rows, tx: Tx, t: string)
    requires TxSpares(tx, t)
    ensures StepTx(db, tx).Going? ==> TxSpares(StepTx(db, tx).tx, t)
  {
    if tx.kind.PlatformAdmin? && StepTx(db, tx).Going? {
      var a := tx.program.decide(tx.answers);
      var o := Exec(db, tx.overlay, tx.settings, a).0;
      forall k | k in o ensures k.org != t {
        match a
        case Select(_) =>
        case Insert(_, _) =>
        case Update(where, change) => assert k in Targets(db, tx.overlay, tx.settings, where) || k in tx.overlay;
        case Delete(where) => assert k in Targets(db, tx.overlay, tx.settings, where) || k in tx.overlay;
      }
    }
  }

  lemma ApplySpares(w: World, e: Event, t: string)
    requires PoolSpares(w.pool, t) && OpenSpares(e, t)
    ensures PoolSpares(Apply(w, e).pool, t)
  {
    if e.Step? && e.c < |w.pool| && w.pool[e.c].tx.Some? {
      StepSpares(w.db, w.pool[e.c].tx.value, t);
    }
  }

  lemma {:induction false} SparedPatchesAreEmpty(w: World, w': World, events: seq<Event>, t: string)
    requires PoolSpares(w.pool, t) && AdminsSpare(events, t)
    ensures RunOwn(w', Felt(w, events, t)) == Run(w', Only(w, events, t))
    decreases |events|
  {
    if events != [] {
      var e, rest := events[0], events[1..];
      var next := Apply(w, e);
      var felt, only := Felt(next, rest, t), Only(next, rest, t);
      assert OpenSpares(e, t) && forall x | x in rest :: x in events;
      ApplySpares(w, e, t);
      UnrollOwn(w', FeltAt(w, e, t), felt);
      if Mine(w, e, t) {
        assert RunOwn(w', [Act(e)]) == RunOwn(Apply(w', e), []);
        assert Only(w, events, t)[0] == e && Only(w, events, t)[1..] == only;
        SparedPatchesAreEmpty(next, Apply(w', e), rest, t);
      } else {
        assert Only(w, events, t) == only;
        SparedIsUnfelt(w, w', e, t);
        SparedPatchesAreEmpty(next, w', rest, t);
      }
    }
  }

  lemma SparedIsUnfelt(w: World, w': World, e: Event, t: string)
    requires PoolSpares(w.pool, t) && !Mine(w, e, t)
    ensures RunOwn(w', FeltAt(w, e, t)) == w'
  {
    if AdminCommits(w, e) {
      var o := Part(w.pool[e.c].tx.value.overlay, t);
      assert TxSpares(w.pool[e.c].tx.value, t);
      assert o == map[];
      MergeOfNothing(w'.db);
      assert RunOwn(w', [Patch(o)]) == RunOwn(ApplyOwn(w', Patch(o)), []);
    }
  }

  /**
   * Non-interference in the words of the access layer: the results of a tenant and its rows are those of the run in
   * which nobody else's transaction takes place, whatever platform administrators read and write elsewhere.
   */
  lemma TenantsDoNotInterfere(w: World, events: seq<Event>, t: string)
    requires AllIdle(w) && AdminsSpare(events, t)
    ensures var full, alone := Run(w, events), Run(w, Only(w, events, t));
            && ResultsOf(full.results, t) == ResultsOf(alone.results, t)
            && Slice(full.db, t) == Slice(alone.db, t)
  {
    OnlyPatchesAreFelt(w, events, t);
    SparedPatchesAreEmpty(w, w, events, t);
  }

  /** Two databases that agree on a tenant's rows cannot be told apart by that tenant, whoever writes what. */
  lemma OthersRowsAreInvisible(w: World, db: Rows, events: seq<Event>, t: string)
    requires AllIdle(w) && Slice(db, t) == Slice(w.db, t)
    ensures var there := RunOwn(w.(db := db), Felt(w, events, t));
            && ResultsOf(Run(w, events).results, t) == ResultsOf(there.results, t)
            && Slice(Run(w, events).db, t) == Slice(there.db, t)
  {
    RunsAlike(w, w.(db := db), events, t);
  }

  // ------------------------------------------------------- platform administrators

  /** What the public appeal form does: insert a row for whichever organization it concerns. */
  function InsertOne(k: Key, r: Row): Program
  {
    Program((answers: seq<Answer>) => if |answers| == 0 then Insert(k, r) else Finish(true), 2)
  }

  lemma InsertCommits(db: Rows, k: Key, r: Row)
    requires k.table == PlatformVisible && k !in db
    ensures k in Alone(db, PlatformAdmin, InsertOne(k, r)).0
  {
    var s := SetLocal(CLEAN, PlatformAdmin);
    var tx := Tx(PlatformAdmin, s, map[], [], InsertOne(k, r));
    assert k !in Current(db, tx.overlay) && MayWrite(s, k);
    var tx1 := StepTx(db, tx).tx;
    assert StepTx(db, tx) == Going(tx1) && k in tx1.overlay && tx1.overlay[k] == Some(r);
    assert StepTx(db, tx1).Ended? && k in StepTx(db, tx1).db;
    assert Complete(db, tx) == Complete(db, tx1);
  }

  lemma {:induction false} NothingIsMine(w: World, c: nat, n: nat, t: string)
    requires c < |w.pool| && !Conducts(w, c, t)
    ensures Only(w, Steps(c, n), t) == []
    decreases n
  {
    if n > 0 {
      var steps := Steps(c, n);
      assert steps[0] == Step(c) && steps[1..] == Steps(c, n - 1);
      KindStays(w, c);
      NothingIsMine(Apply(w, Step(c)), c, n - 1, t);
    }
  }

  lemma KindStays(w: World, c: nat)
    requires c < |w.pool|
    ensures var w' := Apply(w, Step(c));
            |w'.pool| == |w.pool|
            && (w'.pool[c].tx.Some? ==> w.pool[c].tx.Some? && w'.pool[c].tx.value.kind == w.pool[c].tx.value.kind)
  {
  }

  /** The writes to the rows of the tenant change nothing. */
  predicate WritesAgree(db: Rows, o: Overlay, t: string)
  {
    forall k | k in o && k.org == t :: o[k] == if k in db then Some(db[k]) else None
  }

  /** A transaction that ends leaves a slice alone if and only if it rolls back or its writes there change nothing. */
  lemma EndSparesExactly(db: Rows, tx: Tx, t: string)
    requires StepTx(db, tx).Ended?
    ensures Slice(StepTx(db, tx).db, t) == Slice(db, t)
       <==> !StepTx(db, tx).result.outcome.Committed? || WritesAgree(db, tx.overlay, t)
  {
    var a, b := Slice(Merge(db, tx.overlay), t), Slice(db, t);
    if WritesAgree(db, tx.overlay, t) {
      forall k ensures (k in a <==> k in b) && (k in a ==> a[k] == b[k]) {}
      assert a == b;
    }
    if a == b {
      forall k | k in tx.overlay && k.org == t ensures tx.overlay[k] == if k in db then Some(db[k]) else None {
        assert k in a <==> k in b;
        assert k in a ==> a[k] == b[k];
      }
    }
  }

  /** The transaction as it stands when it ends, with nothing else running. */
  function LastTx(db: Rows, tx: Tx): Tx
    decreases tx.program.limit - |tx.answers|
  {
    match StepTx(db, tx)
    case Going(next) => LastTx(db, next)
    case Ended(_, _) => tx
  }

  lemma {:induction false} CompleteSparesExactly(db: Rows, tx: Tx, t: string)
    ensures Slice(Complete(db, tx).0, t) == Slice(db, t)
       <==> !Complete(db, tx).1.outcome.Committed? || WritesAgree(db, LastTx(db, tx).overlay, t)
    decreases tx.program.limit - |tx.answers|
  {
    match StepTx(db, tx)
    case Going(next) => CompleteSparesExactly(db, next, t);
    case Ended(_, _) => EndSparesExactly(db, tx, t);
  }

  /**
   * One transaction of a platform administrator leaves the rows of a tenant alone if and only if it does not commit
   * or what it has written to them is what was there.
   */
  lemma AdminSparesExactly(db: Rows, p: Program, t: string)
    ensures var tx := Tx(PlatformAdmin, SetLocal(CLEAN, PlatformAdmin), map[], [], p);
            var (db', result) := Alone(db, PlatformAdmin, p);
            Slice(db', t) == Slice(db, t)
            <==> !result.outcome.Committed? || WritesAgree(db, LastTx(db, tx).overlay, t)
  {
    CompleteSparesExactly(db, Tx(PlatformAdmin, SetLocal(CLEAN, PlatformAdmin), map[], [], p), t);
  }

  /**
   * Administrators do reach tenants: a row that an administrator's transaction inserts for a tenant is in
   * the tenant's slice, although the tenant did nothing.
   */
  lemma AdminWritesInterfere(w: World, t: string, id: string, r: Row) returns (events: seq<Event>)
    requires AllIdle(w) && |w.pool| > 0 && Key(PlatformVisible, t, id) !in w.db
    ensures Only(w, events, t) == []
    ensures Slice(Run(w, events).db, t) != Slice(Run(w, Only(w, events, t)).db, t)
  {
    var k := Key(PlatformVisible, t, id);
    var open := Open(0, PlatformAdmin, InsertOne(k, r));
    assert w.pool[0] == Conn(CLEAN, None);
    var n := UninterruptedIsAlone(w, 0, PlatformAdmin, InsertOne(k, r));
    events := [open] + Steps(0, n);
    InsertCommits(w.db, k, r);
    assert events[0] == open && events[1..] == Steps(0, n);
    NothingIsMine(Apply(w, open), 0, n, t);
    assert k in Slice(Run(w, events).db, t) && k !in Slice(w.db, t);
  }
}
