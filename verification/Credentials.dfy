/** The api_credentials table of one organization and the transactions that change it. */
module Credentials {
  import opened Text

  datatype Status = ACTIVE | PENDING_ROTATION | SUPERSEDED | REVOKED

  datatype Row = Row(serverId: string, agentId: string, secret: string, status: Status,
                     supersedes: Option<string>, expires: Option<int>)

  /** Rows by key_id, the primary key. */
  type Table = map<string, Row>

  /** A transaction either commits a new table or aborts and leaves the old one. */
  datatype Outcome = Committed(table: Table) | Aborted

  predicate Usable(s: Status) { s == ACTIVE || s == PENDING_ROTATION }

  /** The partial unique index: one ACTIVE row per server. */
  predicate OneActive(t: Table)
  {
    forall j, k | j in t && k in t ::
      t[j].status == ACTIVE && t[k].status == ACTIVE && t[j].serverId == t[k].serverId ==> j == k
  }

  /** An expiry is reached at its instant; no statement of the service sets one. */
  predicate Expired(row: Row, now: int) { row.expires.Some? && row.expires.value <= now }

  function Resolve(t: Table, agentId: string, keyId: string, now: int): Option<Row>
  {
    if keyId in t && t[keyId].agentId == agentId && Usable(t[keyId].status) && !Expired(t[keyId], now)
    then Some(t[keyId]) else None
  }

  function SetStatus(t: Table, k: string, s: Status): Table
  {
    if k in t then t[k := t[k].(status := s)] else t
  }

  /** A statement whose effect breaks the unique index aborts its transaction. */
  function Checked(t: Table): Outcome
  {
    if OneActive(t) then Committed(t) else Aborted
  }

  function Issue(t: Table, keyId: string, row: Row): Outcome
  {
    if keyId in t then Aborted else Checked(t[keyId := row])
  }

  function PendingRow(current: Row, currentKey: string, secret: string): Row
  {
    Row(current.serverId, current.agentId, secret, PENDING_ROTATION, Some(currentKey), None)
  }

  function Retired(t: Table, newKey: string): Table
    requires newKey in t
  {
    match t[newKey].supersedes
    case Some(prior) => SetStatus(t, prior, SUPERSEDED)
    case None => t
  }

  function CommitRotation(t: Table, newKey: string): Outcome
  {
    if newKey !in t || t[newKey].status != PENDING_ROTATION then Committed(t)
    else
      var retired := Retired(t, newKey);
      if !OneActive(retired) then Aborted
      else Checked(SetStatus(retired, newKey, ACTIVE))
  }

  function RevokeServer(t: Table, serverId: string): (r: Table)
    ensures r.Keys == t.Keys
  {
    map k | k in t :: if t[k].serverId == serverId then t[k].(status := REVOKED) else t[k]
  }

  function RevokeKey(t: Table, keyId: string): Table
  {
    SetStatus(t, keyId, REVOKED)
  }

  function After(o: Outcome, t: Table): Table
  {
    if o.Committed? then o.table else t
  }

  /** What the primary key and the index let in. */
  ghost predicate MayInsert(t: Table, keyId: string, row: Row)
  {
    && keyId !in t
    && (row.status == ACTIVE ==> forall k | k in t :: t[k].status != ACTIVE || t[k].serverId != row.serverId)
  }

  lemma IndexAfterInsert(t: Table, keyId: string, row: Row)
    requires OneActive(t) && keyId !in t
    ensures OneActive(t[keyId := row]) <==> MayInsert(t, keyId, row)
  {
    var r := t[keyId := row];
    if OneActive(r) && row.status == ACTIVE {
      forall k | k in t ensures t[k].status != ACTIVE || t[k].serverId != row.serverId {
        assert r[k] == t[k] && r[keyId] == row;
      }
    }
  }

  /** A pending key with a secret of its own, for the server and the agent of the row that it is to replace. */
  ghost predicate IsSuccessor(row: Row, current: Row, currentKey: string, secret: string)
  {
    && row.secret == secret && row.serverId == current.serverId && row.agentId == current.agentId
    && row.status == PENDING_ROTATION && row.supersedes == Some(currentKey) && row.expires == None
  }

  ghost predicate Promotable(t: Table, k: string)
  {
    OneActive(t) && k in t && t[k].status == PENDING_ROTATION && t[k].supersedes != Some(k)
  }

  // ---------------------------------------------------------------- the store

  /** `CredentialStore` over the rows; each method is one transaction. */
  class CredentialStore {
    var rows: Table

    constructor (initial: Table)
      ensures rows == initial
    {
      rows := initial;
    }

    method ResolveKey(agentId: string, keyId: string, now: int) returns (found: Option<Row>)
      ensures found == Resolve(rows, agentId, keyId, now)
      ensures found.Some? <==> keyId in rows && rows[keyId].agentId == agentId
                               && (rows[keyId].status == ACTIVE || rows[keyId].status == PENDING_ROTATION)
                               && (rows[keyId].expires.Some? ==> now < rows[keyId].expires.value)
      ensures found.Some? ==> found.value == rows[keyId]
    {
      if keyId !in rows {
        return None;
      }
      var row := rows[keyId];
      if row.agentId != agentId || row.status == SUPERSEDED || row.status == REVOKED {
        return None;
      }
      if row.expires.Some? && row.expires.value <= now {
        return None;
      }
      return Some(row);
    }

    method Insert(keyId: string, row: Row) returns (ok: bool)
      modifies this
      ensures ok == Issue(old(rows), keyId, row).Committed?
      ensures rows == After(Issue(old(rows), keyId, row), old(rows))
      ensures rows == if ok then old(rows)[keyId := row] else old(rows)
      ensures OneActive(old(rows)) ==> (ok <==> MayInsert(old(rows), keyId, row))
    {
      if keyId in rows {
        return false;
      }
      if OneActive(rows) { IndexAfterInsert(rows, keyId, row); }
      var work := rows[keyId := row];
      ok := OneActive(work);
      if ok {
        rows := work;
      }
    }

    method BeginRotation(current: Row, currentKey: string, freshKey: string, secret: string) returns (ok: bool)
      modifies this
      ensures ok == Issue(old(rows), freshKey, PendingRow(current, currentKey, secret)).Committed?
      ensures rows == After(Issue(old(rows), freshKey, PendingRow(current, currentKey, secret)), old(rows))
      ensures ok ==> freshKey !in old(rows) && freshKey in rows && rows == old(rows)[freshKey := rows[freshKey]]
                     && IsSuccessor(rows[freshKey], current, currentKey, secret)
      ensures !ok ==> rows == old(rows)
      ensures OneActive(old(rows)) && freshKey !in old(rows) ==> ok
    {
      var pending := Row(current.serverId, current.agentId, secret, PENDING_ROTATION, Some(currentKey), None);
      ok := Insert(freshKey, pending);
    }

    /** The prior key is retired before the new one becomes ACTIVE; a violated index rolls all of it back. */
    method Promote(newKey: string) returns (ok: bool)
      modifies this
      ensures ok == CommitRotation(old(rows), newKey).Committed?
      ensures rows == After(CommitRotation(old(rows), newKey), old(rows))
      ensures !(newKey in old(rows) && old(rows)[newKey].status == PENDING_ROTATION) ==> ok && rows == old(rows)
      ensures Promotable(old(rows), newKey) ==> (ok <==> OnlyPredecessorActive(old(rows), newKey))
      ensures Promotable(old(rows), newKey) && ok ==> MovedTo(old(rows), newKey, rows)
      ensures !ok ==> rows == old(rows)
    {
      if Promotable(rows, newKey) { PromotionExact(rows, newKey); }
      if newKey !in rows || rows[newKey].status != PENDING_ROTATION {
        return true;
      }
      var work := rows;
      var supersedes := work[newKey].supersedes;
      if supersedes.Some? && supersedes.value in work {
        work := work[supersedes.value := work[supersedes.value].(status := SUPERSEDED)];
      }
      if !OneActive(work) {
        return false;
      }
      work := work[newKey := work[newKey].(status := ACTIVE)];
      ok := OneActive(work);
      if ok {
        rows := work;
      }
    }

    method Revoke(keyId: string)
      modifies this
      ensures rows == RevokeKey(old(rows), keyId)
      ensures rows == if keyId in old(rows) then old(rows)[keyId := old(rows)[keyId].(status := REVOKED)]
                      else old(rows)
    {
      if keyId in rows && rows[keyId].status != REVOKED {
        rows := rows[keyId := rows[keyId].(status := REVOKED)];
      }
    }

    /** Regeneration, build download and server deletion revoke every key of the server, row by row. */
    method RevokeAll(serverId: string)
      modifies this
      ensures rows == RevokeServer(old(rows), serverId)
      ensures rows.Keys == old(rows).Keys
      ensures forall k | k in rows ::
                rows[k] == if old(rows)[k].serverId == serverId then old(rows)[k].(status := REVOKED)
                           else old(rows)[k]
    {
      var todo := rows.Keys;
      while todo != {}
        invariant todo <= rows.Keys == old(rows).Keys
        invariant forall k | k in todo :: rows[k] == old(rows)[k]
        invariant forall k | k in rows && k !in todo :: rows[k] == RevokeServer(old(rows), serverId)[k]
        decreases |todo|
      {
        var k :| k in todo;
        if rows[k].serverId == serverId && rows[k].status != REVOKED {
          rows := rows[k := rows[k].(status := REVOKED)];
        }
        todo := todo - {k};
      }
    }
  }

  // --------------------------------------------------------------- one commit

  /** ACTIVE has moved to k from its direct predecessor, and nothing else differs. */
  predicate MovedTo(t: Table, k: string, r: Table)
    requires k in t
  {
    && r.Keys == t.Keys && r[k] == t[k].(status := ACTIVE)
    && forall j | j in t && j != k ::
         r[j] == if t[k].supersedes == Some(j) then t[j].(status := SUPERSEDED) else t[j]
  }

  /** No key of the server is ACTIVE but the direct predecessor of k. */
  predicate OnlyPredecessorActive(t: Table, k: string)
    requires k in t
  {
    forall j | j in t && t[j].status == ACTIVE && t[j].serverId == t[k].serverId :: t[k].supersedes == Some(j)
  }

  lemma RetiredKeepsIndex(t: Table, k: string)
    requires OneActive(t) && k in t
    ensures OneActive(Retired(t, k))
  {
  }

  lemma WritesMove(t: Table, k: string)
    requires k in t && t[k].supersedes != Some(k)
    ensures MovedTo(t, k, SetStatus(Retired(t, k), k, ACTIVE))
  {
  }

  lemma IndexAfterMove(t: Table, k: string, r: Table)
    requires OneActive(t) && k in t && t[k].status == PENDING_ROTATION && MovedTo(t, k, r)
    ensures OneActive(r) <==> OnlyPredecessorActive(t, k)
  {
    if OneActive(r) {
      forall j | j in t && t[j].status == ACTIVE && t[j].serverId == t[k].serverId
        ensures t[k].supersedes == Some(j)
      {
        assert r[j].serverId == r[k].serverId && r[k].status == ACTIVE;
      }
    }
  }

  /**
   * A pending key is promoted exactly when no third key of its server is ACTIVE. Then ACTIVE moves from its
   * direct predecessor to it and no other row changes; otherwise the table is left alone.
   */
  lemma PromotionExact(t: Table, k: string)
    requires Promotable(t, k)
    ensures CommitRotation(t, k).Committed? <==> OnlyPredecessorActive(t, k)
    ensures CommitRotation(t, k).Committed? ==>
              MovedTo(t, k, CommitRotation(t, k).table) && OneActive(CommitRotation(t, k).table)
  {
    RetiredKeepsIndex(t, k);
    WritesMove(t, k);
    IndexAfterMove(t, k, SetStatus(Retired(t, k), k, ACTIVE));
  }

  // ------------------------------------------------------ runs of transactions

  datatype Op =
    | Begin(current: Row, currentKey: string, freshKey: string, secret: string)
    | Promotion(newKey: string)
    | Replace(serverId: string)
    | Install(keyId: string, row: Row)
    | Withdraw(keyId: string)

  function Apply(t: Table, op: Op): Table
  {
    match op
    case Begin(cur, curKey, added, secret) => After(Issue(t, added, PendingRow(cur, curKey, secret)), t)
    case Promotion(k) => After(CommitRotation(t, k), t)
    case Replace(s) => RevokeServer(t, s)
    case Install(k, row) => After(Issue(t, k, row), t)
    case Withdraw(k) => RevokeKey(t, k)
  }

  function Run(t: Table, ops: seq<Op>): Table
    decreases |ops|
  {
    if ops == [] then t else Run(Apply(t, ops[0]), ops[1..])
  }

  predicate Administrative(op: Op)
  {
    op.Replace? || op.Install? || op.Withdraw?
  }

  /** What every transaction keeps: the index, the rows and that dead keys are dead. */
  ghost predicate KeepsDead(t: Table, r: Table)
  {
    OneActive(r) && t.Keys <= r.Keys && forall k | k in t && !Usable(t[k].status) :: !Usable(r[k].status)
  }

  lemma IssueKeepsDead(t: Table, keyId: string, row: Row)
    requires OneActive(t)
    ensures KeepsDead(t, After(Issue(t, keyId, row), t))
  {
  }

  lemma PromotionKeepsDead(t: Table, n: string)
    requires OneActive(t)
    ensures KeepsDead(t, Apply(t, Promotion(n)))
  {
    if n in t && t[n].status == PENDING_ROTATION && CommitRotation(t, n).Committed? {
      var retired := Retired(t, n);
      assert retired.Keys == t.Keys && OneActive(SetStatus(retired, n, ACTIVE));
    }
  }

  lemma RevokingKeepsDead(t: Table, r: Table)
    requires OneActive(t) && r.Keys == t.Keys
    requires forall k | k in t ::
      r[k].serverId == t[k].serverId && (r[k].status == t[k].status || r[k].status == REVOKED)
    ensures KeepsDead(t, r)
  {
  }

  lemma StepKeepsDead(t: Table, op: Op)
    requires OneActive(t)
    ensures KeepsDead(t, Apply(t, op))
  {
    match op
    case Begin(cur, curKey, added, secret) => IssueKeepsDead(t, added, PendingRow(cur, curKey, secret));
    case Install(k, row) => IssueKeepsDead(t, k, row);
    case Promotion(n) => PromotionKeepsDead(t, n);
    case Replace(s) => RevokingKeepsDead(t, RevokeServer(t, s));
    case Withdraw(k) => RevokingKeepsDead(t, RevokeKey(t, k));
  }

  /** No transaction, in any interleaving, leaves two ACTIVE keys on a server or revives a dead key. */
  lemma {:induction false} DeadKeysStayDead(t: Table, ops: seq<Op>)
    requires OneActive(t)
    ensures OneActive(Run(t, ops)) && t.Keys <= Run(t, ops).Keys
    ensures forall k | k in t && !Usable(t[k].status) :: !Usable(Run(t, ops)[k].status)
    decreases |ops|
  {
    if ops != [] {
      var next := Apply(t, ops[0]);
      StepKeepsDead(t, ops[0]);
      DeadKeysStayDead(next, ops[1..]);
    }
  }

  /** The step that promotes a pending successor of k on a server whose ACTIVE key, if any, is k. */
  predicate PromotesSuccessor(t: Table, op: Op, k: string)
  {
    && op.Promotion? && op.newKey in t && t[op.newKey].status == PENDING_ROTATION
    && t[op.newKey].supersedes == Some(k) && OnlyPredecessorActive(t, op.newKey)
  }

  lemma PromotionOfAnother(t: Table, n: string, k: string)
    requires OneActive(t) && k in t && t[k].status == REVOKED
    requires n in t && t[n].status == PENDING_ROTATION && t[n].supersedes != Some(k)
    ensures Apply(t, Promotion(n))[k] == t[k]
  {
  }

  /**
   * Being REVOKED is not final as a mark: a step overwrites it, with SUPERSEDED, if and only if it promotes a
   * pending successor while no other key of the server is ACTIVE. The key stays unusable all the same.
   */
  lemma RevokedMarkIsLostExactly(t: Table, op: Op, k: string)
    requires OneActive(t) && k in t && t[k].status == REVOKED
    ensures k in Apply(t, op)
    ensures Apply(t, op)[k].status != REVOKED <==> PromotesSuccessor(t, op, k)
    ensures Apply(t, op)[k].status != REVOKED ==> Apply(t, op)[k].status == SUPERSEDED
  {
    if op.Promotion? && op.newKey in t && t[op.newKey].status == PENDING_ROTATION {
      if t[op.newKey].supersedes == Some(k) {
        PromotionExact(t, op.newKey);
      } else {
        PromotionOfAnother(t, op.newKey, k);
      }
    }
  }

  /** An administrator revokes the old key while its successor is pending; the handshake then erases the mark. */
  lemma RevokedMarkIsLost(a: string, b: string, row: Row, secret: string)
    requires a != b && row.status == ACTIVE && row.supersedes == None
    ensures var t := map[a := row, b := PendingRow(row, a, secret)];
            && var before, after := Run(t, [Withdraw(a)]), Run(t, [Withdraw(a), Promotion(b)]);
            && OneActive(t) && a in before && before[a].status == REVOKED
            && a in after && after[a].status == SUPERSEDED
  {
    var t := map[a := row, b := PendingRow(row, a, secret)];
    var revoked := Apply(t, Withdraw(a));
    var ops := [Withdraw(a), Promotion(b)];
    assert ops[1..] == [Promotion(b)] && [Promotion(b)][1..] == [] && [Withdraw(a)][1..] == [];
    assert Run(t, [Withdraw(a)]) == Run(revoked, []) == revoked;
    assert Run(t, ops) == Run(revoked, [Promotion(b)]) == Run(Apply(revoked, Promotion(b)), []);
    assert OneActive(revoked) && OnlyPredecessorActive(revoked, b);
    RevokedMarkIsLostExactly(revoked, Promotion(b), a);
  }

  // -------------------------------------------- replacing every key of a server

  /** No key of the server is accepted any more. */
  ghost predicate Dead(t: Table, serverId: string)
  {
    forall k | k in t && t[k].serverId == serverId :: !Usable(t[k].status)
  }

  /** Inserts a usable key on the server: a new one, or the successor of a row read at some earlier time. */
  predicate Enters(t: Table, op: Op, serverId: string)
  {
    || (op.Begin? && op.current.serverId == serverId && op.freshKey !in t)
    || (op.Install? && op.row.serverId == serverId && Usable(op.row.status) && op.keyId !in t)
  }

  lemma ReplaceKills(t: Table, serverId: string)
    requires OneActive(t)
    ensures Dead(Apply(t, Replace(serverId)), serverId) && OneActive(Apply(t, Replace(serverId)))
  {
    StepKeepsDead(t, Replace(serverId));
  }

  lemma IssueOnDead(t: Table, keyId: string, row: Row, serverId: string)
    requires OneActive(t) && Dead(t, serverId)
    ensures !Dead(After(Issue(t, keyId, row), t), serverId)
       <==> row.serverId == serverId && Usable(row.status) && keyId !in t
  {
    if keyId !in t {
      var t' := t[keyId := row];
      assert t'[keyId] == row;
      if row.serverId == serverId { assert OneActive(t'); }
    }
  }

  lemma PromotionKeepsServers(t: Table, n: string)
    ensures var r := Apply(t, Promotion(n)); r.Keys == t.Keys && forall k | k in r :: r[k].serverId == t[k].serverId
  {
  }

  lemma PromotionOnDead(t: Table, n: string, serverId: string)
    requires OneActive(t) && Dead(t, serverId)
    ensures Dead(Apply(t, Promotion(n)), serverId)
  {
    PromotionKeepsServers(t, n);
    PromotionKeepsDead(t, n);
  }

  /** On a server without a usable key one comes up in a step if and only if the step inserts it. */
  lemma RevivedExactly(t: Table, op: Op, serverId: string)
    requires OneActive(t) && Dead(t, serverId)
    ensures !Dead(Apply(t, op), serverId) <==> Enters(t, op, serverId)
  {
    match op
    case Begin(cur, curKey, added, secret) => IssueOnDead(t, added, PendingRow(cur, curKey, secret), serverId);
    case Install(k, row) => IssueOnDead(t, k, row, serverId);
    case Promotion(n) => PromotionOnDead(t, n, serverId);
    case Replace(s) =>
    case Withdraw(k) =>
  }

  /** No usable key on the server at any point of the run. */
  ghost predicate StaysDead(t: Table, ops: seq<Op>, serverId: string)
    decreases |ops|
  {
    Dead(t, serverId) && (ops != [] ==> StaysDead(Apply(t, ops[0]), ops[1..], serverId))
  }

  ghost predicate NoneEnters(t: Table, ops: seq<Op>, serverId: string)
    decreases |ops|
  {
    ops == [] || (!Enters(t, ops[0], serverId) && NoneEnters(Apply(t, ops[0]), ops[1..], serverId))
  }

  lemma {:induction false} StaysDeadExactly(t: Table, ops: seq<Op>, serverId: string)
    requires OneActive(t) && Dead(t, serverId)
    ensures StaysDead(t, ops, serverId) <==> NoneEnters(t, ops, serverId)
    decreases |ops|
  {
    if ops != [] {
      RevivedExactly(t, ops[0], serverId);
      StepKeepsDead(t, ops[0]);
      if !Enters(t, ops[0], serverId) { StaysDeadExactly(Apply(t, ops[0]), ops[1..], serverId); }
    }
  }

  /**
   * After every key of a server has been revoked, and over any run that follows, the server stays without a usable
   * key if and only if no new key is issued and no rotation inserts the successor of a row it had read before.
   */
  lemma ReplacementHoldsExactly(t: Table, ops: seq<Op>, serverId: string)
    requires OneActive(t)
    ensures StaysDead(Apply(t, Replace(serverId)), ops, serverId)
       <==> NoneEnters(Apply(t, Replace(serverId)), ops, serverId)
  {
    ReplaceKills(t, serverId);
    StaysDeadExactly(Apply(t, Replace(serverId)), ops, serverId);
  }

  lemma RunOfThree(t: Table, a: Op, b: Op, c: Op)
    ensures Run(t, [a, b, c]) == Apply(Apply(Apply(t, a), b), c)
  {
    assert [a, b, c][1..] == [b, c] && [b, c][1..] == [c] && [c][1..] == [];
    assert Run(Apply(Apply(t, a), b), [c]) == Run(Apply(Apply(Apply(t, a), b), c), []);
  }

  /** A new key on a server whose keys are all revoked is the only one there that can be ACTIVE. */
  lemma InstallOnDead(t: Table, n: string, row: Row)
    requires OneActive(t) && Dead(t, row.serverId) && n !in t && row.status == ACTIVE
    ensures Apply(t, Install(n, row)) == t[n := row] && OneActive(t[n := row])
  {
  }

  /** A successor under a new identifier can always be begun; it is accepted at any time. */
  lemma LateBegin(t: Table, row: Row, a: string, b: string, secret: string)
    requires OneActive(t) && b !in t
    ensures var r := Apply(t, Begin(row, a, b, secret));
            && r == t[b := PendingRow(row, a, secret)] && OneActive(r)
            && forall now :: Resolve(r, row.agentId, b, now).Some?
  {
  }

  /**
   * A rotation that was authenticated before the keys of its server were replaced goes through afterwards. Its key
   * is accepted beside the new one whatever the clock says, and its handshake, which would retire a key, aborts.
   */
  lemma RotationOutlivesReplacement(t: Table, a: string, n: string, issued: Row, b: string, secret: string)
    requires OneActive(t) && a in t && n !in t && b !in t && n != b
    requires issued.serverId == t[a].serverId && issued.status == ACTIVE
    ensures var r := Run(t, [Replace(t[a].serverId), Install(n, issued), Begin(t[a], a, b, secret)]);
            && OneActive(r) && a in r && r[a].status == REVOKED && n in r && r[n] == issued && b in r
            && (forall now :: Resolve(r, t[a].agentId, b, now).Some?)
            && CommitRotation(r, b) == Aborted
  {
    var s := t[a].serverId;
    var t1 := Apply(t, Replace(s));
    RunOfThree(t, Replace(s), Install(n, issued), Begin(t[a], a, b, secret));
    ReplaceKills(t, s);
    InstallOnDead(t1, n, issued);
    LateBegin(t1[n := issued], t[a], a, b, secret);
    var r := t1[n := issued][b := PendingRow(t[a], a, secret)];
    assert r[n].status == ACTIVE && r[b].supersedes != Some(n);
    PromotionExact(r, b);
  }

  ghost predicate ExactlyOneActive(t: Table, serverId: string, k: string)
  {
    && OneActive(t) && k in t && t[k].serverId == serverId && t[k].status == ACTIVE
    && forall j | j in t && t[j].serverId == serverId && t[j].status == ACTIVE :: j == k
  }

  /** Pending keys name, as predecessor, a key of their own server that is already in the table. */
  ghost predicate Linked(t: Table)
  {
    forall k, p | k in t && t[k].supersedes == Some(p) :: p in t && t[p].serverId == t[k].serverId && p != k
  }

  /** A rotation request is served on behalf of a key that is in the table. */
  ghost predicate Sound(t: Table, op: Op)
  {
    op.Begin? ==> op.currentKey in t && t[op.currentKey].serverId == op.current.serverId
  }

  lemma BeginStep(t: Table, op: Op, serverId: string, k: string)
    requires ExactlyOneActive(t, serverId, k) && Linked(t) && op.Begin? && Sound(t, op)
    ensures ExactlyOneActive(Apply(t, op), serverId, k) && Linked(Apply(t, op))
    ensures t.Keys <= Apply(t, op).Keys && forall j | j in t :: Apply(t, op)[j] == t[j]
  {
  }

  lemma MoveKeepsLinks(t: Table, n: string, r: Table)
    requires Linked(t) && n in t && MovedTo(t, n, r)
    ensures Linked(r) && forall j | j in t :: r[j].serverId == t[j].serverId
  {
    forall j | j in t ensures r[j].serverId == t[j].serverId && r[j].supersedes == t[j].supersedes {}
  }

  lemma MoveOnServer(t: Table, n: string, r: Table, serverId: string, k: string)
    requires ExactlyOneActive(t, serverId, k) && OneActive(r) && n in t && MovedTo(t, n, r)
    requires t[n].status == PENDING_ROTATION && t[n].serverId == serverId && OnlyPredecessorActive(t, n)
    ensures ExactlyOneActive(r, serverId, n) && t[n].supersedes == Some(k) && r[k].status == SUPERSEDED
  {
    assert n != k;
  }

  lemma MoveElsewhere(t: Table, n: string, r: Table, serverId: string, k: string)
    requires ExactlyOneActive(t, serverId, k) && Linked(t) && OneActive(r) && n in t && MovedTo(t, n, r)
    requires t[n].serverId != serverId
    ensures ExactlyOneActive(r, serverId, k)
  {
    assert t[n].supersedes != Some(k);
    forall j | j in r && r[j].serverId == serverId && r[j].status == ACTIVE ensures j == k {
      assert j != n && t[j].status == ACTIVE;
    }
  }

  lemma PromotionStep(t: Table, n: string, serverId: string, k: string) returns (k': string)
    requires ExactlyOneActive(t, serverId, k) && Linked(t)
    requires n in t && t[n].status == PENDING_ROTATION && CommitRotation(t, n).Committed?
    ensures var r := CommitRotation(t, n).table;
            && ExactlyOneActive(r, serverId, k') && Linked(r) && r.Keys == t.Keys
            && (forall j | j in t :: r[j].serverId == t[j].serverId)
            && (k' == k || (k' == n && t[n].supersedes == Some(k) && r[k].status == SUPERSEDED))
  {
    PromotionExact(t, n);
    var r := CommitRotation(t, n).table;
    MoveKeepsLinks(t, n, r);
    if t[n].serverId == serverId {
      MoveOnServer(t, n, r, serverId, k);
      k' := n;
    } else {
      MoveElsewhere(t, n, r, serverId, k);
      k' := k;
    }
  }

  /** One rotation transaction moves ACTIVE to a direct successor or not at all. */
  lemma RotationStep(t: Table, op: Op, serverId: string, k: string) returns (k': string)
    requires ExactlyOneActive(t, serverId, k) && Linked(t)
    requires !Administrative(op) && Sound(t, op)
    ensures ExactlyOneActive(Apply(t, op), serverId, k') && Linked(Apply(t, op))
    ensures k' == k || (op == Promotion(k') && t[k'].supersedes == Some(k)
                        && Apply(t, op)[k].status == SUPERSEDED)
    ensures t.Keys <= Apply(t, op).Keys && forall j | j in t :: Apply(t, op)[j].serverId == t[j].serverId
  {
    k' := k;
    if op.Begin? {
      BeginStep(t, op, serverId, k);
    } else {
      var n := op.newKey;
      if n in t && t[n].status == PENDING_ROTATION && CommitRotation(t, n).Committed? {
        k' := PromotionStep(t, n, serverId, k);
      }
    }
  }

  /** Every rotation request in the run is served for a key known when it executes. */
  ghost predicate RotationsOnly(t: Table, ops: seq<Op>)
    decreases |ops|
  {
    ops == [] || (!Administrative(ops[0]) && Sound(t, ops[0]) && RotationsOnly(Apply(t, ops[0]), ops[1..]))
  }

  /** Without administrators, any mix of rotations and handshakes leaves exactly one ACTIVE key. */
  lemma {:induction false} RotationKeepsOneActive(t: Table, ops: seq<Op>, serverId: string, k: string)
    returns (active: string)
    requires ExactlyOneActive(t, serverId, k) && Linked(t) && RotationsOnly(t, ops)
    ensures ExactlyOneActive(Run(t, ops), serverId, active)
    decreases |ops|
  {
    if ops == [] {
      active := k;
    } else {
      var next := Apply(t, ops[0]);
      var moved := RotationStep(t, ops[0], serverId, k);
      assert RotationsOnly(next, ops[1..]);
      active := RotationKeepsOneActive(next, ops[1..], serverId, moved);
    }
  }
}
