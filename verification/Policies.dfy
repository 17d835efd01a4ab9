/** What a transaction of each kind sees and writes, told without settings, overlays or policies. */
module Policies {
  import opened Text
  import opened Db

  // ------------------------------------------------------------ the four kinds

  ghost predicate Sees(kind: Kind, k: Key, r: Row)
  {
    match kind
    case Tenant(org) => k.org == org
    case User(user) => k.table == Memberships && r.user == user
    case AgentLookup => k.table == ApiCredentials
    case PlatformAdmin => k.table == PlatformVisible
  }

  ghost predicate Writes(kind: Kind, k: Key)
  {
    match kind
    case Tenant(org) => k.org == org
    case PlatformAdmin => k.table == PlatformVisible
    case _ => false
  }

  /** Four characters and 26 lower-case letters or digits. */
  ghost predicate Identifies(s: string, prefix: string)
  {
    |s| == 30 && s[..4] == prefix
    && forall i | 4 <= i < 30 :: 48 <= s[i] as int <= 57 || 97 <= s[i] as int <= 122
  }

  ghost predicate Proper(kind: Kind)
  {
    match kind
    case Tenant(org) => Identifies(org, "org_")
    case User(user) => Identifies(user, "usr_")
    case _ => true
  }

  lemma IsIdExactly(s: string, prefix: string)
    requires |prefix| == 4
    ensures IsId(s, prefix) <==> Identifies(s, prefix)
  {
    if IsId(s, prefix) {
      forall i | 4 <= i < 30 ensures IsIdChar(s[i]) { assert s[4..][i - 4] == s[i]; }
    }
    if Identifies(s, prefix) {
      forall c | c in s[4..] ensures IsIdChar(c) {
        var i :| 0 <= i < 26 && s[4..][i] == c;
        assert s[i + 4] == c;
      }
    }
  }

  lemma ConformsExactly(kind: Kind)
    ensures Conforms(kind) <==> Proper(kind)
  {
    match kind
    case Tenant(org) => IsIdExactly(org, "org_");
    case User(user) => IsIdExactly(user, "usr_");
    case _ =>
  }

  /** The local setting of a kind, through the policies, lets in exactly that. */
  lemma PoliciesExactly(kind: Kind, k: Key, r: Row)
    ensures MayRead(SetLocal(CLEAN, kind), k, r) <==> Sees(kind, k, r)
    ensures MayWrite(SetLocal(CLEAN, kind), k) <==> Writes(kind, k)
  {
  }

  // -------------------------------------------------------- a private database

  ghost predicate Hit(kind: Kind, view: Rows, where: (Key, Row) -> bool, k: Key)
  {
    k in view && Writes(kind, k) && where(k, view[k])
  }

  ghost function Hits(kind: Kind, view: Rows, where: (Key, Row) -> bool): set<Key>
  {
    set k | k in view && Hit(kind, view, where, k)
  }

  /** One statement on a copy of the database that nobody else has. */
  ghost function Perform(view: Rows, kind: Kind, a: Action): (Rows, Answer)
    requires !a.Finish?
  {
    match a
    case Select(where) => (view, Found(map k | k in view && Sees(kind, k, view[k]) && where(k, view[k]) :: view[k]))
    case Insert(k, r) => if Writes(kind, k) && k !in view then (view[k := r], Affected(1)) else (view, Denied)
    case Update(where, change) =>
      (map k | k in view :: if Hit(kind, view, where, k) then change(view[k]) else view[k],
       Affected(|Hits(kind, view, where)|))
    case Delete(where) =>
      (map k | k in view && !Hit(kind, view, where, k) :: view[k], Affected(|Hits(kind, view, where)|))
  }

  /** The rest of a transaction on its copy: COMMIT publishes the copy, anything else leaves the database as it was. */
  ghost function Conduct(db: Rows, view: Rows, kind: Kind, p: Program, answers: seq<Answer>): (Rows, Result)
    decreases p.limit - |answers|
  {
    if |answers| >= p.limit then (db, Result(kind, answers, RolledBack))
    else
      match p.decide(answers)
      case Finish(ok) =>
        if ok then (view, Result(kind, answers, Committed)) else (db, Result(kind, answers, RolledBack))
      case a =>
        var (view', answer) := Perform(view, kind, a);
        if answer.Denied? then (db, Result(kind, answers + [Denied], RolledBack))
        else Conduct(db, view', kind, p, answers + [answer])
  }

  // ---------------------------------------------------------------- refinement

  lemma UpdatedAt(db: Rows, o: Overlay, targets: Rows, change: Row -> Row, k: Key)
    requires k in targets ==> k in Current(db, o) && targets[k] == Current(db, o)[k]
    ensures var view, after := Current(db, o), Current(db, o + Changed(targets, change));
            && (k in after <==> k in view)
            && (k in view ==> after[k] == if k in targets then change(view[k]) else view[k])
  {
  }

  lemma DeletedAt(db: Rows, o: Overlay, targets: Rows, k: Key)
    ensures var view, after := Current(db, o), Current(db, o + Deleted(targets));
            && (k in after <==> k in view && k !in targets)
            && (k in after ==> after[k] == view[k])
  {
  }

  lemma UpdatedIs(db: Rows, o: Overlay, targets: Rows, change: Row -> Row, view: Rows, after: Rows)
    requires view == Current(db, o) && forall k | k in targets :: k in view && targets[k] == view[k]
    requires after.Keys == view.Keys
    requires forall k | k in view :: after[k] == if k in targets then change(view[k]) else view[k]
    ensures Current(db, o + Changed(targets, change)) == after
  {
    var now := Current(db, o + Changed(targets, change));
    forall k ensures (k in now <==> k in after) && (k in now ==> now[k] == after[k]) {
      UpdatedAt(db, o, targets, change, k);
    }
  }

  lemma DeletedIs(db: Rows, o: Overlay, targets: Rows, view: Rows, after: Rows)
    requires view == Current(db, o)
    requires forall k :: k in after <==> k in view && k !in targets
    requires forall k | k in after :: after[k] == view[k]
    ensures Current(db, o + Deleted(targets)) == after
  {
    var now := Current(db, o + Deleted(targets));
    forall k ensures (k in now <==> k in after) && (k in now ==> now[k] == after[k]) {
      DeletedAt(db, o, targets, k);
    }
  }

  lemma UpdateAgrees(db: Rows, o: Overlay, kind: Kind, where: (Key, Row) -> bool, change: Row -> Row)
    ensures Current(db, o + Changed(Targets(db, o, SetLocal(CLEAN, kind), where), change))
         == Perform(Current(db, o), kind, Update(where, change)).0
  {
    var view, targets := Current(db, o), Targets(db, o, SetLocal(CLEAN, kind), where);
    TargetsAreHits(db, o, kind, where);
    var after := Perform(view, kind, Update(where, change)).0;
    forall k | k in view ensures after[k] == if k in targets.Keys then change(view[k]) else view[k] {
      assert k in Hits(kind, view, where) <==> Hit(kind, view, where, k);
    }
    UpdatedIs(db, o, targets, change, view, after);
  }

  lemma DeleteAgrees(db: Rows, o: Overlay, kind: Kind, where: (Key, Row) -> bool)
    ensures Current(db, o + Deleted(Targets(db, o, SetLocal(CLEAN, kind), where)))
         == Perform(Current(db, o), kind, Delete(where)).0
  {
    var view, targets := Current(db, o), Targets(db, o, SetLocal(CLEAN, kind), where);
    TargetsAreHits(db, o, kind, where);
    var after := Perform(view, kind, Delete(where)).0;
    forall k ensures k in after <==> k in view && k !in targets.Keys {
      assert k in Hits(kind, view, where) <==> Hit(kind, view, where, k);
    }
    DeletedIs(db, o, targets, view, after);
  }

  lemma TargetsAreHits(db: Rows, o: Overlay, kind: Kind, where: (Key, Row) -> bool)
    ensures var s, view := SetLocal(CLEAN, kind), Current(db, o);
            && Targets(db, o, s, where).Keys == Hits(kind, view, where)
            && |Targets(db, o, s, where)| == |Hits(kind, view, where)|
            && forall k | k in Targets(db, o, s, where) :: Targets(db, o, s, where)[k] == view[k]
  {
    var s, view := SetLocal(CLEAN, kind), Current(db, o);
    forall k | k in view ensures MayWrite(s, k) <==> Writes(kind, k) { PoliciesExactly(kind, k, view[k]); }
  }

  lemma InsertAgrees(db: Rows, o: Overlay, k: Key, r: Row)
    ensures Current(db, o[k := Some(r)]) == Current(db, o)[k := r]
  {
    var a, b := Current(db, o[k := Some(r)]), Current(db, o)[k := r];
    forall x ensures (x in a <==> x in b) && (x in a ==> a[x] == b[x]) {}
  }

  lemma SelectAgrees(db: Rows, o: Overlay, kind: Kind, where: (Key, Row) -> bool)
    ensures var view := Current(db, o);
            && Visible(db, o, SetLocal(CLEAN, kind), where)
            == map k | k in view && Sees(kind, k, view[k]) && where(k, view[k]) :: view[k]
  {
    var view := Current(db, o);
    forall k | k in view ensures MayRead(SetLocal(CLEAN, kind), k, view[k]) <==> Sees(kind, k, view[k]) {
      PoliciesExactly(kind, k, view[k]);
    }
  }

  lemma StatementAgrees(db: Rows, o: Overlay, kind: Kind, a: Action)
    requires !a.Finish?
    ensures var (o', answer) := Exec(db, o, SetLocal(CLEAN, kind), a);
            Perform(Current(db, o), kind, a) == (Current(db, o'), answer)
  {
    match a
    case Select(where) => SelectAgrees(db, o, kind, where);
    case Insert(k, r) =>
      PoliciesExactly(kind, k, r);
      InsertAgrees(db, o, k, r);
    case Update(where, change) =>
      UpdateAgrees(db, o, kind, where, change);
      TargetsAreHits(db, o, kind, where);
    case Delete(where) =>
      DeleteAgrees(db, o, kind, where);
      TargetsAreHits(db, o, kind, where);
  }

  lemma {:induction false} RestAgrees(db: Rows, o: Overlay, kind: Kind, p: Program, answers: seq<Answer>)
    ensures Complete(db, Tx(kind, SetLocal(CLEAN, kind), o, answers, p))
         == Conduct(db, Current(db, o), kind, p, answers)
    decreases p.limit - |answers|
  {
    if |answers| < p.limit {
      var a := p.decide(answers);
      if !a.Finish? {
        StatementAgrees(db, o, kind, a);
        var (o', answer) := Exec(db, o, SetLocal(CLEAN, kind), a);
        if !answer.Denied? { RestAgrees(db, o', kind, p, answers + [answer]); }
      }
    }
  }

  /**
   * A transaction works on a private copy of the database, sees and changes there exactly the rows of its kind, and
   * publishes the copy if and only if it commits; a malformed identifier is refused and nothing happens.
   */
  lemma TransactionIsPrivate(db: Rows, kind: Kind, p: Program)
    ensures Alone(db, kind, p)
         == if Proper(kind) then Conduct(db, db, kind, p, []) else (db, Result(kind, [], Refused))
  {
    ConformsExactly(kind);
    if Proper(kind) {
      RestAgrees(db, map[], kind, p, []);
      assert Current(db, map[]) == db;
    }
  }

  // ------------------------------------------------------- three short programs

  /** The answers so far are kept. */
  lemma {:induction false} AnswersStay(db: Rows, view: Rows, kind: Kind, p: Program, answers: seq<Answer>)
    ensures answers <= Conduct(db, view, kind, p, answers).1.answers
    decreases p.limit - |answers|
  {
    if |answers| < p.limit {
      var a := p.decide(answers);
      if !a.Finish? {
        var (view', answer) := Perform(view, kind, a);
        if !answer.Denied? { AnswersStay(db, view', kind, p, answers + [answer]); }
      }
    }
  }

  /** A first SELECT answers the matching rows of the tenant, of the user, of the keys or of the platform. */
  lemma FirstSelect(db: Rows, kind: Kind, p: Program, where: (Key, Row) -> bool)
    requires Proper(kind) && p.limit > 0 && p.decide([]) == Select(where)
    ensures var answers := Alone(db, kind, p).1.answers;
            answers != [] && answers[0] == match kind
              case Tenant(org) => Found(map k | k in db && k.org == org && where(k, db[k]) :: db[k])
              case User(user) =>
                Found(map k | k in db && k.table == Memberships && db[k].user == user && where(k, db[k]) :: db[k])
              case AgentLookup => Found(map k | k in db && k.table == ApiCredentials && where(k, db[k]) :: db[k])
              case PlatformAdmin => Found(map k | k in db && k.table == PlatformVisible && where(k, db[k]) :: db[k])
  {
    TransactionIsPrivate(db, kind, p);
    var answer := Perform(db, kind, Select(where)).1;
    assert [] + [answer] == [answer];
    AnswersStay(db, db, kind, p, [answer]);
  }

  /** An INSERT goes through for the rows of the tenant or of the platform, and stays if and only if it commits. */
  lemma InsertThenFinish(db: Rows, kind: Kind, p: Program, k: Key, r: Row, ok: bool)
    requires Proper(kind) && p.limit > 1 && p.decide([]) == Insert(k, r) && p.decide([Affected(1)]) == Finish(ok)
    ensures var may := k !in db && match kind
                                   case Tenant(org) => k.org == org
                                   case PlatformAdmin => k.table == PlatformVisible
                                   case _ => false;
            Alone(db, kind, p) == if !may then (db, Result(kind, [Denied], RolledBack))
                                  else if ok then (db[k := r], Result(kind, [Affected(1)], Committed))
                                  else (db, Result(kind, [Affected(1)], RolledBack))
  {
    TransactionIsPrivate(db, kind, p);
    var (view, answer) := Perform(db, kind, Insert(k, r));
    if answer.Denied? {
      assert [] + [Denied] == [Denied];
    } else {
      assert [] + [answer] == [Affected(1)];
      assert Conduct(db, db, kind, p, []) == Conduct(db, view, kind, p, [Affected(1)]);
    }
  }
}
