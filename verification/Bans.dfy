/** The ban registry of one organization: sanctions, review queue, appeals and detector feedback. */
module Bans {
  import opened Text

  datatype Status = PENDING | ACTIVE | LIFTED | KICKED | DISMISSED
  datatype Verdict = FALSE_POSITIVE | CONFIRMED
  datatype AppealStatus = OPEN | APPROVED | REJECTED

  datatype Ban = Ban(scope: string, identifier: string, serverId: Option<string>, status: Status,
                     reason: string, playerName: Option<string>, expires: Option<int>,
                     detector: Option<string>, reviewed: bool)

  datatype Feedback = Feedback(banId: string, detector: string, verdict: Verdict)

  datatype Appeal = Appeal(banId: Option<string>, status: AppealStatus)

  /** 404, 409, or the ban that the appeal was about. */
  datatype AppealReply = NotFound | AlreadyResolved | Resolved(banId: Option<string>)

  datatype Registry = Registry(bans: map<string, Ban>, feedback: seq<Feedback>, appeals: map<string, Appeal>)

  /** The columns of the partial unique index; a missing server counts as the empty text. */
  datatype Key = Key(scope: string, identifier: string, server: string)

  function ServerText(s: Option<string>): string { if s.Some? then s.value else "" }

  function KeyOf(b: Ban): Key { Key(b.scope, b.identifier, ServerText(b.serverId)) }

  predicate OneActive(bans: map<string, Ban>)
  {
    forall i, j | i in bans && j in bans ::
      bans[i].status == ACTIVE && bans[j].status == ACTIVE && KeyOf(bans[i]) == KeyOf(bans[j]) ==> i == j
  }

  function SetStatus(bans: map<string, Ban>, id: string, s: Status): map<string, Ban>
  {
    if id in bans then bans[id := bans[id].(status := s)] else bans
  }

  // ------------------------------------------------------------ bans in force

  ghost predicate SameTarget(a: Ban, b: Ban)
  {
    && a.scope == b.scope && a.identifier == b.identifier
    && (match a.serverId case Some(s) => s case None => "") == (match b.serverId case Some(s) => s case None => "")
  }

  /** A ban of the same scope, identifier and server is in force under this id. */
  ghost predicate InForce(bans: map<string, Ban>, id: string, b: Ban)
  {
    id in bans && bans[id].status == ACTIVE && SameTarget(bans[id], b)
  }

  ghost predicate AnyInForce(bans: map<string, Ban>, b: Ban) { exists id :: InForce(bans, id, b) }

  lemma InForceIs(bans: map<string, Ban>, b: Ban)
    ensures forall id :: Holder(bans, id, KeyOf(b)) <==> InForce(bans, id, b)
    ensures Occupied(bans, KeyOf(b)) <==> AnyInForce(bans, b)
  {
    if Occupied(bans, KeyOf(b)) {
      var id :| id in bans && Holder(bans, id, KeyOf(b));
      assert InForce(bans, id, b);
    }
    if AnyInForce(bans, b) {
      var id :| InForce(bans, id, b);
      assert Holder(bans, id, KeyOf(b));
    }
  }

  /** A ban can be added under a new id, and an active one only where none is in force. */
  ghost predicate Fits(bans: map<string, Ban>, id: string, b: Ban)
  {
    id !in bans && (b.status == ACTIVE ==> !AnyInForce(bans, b))
  }

  lemma IndexAfterInsert(bans: map<string, Ban>, id: string, b: Ban)
    requires OneActive(bans) && id !in bans
    ensures OneActive(bans[id := b]) <==> Fits(bans, id, b)
  {
    InForceIs(bans, b);
    var after := bans[id := b];
    if b.status == ACTIVE && AnyInForce(bans, b) {
      var j :| InForce(bans, j, b);
      assert after[j] == bans[j] && after[id] == b && KeyOf(after[j]) == KeyOf(after[id]);
    } else {
      forall i, j | i in after && j in after && after[i].status == ACTIVE && after[j].status == ACTIVE
                    && KeyOf(after[i]) == KeyOf(after[j])
        ensures i == j
      {
        if i == id && j != id { assert Holder(bans, j, KeyOf(b)); }
      }
    }
  }

  // -------------------------------------------------------------- transactions

  datatype Decision = Confirm | Kick | FalsePositive

  datatype Op =
    | Sanction(id: string, critical: bool, ban: Ban)      // an agent alert that carries a sanction
    | ManualPending(id: string, ban: Ban)
    | ManualActive(id: string, ban: Ban)
    | Lift(id: string)
    | Review(id: string, decision: Decision)
    | SubmitAppeal(appealId: string, identifier: string, latest: string)
    | ResolveAppeal(appealId: string, approve: bool)

  /** A statement that would break an index aborts its transaction. */
  datatype Outcome = Done(registry: Registry, found: bool) | Aborted

  function Insert(r: Registry, id: string, b: Ban): Outcome
  {
    if id in r.bans then Aborted
    else
      var bans := r.bans[id := b];
      if OneActive(bans) then Done(r.(bans := bans), true) else Aborted
  }

  predicate Holder(bans: map<string, Ban>, id: string, k: Key)
  {
    id in bans && bans[id].status == ACTIVE && KeyOf(bans[id]) == k
  }

  predicate Occupied(bans: map<string, Ban>, k: Key)
  {
    exists id | id in bans :: Holder(bans, id, k)
  }

  predicate AwaitsReview(bans: map<string, Ban>, b: Ban)
  {
    b.detector.Some? && exists id | id in bans ::
      bans[id].status == PENDING && bans[id].scope == b.scope && bans[id].identifier == b.identifier
      && bans[id].detector == b.detector
  }

  function Retire(bans: map<string, Ban>, k: Key): (r: map<string, Ban>)
    ensures r.Keys == bans.Keys
  {
    map id | id in bans :: if Holder(bans, id, k) then bans[id].(status := LIFTED) else bans[id]
  }

  /** A new ban of a banned identifier replaces reason and expiry, and the name if it brings one. */
  function Renew(held: Ban, b: Ban): Ban
  {
    held.(reason := b.reason, expires := b.expires,
          playerName := if b.playerName.Some? then b.playerName else held.playerName)
  }

  function Refresh(bans: map<string, Ban>, k: Key, b: Ban): (r: map<string, Ban>)
    ensures r.Keys == bans.Keys
  {
    map id | id in bans :: if Holder(bans, id, k) then Renew(bans[id], b) else bans[id]
  }

  /** A missing or empty detector leaves nothing to calibrate. */
  function FeedbackFor(id: string, b: Ban, v: Verdict): seq<Feedback>
  {
    if b.detector.None? || b.detector.value == "" then [] else [Feedback(id, b.detector.value, v)]
  }

  function Decide(r: Registry, id: string, d: Decision): Outcome
  {
    if id !in r.bans || r.bans[id].status != PENDING then Done(r, false)
    else
      var b := r.bans[id];
      match d
      case Confirm =>
        var bans := Retire(r.bans, KeyOf(b));
        var confirmed := bans[id := b.(status := ACTIVE, reviewed := true)];
        if !OneActive(confirmed) then Aborted
        else Done(r.(bans := confirmed, feedback := r.feedback + FeedbackFor(id, b, CONFIRMED)), true)
      case Kick =>
        Done(r.(bans := r.bans[id := b.(status := KICKED, reviewed := true)],
                feedback := r.feedback + FeedbackFor(id, b, CONFIRMED)), true)
      case FalsePositive =>
        Done(r.(bans := r.bans[id := b.(status := DISMISSED, reviewed := true)],
                feedback := r.feedback + FeedbackFor(id, b, FALSE_POSITIVE)), true)
  }

  function LiftActive(r: Registry, id: string): Registry
  {
    if id in r.bans && r.bans[id].status == ACTIVE then r.(bans := SetStatus(r.bans, id, LIFTED)) else r
  }

  function Execute(r: Registry, op: Op): Outcome
  {
    match op
    case Sanction(id, critical, b) =>
      if critical then
        if Occupied(r.bans, KeyOf(b)) then Done(r, false)
        else Insert(r, id, b.(status := ACTIVE, expires := None, reviewed := false))
      else if AwaitsReview(r.bans, b) then Done(r, false)
      else Insert(r, id, b.(status := PENDING, expires := None, reviewed := false))
    case ManualPending(id, b) => Insert(r, id, b.(status := PENDING, expires := None, reviewed := false))
    case ManualActive(id, b) =>
      if Occupied(r.bans, KeyOf(b)) then Done(r.(bans := Refresh(r.bans, KeyOf(b), b)), true)
      else Insert(r, id, b.(status := ACTIVE, reviewed := false, detector := None))
    case Lift(id) => Done(LiftActive(r, id), id in r.bans && r.bans[id].status == ACTIVE)
    case Review(id, d) => Decide(r, id, d)
    case SubmitAppeal(appealId, identifier, latest) =>
      if appealId in r.appeals then Aborted
      else if latest in r.bans && r.bans[latest].status == ACTIVE && r.bans[latest].identifier == identifier then
        Done(r.(appeals := r.appeals[appealId := Appeal(Some(latest), OPEN)]), true)
      else Done(r, false)
    case ResolveAppeal(appealId, approve) =>
      if appealId !in r.appeals || r.appeals[appealId].status != OPEN then Done(r, false)
      else
        var a := r.appeals[appealId];
        var decided := r.(appeals := r.appeals[appealId := a.(status := if approve then APPROVED else REJECTED)]);
        Done(if approve && a.banId.Some? then LiftActive(decided, a.banId.value) else decided, true)
  }

  function Apply(r: Registry, op: Op): Registry
  {
    match Execute(r, op) case Done(r', _) => r' case Aborted => r
  }

  function Run(r: Registry, ops: seq<Op>): Registry
    decreases |ops|
  {
    if ops == [] then r else Run(Apply(r, ops[0]), ops[1..])
  }

  const EMPTY: Registry := Registry(map[], [], map[])

  // ------------------------------------------------------------ the registry

  datatype Alert = Alert(banId: string, critical: bool, ban: Ban)

  function SanctionOp(a: Alert): Op { Sanction(a.banId, a.critical, a.ban) }

  function SanctionOps(alerts: seq<Alert>): seq<Op>
  {
    seq(|alerts|, i requires 0 <= i < |alerts| => SanctionOp(alerts[i]))
  }

  /** The bans that a batch of alerts creates, or None when an insertion aborts the transaction. */
  function Batch(r: Registry, alerts: seq<Alert>): Option<(Registry, seq<string>)>
    decreases |alerts|
  {
    if alerts == [] then Some((r, []))
    else
      var n := |alerts| - 1;
      match Batch(r, alerts[..n])
      case None => None
      case Some((mid, ids)) =>
        match Execute(mid, SanctionOp(alerts[n]))
        case Aborted => None
        case Done(r', found) => Some((r', if found then ids + [alerts[n].banId] else ids))
  }

  /** A ban as it is first stored: pending ones carry their detector, active ones their expiry. */
  ghost function New(b: Ban, pending: bool): Ban
  {
    if pending then
      Ban(b.scope, b.identifier, b.serverId, PENDING, b.reason, b.playerName, None, b.detector, false)
    else Ban(b.scope, b.identifier, b.serverId, ACTIVE, b.reason, b.playerName, b.expires, None, false)
  }

  /** Banned again: new reason and expiry, the new name if there is one, and nothing else. */
  ghost predicate Renewed(before: Ban, after: Ban, b: Ban)
  {
    && after.reason == b.reason && after.expires == b.expires
    && after.playerName == (match b.playerName case Some(_) => b.playerName case None => before.playerName)
    && after.(reason := "", expires := None, playerName := None)
    == before.(reason := "", expires := None, playerName := None)
  }

  /** The three decisions on a pending ban. */
  ghost predicate Decided(before: Ban, after: Ban, d: Decision)
  {
    && before.status == PENDING && after.reviewed
    && after.status == (match d case Confirm => ACTIVE case Kick => KICKED case FalsePositive => DISMISSED)
    && after.(status := PENDING, reviewed := false) == before.(reviewed := false)
  }

  /** What a review tells the detector that proposed the ban, if there is one. */
  ghost function Report(id: string, b: Ban, d: Decision): seq<Feedback>
  {
    match b.detector
    case None => []
    case Some(name) =>
      if name == "" then [] else [Feedback(id, name, if d.FalsePositive? then FALSE_POSITIVE else CONFIRMED)]
  }

  /** Confirming never trips over the unique index: the ban in force is lifted first. */
  lemma ConfirmKeepsOneActive(bans: map<string, Ban>, id: string)
    requires OneActive(bans) && id in bans
    ensures OneActive(Retire(bans, KeyOf(bans[id]))[id := bans[id].(status := ACTIVE, reviewed := true)])
  {
    var k := KeyOf(bans[id]);
    var r := Retire(bans, k)[id := bans[id].(status := ACTIVE, reviewed := true)];
    forall i, j | i in r && j in r && r[i].status == ACTIVE && r[j].status == ACTIVE && KeyOf(r[i]) == KeyOf(r[j])
      ensures i == j
    {
      assert i != id ==> bans[i].status == ACTIVE && !Holder(bans, i, k);
      assert j != id ==> bans[j].status == ACTIVE && !Holder(bans, j, k);
    }
  }

  /** What a decision does to every ban and to the feedback. */
  lemma DecideExactly(r: Registry, id: string, d: Decision)
    ensures !(id in r.bans && r.bans[id].status == PENDING) ==> Decide(r, id, d) == Done(r, false)
    ensures id in r.bans && r.bans[id].status == PENDING && OneActive(r.bans) ==> Decide(r, id, d).Done?
    ensures id in r.bans && r.bans[id].status == PENDING && Decide(r, id, d).Done? ==>
              DecidedRegistry(r, Decide(r, id, d).registry, id, d) && Decide(r, id, d).found
  {
    if id in r.bans && r.bans[id].status == PENDING {
      InForceIs(r.bans, r.bans[id]);
      if OneActive(r.bans) { ConfirmKeepsOneActive(r.bans, id); }
    }
  }

  ghost predicate DecidedRegistry(before: Registry, after: Registry, id: string, d: Decision)
    requires id in before.bans
  {
    && after.bans.Keys == before.bans.Keys && Decided(before.bans[id], after.bans[id], d)
    && after.feedback == before.feedback + Report(id, before.bans[id], d) && after.appeals == before.appeals
    && forall j | j in before.bans && j != id ::
         after.bans[j] == if d == Confirm && InForce(before.bans, j, before.bans[id])
                          then before.bans[j].(status := LIFTED) else before.bans[j]
  }

  // ------------------------------------------------------- alerts and appeals

  /**
   * A critical alert bans at once unless a ban of its target is in force; any other queues a ban for review unless
   * one of its target and detector is queued already.
   */
  lemma SanctionExactly(r: Registry, id: string, critical: bool, b: Ban)
    requires OneActive(r.bans) && id !in r.bans
    ensures var queued := exists j | j in r.bans ::
              r.bans[j].status == PENDING && r.bans[j].scope == b.scope && r.bans[j].identifier == b.identifier
              && r.bans[j].detector.Some? && r.bans[j].detector == b.detector;
            Execute(r, Sanction(id, critical, b))
            == if critical then
                 if AnyInForce(r.bans, b) then Done(r, false)
                 else Done(r.(bans := r.bans[id := b.(status := ACTIVE, expires := None, reviewed := false)]), true)
               else if queued then Done(r, false)
               else Done(r.(bans := r.bans[id := b.(status := PENDING, expires := None, reviewed := false)]), true)
  {
    InForceIs(r.bans, b);
    var active := b.(status := ACTIVE, expires := None, reviewed := false);
    var pending := b.(status := PENDING, expires := None, reviewed := false);
    IndexAfterInsert(r.bans, id, pending);
    IndexAfterInsert(r.bans, id, active);
    InForceIs(r.bans, active);
  }

  /** An appeal is filed against an active ban of its identifier, and against nothing else. */
  lemma AppealExactly(r: Registry, appealId: string, identifier: string, latest: string)
    requires appealId !in r.appeals
    ensures Execute(r, SubmitAppeal(appealId, identifier, latest))
         == if latest in r.bans && r.bans[latest].status == ACTIVE && r.bans[latest].identifier == identifier
            then Done(Registry(r.bans, r.feedback, r.appeals[appealId := Appeal(Some(latest), OPEN)]), true)
            else Done(r, false)
  {
  }

  class BanRegistry {
    var bans: map<string, Ban>
    var feedback: seq<Feedback>
    var appeals: map<string, Appeal>

    function View(): Registry
      reads this
    {
      Registry(bans, feedback, appeals)
    }

    constructor ()
      ensures View() == EMPTY
    {
      bans, feedback, appeals := map[], [], map[];
    }

    method InsertBan(id: string, b: Ban) returns (ok: bool)
      modifies this`bans
      ensures ok == Insert(old(View()), id, b).Done?
      ensures ok ==> Insert(old(View()), id, b) == Done(View(), true)
      ensures !ok ==> View() == old(View())
      ensures ok ==> bans == old(bans)[id := b]
      ensures OneActive(old(bans)) ==> (ok <==> Fits(old(bans), id, b))
    {
      if id in bans {
        return false;
      }
      if OneActive(bans) { IndexAfterInsert(bans, id, b); }
      var work := bans[id := b];
      ok := OneActive(work);
      if ok {
        bans := work;
      }
    }

    /** The sanctions of one batch of alerts, in one transaction: all of them or none. */
    method Alerts(alerts: seq<Alert>) returns (created: seq<string>, ok: bool)
      modifies this
      ensures ok == Batch(old(View()), alerts).Some?
      ensures ok ==> Batch(old(View()), alerts) == Some((View(), created))
      ensures !ok ==> View() == old(View()) && created == []
    {
      var saved := bans;
      created, ok := [], true;
      for i := 0 to |alerts|
        invariant ok && Batch(old(View()), alerts[..i]) == Some((View(), created))
        invariant saved == old(bans) && feedback == old(feedback) && appeals == old(appeals)
      {
        var a := alerts[i];
        assert alerts[..i + 1][..i] == alerts[..i];
        if a.critical {
          if !Occupied(bans, KeyOf(a.ban)) {
            ok := InsertBan(a.banId, a.ban.(status := ACTIVE, expires := None, reviewed := false));
            created := created + [a.banId];
          }
        } else if !AwaitsReview(bans, a.ban) {
          ok := InsertBan(a.banId, a.ban.(status := PENDING, expires := None, reviewed := false));
          created := created + [a.banId];
        }
        if !ok {
          bans := saved;
          BatchAborts(old(View()), alerts, i + 1);
          return [], false;
        }
      }
      assert alerts[..|alerts|] == alerts;
    }

    /** Re-banning an identifier that is already banned updates that ban, and answers with its id. */
    method CreateBan(id: string, b: Ban, pending: bool) returns (banId: string, ok: bool)
      modifies this
      ensures ok == Execute(old(View()), if pending then ManualPending(id, b) else ManualActive(id, b)).Done?
      ensures ok ==> Execute(old(View()), if pending then ManualPending(id, b) else ManualActive(id, b))
                     == Done(View(), true)
      ensures View() == Apply(old(View()), if pending then ManualPending(id, b) else ManualActive(id, b))
      ensures ok && (pending || !Occupied(old(bans), KeyOf(b))) ==> banId == id
      ensures ok && !pending && Occupied(old(bans), KeyOf(b)) ==> Holder(old(bans), banId, KeyOf(b))
      ensures ok && !pending ==> Holder(bans, banId, KeyOf(b)) && bans[banId].reason == b.reason
      ensures OneActive(old(bans)) && id !in old(bans) ==> ok
      ensures ok && (pending || !AnyInForce(old(bans), b)) ==>
                banId == id && bans == old(bans)[id := New(b, pending)]
      ensures ok && !pending && AnyInForce(old(bans), b) ==>
                InForce(old(bans), banId, b) && bans.Keys == old(bans).Keys && Renewed(old(bans)[banId], bans[banId], b)
                && forall j | j in bans && !InForce(old(bans), j, b) :: bans[j] == old(bans)[j]
      ensures !ok ==> bans == old(bans)
      ensures feedback == old(feedback) && appeals == old(appeals)
    {
      banId := id;
      InForceIs(bans, b);
      if pending {
        ok := InsertBan(id, b.(status := PENDING, expires := None, reviewed := false));
      } else if Occupied(bans, KeyOf(b)) {
        banId :| banId in bans && Holder(bans, banId, KeyOf(b));
        bans := Refresh(bans, KeyOf(b), b);
        ok := true;
      } else {
        ok := InsertBan(id, b.(status := ACTIVE, reviewed := false, detector := None));
      }
    }

    method LiftBan(id: string) returns (lifted: bool)
      modifies this`bans
      ensures View() == Apply(old(View()), Lift(id))
      ensures Execute(old(View()), Lift(id)) == Done(View(), lifted)
      ensures lifted <==> id in old(bans) && old(bans)[id].status == ACTIVE
      ensures bans == if lifted then old(bans)[id := old(bans)[id].(status := LIFTED)] else old(bans)
    {
      lifted := id in bans && bans[id].status == ACTIVE;
      if lifted {
        bans := bans[id := bans[id].(status := LIFTED)];
      }
    }

    /** Confirming lifts the ban in force for the same identifier first, then activates this one. */
    method ReviewBan(id: string, d: Decision) returns (ok: bool)
      modifies this
      ensures View() == Apply(old(View()), Review(id, d))
      ensures ok <==> (match Execute(old(View()), Review(id, d)) case Done(_, found) => found case Aborted => false)
      ensures OneActive(old(bans)) ==> (ok <==> id in old(bans) && old(bans)[id].status == PENDING)
      ensures !ok ==> View() == old(View())
      ensures ok ==> id in old(bans) && DecidedRegistry(old(View()), View(), id, d)
    {
      DecideExactly(View(), id, d);
      if id !in bans || bans[id].status != PENDING {
        return false;
      }
      var b := bans[id];
      var work := bans;
      if d == Confirm {
        work := Retire(work, KeyOf(b));
        work := work[id := work[id].(status := ACTIVE, reviewed := true)];
        if !OneActive(work) {
          return false;
        }
      } else {
        work := work[id := work[id].(status := if d == Kick then KICKED else DISMISSED, reviewed := true)];
      }
      bans := work;
      if b.detector.Some? && b.detector.value != "" {
        var verdict := if d == FalsePositive then FALSE_POSITIVE else CONFIRMED;
        feedback := feedback + [Feedback(id, b.detector.value, verdict)];
      }
      return true;
    }

    method ResolveOneAppeal(appealId: string, approve: bool) returns (reply: AppealReply)
      modifies this
      ensures Execute(old(View()), ResolveAppeal(appealId, approve)) == Done(View(), reply.Resolved?)
      ensures reply == if appealId !in old(appeals) then NotFound
                       else if old(appeals)[appealId].status != OPEN then AlreadyResolved
                       else Resolved(old(appeals)[appealId].banId)
      ensures !reply.Resolved? ==> View() == old(View())
      ensures reply.Resolved? ==>
                && appeals == old(appeals)[appealId := Appeal(reply.banId, if approve then APPROVED else REJECTED)]
                && feedback == old(feedback) && bans.Keys == old(bans).Keys
                && forall j | j in bans ::
                     bans[j] == if approve && reply.banId == Some(j) && old(bans)[j].status == ACTIVE
                                then old(bans)[j].(status := LIFTED) else old(bans)[j]
    {
      if appealId !in appeals {
        return NotFound;
      }
      if appeals[appealId].status != OPEN {
        return AlreadyResolved;
      }
      var banId := appeals[appealId].banId;
      appeals := appeals[appealId := appeals[appealId].(status := if approve then APPROVED else REJECTED)];
      if approve && banId.Some? && banId.value in bans && bans[banId.value].status == ACTIVE {
        bans := bans[banId.value := bans[banId.value].(status := LIFTED)];
      }
      return Resolved(banId);
    }
  }

  lemma {:induction false} BatchAborts(r: Registry, alerts: seq<Alert>, n: nat)
    requires n <= |alerts| && Batch(r, alerts[..n]) == None
    ensures Batch(r, alerts) == None
    decreases |alerts| - n
  {
    if n == |alerts| {
      assert alerts[..n] == alerts;
    } else {
      assert alerts[..n + 1][..n] == alerts[..n];
      BatchAborts(r, alerts, n + 1);
    }
  }

  /** A batch that commits is the run of its sanctions. */
  lemma {:induction false} BatchIsRun(r: Registry, alerts: seq<Alert>)
    requires Batch(r, alerts).Some?
    ensures Batch(r, alerts).value.0 == Run(r, SanctionOps(alerts))
    decreases |alerts|
  {
    if alerts != [] {
      var n := |alerts| - 1;
      BatchIsRun(r, alerts[..n]);
      assert SanctionOps(alerts) == SanctionOps(alerts[..n]) + [SanctionOp(alerts[n])];
      Unroll(r, SanctionOps(alerts[..n]), [SanctionOp(alerts[n])]);
      var mid := Run(r, SanctionOps(alerts[..n]));
      assert Run(Apply(mid, SanctionOp(alerts[n])), []) == Apply(mid, SanctionOp(alerts[n]));
    }
  }

  lemma {:induction false} Unroll(r: Registry, a: seq<Op>, b: seq<Op>)
    ensures Run(r, a + b) == Run(Run(r, a), b)
    decreases |a|
  {
    if a == [] {
      assert a + b == b;
    } else {
      assert (a + b)[0] == a[0] && (a + b)[1..] == a[1..] + b;
      Unroll(Apply(r, a[0]), a[1..], b);
    }
  }

  lemma SanctionAdds(r: Registry, a: Alert)
    requires Execute(r, SanctionOp(a)).Done?
    ensures var o := Execute(r, SanctionOp(a));
            && o.registry.feedback == r.feedback && o.registry.appeals == r.appeals
            && (!o.found ==> o.registry.bans == r.bans)
            && (o.found ==> a.banId !in r.bans && a.banId in o.registry.bans
                            && o.registry.bans == r.bans[a.banId := o.registry.bans[a.banId]])
  {
  }

  /** These bans, each once, are new in the registry, and nothing else has changed. */
  ghost predicate Adds(r: Registry, after: Registry, ids: seq<string>)
  {
    && after.feedback == r.feedback && after.appeals == r.appeals
    && (forall id :: id in after.bans <==> id in r.bans || id in ids) && |after.bans| == |r.bans| + |ids|
    && forall id | id in r.bans :: after.bans[id] == r.bans[id]
  }

  lemma AddsOneMore(r: Registry, mid: Registry, ids: seq<string>, id: string, b: Ban)
    requires Adds(r, mid, ids) && id !in mid.bans
    ensures Adds(r, mid.(bans := mid.bans[id := b]), ids + [id])
  {
    var after := mid.bans[id := b];
    assert after.Keys == mid.bans.Keys + {id} && |after.Keys| == |mid.bans.Keys| + 1;
  }

  /** The identifiers that a batch answers with are those of the bans it has added, each once. */
  lemma {:induction false} BatchCreates(r: Registry, alerts: seq<Alert>)
    requires Batch(r, alerts).Some?
    ensures Adds(r, Batch(r, alerts).value.0, Batch(r, alerts).value.1)
    decreases |alerts|
  {
    if alerts != [] {
      var n := |alerts| - 1;
      BatchCreates(r, alerts[..n]);
      var mid, ids := Batch(r, alerts[..n]).value.0, Batch(r, alerts[..n]).value.1;
      var o := Execute(mid, SanctionOp(alerts[n]));
      SanctionAdds(mid, alerts[n]);
      if o.found {
        AddsOneMore(r, mid, ids, alerts[n].banId, o.registry.bans[alerts[n].banId]);
        assert o.registry == mid.(bans := o.registry.bans);
      } else {
        assert o.registry == mid;
      }
    }
  }
}
