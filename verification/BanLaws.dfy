/** What every run of the ban registry keeps. */
module BanLaws {
  import opened Text
  import opened Bans

  // --------------------------------------------------- one active ban per key

  lemma RetiredHasNoHolder(bans: map<string, Ban>, k: Key, id: string)
    ensures !Holder(Retire(bans, k), id, k)
  {
  }

  predicate FreshIds(r: Registry, op: Op)
  {
    match op
    case Sanction(id, _, _) => id !in r.bans
    case ManualPending(id, _) => id !in r.bans
    case ManualActive(id, _) => id !in r.bans
    case SubmitAppeal(appealId, _, _) => appealId !in r.appeals
    case _ => true
  }

  lemma InsertFreeKey(r: Registry, id: string, b: Ban)
    requires OneActive(r.bans) && id !in r.bans
    requires b.status == ACTIVE ==> !Occupied(r.bans, KeyOf(b))
    ensures Insert(r, id, b).Done?
  {
    var bans := r.bans[id := b];
    forall i, j | i in bans && j in bans && bans[i].status == ACTIVE && bans[j].status == ACTIVE
                  && KeyOf(bans[i]) == KeyOf(bans[j])
      ensures i == j
    {
      assert i != id ==> Holder(r.bans, i, KeyOf(bans[i]));
      assert j != id ==> Holder(r.bans, j, KeyOf(bans[j]));
    }
  }

  /** With fresh ids no transaction is aborted by an index, whatever the registry has been through. */
  lemma NeverAborted(r: Registry, op: Op)
    requires OneActive(r.bans) && FreshIds(r, op)
    ensures Execute(r, op).Done?
  {
    match op
    case Sanction(id, critical, b) =>
      if critical {
        if !Occupied(r.bans, KeyOf(b)) {
          InsertFreeKey(r, id, b.(status := ACTIVE, expires := None, reviewed := false));
        }
      } else if !AwaitsReview(r.bans, b) {
        InsertFreeKey(r, id, b.(status := PENDING, expires := None, reviewed := false));
      }
    case ManualPending(id, b) => InsertFreeKey(r, id, b.(status := PENDING, expires := None, reviewed := false));
    case ManualActive(id, b) =>
      if !Occupied(r.bans, KeyOf(b)) {
        InsertFreeKey(r, id, b.(status := ACTIVE, reviewed := false, detector := None));
      }
    case Lift(id) =>
    case Review(id, d) => if id in r.bans { ConfirmKeepsOneActive(r.bans, id); }
    case SubmitAppeal(appealId, identifier, latest) =>
    case ResolveAppeal(appealId, approve) =>
  }

  // -------------------------------------- refinement of a map from keys to bans

  /** What a transaction means for the bans in force. */
  datatype Change = Same | PutIfAbsent(key: Key, id: string) | Put(key: Key, id: string) | Drop(id: string)

  function ChangeOf(r: Registry, op: Op): Change
  {
    match op
    case Sanction(id, critical, b) => if critical && id !in r.bans then PutIfAbsent(KeyOf(b), id) else Same
    case ManualPending(_, _) => Same
    case ManualActive(id, b) => if id !in r.bans then PutIfAbsent(KeyOf(b), id) else Same
    case Lift(id) => Drop(id)
    case Review(id, d) =>
      if d == Confirm && id in r.bans && r.bans[id].status == PENDING then Put(KeyOf(r.bans[id]), id) else Same
    case SubmitAppeal(_, _, _) => Same
    case ResolveAppeal(a, approve) =>
      if approve && a in r.appeals && r.appeals[a].status == OPEN && r.appeals[a].banId.Some?
      then Drop(r.appeals[a].banId.value) else Same
  }

  function Effect(m: map<Key, string>, c: Change): map<Key, string>
  {
    match c
    case Same => m
    case PutIfAbsent(k, id) => if k in m then m else m[k := id]
    case Put(k, id) => m[k := id]
    case Drop(id) => map k | k in m && m[k] != id :: m[k]
  }

  /** The map and the table agree on the ban in force for every key. */
  ghost predicate Represents(m: map<Key, string>, bans: map<string, Ban>)
  {
    forall k, id :: Holder(bans, id, k) <==> k in m && m[k] == id
  }

  lemma RepresentsIsUnique(m: map<Key, string>, bans: map<string, Ban>)
    requires Represents(m, bans)
    ensures OneActive(bans)
  {
    forall i, j | i in bans && j in bans && bans[i].status == ACTIVE && bans[j].status == ACTIVE
                  && KeyOf(bans[i]) == KeyOf(bans[j])
      ensures i == j
    {
      assert Holder(bans, i, KeyOf(bans[i])) && Holder(bans, j, KeyOf(bans[i]));
    }
  }

  lemma OccupiedMeans(m: map<Key, string>, bans: map<string, Ban>, k: Key)
    requires Represents(m, bans)
    ensures Occupied(bans, k) <==> k in m
  {
    if k in m {
      assert Holder(bans, m[k], k);
    }
  }

  lemma InsertRepresents(m: map<Key, string>, r: Registry, id: string, b: Ban)
    requires Represents(m, r.bans) && id !in r.bans && (b.status == ACTIVE ==> KeyOf(b) !in m)
    ensures Insert(r, id, b).Done?
    ensures Represents(if b.status == ACTIVE then m[KeyOf(b) := id] else m, Insert(r, id, b).registry.bans)
  {
    RepresentsIsUnique(m, r.bans);
    OccupiedMeans(m, r.bans, KeyOf(b));
    InsertFreeKey(r, id, b);
    var m' := if b.status == ACTIVE then m[KeyOf(b) := id] else m;
    var bans' := r.bans[id := b];
    forall k, i ensures Holder(bans', i, k) <==> k in m' && m'[k] == i {
      assert Holder(r.bans, i, k) <==> k in m && m[k] == i;
      assert !Holder(r.bans, id, k);
    }
  }

  lemma ConfirmRepresents(m: map<Key, string>, bans: map<string, Ban>, id: string)
    requires Represents(m, bans) && id in bans && bans[id].status == PENDING
    ensures Represents(m[KeyOf(bans[id]) := id],
                       Retire(bans, KeyOf(bans[id]))[id := bans[id].(status := ACTIVE, reviewed := true)])
  {
    var own := KeyOf(bans[id]);
    var bans' := Retire(bans, own)[id := bans[id].(status := ACTIVE, reviewed := true)];
    forall k, i ensures Holder(bans', i, k) <==> k in m[own := id] && m[own := id][k] == i {
      assert Holder(bans, i, k) <==> k in m && m[k] == i;
    }
  }

  lemma LiftRepresents(m: map<Key, string>, r: Registry, id: string)
    requires Represents(m, r.bans)
    ensures Represents(Effect(m, Drop(id)), LiftActive(r, id).bans)
  {
    var m', bans' := Effect(m, Drop(id)), LiftActive(r, id).bans;
    forall k, i ensures Holder(bans', i, k) <==> k in m' && m'[k] == i {
      assert Holder(r.bans, i, k) <==> k in m && m[k] == i;
    }
  }

  lemma RefreshRepresents(m: map<Key, string>, bans: map<string, Ban>, key: Key, b: Ban)
    requires Represents(m, bans)
    ensures Represents(m, Refresh(bans, key, b))
  {
    forall k, i ensures Holder(Refresh(bans, key, b), i, k) <==> k in m && m[k] == i {
      assert Holder(bans, i, k) <==> k in m && m[k] == i;
    }
  }

  lemma UntouchedRepresents(m: map<Key, string>, bans: map<string, Ban>, id: string, b: Ban)
    requires Represents(m, bans) && id in bans && bans[id].status == PENDING && b.status != ACTIVE
    ensures Represents(m, bans[id := b])
  {
    var bans' := bans[id := b];
    forall k, i ensures Holder(bans', i, k) <==> k in m && m[k] == i {
      assert Holder(bans, i, k) <==> k in m && m[k] == i;
    }
  }

  /** One transaction on the table does to the map what its meaning says. */
  lemma StepRefines(m: map<Key, string>, r: Registry, op: Op)
    requires Represents(m, r.bans)
    ensures Represents(Effect(m, ChangeOf(r, op)), Apply(r, op).bans)
  {
    match op
    case Sanction(id, critical, b) =>
      OccupiedMeans(m, r.bans, KeyOf(b));
      if id !in r.bans {
        if critical {
          if KeyOf(b) !in m { InsertRepresents(m, r, id, b.(status := ACTIVE, expires := None, reviewed := false)); }
        } else {
          InsertRepresents(m, r, id, b.(status := PENDING, expires := None, reviewed := false));
        }
      }
    case ManualPending(id, b) =>
      if id !in r.bans { InsertRepresents(m, r, id, b.(status := PENDING, expires := None, reviewed := false)); }
    case ManualActive(id, b) =>
      OccupiedMeans(m, r.bans, KeyOf(b));
      RefreshRepresents(m, r.bans, KeyOf(b), b);
      if id !in r.bans && KeyOf(b) !in m {
        InsertRepresents(m, r, id, b.(status := ACTIVE, reviewed := false, detector := None));
      }
    case Lift(id) => LiftRepresents(m, r, id);
    case Review(id, d) =>
      if id in r.bans && r.bans[id].status == PENDING {
        var b := r.bans[id];
        RepresentsIsUnique(m, r.bans);
        ConfirmKeepsOneActive(r.bans, id);
        ConfirmRepresents(m, r.bans, id);
        UntouchedRepresents(m, r.bans, id, b.(status := KICKED, reviewed := true));
        UntouchedRepresents(m, r.bans, id, b.(status := DISMISSED, reviewed := true));
      }
    case SubmitAppeal(appealId, identifier, latest) =>
    case ResolveAppeal(appealId, approve) =>
      if appealId in r.appeals && r.appeals[appealId].banId.Some? {
        var a := r.appeals[appealId];
        var decided := r.(appeals := r.appeals[appealId := a.(status := if approve then APPROVED else REJECTED)]);
        LiftRepresents(m, decided, a.banId.value);
      }
  }

  function Effects(m: map<Key, string>, r: Registry, ops: seq<Op>): map<Key, string>
    decreases |ops|
  {
    if ops == [] then m else Effects(Effect(m, ChangeOf(r, ops[0])), Apply(r, ops[0]), ops[1..])
  }

  /** Over every run the table refines a map from (scope, identifier, server) to the single ban in force. */
  lemma {:induction false} RunRefines(m: map<Key, string>, r: Registry, ops: seq<Op>)
    requires Represents(m, r.bans)
    ensures Represents(Effects(m, r, ops), Run(r, ops).bans) && OneActive(Run(r, ops).bans)
    decreases |ops|
  {
    if ops == [] {
      RepresentsIsUnique(m, r.bans);
    } else {
      StepRefines(m, r, ops[0]);
      RunRefines(Effect(m, ChangeOf(r, ops[0])), Apply(r, ops[0]), ops[1..]);
    }
  }

  // ------------------------------------------------------------ status changes

  function Rank(s: Status): nat
  {
    match s
    case PENDING => 0
    case ACTIVE => 1
    case _ => 2
  }

  predicate Moves(a: Status, b: Status)
  {
    a == b || (a == PENDING && (b == ACTIVE || b == KICKED || b == DISMISSED)) || (a == ACTIVE && b == LIFTED)
  }

  /** A transaction keeps every ban, its key and its detector, and moves its status forward or not at all. */
  lemma StepMoves(r: Registry, op: Op, id: string)
    requires id in r.bans
    ensures var r' := Apply(r, op);
            && id in r'.bans && KeyOf(r'.bans[id]) == KeyOf(r.bans[id])
            && r'.bans[id].detector == r.bans[id].detector
            && Moves(r.bans[id].status, r'.bans[id].status)
  {
  }

  /** How often the status of a ban changes in a run. */
  function Changes(r: Registry, ops: seq<Op>, id: string): nat
    decreases |ops|
  {
    if ops == [] then 0
    else
      var r' := Apply(r, ops[0]);
      (if id in r.bans && id in r'.bans && r.bans[id].status != r'.bans[id].status then 1 else 0)
      + Changes(r', ops[1..], id)
  }

  lemma {:induction false} RankCountsChanges(r: Registry, ops: seq<Op>, id: string)
    requires id in r.bans
    ensures id in Run(r, ops).bans
    ensures Rank(r.bans[id].status) + Changes(r, ops, id) <= Rank(Run(r, ops).bans[id].status)
    decreases |ops|
  {
    if ops != [] {
      StepMoves(r, ops[0], id);
      RankCountsChanges(Apply(r, ops[0]), ops[1..], id);
    }
  }

  /** In any run from any registry a ban changes its status at most twice. */
  lemma {:induction false} AtMostTwoChanges(r: Registry, ops: seq<Op>, id: string)
    ensures Changes(r, ops, id) <= 2
    decreases |ops|
  {
    if id in r.bans {
      RankCountsChanges(r, ops, id);
    } else if ops != [] {
      AtMostTwoChanges(Apply(r, ops[0]), ops[1..], id);
    }
  }

  // ------------------------------------------------------------------ feedback

  function Rows(feedback: seq<Feedback>, id: string): nat
  {
    if feedback == [] then 0
    else Rows(feedback[..|feedback| - 1], id) + if feedback[|feedback| - 1].banId == id then 1 else 0
  }

  predicate HasDetector(b: Ban) { b.detector.Some? && b.detector.value != "" }

  ghost predicate RowOk(r: Registry, f: Feedback)
  {
    && f.banId in r.bans && r.bans[f.banId].reviewed && r.bans[f.banId].detector == Some(f.detector)
    && (f.verdict == FALSE_POSITIVE <==> r.bans[f.banId].status == DISMISSED)
  }

  /** One row for each reviewed ban that has a detector, none for the others, with the right verdict. */
  ghost predicate FeedbackConserved(r: Registry)
  {
    && (forall id | id in r.bans ::
          Rows(r.feedback, id) == if r.bans[id].reviewed && HasDetector(r.bans[id]) then 1 else 0)
    && (forall id | id in r.bans && r.bans[id].status == PENDING :: !r.bans[id].reviewed)
    && (forall i | 0 <= i < |r.feedback| :: RowOk(r, r.feedback[i]))
  }

  lemma RowsAppend(feedback: seq<Feedback>, f: Feedback, id: string)
    ensures Rows(feedback + [f], id) == Rows(feedback, id) + if f.banId == id then 1 else 0
  {
    assert (feedback + [f])[..|feedback|] == feedback;
  }

  lemma {:induction false} NoRowsForUnknown(r: Registry, feedback: seq<Feedback>, id: string)
    requires forall i | 0 <= i < |feedback| :: feedback[i].banId in r.bans
    requires id !in r.bans
    ensures Rows(feedback, id) == 0
  {
    if feedback != [] {
      NoRowsForUnknown(r, feedback[..|feedback| - 1], id);
    }
  }

  lemma InsertConserves(r: Registry, id: string, b: Ban)
    requires FeedbackConserved(r) && !b.reviewed && Insert(r, id, b).Done?
    ensures FeedbackConserved(Insert(r, id, b).registry)
  {
    var r' := Insert(r, id, b).registry;
    assert forall i | 0 <= i < |r.feedback| :: RowOk(r, r.feedback[i]);
    NoRowsForUnknown(r, r.feedback, id);
    forall i | 0 <= i < |r'.feedback| ensures RowOk(r', r'.feedback[i]) {
      assert RowOk(r, r.feedback[i]);
    }
  }

  /** Changing nothing but the status of bans that are not under review, and never to or from DISMISSED. */
  lemma QuietConserves(r: Registry, r': Registry)
    requires FeedbackConserved(r) && r'.feedback == r.feedback && r'.bans.Keys == r.bans.Keys
    requires forall id | id in r.bans ::
      && r'.bans[id].reviewed == r.bans[id].reviewed && r'.bans[id].detector == r.bans[id].detector
      && (r'.bans[id].status == r.bans[id].status || (r.bans[id].status == ACTIVE && r'.bans[id].status == LIFTED))
    ensures FeedbackConserved(r')
  {
    forall i | 0 <= i < |r'.feedback| ensures RowOk(r', r'.feedback[i]) {
      assert RowOk(r, r.feedback[i]);
    }
  }

  lemma FeedbackForRows(feedback: seq<Feedback>, id: string, b: Ban, v: Verdict, j: string)
    ensures Rows(feedback + FeedbackFor(id, b, v), j)
         == Rows(feedback, j) + if j == id && HasDetector(b) then 1 else 0
  {
    if HasDetector(b) {
      RowsAppend(feedback, Feedback(id, b.detector.value, v), j);
    } else {
      assert feedback + FeedbackFor(id, b, v) == feedback;
    }
  }

  /** The registry after a review of one pending ban. */
  ghost predicate Reviewed(r: Registry, id: string, b': Ban, v: Verdict, r': Registry)
  {
    && id in r.bans && r.bans[id].status == PENDING
    && b' == r.bans[id].(status := b'.status, reviewed := true) && b'.status != PENDING
    && (v == FALSE_POSITIVE <==> b'.status == DISMISSED)
    && r'.bans == r.bans[id := b'] && r'.feedback == r.feedback + FeedbackFor(id, r.bans[id], v)
  }

  lemma ReviewRowOk(r: Registry, id: string, b': Ban, v: Verdict, r': Registry, i: nat)
    requires FeedbackConserved(r) && Reviewed(r, id, b', v, r') && i < |r'.feedback|
    ensures RowOk(r', r'.feedback[i])
  {
    if i < |r.feedback| {
      var f := r.feedback[i];
      assert r'.feedback[i] == f && RowOk(r, f) && f.banId != id;
    } else {
      assert r'.feedback[i] == FeedbackFor(id, r.bans[id], v)[i - |r.feedback|];
    }
  }

  lemma ReviewRowCount(r: Registry, id: string, b': Ban, v: Verdict, r': Registry, j: string)
    requires FeedbackConserved(r) && Reviewed(r, id, b', v, r') && j in r'.bans
    ensures Rows(r'.feedback, j) == if r'.bans[j].reviewed && HasDetector(r'.bans[j]) then 1 else 0
  {
    FeedbackForRows(r.feedback, id, r.bans[id], v, j);
  }

  lemma ReviewConserves(r: Registry, id: string, b': Ban, v: Verdict, r': Registry)
    requires FeedbackConserved(r) && Reviewed(r, id, b', v, r')
    ensures FeedbackConserved(r')
  {
    forall j | j in r'.bans
      ensures Rows(r'.feedback, j) == if r'.bans[j].reviewed && HasDetector(r'.bans[j]) then 1 else 0
    {
      ReviewRowCount(r, id, b', v, r', j);
    }
    forall i | 0 <= i < |r'.feedback| ensures RowOk(r', r'.feedback[i]) {
      ReviewRowOk(r, id, b', v, r', i);
    }
  }

  lemma ReviewStepConserves(r: Registry, id: string, d: Decision)
    requires FeedbackConserved(r)
    ensures FeedbackConserved(Apply(r, Review(id, d)))
  {
    var r' := Apply(r, Review(id, d));
    if id in r.bans && r.bans[id].status == PENDING && Execute(r, Review(id, d)).Done? {
      var b := r.bans[id];
      match d
      case Confirm =>
        var retired := r.(bans := Retire(r.bans, KeyOf(b)));
        QuietConserves(r, retired);
        assert retired.bans[id] == b;
        ReviewConserves(retired, id, b.(status := ACTIVE, reviewed := true), CONFIRMED, r');
      case Kick => ReviewConserves(r, id, b.(status := KICKED, reviewed := true), CONFIRMED, r');
      case FalsePositive => ReviewConserves(r, id, b.(status := DISMISSED, reviewed := true), FALSE_POSITIVE, r');
    }
  }

  lemma StepConserves(r: Registry, op: Op)
    requires FeedbackConserved(r)
    ensures FeedbackConserved(Apply(r, op))
  {
    match op
    case Sanction(id, critical, b) =>
      var c := b.(status := if critical then ACTIVE else PENDING, expires := None, reviewed := false);
      if Insert(r, id, c).Done? { InsertConserves(r, id, c); }
    case ManualPending(id, b) =>
      var c := b.(status := PENDING, expires := None, reviewed := false);
      if Insert(r, id, c).Done? { InsertConserves(r, id, c); }
    case ManualActive(id, b) =>
      var c := b.(status := ACTIVE, reviewed := false, detector := None);
      if Occupied(r.bans, KeyOf(b)) {
        QuietConserves(r, Apply(r, op));
      } else if Insert(r, id, c).Done? {
        InsertConserves(r, id, c);
      }
    case Lift(id) => QuietConserves(r, Apply(r, op));
    case Review(id, d) => ReviewStepConserves(r, id, d);
    case SubmitAppeal(appealId, identifier, latest) => QuietConserves(r, Apply(r, op));
    case ResolveAppeal(appealId, approve) => QuietConserves(r, Apply(r, op));
  }

  /** In every reachable registry the feedback is conserved. */
  lemma {:induction false} RunConserves(r: Registry, ops: seq<Op>)
    requires FeedbackConserved(r)
    ensures FeedbackConserved(Run(r, ops))
    decreases |ops|
  {
    if ops != [] {
      StepConserves(r, ops[0]);
      RunConserves(Apply(r, ops[0]), ops[1..]);
    }
  }

  lemma FeedbackMatchesReviews(ops: seq<Op>)
    ensures FeedbackConserved(Run(EMPTY, ops))
  {
    RunConserves(EMPTY, ops);
  }

  // ------------------------------------------------------- overlapping reviews

  function StatusOf(d: Decision): Status
  {
    match d case Confirm => ACTIVE case Kick => KICKED case FalsePositive => DISMISSED
  }

  function VerdictOf(d: Decision): Verdict { if d == FalsePositive then FALSE_POSITIVE else CONFIRMED }

  /** A confirmation first lifts the ban in force for the key of the ban that it has loaded. */
  function LiftFirst(r: Registry, loaded: Ban, d: Decision): Registry
  {
    if d == Confirm then r.(bans := Retire(r.bans, KeyOf(loaded))) else r
  }

  /** Then the ban is decided if it is still pending, and the verdict is reported in any case. */
  function DecideThen(r: Registry, id: string, loaded: Ban, d: Decision): Registry
  {
    r.(bans := if id in r.bans && r.bans[id].status == PENDING
               then r.bans[id := r.bans[id].(status := StatusOf(d), reviewed := true)] else r.bans,
       feedback := r.feedback + FeedbackFor(id, loaded, VerdictOf(d)))
  }

  /** The statements of a review after its first one has loaded the pending ban; that SELECT takes no lock. */
  function CarryOut(r: Registry, id: string, loaded: Ban, d: Decision): Registry
  {
    DecideThen(LiftFirst(r, loaded, d), id, loaded, d)
  }

  /**
   * Two reviews that both loaded the ban while it was pending, the one with decision d being the first to decide it.
   * The row lock makes the other wait before it decides; `late` says whether its lifting statement, too, begins only
   * after the first review has committed.
   */
  function Overlap(r: Registry, id: string, loaded: Ban, d: Decision, e: Decision, late: bool): Registry
  {
    if late then CarryOut(CarryOut(r, id, loaded, d), id, loaded, e)
    else DecideThen(DecideThen(LiftFirst(LiftFirst(r, loaded, d), loaded, e), id, loaded, d), id, loaded, e)
  }

  /** With nothing in between, this is the review. */
  lemma CarryOutIsReview(r: Registry, id: string, d: Decision)
    requires OneActive(r.bans) && id in r.bans && r.bans[id].status == PENDING
    ensures CarryOut(r, id, r.bans[id], d) == Apply(r, Review(id, d))
  {
    ConfirmKeepsOneActive(r.bans, id);
    assert Retire(r.bans, KeyOf(r.bans[id]))[id] == r.bans[id];
  }

  lemma RetireConserves(r: Registry, k: Key)
    requires FeedbackConserved(r)
    ensures FeedbackConserved(r.(bans := Retire(r.bans, k)))
  {
    QuietConserves(r, r.(bans := Retire(r.bans, k)));
  }

  lemma LiftConserves(r: Registry, id: string, b: Ban, d: Decision)
    requires FeedbackConserved(r) && id in r.bans && r.bans[id] == b && b.status == PENDING
    ensures var r' := LiftFirst(r, b, d); FeedbackConserved(r') && id in r'.bans && r'.bans[id] == b
  {
    RetireConserves(r, KeyOf(b));
  }

  /** The review that decides first decides the ban and keeps the feedback right. */
  lemma DecideConserves(r: Registry, id: string, b: Ban, d: Decision)
    requires FeedbackConserved(r) && id in r.bans && r.bans[id] == b && b.status == PENDING
    ensures var r' := DecideThen(r, id, b, d);
            FeedbackConserved(r') && r'.bans == r.bans[id := b.(status := StatusOf(d), reviewed := true)]
  {
    ReviewConserves(r, id, b.(status := StatusOf(d), reviewed := true), VerdictOf(d), DecideThen(r, id, b, d));
  }

  /** The review that decides second finds the ban decided: it only reports. */
  lemma SecondReport(r: Registry, id: string, b: Ban, e: Decision)
    requires FeedbackConserved(r) && id in r.bans && r.bans[id].status != PENDING
    requires r.bans[id].reviewed && r.bans[id].detector == b.detector
    ensures DecideThen(r, id, b, e).bans == r.bans
    ensures FeedbackConserved(DecideThen(r, id, b, e)) <==> !HasDetector(b)
  {
    var r' := DecideThen(r, id, b, e);
    FeedbackForRows(r.feedback, id, b, VerdictOf(e), id);
    if HasDetector(b) {
      assert Rows(r'.feedback, id) == 2 && id in r'.bans;
    } else {
      assert r'.feedback == r.feedback && r' == r;
    }
  }

  lemma RetiredIsFree(bans: map<string, Ban>, k: Key)
    ensures !Occupied(Retire(bans, k), k)
  {
    forall i ensures !Holder(Retire(bans, k), i, k) { RetiredHasNoHolder(bans, k, i); }
  }

  /** The schedule in which the second review lifts after the first has committed. */
  lemma LateReviews(r: Registry, id: string, b: Ban, d: Decision, e: Decision)
    requires FeedbackConserved(r) && id in r.bans && r.bans[id] == b && b.status == PENDING
    ensures var r' := Overlap(r, id, b, d, e, true);
            && (FeedbackConserved(r') <==> !HasDetector(b))
            && id in r'.bans && r'.bans[id].status == (if d == e == Confirm then LIFTED else StatusOf(d))
            && (e == Confirm ==> !Occupied(r'.bans, KeyOf(b)))
  {
    var base := LiftFirst(r, b, d);
    LiftConserves(r, id, b, d);
    DecideConserves(base, id, b, d);
    var first := DecideThen(base, id, b, d);
    RetireConserves(first, KeyOf(b));
    SecondReport(LiftFirst(first, b, e), id, b, e);
    RetiredIsFree(first.bans, KeyOf(b));
  }

  /** After both have lifted, only a confirmation puts anybody back under the key. */
  lemma OnlyConfirmedIsHeld(bans: map<string, Ban>, id: string, b: Ban, d: Decision)
    requires !Occupied(bans, KeyOf(b))
    ensures Occupied(bans[id := b.(status := StatusOf(d), reviewed := true)], KeyOf(b)) <==> d == Confirm
  {
    var after := bans[id := b.(status := StatusOf(d), reviewed := true)];
    if d == Confirm {
      assert Holder(after, id, KeyOf(b));
    } else {
      forall i | i in after ensures !Holder(after, i, KeyOf(b)) { assert !Holder(bans, i, KeyOf(b)); }
    }
  }

  /** The schedule in which both lift before either has decided. */
  lemma EarlyReviews(r: Registry, id: string, b: Ban, d: Decision, e: Decision)
    requires FeedbackConserved(r) && id in r.bans && r.bans[id] == b && b.status == PENDING
    ensures var r' := Overlap(r, id, b, d, e, false);
            && (FeedbackConserved(r') <==> !HasDetector(b))
            && id in r'.bans && r'.bans[id].status == StatusOf(d)
            && (e == Confirm ==> (Occupied(r'.bans, KeyOf(b)) <==> d == Confirm))
  {
    var once := LiftFirst(r, b, d);
    LiftConserves(r, id, b, d);
    var base := LiftFirst(once, b, e);
    LiftConserves(once, id, b, e);
    DecideConserves(base, id, b, d);
    var first := DecideThen(base, id, b, d);
    SecondReport(first, id, b, e);
    if e == Confirm {
      RetiredIsFree(once.bans, KeyOf(b));
      OnlyConfirmedIsHeld(base.bans, id, b, d);
    }
  }

  /**
   * Two overlapping reviews of one ban with any decisions, in either schedule. The feedback stays right if and only
   * if the ban has no detector to report on. The ban keeps the status of the decision that came first, except that
   * a confirmation whose lift comes after another confirmation lifts it. Whenever the later review confirms, nobody
   * is left banned, unless both confirm and both had lifted before either decided.
   */
  lemma OverlappingReviews(r: Registry, id: string, b: Ban, d: Decision, e: Decision, late: bool)
    requires FeedbackConserved(r) && id in r.bans && r.bans[id] == b && b.status == PENDING
    ensures var r' := Overlap(r, id, b, d, e, late);
            && (FeedbackConserved(r') <==> !HasDetector(b))
            && id in r'.bans
            && r'.bans[id].status == (if late && d == e == Confirm then LIFTED else StatusOf(d))
            && (e == Confirm ==> (Occupied(r'.bans, KeyOf(b)) <==> !late && d == Confirm))
  {
    if late { LateReviews(r, id, b, d, e); } else { EarlyReviews(r, id, b, d, e); }
  }
}
