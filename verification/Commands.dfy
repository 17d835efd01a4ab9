/** The command queue of one server: issue, claim with redelivery, results with duplicates. */
module Commands {
  import opened Text

  datatype Status = PENDING | SENT | ACKNOWLEDGED | FAILED | EXPIRED
  datatype Verdict = Completed | Failure | Rejected | Duplicate

  datatype Command = Command(status: Status, created: int, expires: int, deliveries: nat, sentAt: Option<int>,
                             verdict: Option<Verdict>)

  type Queue = map<string, Command>

  datatype Report = Report(id: string, verdict: Verdict)

  predicate Open(c: Command) { c.status == PENDING || c.status == SENT }

  // -------------------------------------------------------------------- issuing

  /** The identifier is unique, and the table demands an expiry later than the creation. */
  predicate Issuable(q: Queue, id: string, ttl: int, serverExists: bool)
  {
    serverExists && id !in q && ttl > 0
  }

  function IssueOne(q: Queue, id: string, ttl: int, now: int, serverExists: bool): Queue
  {
    if Issuable(q, id, ttl, serverExists) then q[id := Command(PENDING, now, now + ttl, 0, None, None)] else q
  }

  // ------------------------------------------------------------------- claiming

  function Expire(q: Queue, now: int): (r: Queue)
    ensures r.Keys == q.Keys
  {
    map id | id in q :: if Open(q[id]) && q[id].expires <= now then q[id].(status := EXPIRED) else q[id]
  }

  /** What a claim may select: rows locked by another transaction are skipped. */
  function Eligible(q: Queue, now: int, locked: set<string>): set<string>
  {
    set id | id in q && Open(q[id]) && q[id].expires > now && id !in locked
  }

  function Min(a: nat, b: nat): nat { if a <= b then a else b }

  /** ORDER BY created_at LIMIT n over a set of rows; rows created at the same instant come in any order. */
  ghost predicate OldestOf(q: Queue, candidates: set<string>, limit: nat, batch: set<string>)
    requires candidates <= q.Keys
  {
    && batch <= candidates
    && |batch| == Min(limit, |candidates|)
    && forall i, j | i in batch && j in candidates - batch :: q[i].created <= q[j].created
  }

  function Deliver(q: Queue, batch: set<string>, now: int): (r: Queue)
    ensures r.Keys == q.Keys
  {
    map id | id in q ::
      if id in batch
      then q[id].(status := SENT, sentAt := Some(if q[id].sentAt.Some? then q[id].sentAt.value else now),
                  deliveries := q[id].deliveries + 1)
      else q[id]
  }

  /** Still open, not expired and free: what a claim may send. */
  ghost predicate Ready(c: Command, now: int, locked: bool)
  {
    (c.status == PENDING || c.status == SENT) && c.expires > now && !locked
  }

  ghost function ReadyIn(q: Queue, now: int, locked: set<string>): set<string>
  {
    set id | id in q && Ready(q[id], now, id in locked)
  }

  lemma EligibleIsReady(q: Queue, now: int, locked: set<string>)
    ensures Eligible(q, now, locked) == ReadyIn(q, now, locked)
  {
  }

  /** As many as the limit allows, and none left behind that is older than one taken. */
  ghost predicate IsOldest(q: Queue, ready: set<string>, limit: int, batch: set<string>)
    requires ready <= q.Keys
  {
    && batch <= ready && |batch| == (if limit <= |ready| then limit else |ready|)
    && forall i, j | i in batch && j in ready - batch :: q[i].created <= q[j].created
  }

  /** What a claim does to one command. */
  ghost predicate Claimed(before: Command, after: Command, now: int, taken: bool)
  {
    if taken then
      && after.status == SENT && after.deliveries == before.deliveries + 1
      && after.sentAt == (if before.sentAt.Some? then before.sentAt else Some(now))
      && after.created == before.created && after.expires == before.expires && after.verdict == before.verdict
    else if (before.status == PENDING || before.status == SENT) && before.expires <= now then
      after == before.(status := EXPIRED)
    else after == before
  }

  // -------------------------------------------------------------------- results

  function StatusFor(v: Verdict): Status { if v == Failure then FAILED else ACKNOWLEDGED }

  function Settle(c: Command, v: Verdict): Command { c.(status := StatusFor(v), verdict := Some(v)) }

  predicate Takes(q: Queue, r: Report) { r.id in q && Open(q[r.id]) }

  function Record(q: Queue, r: Report): Queue
  {
    if Takes(q, r) then q[r.id := Settle(q[r.id], r.verdict)] else q
  }

  function RecordAll(q: Queue, results: seq<Report>): Queue
  {
    if results == [] then q else Record(RecordAll(q, results[..|results| - 1]), results[|results| - 1])
  }

  function Acknowledged(q: Queue, results: seq<Report>): seq<string>
  {
    if results == [] then []
    else
      var n := |results| - 1;
      Acknowledged(q, results[..n])
      + if Takes(RecordAll(q, results[..n]), results[n]) then [results[n].id] else []
  }

  predicate Mentions(results: seq<Report>, id: string)
  {
    exists i | 0 <= i < |results| :: results[i].id == id
  }

  /** Array.prototype.find: the first result that names the command. */
  function FirstVerdict(results: seq<Report>, id: string): Verdict
    requires Mentions(results, id)
  {
    if results[0].id == id then results[0].verdict else FirstVerdict(results[1..], id)
  }

  function Count(ids: seq<string>, id: string): nat
  {
    if ids == [] then 0 else Count(ids[..|ids| - 1], id) + if ids[|ids| - 1] == id then 1 else 0
  }

  lemma CountAppend(ids: seq<string>, last: string, id: string)
    ensures Count(ids + [last], id) == Count(ids, id) + if last == id then 1 else 0
  {
    assert (ids + [last])[..|ids|] == ids;
  }

  lemma {:induction false} FirstOfPrefix(results: seq<Report>, last: Report, id: string)
    requires Mentions(results + [last], id)
    ensures FirstVerdict(results + [last], id)
         == if Mentions(results, id) then FirstVerdict(results, id) else last.verdict
  {
    var all := results + [last];
    if results == [] {
    } else if results[0].id != id {
      assert all[1..] == results[1..] + [last];
      var i :| 0 <= i < |all| && all[i].id == id;
      assert all[1..][i - 1].id == id;
      assert Mentions(results, id) ==> Mentions(results[1..], id) by {
        if Mentions(results, id) {
          var k :| 0 <= k < |results| && results[k].id == id;
          assert results[1..][k - 1].id == id;
        }
      }
      FirstOfPrefix(results[1..], last, id);
    }
  }

  lemma MentionsLast(before: seq<Report>, last: Report, id: string)
    ensures Mentions(before + [last], id) <==> Mentions(before, id) || last.id == id
  {
    var all := before + [last];
    if last.id == id { assert all[|before|].id == id; }
    if Mentions(before, id) {
      var k :| 0 <= k < |before| && before[k].id == id;
      assert all[k].id == id;
    }
  }

  /**
   * A batch of results settles exactly the open commands it names, each by the first result that names it
   * and each once, whatever duplicates the batch holds; every other command is untouched.
   */
  lemma {:induction false} FirstResultIsStored(q: Queue, results: seq<Report>, id: string)
    ensures RecordAll(q, results).Keys == q.Keys
    ensures id in q ==>
              RecordAll(q, results)[id] == if Open(q[id]) && Mentions(results, id)
                                           then Settle(q[id], FirstVerdict(results, id)) else q[id]
    ensures Count(Acknowledged(q, results), id)
         == if id in q && Open(q[id]) && Mentions(results, id) then 1 else 0
  {
    if results != [] {
      var n := |results| - 1;
      var before, last := results[..n], results[n];
      assert before + [last] == results;
      FirstResultIsStored(q, before, id);
      MentionsLast(before, last, id);
      if Mentions(results, id) { FirstOfPrefix(before, last, id); }
      CountAppend(Acknowledged(q, before), last.id, id);
      assert Acknowledged(q, before) + [] == Acknowledged(q, before);
    }
  }

  ghost predicate Awaits(c: Command) { c.status == PENDING || c.status == SENT }

  ghost predicate Named(results: seq<Report>, id: string) { exists i | 0 <= i < |results| :: results[i].id == id }

  /** The first result that names the command reports this. */
  ghost predicate FirstNaming(results: seq<Report>, id: string, v: Verdict)
  {
    exists i | 0 <= i < |results| ::
      results[i] == Report(id, v) && forall j | 0 <= j < i :: results[j].id != id
  }

  /** What a batch of results does to one command. */
  ghost predicate Answered(before: Command, after: Command, results: seq<Report>, id: string)
  {
    if Awaits(before) && Named(results, id) then
      && after.verdict.Some? && FirstNaming(results, id, after.verdict.value)
      && after == before.(status := if after.verdict.value == Failure then FAILED else ACKNOWLEDGED,
                          verdict := after.verdict)
    else after == before
  }

  lemma {:induction false} FirstVerdictIsFirst(results: seq<Report>, id: string)
    requires Mentions(results, id)
    ensures FirstNaming(results, id, FirstVerdict(results, id))
    decreases |results|
  {
    if results[0].id == id {
      assert results[0] == Report(id, FirstVerdict(results, id));
    } else {
      var k :| 0 <= k < |results| && results[k].id == id;
      assert results[1..][k - 1].id == id;
      FirstVerdictIsFirst(results[1..], id);
      var i :| 0 <= i < |results[1..]| && results[1..][i] == Report(id, FirstVerdict(results, id))
               && forall j | 0 <= j < i :: results[1..][j].id != id;
      assert results[i + 1] == results[1..][i];
      forall j | 0 <= j < i + 1 ensures results[j].id != id {
        if j > 0 { assert results[j] == results[1..][j - 1]; }
      }
    }
  }

  /** Each command after a batch of results. */
  lemma BatchAnswers(q: Queue, results: seq<Report>, id: string)
    requires id in q
    ensures id in RecordAll(q, results) && Answered(q[id], RecordAll(q, results)[id], results, id)
  {
    FirstResultIsStored(q, results, id);
    assert Named(results, id) <==> Mentions(results, id);
    if Mentions(results, id) { FirstVerdictIsFirst(results, id); }
  }

  lemma {:induction false} CountIsMembership(ids: seq<string>, id: string)
    ensures Count(ids, id) > 0 <==> id in ids
  {
    if ids != [] {
      CountIsMembership(ids[..|ids| - 1], id);
      assert ids == ids[..|ids| - 1] + [ids[|ids| - 1]];
    }
  }

  lemma AcknowledgedExactly(q: Queue, results: seq<Report>, id: string)
    ensures id in Acknowledged(q, results) <==> id in q && Awaits(q[id]) && Named(results, id)
  {
    FirstResultIsStored(q, results, id);
    CountIsMembership(Acknowledged(q, results), id);
    assert Named(results, id) <==> Mentions(results, id);
  }

  /** A settled command stores what the first result that names it reports. */
  lemma AcknowledgedIsNamed(q: Queue, results: seq<Report>, id: string)
    requires id in Acknowledged(q, results)
    ensures Mentions(results, id) && FirstNaming(results, id, FirstVerdict(results, id))
    ensures id in RecordAll(q, results) && RecordAll(q, results)[id].verdict == Some(FirstVerdict(results, id))
  {
    AcknowledgedExactly(q, results, id);
    assert Named(results, id) <==> Mentions(results, id);
    FirstVerdictIsFirst(results, id);
    FirstResultIsStored(q, results, id);
  }

  /** Settled commands are listed in the order in which the results name them. */
  lemma {:induction false} AcknowledgedInOrder(q: Queue, results: seq<Report>)
    ensures var ids := Acknowledged(q, results);
            forall j, k | 0 <= j < k < |ids| :: NamedBefore(results, ids[j], ids[k])
    decreases |results|
  {
    if results != [] {
      var n := |results| - 1;
      var before, last := results[..n], results[n];
      AcknowledgedInOrder(q, before);
      var ids, all := Acknowledged(q, before), Acknowledged(q, results);
      assert before + [last] == results;
      forall j, k | 0 <= j < k < |all| ensures NamedBefore(results, all[j], all[k]) {
        AcknowledgedExactly(q, before, all[j]);
        if k < |ids| {
          StillBefore(before, last, all[j], all[k]);
        } else {
          FirstResultIsStored(q, before, last.id);
          NotNamedYet(q, before, last);
          var i :| 0 <= i < |before| && before[i].id == all[j];
          assert results[i].id == all[j] && results[n].id == all[k];
        }
      }
    }
  }

  /** Some result names the one, and none before it names the other, which is named later. */
  ghost predicate NamedBefore(results: seq<Report>, a: string, b: string)
  {
    exists i, k | 0 <= i < k < |results| ::
      results[i].id == a && results[k].id == b && forall j | 0 <= j < k :: results[j].id != b
  }

  lemma StillBefore(results: seq<Report>, last: Report, a: string, b: string)
    requires NamedBefore(results, a, b)
    ensures NamedBefore(results + [last], a, b)
  {
    var i, k :| 0 <= i < k < |results| && results[i].id == a && results[k].id == b
                && forall j | 0 <= j < k :: results[j].id != b;
    var all := results + [last];
    assert all[i].id == a && all[k].id == b && forall j | 0 <= j < k :: all[j] == results[j];
  }

  lemma NotNamedYet(q: Queue, before: seq<Report>, last: Report)
    requires Takes(RecordAll(q, before), last)
    ensures forall i | 0 <= i < |before| :: before[i].id != last.id
  {
    FirstResultIsStored(q, before, last.id);
    assert !Mentions(before, last.id);
  }

  // ----------------------------------------------------------------------- runs

  /** A claim carries the rows locked by others and the batch that the database chose. */
  datatype Op =
    | Issue(id: string, ttl: int, issuedAt: int, serverExists: bool)
    | Claim(now: int, limit: int, locked: set<string>, batch: set<string>)
    | Results(results: seq<Report>)

  /** A negative LIMIT is an error that aborts the transaction: nothing expires, nothing is sent. */
  ghost predicate Permitted(q: Queue, op: Op)
  {
    match op
    case Claim(now, limit, locked, batch) =>
      if limit < 0 then batch == {} else OldestOf(q, Eligible(q, now, locked), limit, batch)
    case _ => true
  }

  function Apply(q: Queue, op: Op): Queue
  {
    match op
    case Issue(id, ttl, now, serverExists) => IssueOne(q, id, ttl, now, serverExists)
    case Claim(now, limit, _, batch) => if limit < 0 then q else Deliver(Expire(q, now), batch, now)
    case Results(results) => RecordAll(q, results)
  }

  ghost predicate IsRun(q: Queue, ops: seq<Op>)
    decreases |ops|
  {
    ops == [] || (Permitted(q, ops[0]) && IsRun(Apply(q, ops[0]), ops[1..]))
  }

  function Run(q: Queue, ops: seq<Op>): Queue
    decreases |ops|
  {
    if ops == [] then q else Run(Apply(q, ops[0]), ops[1..])
  }

  /** How many batches contained the command. */
  function Batches(ops: seq<Op>, id: string): nat
    decreases |ops|
  {
    if ops == [] then 0 else (if ops[0].Claim? && id in ops[0].batch then 1 else 0) + Batches(ops[1..], id)
  }

  /** How many times a run acknowledged the command to its listeners. */
  function Acks(q: Queue, ops: seq<Op>, id: string): nat
    decreases |ops|
  {
    if ops == [] then 0
    else (if ops[0].Results? then Count(Acknowledged(q, ops[0].results), id) else 0)
         + Acks(Apply(q, ops[0]), ops[1..], id)
  }

  /** What one step does to one command that exists. */
  lemma StepOn(q: Queue, op: Op, id: string)
    requires Permitted(q, op) && id in q
    ensures id in Apply(q, op)
    ensures !Open(q[id]) ==> Apply(q, op)[id] == q[id]
    ensures op.Claim? && id in op.batch ==>
              Open(q[id]) && q[id].expires > op.now && Apply(q, op)[id].status == SENT
    ensures Apply(q, op)[id].deliveries == q[id].deliveries + if op.Claim? && id in op.batch then 1 else 0
    ensures op.Results? ==>
              Count(Acknowledged(q, op.results), id) <= 1
              && (Count(Acknowledged(q, op.results), id) == 1 <==> Open(q[id]) && !Open(Apply(q, op)[id]))
    ensures Apply(q, op)[id].created == q[id].created && Apply(q, op)[id].expires == q[id].expires
  {
    match op
    case Issue(_, _, _, _) =>
    case Claim(now, limit, locked, batch) =>
    case Results(results) => FirstResultIsStored(q, results, id);
  }

  lemma StepOnUnknown(q: Queue, op: Op, id: string)
    requires Permitted(q, op) && id !in q
    ensures !(op.Claim? && id in op.batch)
    ensures op.Results? ==> Count(Acknowledged(q, op.results), id) == 0
    ensures id in Apply(q, op) ==> Open(Apply(q, op)[id]) && Apply(q, op)[id].deliveries == 0
  {
    match op
    case Issue(_, _, _, _) =>
    case Claim(now, limit, locked, batch) =>
    case Results(results) => FirstResultIsStored(q, results, id);
  }

  /** Once acknowledged, failed or expired, a command never changes, is never sent and never acknowledged again. */
  lemma {:induction false} SettledIsFinal(q: Queue, ops: seq<Op>, id: string)
    requires IsRun(q, ops) && id in q && !Open(q[id])
    ensures id in Run(q, ops) && Run(q, ops)[id] == q[id]
    ensures Batches(ops, id) == 0 && Acks(q, ops, id) == 0
    decreases |ops|
  {
    if ops != [] {
      StepOn(q, ops[0], id);
      SettledIsFinal(Apply(q, ops[0]), ops[1..], id);
    }
  }

  /** In every run a command is acknowledged at most once. */
  lemma {:induction false} AcknowledgedAtMostOnce(q: Queue, ops: seq<Op>, id: string)
    requires IsRun(q, ops)
    ensures Acks(q, ops, id) <= 1
    decreases |ops|
  {
    if ops != [] {
      var q' := Apply(q, ops[0]);
      if id in q {
        StepOn(q, ops[0], id);
        if Open(q'[id]) || !Open(q[id]) {
          AcknowledgedAtMostOnce(q', ops[1..], id);
        } else {
          SettledIsFinal(q', ops[1..], id);
        }
      } else {
        StepOnUnknown(q, ops[0], id);
        AcknowledgedAtMostOnce(q', ops[1..], id);
      }
    }
  }

  function DeliveriesOf(q: Queue, id: string): nat { if id in q then q[id].deliveries else 0 }

  /** The delivery count grows by exactly the number of batches that contained the command. */
  lemma {:induction false} DeliveryCountIsBatches(q: Queue, ops: seq<Op>, id: string)
    requires IsRun(q, ops)
    ensures DeliveriesOf(Run(q, ops), id) == DeliveriesOf(q, id) + Batches(ops, id)
    decreases |ops|
  {
    if ops != [] {
      if id in q { StepOn(q, ops[0], id); } else { StepOnUnknown(q, ops[0], id); }
      DeliveryCountIsBatches(Apply(q, ops[0]), ops[1..], id);
    }
  }

  ghost predicate SentOnceDelivered(q: Queue)
  {
    forall id | id in q :: (q[id].sentAt.Some? <==> q[id].deliveries > 0)
                           && (q[id].status == PENDING ==> q[id].deliveries == 0)
                           && (q[id].status == SENT ==> q[id].deliveries > 0)
  }

  lemma StepKeepsSentOnce(q: Queue, op: Op)
    requires SentOnceDelivered(q) && Permitted(q, op)
    ensures SentOnceDelivered(Apply(q, op))
  {
    match op
    case Issue(_, _, _, _) =>
    case Claim(now, limit, locked, batch) =>
    case Results(results) =>
      forall id | id in Apply(q, op)
        ensures var c := Apply(q, op)[id];
                (c.sentAt.Some? <==> c.deliveries > 0) && (c.status == PENDING ==> c.deliveries == 0)
                && (c.status == SENT ==> c.deliveries > 0)
      {
        FirstResultIsStored(q, results, id);
      }
  }

  /** PENDING means never delivered, SENT means delivered, and the first sending time is kept. */
  lemma {:induction false} StatusTellsDelivery(q: Queue, ops: seq<Op>)
    requires SentOnceDelivered(q) && IsRun(q, ops)
    ensures SentOnceDelivered(Run(q, ops))
    decreases |ops|
  {
    if ops != [] {
      StepKeepsSentOnce(q, ops[0]);
      StatusTellsDelivery(Apply(q, ops[0]), ops[1..]);
    }
  }

  // -------------------------------------------------------------------- batches

  /** Two batches chosen from the same rows differ only in rows created at the same instant. */
  lemma BatchesDifferInTies(q: Queue, candidates: set<string>, limit: nat, a: set<string>, b: set<string>)
    requires candidates <= q.Keys && OldestOf(q, candidates, limit, a) && OldestOf(q, candidates, limit, b)
    ensures forall i, j | i in a - b && j in b - a :: q[i].created == q[j].created
  {
    forall i, j | i in a - b && j in b - a ensures q[i].created == q[j].created {
      assert i in candidates - b && j in candidates - a;
    }
  }

  lemma SameSizeDifferences(a: set<string>, b: set<string>)
    requires |a| == |b|
    ensures a == b || (a - b != {} && b - a != {})
  {
    assert |a - b| + |a * b| == |a| && |b - a| + |b * a| == |b| && a * b == b * a by {
      assert (a - b) + (a * b) == a && (b - a) + (b * a) == b;
    }
  }

  /** When no two candidates were created at the same instant, the batch is determined. */
  lemma BatchIsDetermined(q: Queue, candidates: set<string>, limit: nat, a: set<string>, b: set<string>)
    requires candidates <= q.Keys && OldestOf(q, candidates, limit, a) && OldestOf(q, candidates, limit, b)
    requires forall i, j | i in candidates && j in candidates && i != j :: q[i].created != q[j].created
    ensures a == b
  {
    BatchesDifferInTies(q, candidates, limit, a, b);
    SameSizeDifferences(a, b);
  }

  /**
   * A second poll finds the same commands again until they are answered: with the queue otherwise untouched and
   * nothing expiring in between, redelivery repeats the batch.
   */
  lemma RedeliveryRepeats(q: Queue, first: Op, second: Op)
    requires first.Claim? && second.Claim? && first.limit == second.limit >= 0 && first.locked == second.locked
    requires Permitted(q, first) && Permitted(Apply(q, first), second)
    requires first.now <= second.now
    requires forall id | id in q && Open(q[id]) && q[id].expires > first.now :: q[id].expires > second.now
    requires forall i, j | i in q && j in q && i != j :: q[i].created != q[j].created
    ensures second.batch == first.batch
  {
    var q' := Apply(q, first);
    var before, after := Eligible(q, first.now, first.locked), Eligible(q', second.now, second.locked);
    forall id ensures id in before <==> id in after {
      if id in q { StepOn(q, first, id); }
    }
    assert before == after;
    forall i, j | i in second.batch && j in before - second.batch ensures q[i].created <= q[j].created {
      StepOn(q, first, i);
      StepOn(q, first, j);
      assert q'[i].created <= q'[j].created;
    }
    BatchIsDetermined(q, before, first.limit, first.batch, second.batch);
  }

  lemma {:induction false} OldestExists(q: Queue, ids: set<string>) returns (oldest: string)
    requires ids != {} && ids <= q.Keys
    ensures oldest in ids && forall j | j in ids :: q[oldest].created <= q[j].created
    decreases |ids|
  {
    var x :| x in ids;
    if ids == {x} {
      oldest := x;
    } else {
      oldest := OldestExists(q, ids - {x});
      if q[x].created < q[oldest].created { oldest := x; }
      forall j | j in ids ensures q[oldest].created <= q[j].created {
        if j != x { assert j in ids - {x}; }
      }
    }
  }

  /** ORDER BY created_at LIMIT n. */
  method Oldest(q: Queue, candidates: set<string>, limit: nat) returns (batch: set<string>)
    requires candidates <= q.Keys
    ensures OldestOf(q, candidates, limit, batch)
  {
    batch := {};
    var rest := candidates;
    while |batch| < limit && rest != {}
      invariant rest == candidates - batch && batch <= candidates && |batch| <= limit
      invariant |batch| + |rest| == |candidates|
      invariant forall i, j | i in batch && j in rest :: q[i].created <= q[j].created
      decreases |rest|
    {
      ghost var oldest := OldestExists(q, rest);
      var id :| id in rest && forall j | j in rest :: q[id].created <= q[j].created;
      batch, rest := batch + {id}, rest - {id};
    }
  }

  lemma EligibleAfterExpiry(q: Queue, now: int, locked: set<string>)
    ensures Eligible(Expire(q, now), now, locked) == Eligible(q, now, locked)
  {
  }

  lemma SameOldest(q: Queue, now: int, candidates: set<string>, limit: nat, batch: set<string>)
    requires candidates <= q.Keys && OldestOf(Expire(q, now), candidates, limit, batch)
    ensures OldestOf(q, candidates, limit, batch)
  {
    forall i, j | i in batch && j in candidates - batch ensures q[i].created <= q[j].created {
      assert Expire(q, now)[i].created <= Expire(q, now)[j].created;
    }
  }

  // ------------------------------------------------------------------ the queue

  class CommandQueue {
    var commands: Queue

    constructor ()
      ensures commands == map[]
    {
      commands := map[];
    }

    method IssueCommand(id: string, ttl: int, now: int, serverExists: bool) returns (queued: bool)
      modifies this
      ensures queued == Issuable(old(commands), id, ttl, serverExists)
      ensures commands == Apply(old(commands), Issue(id, ttl, now, serverExists))
      ensures queued <==> serverExists && id !in old(commands) && ttl > 0
      ensures commands == if queued then old(commands)[id := Command(PENDING, now, now + ttl, 0, None, None)]
                          else old(commands)
    {
      queued := Issuable(commands, id, ttl, serverExists);
      if queued {
        commands := commands[id := Command(PENDING, now, now + ttl, 0, None, None)];
      }
    }

    /** Mark what has expired, then send the oldest open commands; the batch is the one the claim reports. */
    method ClaimCommands(now: int, limit: int, locked: set<string>) returns (batch: set<string>, ok: bool)
      modifies this
      ensures ok <==> limit >= 0
      ensures Permitted(old(commands), Claim(now, limit, locked, batch))
      ensures commands == Apply(old(commands), Claim(now, limit, locked, batch))
      ensures !ok ==> batch == {} && commands == old(commands)
      ensures ok ==> IsOldest(old(commands), ReadyIn(old(commands), now, locked), limit, batch)
      ensures commands.Keys == old(commands).Keys
      ensures ok ==> forall id | id in commands :: Claimed(old(commands)[id], commands[id], now, id in batch)
    {
      batch, ok := {}, limit >= 0;
      if !ok {
        return;
      }
      ghost var q := commands;
      commands := Expire(commands, now);
      EligibleAfterExpiry(q, now, locked);
      batch := Oldest(commands, Eligible(commands, now, locked), limit);
      SameOldest(q, now, Eligible(q, now, locked), limit, batch);
      commands := Deliver(commands, batch, now);
      EligibleIsReady(q, now, locked);
    }

    /** One UPDATE for each result; the identifiers of those that found an open command. */
    method RecordResults(results: seq<Report>) returns (acknowledged: seq<string>)
      modifies this
      ensures commands == RecordAll(old(commands), results)
      ensures acknowledged == Acknowledged(old(commands), results)
    {
      ghost var q := commands;
      acknowledged := [];
      for i := 0 to |results|
        invariant commands == RecordAll(q, results[..i]) && acknowledged == Acknowledged(q, results[..i])
      {
        var r := results[i];
        assert results[..i + 1][..i] == results[..i];
        if r.id in commands && Open(commands[r.id]) {
          commands := commands[r.id := commands[r.id].(status := StatusFor(r.verdict), verdict := Some(r.verdict))];
          acknowledged := acknowledged + [r.id];
        }
      }
      assert results[..|results|] == results;
    }

    /** For each settled command, the verdict of the first result that names it. */
    method VerdictsOf(results: seq<Report>, acknowledged: seq<string>) returns (published: seq<Verdict>)
      requires forall id | id in acknowledged :: Mentions(results, id)
      ensures |published| == |acknowledged|
      ensures forall k | 0 <= k < |acknowledged| :: published[k] == FirstVerdict(results, acknowledged[k])
    {
      published := [];
      for k := 0 to |acknowledged|
        invariant |published| == k
        invariant forall j | 0 <= j < k :: published[j] == FirstVerdict(results, acknowledged[j])
      {
        published := published + [FirstVerdict(results, acknowledged[k])];
      }
    }

    /** The identifiers that were settled, and for each the verdict that is published. */
    method CommandResults(results: seq<Report>) returns (acknowledged: seq<string>, published: seq<Verdict>)
      modifies this
      ensures commands == Apply(old(commands), Results(results)) && commands.Keys == old(commands).Keys
      ensures forall id | id in commands :: Answered(old(commands)[id], commands[id], results, id)
      ensures acknowledged == Acknowledged(old(commands), results)
      ensures forall id ::
                id in acknowledged <==> id in old(commands) && Awaits(old(commands)[id]) && Named(results, id)
      ensures |published| == |acknowledged|
      ensures forall k | 0 <= k < |acknowledged| ::
                FirstNaming(results, acknowledged[k], published[k])
                && acknowledged[k] in commands && commands[acknowledged[k]].verdict == Some(published[k])
    {
      ghost var q := commands;
      acknowledged := RecordResults(results);
      FirstResultIsStored(q, results, "");
      forall id | id in q ensures Answered(q[id], commands[id], results, id) { BatchAnswers(q, results, id); }
      forall id ensures id in acknowledged <==> id in q && Awaits(q[id]) && Named(results, id) {
        AcknowledgedExactly(q, results, id);
      }
      forall id | id in acknowledged ensures Mentions(results, id) { AcknowledgedIsNamed(q, results, id); }
      published := VerdictsOf(results, acknowledged);
      forall k | 0 <= k < |acknowledged|
        ensures FirstNaming(results, acknowledged[k], published[k])
        ensures acknowledged[k] in commands && commands[acknowledged[k]].verdict == Some(published[k])
      {
        AcknowledgedIsNamed(q, results, acknowledged[k]);
      }
    }
  }
}
