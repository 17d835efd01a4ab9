/** Password login with its lockout counter, and the password reset that clears it. */
module Sessions {
  import opened Text

  const MAX_FAILED_LOGINS: nat := 8
  const LOCKOUT_MS: nat := 900000

  /** The two columns of a user row that the lockout lives in; instants are in milliseconds. */
  datatype Account = Account(failedLogins: nat, lockedUntil: Option<int>)

  const CLEAR: Account := Account(0, None)

  datatype Outcome = Invalid | Locked(retryAfterSeconds: int) | LoggedIn

  predicate IsLocked(a: Account, now: int) { a.lockedUntil.Some? && a.lockedUntil.value > now }

  /** Math.ceil(ms / 1000). */
  function CeilSeconds(ms: int): int { (ms + 999) / 1000 }

  /** The row that a failed check writes, from the number of failures it had read. */
  function WriteFailure(a: Account, failures: nat, dbNow: int): Account
  {
    Account(failures, if failures >= MAX_FAILED_LOGINS then Some(dbNow + LOCKOUT_MS) else a.lockedUntil)
  }

  /** One login from beginning to end: the row is read at one instant and written at another. */
  datatype Login = Login(readAt: int, writtenAt: int, correct: bool)

  predicate Checks(a: Account, l: Login) { !IsLocked(a, l.readAt) }

  function AfterLogin(a: Account, l: Login): Account
  {
    if !Checks(a, l) then a
    else if l.correct then CLEAR
    else WriteFailure(a, a.failedLogins + 1, l.writtenAt)
  }

  function OutcomeOf(a: Account, l: Login): Outcome
  {
    if !Checks(a, l) then Locked(CeilSeconds(a.lockedUntil.value - l.readAt))
    else if l.correct then LoggedIn else Invalid
  }

  /** Waiting as long as the answer says is enough, and a whole second less is not. */
  lemma RetryAfterIsExact(a: Account, l: Login)
    requires OutcomeOf(a, l).Locked?
    ensures var seconds := OutcomeOf(a, l).retryAfterSeconds;
            && !IsLocked(a, l.readAt + 1000 * seconds)
            && forall s | s < seconds :: IsLocked(a, l.readAt + 1000 * s)
  {
    var wait := a.lockedUntil.value - l.readAt;
    assert 1000 * CeilSeconds(wait) >= wait > 1000 * (CeilSeconds(wait) - 1);
  }

  /** A password reset by the hash of its token, and whether a session has been revoked, by its id. */
  datatype Reset = Reset(consumed: bool, expiresAt: int)

  predicate ResetWorks(resets: map<string, Reset>, tokenHash: string, now: int)
  {
    tokenHash in resets && !resets[tokenHash].consumed && resets[tokenHash].expiresAt > now
  }

  function Consume(resets: map<string, Reset>, tokenHash: string, now: int): map<string, Reset>
  {
    if ResetWorks(resets, tokenHash, now) then resets[tokenHash := resets[tokenHash].(consumed := true)] else resets
  }

  function RevokeAll(sessions: map<string, bool>): (r: map<string, bool>)
    ensures r.Keys == sessions.Keys && forall s | s in r :: r[s]
  {
    map s | s in sessions :: true
  }

  /** The account service for one user: the row, its password resets and its sessions. */
  class AccountRow {
    var failedLogins: nat
    var lockedUntil: Option<int>
    var deleted: bool
    var resets: map<string, Reset>
    var revoked: map<string, bool>

    function View(): Account
      reads this
    {
      Account(failedLogins, lockedUntil)
    }

    constructor ()
      ensures View() == CLEAR && !deleted && resets == map[] && revoked == map[]
    {
      failedLogins, lockedUntil, deleted, resets, revoked := 0, None, false, map[], map[];
    }

    /** A deleted account answers like a wrong password and keeps its counters. */
    method TryLogin(l: Login) returns (outcome: Outcome)
      modifies this`failedLogins, this`lockedUntil
      ensures deleted ==> View() == old(View()) && outcome == Invalid
      ensures !deleted ==> View() == AfterLogin(old(View()), l) && outcome == OutcomeOf(old(View()), l)
      ensures var locked := old(lockedUntil).Some? && old(lockedUntil).value > l.readAt;
              && (outcome.LoggedIn? <==> !deleted && l.correct && !locked)
              && (outcome.LoggedIn? ==> failedLogins == 0 && lockedUntil == None)
              && (outcome.Locked? <==> !deleted && locked)
              && (outcome.Locked? ==> outcome.retryAfterSeconds > 0 && failedLogins == old(failedLogins)
                                      && lockedUntil == old(lockedUntil))
              && (!deleted && !l.correct && !locked ==>
                    outcome == Invalid && failedLogins == old(failedLogins) + 1
                    && lockedUntil == if failedLogins >= 8 then Some(l.writtenAt + 900000) else old(lockedUntil))
    {
      if deleted {
        return Invalid;
      }
      if lockedUntil.Some? && lockedUntil.value > l.readAt {
        return Locked(CeilSeconds(lockedUntil.value - l.readAt));
      }
      if !l.correct {
        var failures := failedLogins + 1;
        failedLogins := failures;
        if failures >= MAX_FAILED_LOGINS {
          lockedUntil := Some(l.writtenAt + LOCKOUT_MS);
        }
        return Invalid;
      }
      failedLogins, lockedUntil := 0, None;
      return LoggedIn;
    }

    /** The link is consumed, the counters are cleared and every session is revoked, in one transaction. */
    method CompletePasswordReset(tokenHash: string, now: int) returns (ok: bool)
      modifies this`failedLogins, this`lockedUntil, this`resets, this`revoked
      ensures ok == ResetWorks(old(resets), tokenHash, now)
      ensures resets == Consume(old(resets), tokenHash, now)
      ensures ok <==> tokenHash in old(resets) && !old(resets)[tokenHash].consumed
                      && now < old(resets)[tokenHash].expiresAt
      ensures resets == if ok then old(resets)[tokenHash := Reset(true, old(resets)[tokenHash].expiresAt)]
                        else old(resets)
      ensures ok ==> failedLogins == 0 && lockedUntil == None && revoked.Keys == old(revoked).Keys
                     && forall s | s in revoked :: revoked[s]
      ensures View() == if ok then CLEAR else old(View())
      ensures revoked == if ok then RevokeAll(old(revoked)) else old(revoked)
    {
      ok := tokenHash in resets && !resets[tokenHash].consumed && resets[tokenHash].expiresAt > now;
      if ok {
        resets := resets[tokenHash := resets[tokenHash].(consumed := true)];
        failedLogins, lockedUntil := 0, None;
        revoked := RevokeAll(revoked);
      }
    }
  }

  /** How many resets of a run succeed with a link; the instants are those of the transactions. */
  function Uses(resets: map<string, Reset>, run: seq<(string, int)>, tokenHash: string): nat
    decreases |run|
  {
    if run == [] then 0
    else (if run[0].0 == tokenHash && ResetWorks(resets, tokenHash, run[0].1) then 1 else 0)
         + Uses(Consume(resets, run[0].0, run[0].1), run[1..], tokenHash)
  }

  lemma {:induction false} ConsumedIsUseless(resets: map<string, Reset>, run: seq<(string, int)>, tokenHash: string)
    requires tokenHash in resets && resets[tokenHash].consumed
    ensures Uses(resets, run, tokenHash) == 0
    decreases |run|
  {
    if run != [] { ConsumedIsUseless(Consume(resets, run[0].0, run[0].1), run[1..], tokenHash); }
  }

  /** No run of resets changes a password twice with the same link. */
  lemma {:induction false} ResetLinkWorksOnce(resets: map<string, Reset>, run: seq<(string, int)>, tokenHash: string)
    ensures Uses(resets, run, tokenHash) <= 1
    decreases |run|
  {
    if run != [] {
      var next := Consume(resets, run[0].0, run[0].1);
      if run[0].0 == tokenHash && ResetWorks(resets, tokenHash, run[0].1) {
        ConsumedIsUseless(next, run[1..], tokenHash);
      } else {
        ResetLinkWorksOnce(next, run[1..], tokenHash);
      }
    }
  }

  // --------------------------------------------------------------- runs of logins

  function AfterAll(a: Account, logins: seq<Login>): Account
    decreases |logins|
  {
    if logins == [] then a else AfterAll(AfterLogin(a, logins[0]), logins[1..])
  }

  function Outcomes(a: Account, logins: seq<Login>): seq<Outcome>
    decreases |logins|
  {
    if logins == [] then [] else [OutcomeOf(a, logins[0])] + Outcomes(AfterLogin(a, logins[0]), logins[1..])
  }

  /** No run of wrong passwords ever logs in. */
  lemma {:induction false} WrongPasswordsNeverLogIn(a: Account, logins: seq<Login>)
    requires forall l | l in logins :: !l.correct
    ensures LoggedIn !in Outcomes(a, logins)
    decreases |logins|
  {
    if logins != [] {
      assert logins[0] in logins && forall l | l in logins[1..] :: l in logins;
      WrongPasswordsNeverLogIn(AfterLogin(a, logins[0]), logins[1..]);
    }
  }

  /** A right password logs in and clears the account, unless it is locked at that time. */
  lemma RightPasswordLogsIn(a: Account, l: Login)
    requires l.correct
    ensures !(a.lockedUntil.Some? && a.lockedUntil.value > l.readAt) ==>
              OutcomeOf(a, l) == LoggedIn && AfterLogin(a, l) == Account(0, None)
    ensures a.lockedUntil.Some? && a.lockedUntil.value > l.readAt ==>
              OutcomeOf(a, l).Locked? && AfterLogin(a, l) == a
  {
  }

  /**
   * On an account without a lock, wrong passwords count one by one; the account is locked by the eighth failure
   * since the last success, and from then on for fifteen minutes.
   */
  lemma {:induction false} EighthFailureLocks(a: Account, logins: seq<Login>)
    requires a.lockedUntil == None && a.failedLogins + |logins| <= 8 && forall l | l in logins :: !l.correct
    ensures AfterAll(a, logins).failedLogins == a.failedLogins + |logins|
    ensures AfterAll(a, logins).lockedUntil
         == if logins != [] && a.failedLogins + |logins| == 8 then Some(logins[|logins| - 1].writtenAt + 900000)
            else None
    decreases |logins|
  {
    if logins != [] {
      assert logins[0] in logins && forall l | l in logins[1..] :: l in logins;
      if |logins| > 1 {
        EighthFailureLocks(AfterLogin(a, logins[0]), logins[1..]);
      } else {
        assert AfterAll(AfterLogin(a, logins[0]), logins[1..]) == AfterLogin(a, logins[0]);
      }
    }
  }

  // ------------------------------------------------------- the bound on guessing

  /** Logins one after the other: each is over before the next begins. */
  predicate Sequential(logins: seq<Login>)
  {
    && (forall i | 0 <= i < |logins| :: logins[i].readAt <= logins[i].writtenAt)
    && (forall i, j | 0 <= i < j < |logins| :: logins[i].writtenAt <= logins[j].readAt)
  }

  predicate AllWrong(logins: seq<Login>) { forall l | l in logins :: !l.correct }

  /** How many passwords were checked against the account. */
  function CheckCount(a: Account, logins: seq<Login>): nat
    decreases |logins|
  {
    if logins == [] then 0
    else (if Checks(a, logins[0]) then 1 else 0) + CheckCount(AfterLogin(a, logins[0]), logins[1..])
  }

  /** How long n lockouts of fifteen minutes last. */
  function Lockouts(n: int): int { 900000 * n }

  /** How many checks the account allows before each further one has to wait. */
  function Free(a: Account): nat
  {
    if a.failedLogins < MAX_FAILED_LOGINS then MAX_FAILED_LOGINS - a.failedLogins else 1
  }

  /** The earliest instant of a check among logins that start at `readAt`. */
  function Earliest(a: Account, readAt: int): int
  {
    if IsLocked(a, readAt) then a.lockedUntil.value else readAt
  }

  lemma {:induction false} ChecksTakeTime(a: Account, logins: seq<Login>)
    requires Sequential(logins) && AllWrong(logins) && logins != [] && CheckCount(a, logins) > 0
    ensures logins[|logins| - 1].readAt >= Earliest(a, logins[0].readAt)
    ensures logins[|logins| - 1].readAt
         >= Earliest(a, logins[0].readAt) + Lockouts(CheckCount(a, logins) - Free(a))
    decreases |logins|
  {
    var l, rest := logins[0], logins[1..];
    var a' := AfterLogin(a, l);
    assert l in logins && forall x | x in rest :: x in logins;
    if rest == [] {
      assert CheckCount(a', rest) == 0;
    } else {
      assert l.readAt <= l.writtenAt <= logins[1].readAt <= logins[|logins| - 1].readAt;
      if CheckCount(a', rest) > 0 {
        ChecksTakeTime(a', rest);
      }
    }
  }

  /**
   * Sequential logins without a success or a reset check at most 8 passwords, and one more for every full
   * lockout period that the run spans, whatever the counters held at the start.
   */
  lemma LockoutBound(a: Account, logins: seq<Login>)
    requires Sequential(logins) && AllWrong(logins) && logins != []
    ensures CheckCount(a, logins) <= 8 + (logins[|logins| - 1].readAt - logins[0].readAt) / 900000
  {
    var span := logins[|logins| - 1].readAt - logins[0].readAt;
    assert span >= 0 by {
      if |logins| > 1 { assert logins[0].readAt <= logins[0].writtenAt <= logins[|logins| - 1].readAt; }
    }
    if CheckCount(a, logins) > 0 {
      ChecksTakeTime(a, logins);
      assert Lockouts(CheckCount(a, logins) - 8) <= span;
    }
  }

  /** A run of wrong passwords that starts and ends at the given instants with the given number of checks. */
  ghost predicate Reaches(a: Account, logins: seq<Login>, first: int, last: int, checks: nat)
  {
    && logins != [] && Sequential(logins) && AllWrong(logins)
    && logins[0].readAt == first && logins[|logins| - 1].readAt == last
    && CheckCount(a, logins) == checks
  }

  lemma OneMore(a: Account, at: int, rest: seq<Login>, next: int, last: int, checks: nat)
    requires !IsLocked(a, at) && at <= next
    requires Reaches(WriteFailure(a, a.failedLogins + 1, at), rest, next, last, checks)
    ensures Reaches(a, [Login(at, at, false)] + rest, at, last, checks + 1)
  {
    var l := Login(at, at, false);
    var all := [l] + rest;
    assert all[1..] == rest;
    forall i, j | 0 <= i < j < |all| ensures all[i].writtenAt <= all[j].readAt {
      assert rest[0].readAt <= rest[0].writtenAt;
      assert j > 1 ==> rest[0].writtenAt <= rest[j - 1].readAt;
    }
  }

  /** One check as soon as each lock ends. */
  lemma {:induction false} PatientGuessing(a: Account, periods: nat, at: int) returns (logins: seq<Login>)
    requires a.failedLogins >= 7 && !IsLocked(a, at)
    ensures Reaches(a, logins, at, at + Lockouts(periods), periods + 1)
    decreases periods
  {
    if periods == 0 {
      logins := [Login(at, at, false)];
      assert logins[1..] == [];
    } else {
      var rest := PatientGuessing(WriteFailure(a, a.failedLogins + 1, at), periods - 1, at + LOCKOUT_MS);
      logins := [Login(at, at, false)] + rest;
      OneMore(a, at, rest, at + LOCKOUT_MS, at + Lockouts(periods), periods);
    }
  }

  /** The bound is reached: from a clear account, 8 + n checks within n lockout periods. */
  lemma {:induction false} LockoutBoundIsReached(a: Account, periods: nat, at: int) returns (logins: seq<Login>)
    requires a.lockedUntil.None? && a.failedLogins <= 7
    ensures Reaches(a, logins, at, at + Lockouts(periods), 8 - a.failedLogins + periods)
    decreases 8 - a.failedLogins
  {
    if a.failedLogins == 7 {
      logins := PatientGuessing(a, periods, at);
    } else {
      var rest := LockoutBoundIsReached(WriteFailure(a, a.failedLogins + 1, at), periods, at);
      logins := [Login(at, at, false)] + rest;
      OneMore(a, at, rest, at, at + Lockouts(periods), 7 - a.failedLogins + periods);
    }
  }

  // ---------------------------------------------------------- overlapping logins

  /** The two statements of a login: the row is read, and the failure count is written back. */
  datatype Half = ReadRow(login: nat, at: int) | WriteRow(login: nat, at: int)

  /** With the logins that have read an unlocked row, and the failure count that each will write. */
  datatype Overlap = Overlap(account: Account, pending: map<nat, nat>, checks: nat)

  /** A read that goes on to check the password; a login reads once. */
  predicate GoesOn(w: Overlap, e: Half)
  {
    e.ReadRow? && e.login !in w.pending && !IsLocked(w.account, e.at)
  }

  /** Every password is wrong. */
  function Interleave(w: Overlap, e: Half): Overlap
  {
    match e
    case ReadRow(l, at) =>
      if !GoesOn(w, e) then w else Overlap(w.account, w.pending[l := w.account.failedLogins + 1], w.checks + 1)
    case WriteRow(l, at) =>
      if l !in w.pending then w
      else Overlap(WriteFailure(w.account, w.pending[l], at), w.pending - {l}, w.checks)
  }

  function InterleaveAll(w: Overlap, events: seq<Half>): Overlap
    decreases |events|
  {
    if events == [] then w else InterleaveAll(Interleave(w, events[0]), events[1..])
  }

  /** No login reads the row between the two statements of another. */
  predicate OneAtATime(w: Overlap, events: seq<Half>)
    decreases |events|
  {
    events == [] || ((GoesOn(w, events[0]) ==> w.pending == map[]) && OneAtATime(Interleave(w, events[0]), events[1..]))
  }

  /** What the row would hold if every write so far had counted. */
  function Due(w: Overlap, f: nat): int { f + w.checks - |w.pending| }

  ghost predicate CountsAll(w: Overlap, f: nat)
  {
    && |w.pending| <= 1 && w.account.failedLogins == Due(w, f)
    && forall l | l in w.pending :: w.pending[l] == w.account.failedLogins + 1
  }

  /** A failure is lost, or is going to be: two logins are under way, or one whose write comes too late to count. */
  ghost predicate Loses(w: Overlap, f: nat)
  {
    && w.account.failedLogins <= Due(w, f) && (forall l | l in w.pending :: w.pending[l] <= Due(w, f) + 1)
    && (|w.pending| >= 2 || Stale(w, f) || Lost(w, f))
  }

  ghost predicate Stale(w: Overlap, f: nat) { exists l | l in w.pending :: w.pending[l] <= Due(w, f) }

  ghost predicate Lost(w: Overlap, f: nat)
  {
    w.account.failedLogins < Due(w, f) && forall l | l in w.pending :: w.pending[l] <= Due(w, f)
  }

  ghost predicate CountsOne(w: Overlap, f: nat)
  {
    && |w.pending| <= w.checks && w.account.failedLogins >= f && (forall l | l in w.pending :: w.pending[l] > f)
    && (w.checks > |w.pending| ==> w.account.failedLogins > f)
  }

  lemma ReadStep(w: Overlap, e: Half, f: nat)
    requires GoesOn(w, e)
    ensures CountsOne(w, f) ==> CountsOne(Interleave(w, e), f)
    ensures CountsAll(w, f) && w.pending == map[] ==> CountsAll(Interleave(w, e), f)
    ensures CountsAll(w, f) && w.pending != map[] ==> Loses(Interleave(w, e), f)
    ensures Loses(w, f) ==> Loses(Interleave(w, e), f)
  {
    var w' := Interleave(w, e);
    assert w'.pending.Keys == w.pending.Keys + {e.login} && Due(w', f) == Due(w, f);
    if Stale(w, f) {
      var l :| l in w.pending && w.pending[l] <= Due(w, f);
      assert w'.pending[l] <= Due(w', f);
    }
  }

  lemma WriteStep(w: Overlap, e: Half, f: nat)
    requires e.WriteRow? && e.login in w.pending
    ensures CountsOne(w, f) ==> CountsOne(Interleave(w, e), f)
    ensures CountsAll(w, f) ==> CountsAll(Interleave(w, e), f)
    ensures Loses(w, f) ==> Loses(Interleave(w, e), f)
  {
    var w', l := Interleave(w, e), e.login;
    assert w'.pending.Keys == w.pending.Keys - {l} && Due(w', f) == Due(w, f) + 1;
    if Loses(w, f) && w.pending[l] > Due(w, f) {
      if |w.pending| >= 2 {
        assert |w'.pending| >= 1;
        var k :| k in w'.pending;
        assert w'.pending[k] <= Due(w', f);
      }
    }
  }

  lemma {:induction false} RunCounts(w: Overlap, events: seq<Half>, f: nat)
    requires CountsOne(w, f)
    ensures var r := InterleaveAll(w, events);
            && CountsOne(r, f)
            && (CountsAll(w, f) && OneAtATime(w, events) ==> CountsAll(r, f))
            && (Loses(w, f) || (CountsAll(w, f) && !OneAtATime(w, events)) ==> Loses(r, f))
    decreases |events|
  {
    if events != [] {
      var e := events[0];
      if GoesOn(w, e) { ReadStep(w, e, f); } else if e.WriteRow? && e.login in w.pending { WriteStep(w, e, f); }
      RunCounts(Interleave(w, e), events[1..], f);
    }
  }

  /**
   * The bound on guessing needs the logins to be sequential: the count is read by one statement and written back by
   * another. However the statements of a run of wrong logins interleave, at least one failure and at most one for
   * each checked password is recorded, and all of them are if and only if no login reads between the two statements
   * of another.
   */
  lemma RecordedFailures(a: Account, events: seq<Half>)
    requires InterleaveAll(Overlap(a, map[], 0), events).pending == map[]
    ensures var w := InterleaveAll(Overlap(a, map[], 0), events);
            var recorded := w.account.failedLogins - a.failedLogins;
            && (w.checks > 0 ==> recorded >= 1) && recorded <= w.checks
            && (recorded == w.checks <==> OneAtATime(Overlap(a, map[], 0), events))
  {
    var w0 := Overlap(a, map[], 0);
    assert CountsAll(w0, a.failedLogins) && CountsOne(w0, a.failedLogins);
    RunCounts(w0, events, a.failedLogins);
  }

  // ------------------------------------------------------------ a batch at once

  predicate Reads(events: seq<Half>)
  {
    && (forall i | 0 <= i < |events| :: events[i].ReadRow?)
    && (forall i, j | 0 <= i < j < |events| :: events[i].login != events[j].login)
  }

  lemma {:induction false} Joined(w: Overlap, first: seq<Half>, second: seq<Half>)
    ensures InterleaveAll(w, first + second) == InterleaveAll(InterleaveAll(w, first), second)
    decreases |first|
  {
    if first == [] {
      assert first + second == second;
    } else {
      assert (first + second)[0] == first[0] && (first + second)[1..] == first[1..] + second;
      Joined(Interleave(w, first[0]), first[1..], second);
    }
  }

  lemma OneRead(w: Overlap, e: Half)
    requires GoesOn(w, e)
    ensures var w' := Interleave(w, e);
            && w'.account == w.account && w'.checks == w.checks + 1
            && w'.pending == w.pending[e.login := w.account.failedLogins + 1] && |w'.pending| == |w.pending| + 1
  {
    assert Interleave(w, e).pending.Keys == w.pending.Keys + {e.login};
  }

  lemma OthersFollow(readings: seq<Half>)
    requires Reads(readings) && readings != []
    ensures Reads(readings[1..]) && readings[0] in readings
    ensures forall e | e in readings[1..] :: e in readings && e.login != readings[0].login
  {
  }

  lemma {:induction false} AllRead(w: Overlap, readings: seq<Half>)
    requires Reads(readings) && forall e | e in readings :: e.login !in w.pending && !IsLocked(w.account, e.at)
    requires forall l | l in w.pending :: w.pending[l] == w.account.failedLogins + 1
    ensures var w' := InterleaveAll(w, readings);
            && w'.account == w.account && w'.checks == w.checks + |readings|
            && |w'.pending| == |w.pending| + |readings|
            && forall l | l in w'.pending :: w'.pending[l] == w.account.failedLogins + 1
    decreases |readings|
  {
    if readings != [] {
      OneRead(w, readings[0]);
      OthersFollow(readings);
      AllRead(Interleave(w, readings[0]), readings[1..]);
    }
  }

  /** Every write answers at most one pending login. */
  lemma {:induction false} WritesAnswer(w: Overlap, writes: seq<Half>)
    requires forall e | e in writes :: e.WriteRow?
    ensures |InterleaveAll(w, writes).pending| >= |w.pending| - |writes|
    decreases |writes|
  {
    if writes != [] {
      var e, w1 := writes[0], Interleave(w, writes[0]);
      assert e in writes && forall x | x in writes[1..] :: x in writes;
      assert |w1.pending| >= |w.pending| - 1 by {
        if e.login in w.pending { assert w1.pending.Keys == w.pending.Keys - {e.login}; }
      }
      WritesAnswer(w1, writes[1..]);
    }
  }

  lemma {:induction false} AllWrite(w: Overlap, writes: seq<Half>, failures: nat)
    requires |w.pending| == |writes| > 0 && forall l | l in w.pending :: w.pending[l] == failures
    requires forall e | e in writes :: e.WriteRow?
    requires InterleaveAll(w, writes).pending == map[]
    ensures var w' := InterleaveAll(w, writes);
            w'.checks == w.checks && w'.account == WriteFailure(w.account, failures, writes[|writes| - 1].at)
    decreases |writes|
  {
    var e, w1 := writes[0], Interleave(w, writes[0]);
    assert e in writes && forall x | x in writes[1..] :: x in writes;
    WritesAnswer(w1, writes[1..]);
    assert e.login in w.pending && w1.pending.Keys == w.pending.Keys - {e.login};
    assert |w1.pending.Keys| == |writes| - 1;
    if |writes| > 1 {
      AllWrite(w1, writes[1..], failures);
    } else {
      assert InterleaveAll(w1, writes[1..]) == w1;
    }
  }

  /**
   * Of a batch of wrong logins that all read an unlocked account with f failures before any of them writes, every
   * password is checked and one failure is recorded, in whatever order they write. So the account is locked
   * afterwards if and only if f + 1 reaches the limit, however large the batch.
   */
  lemma OverlappingLogins(a: Account, readings: seq<Half>, writes: seq<Half>)
    requires Reads(readings) && |readings| == |writes| > 0 && forall e | e in writes :: e.WriteRow?
    requires forall e | e in readings :: !IsLocked(a, e.at)
    requires InterleaveAll(Overlap(a, map[], 0), readings + writes).pending == map[]
    ensures var w := InterleaveAll(Overlap(a, map[], 0), readings + writes);
            && w.checks == |readings| && w.account.failedLogins == a.failedLogins + 1
            && (forall now | readings[0].at <= now < writes[|writes| - 1].at + LOCKOUT_MS ::
                  IsLocked(w.account, now) <==> a.failedLogins + 1 >= MAX_FAILED_LOGINS)
  {
    var w0 := Overlap(a, map[], 0);
    assert readings[0] in readings;
    Joined(w0, readings, writes);
    AllRead(w0, readings);
    AllWrite(InterleaveAll(w0, readings), writes, a.failedLogins + 1);
  }
}
