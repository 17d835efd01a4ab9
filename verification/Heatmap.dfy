/** The heatmap: one expiring hash of counters per minute, summed over a sliding window of thirty minutes. */
module Heatmap {
  import opened Text

  const CELL_SIZE: real := 50.0
  const RETENTION_BUCKETS: nat := 30

  datatype Position = Position(x: real, y: real)
  datatype Cell = Cell(gx: int, gy: int)
  datatype CellCount = CellCount(cell: Cell, count: nat)

  type Counts = map<string, nat>

  // ---------------------------------------------------------------------- cells

  /** Math.round: the nearest integer, halves upwards. */
  function Round(x: real): int { (x + 0.5).Floor }

  function CellOf(p: Position): Cell { Cell(Round(p.x / CELL_SIZE), Round(p.y / CELL_SIZE)) }

  function Field(c: Cell): string { PrintInt(c.gx) + [':'] + PrintInt(c.gy) }

  ghost predicate IsField(f: string) { exists c :: f == Field(c) }

  /** field.split(':').map(Number), of which the first two are taken. */
  function ParseField(f: string): Option<Cell>
  {
    var parts := Split(f, ':');
    if |parts| < 2 then None
    else
      match (JsNumber(parts[0]), JsNumber(parts[1]))
      case (Some(gx), Some(gy)) => Some(Cell(gx, gy))
      case _ => None
  }

  /** Signed coordinates survive the trip through the text of a field. */
  lemma FieldRoundTrip(c: Cell)
    ensures ParseField(Field(c)) == Some(c)
  {
    var gx, gy := PrintInt(c.gx), PrintInt(c.gy);
    assert ':' !in gx && ':' !in gy by { assert !IsDigit(':'); }
    SplitFirst(gx, ':', gy);
    SplitWhole(gy, ':');
    NumberRoundTrip(c.gx);
    NumberRoundTrip(c.gy);
  }

  // ------------------------------------------------------------------- counters

  function Get(m: Counts, f: string): nat { if f in m then m[f] else 0 }

  function Bump(m: Counts, f: string, n: nat): Counts { m[f := Get(m, f) + n] }

  function AddAll(a: Counts, b: Counts): Counts
  {
    map f | f in a.Keys + b.Keys :: Get(a, f) + Get(b, f)
  }

  /** The counters that a list of names fills from nothing. */
  function TallyNames(fs: seq<string>): Counts
  {
    if fs == [] then map[] else Bump(TallyNames(fs[..|fs| - 1]), fs[|fs| - 1], 1)
  }

  function FieldsOf(ps: seq<Position>): seq<string>
  {
    seq(|ps|, i requires 0 <= i < |ps| => Field(CellOf(ps[i])))
  }

  function Tally(ps: seq<Position>): Counts { TallyNames(FieldsOf(ps)) }

  /** The cell is the square with sides of fifty metres around fifty times its coordinates, lower edges included. */
  ghost predicate Inside(p: Position, c: Cell)
  {
    && 50.0 * c.gx as real - 25.0 <= p.x < 50.0 * c.gx as real + 25.0
    && 50.0 * c.gy as real - 25.0 <= p.y < 50.0 * c.gy as real + 25.0
  }

  /** How many of the positions lie in the cell. */
  ghost function InCell(ps: seq<Position>, c: Cell): nat
  {
    if ps == [] then 0 else InCell(ps[..|ps| - 1], c) + if Inside(ps[|ps| - 1], c) then 1 else 0
  }

  lemma RoundExactly(x: real, n: int)
    ensures Round(x / CELL_SIZE) == n <==> 50.0 * n as real - 25.0 <= x < 50.0 * n as real + 25.0
  {
    var y := x / 50.0 + 0.5;
    assert y.Floor == n <==> n as real <= y < n as real + 1.0;
  }

  /** Every position lies in exactly one cell, the one that it is counted in. */
  lemma CellExactly(p: Position, c: Cell)
    ensures CellOf(p) == c <==> Inside(p, c)
  {
    RoundExactly(p.x, c.gx);
    RoundExactly(p.y, c.gy);
  }

  lemma FieldFormat(gx: int, gy: int)
    ensures Field(Cell(gx, gy)) == PrintInt(gx) + ":" + PrintInt(gy)
  {
  }

  lemma BumpOfSum(a: Counts, b: Counts, f: string, n: nat)
    ensures Bump(AddAll(a, b), f, n) == AddAll(a, Bump(b, f, n))
  {
    var l, r := Bump(AddAll(a, b), f, n), AddAll(a, Bump(b, f, n));
    forall g ensures g in l <==> g in r {}
    forall g | g in l ensures l[g] == r[g] {}
  }

  lemma SumWithNothing(a: Counts)
    ensures AddAll(a, map[]) == a
  {
    var l := AddAll(a, map[]);
    forall g ensures g in l <==> g in a {}
  }

  lemma {:induction false} NamesAppend(a: seq<string>, b: seq<string>)
    ensures TallyNames(a + b) == AddAll(TallyNames(a), TallyNames(b))
  {
    if b == [] {
      assert a + b == a;
      SumWithNothing(TallyNames(a));
    } else {
      var n := |b| - 1;
      var ab := a + b;
      assert ab[..|ab| - 1] == a + b[..n] && ab[|ab| - 1] == b[n];
      NamesAppend(a, b[..n]);
      BumpOfSum(TallyNames(a), TallyNames(b[..n]), b[n], 1);
    }
  }

  lemma FieldsAppend(a: seq<Position>, b: seq<Position>)
    ensures FieldsOf(a + b) == FieldsOf(a) + FieldsOf(b)
  {
  }

  lemma TallyAppend(a: seq<Position>, b: seq<Position>)
    ensures Tally(a + b) == AddAll(Tally(a), Tally(b))
  {
    FieldsAppend(a, b);
    NamesAppend(FieldsOf(a), FieldsOf(b));
  }

  lemma TallyLast(ps: seq<Position>)
    requires ps != []
    ensures Tally(ps) == Bump(Tally(ps[..|ps| - 1]), Field(CellOf(ps[|ps| - 1])), 1)
  {
    assert FieldsOf(ps)[..|ps| - 1] == FieldsOf(ps[..|ps| - 1]);
  }

  /** A counter holds the number of positions of its cell, and only cells with a position have one. */
  lemma {:induction false} TallyCounts(ps: seq<Position>, c: Cell)
    ensures Get(Tally(ps), Field(c)) == InCell(ps, c)
    ensures Field(c) in Tally(ps) <==> InCell(ps, c) > 0
  {
    if ps != [] {
      TallyLast(ps);
      TallyCounts(ps[..|ps| - 1], c);
      FieldRoundTrip(c);
      FieldRoundTrip(CellOf(ps[|ps| - 1]));
      CellExactly(ps[|ps| - 1], c);
    }
  }

  lemma {:induction false} FieldsAreCells(ps: seq<Position>, f: string)
    requires f in Tally(ps)
    ensures IsField(f)
  {
    var last := CellOf(ps[|ps| - 1]);
    TallyLast(ps);
    if f != Field(last) {
      FieldsAreCells(ps[..|ps| - 1], f);
    }
  }

  ghost function Total(m: Counts): nat
  {
    if m == map[] then 0 else
      var f :| f in m;
      m[f] + Total(m - {f})
  }

  lemma {:induction false} TotalWithout(m: Counts, f: string)
    requires f in m
    ensures Total(m) == m[f] + Total(m - {f})
    decreases |m|
  {
    var g :| g in m && Total(m) == m[g] + Total(m - {g});
    if g != f {
      TotalWithout(m - {g}, f);
      TotalWithout(m - {f}, g);
      assert m - {g} - {f} == m - {f} - {g};
    }
  }

  lemma TotalBump(m: Counts, f: string, n: nat)
    ensures Total(Bump(m, f, n)) == Total(m) + n
  {
    TotalWithout(Bump(m, f, n), f);
    assert Bump(m, f, n) - {f} == m - {f};
    if f in m {
      TotalWithout(m, f);
    } else {
      assert m - {f} == m;
    }
  }

  lemma {:induction false} TallyTotal(ps: seq<Position>)
    ensures Total(Tally(ps)) == |ps|
  {
    if ps != [] {
      TallyLast(ps);
      TallyTotal(ps[..|ps| - 1]);
      TotalBump(Tally(ps[..|ps| - 1]), Field(CellOf(ps[|ps| - 1])), 1);
    }
  }

  // --------------------------------------------------------------- expiring hashes

  datatype Hash = Hash(counts: Counts, deadline: nat)

  type Store = map<nat, Hash>

  /** HGETALL: an expired or missing key reads as empty; `edge` is 1 if it is still there at its deadline. */
  function Visible(s: Store, bucket: int, at: nat, edge: nat): Counts
  {
    if bucket >= 0 && bucket in s && at < s[bucket].deadline + edge then s[bucket].counts else map[]
  }

  /** The minute that a clock reading falls into. */
  function BucketOf(clock: nat): nat { clock / 60000 }

  /** A hash expires 60 * (30 + 1) seconds after its last push. */
  const TTL_MS: nat := 1860000

  /** No push of a minute comes before the minute itself, so its hash lives at least until then. */
  function KeptUntil(bucket: nat): nat { 60000 * bucket + 1860000 }

  /** One snapshot: the clock is read first, the counters are incremented some time later. */
  datatype Push = Push(clock: nat, at: nat, optedIn: bool, players: seq<Position>)

  function AfterPush(s: Store, p: Push, edge: nat): Store
  {
    if p.players == [] || !p.optedIn then s
    else
      var b := BucketOf(p.clock);
      s[b := Hash(AddAll(Visible(s, b, p.at, edge), Tally(p.players)), p.at + TTL_MS)]
  }

  function Stored(pushes: seq<Push>, edge: nat): Store
  {
    if pushes == [] then map[] else AfterPush(Stored(pushes[..|pushes| - 1], edge), pushes[|pushes| - 1], edge)
  }

  lemma BucketExactly(clock: nat, bucket: int)
    ensures BucketOf(clock) == bucket <==> 60000 * bucket <= clock < 60000 * bucket + 60000
  {
  }

  /** The positions pushed, while opted in, in one minute. */
  ghost function Minute(pushes: seq<Push>, bucket: int): seq<Position>
  {
    if pushes == [] then []
    else
      var p := pushes[|pushes| - 1];
      Minute(pushes[..|pushes| - 1], bucket)
      + if p.optedIn && 60000 * bucket <= p.clock < 60000 * bucket + 60000 then p.players else []
  }

  /** Commands reach the cache in order, and each after its own clock reading. */
  predicate InOrder(pushes: seq<Push>)
  {
    && (forall i | 0 <= i < |pushes| :: pushes[i].clock <= pushes[i].at)
    && (forall i, j | 0 <= i <= j < |pushes| :: pushes[i].at <= pushes[j].at)
  }

  predicate After(pushes: seq<Push>, at: nat) { forall i | 0 <= i < |pushes| :: pushes[i].at <= at }

  /** The hash of a minute cannot expire while that minute can still be asked for. */
  ghost predicate Faithful(s: Store, pushes: seq<Push>, bucket: nat)
  {
    if bucket in s then
      s[bucket].deadline >= KeptUntil(bucket)
      && s[bucket].counts == Tally(Minute(pushes, bucket))
    else Minute(pushes, bucket) == []
  }

  lemma {:induction false} HashesAreFaithful(pushes: seq<Push>, edge: nat, bucket: nat, at: nat)
    requires InOrder(pushes) && After(pushes, at) && at < KeptUntil(bucket) + edge
    ensures Faithful(Stored(pushes, edge), pushes, bucket)
  {
    if pushes != [] {
      var before, p := pushes[..|pushes| - 1], pushes[|pushes| - 1];
      HashesAreFaithful(before, edge, bucket, p.at);
      BucketExactly(p.clock, bucket);
      var s := Stored(before, edge);
      if p.players != [] && p.optedIn && BucketOf(p.clock) == bucket {
        TallyAppend(Minute(before, bucket), p.players);
        assert Visible(s, bucket, p.at, edge) == Tally(Minute(before, bucket));
      } else {
        assert Minute(pushes, bucket) == Minute(before, bucket);
      }
    }
  }

  lemma {:induction false} NothingBeforeZero(pushes: seq<Push>, bucket: int)
    requires bucket < 0
    ensures Minute(pushes, bucket) == []
  {
    if pushes != [] {
      NothingBeforeZero(pushes[..|pushes| - 1], bucket);
      assert 60000 * bucket + 60000 <= 0;
    }
  }

  /** A fetch of a minute runs before the hash of that minute can have expired. */
  predicate FetchedInTime(bucket: int, at: nat, edge: nat)
  {
    bucket < 0 || at < KeptUntil(bucket) + edge
  }

  /** At most a minute after its clock reading every fetch of a read is in time. */
  lemma PromptFetchIsInTime(clock: nat, at: nat, i: nat, edge: nat)
    requires i < RETENTION_BUCKETS && at <= clock + 60000
    ensures FetchedInTime(BucketOf(clock) - i, at, edge)
  {
  }

  /** Fetching the hash of a minute in time gives the plain count over the history of that minute. */
  lemma HashReadIsCount(pushes: seq<Push>, edge: nat, bucket: int, at: nat)
    requires InOrder(pushes) && After(pushes, at) && FetchedInTime(bucket, at, edge)
    ensures Visible(Stored(pushes, edge), bucket, at, edge) == Tally(Minute(pushes, bucket))
  {
    if bucket < 0 {
      NothingBeforeZero(pushes, bucket);
    } else {
      HashesAreFaithful(pushes, edge, bucket, at);
    }
  }

  ghost predicate FetchIsCount(pushes: seq<Push>, edge: nat, bucket: int, at: nat)
  {
    InOrder(pushes) && After(pushes, at) ==>
      Visible(Stored(pushes, edge), bucket, at, edge) == Tally(Minute(pushes, bucket))
  }

  /** One early push whose hash is gone by the time of a late fetch. */
  lemma LateFetchMisses(bucket: nat, at: nat, edge: nat)
    requires !FetchedInTime(bucket, at, edge)
    ensures !FetchIsCount([Push(60000 * bucket, 60000 * bucket, true, [Position(0.0, 0.0)])], edge, bucket, at)
  {
    var p := Push(60000 * bucket, 60000 * bucket, true, [Position(0.0, 0.0)]);
    BucketExactly(p.clock, bucket);
    assert [p][..0] == [];
    assert Stored([p], edge) == AfterPush(map[], p, edge);
    assert Minute([p], bucket) == [] + p.players == p.players;
    TallyNotEmpty(p.players);
  }

  lemma TallyNotEmpty(ps: seq<Position>)
    requires ps != []
    ensures Tally(ps) != map[]
  {
    TallyLast(ps);
    assert Field(CellOf(ps[|ps| - 1])) in Tally(ps);
  }

  /** A fetch counts right for every history if and only if it runs before the hash can have expired. */
  lemma FetchIsCountExactly(edge: nat, bucket: int, at: nat)
    ensures (forall pushes :: FetchIsCount(pushes, edge, bucket, at))
       <==> bucket < 0 || at < 60000 * bucket + 1860000 + edge
  {
    if FetchedInTime(bucket, at, edge) {
      forall pushes ensures FetchIsCount(pushes, edge, bucket, at) {
        if InOrder(pushes) && After(pushes, at) { HashReadIsCount(pushes, edge, bucket, at); }
      }
    } else {
      LateFetchMisses(bucket, at, edge);
    }
  }

  // --------------------------------------------------------------- sliding window

  /** The sum of the first n hashes read, newest minute first. */
  function Sum(hashes: seq<Counts>): Counts
  {
    if hashes == [] then map[] else AddAll(Sum(hashes[..|hashes| - 1]), hashes[|hashes| - 1])
  }

  /** One HGETALL of a read: how many pushes had been stored by then, when it ran, and whether it was answered. */
  datatype Fetch = Fetch(stored: nat, at: nat, answered: bool)

  predicate Within(pushes: seq<Push>, fetches: seq<Fetch>)
  {
    forall i | 0 <= i < |fetches| :: fetches[i].stored <= |pushes|
  }

  predicate Fetchable(pushes: seq<Push>, edge: nat, clock: nat, fetches: seq<Fetch>)
  {
    Within(pushes, fetches)
    && forall i | 0 <= i < |fetches| && fetches[i].answered ::
         After(pushes[..fetches[i].stored], fetches[i].at) && FetchedInTime(BucketOf(clock) - i, fetches[i].at, edge)
  }

  /** A fetch that fails counts as an empty hash. */
  function FetchValue(pushes: seq<Push>, edge: nat, bucket: int, f: Fetch): Counts
    requires f.stored <= |pushes|
  {
    if f.answered then Visible(Stored(pushes[..f.stored], edge), bucket, f.at, edge) else map[]
  }

  /** What it has to count: the positions of the minute that were pushed before it. */
  ghost function MinuteBy(pushes: seq<Push>, bucket: int, f: Fetch): seq<Position>
    requires f.stored <= |pushes|
  {
    if f.answered then Minute(pushes[..f.stored], bucket) else []
  }

  function Fetched(pushes: seq<Push>, edge: nat, clock: nat, fetches: seq<Fetch>): seq<Counts>
    requires Within(pushes, fetches)
  {
    seq(|fetches|, i requires 0 <= i < |fetches| => FetchValue(pushes, edge, BucketOf(clock) - i, fetches[i]))
  }

  ghost function Minutes(pushes: seq<Push>, clock: nat, fetches: seq<Fetch>): seq<seq<Position>>
    requires Within(pushes, fetches)
  {
    seq(|fetches|, i requires 0 <= i < |fetches| => MinuteBy(pushes, BucketOf(clock) - i, fetches[i]))
  }

  function Concat(parts: seq<seq<Position>>): seq<Position>
  {
    if parts == [] then [] else Concat(parts[..|parts| - 1]) + parts[|parts| - 1]
  }

  lemma {:induction false} SumOfTallies(hashes: seq<Counts>, parts: seq<seq<Position>>)
    requires |hashes| == |parts| && forall i | 0 <= i < |parts| :: hashes[i] == Tally(parts[i])
    ensures Sum(hashes) == Tally(Concat(parts))
  {
    if parts != [] {
      var n := |parts| - 1;
      SumOfTallies(hashes[..n], parts[..n]);
      TallyAppend(Concat(parts[..n]), parts[n]);
    }
  }

  lemma OneFetch(pushes: seq<Push>, edge: nat, bucket: int, f: Fetch)
    requires InOrder(pushes) && f.stored <= |pushes|
    requires f.answered ==> After(pushes[..f.stored], f.at) && FetchedInTime(bucket, f.at, edge)
    ensures FetchValue(pushes, edge, bucket, f) == Tally(MinuteBy(pushes, bucket, f))
  {
    if f.answered {
      assert InOrder(pushes[..f.stored]);
      HashReadIsCount(pushes[..f.stored], edge, bucket, f.at);
    }
  }

  lemma EachFetch(pushes: seq<Push>, edge: nat, clock: nat, fetches: seq<Fetch>, i: nat)
    requires InOrder(pushes) && Fetchable(pushes, edge, clock, fetches) && i < |fetches| <= RETENTION_BUCKETS
    ensures Fetched(pushes, edge, clock, fetches)[i] == Tally(Minutes(pushes, clock, fetches)[i])
  {
    OneFetch(pushes, edge, BucketOf(clock) - i, fetches[i]);
  }

  /** A read whose thirty fetches interleave with pushes in any way still sums exactly what had been pushed. */
  lemma InterleavedRead(pushes: seq<Push>, edge: nat, clock: nat, fetches: seq<Fetch>)
    requires InOrder(pushes) && Fetchable(pushes, edge, clock, fetches) && |fetches| <= RETENTION_BUCKETS
    ensures Sum(Fetched(pushes, edge, clock, fetches)) == Tally(Concat(Minutes(pushes, clock, fetches)))
  {
    var hashes, parts := Fetched(pushes, edge, clock, fetches), Minutes(pushes, clock, fetches);
    forall i | 0 <= i < |fetches| ensures hashes[i] == Tally(parts[i]) {
      EachFetch(pushes, edge, clock, fetches, i);
    }
    SumOfTallies(hashes, parts);
  }

  /** How many positions of a cell were pushed, while opted in, in the given minutes. */
  ghost function Pushed(pushes: seq<Push>, first: int, last: int, c: Cell): nat
  {
    if pushes == [] then 0
    else
      var p := pushes[|pushes| - 1];
      Pushed(pushes[..|pushes| - 1], first, last, c)
      + if p.optedIn && 60000 * first <= p.clock < 60000 * last + 60000 then InCell(p.players, c) else 0
  }

  lemma {:induction false} InCellAppend(a: seq<Position>, b: seq<Position>, c: Cell)
    ensures InCell(a + b, c) == InCell(a, c) + InCell(b, c)
  {
    if b == [] {
      assert a + b == a;
    } else {
      var n := |b| - 1;
      assert (a + b)[..|a| + n] == a + b[..n];
      InCellAppend(a, b[..n], c);
    }
  }

  lemma {:induction false} MinuteCounts(pushes: seq<Push>, bucket: int, last: int, c: Cell)
    requires bucket <= last
    ensures InCell(Minute(pushes, bucket), c) == Pushed(pushes, bucket, bucket, c)
    ensures Pushed(pushes, bucket, last, c) == Pushed(pushes, bucket, bucket, c) + Pushed(pushes, bucket + 1, last, c)
  {
    if pushes != [] {
      var p := pushes[|pushes| - 1];
      MinuteCounts(pushes[..|pushes| - 1], bucket, last, c);
      InCellAppend(Minute(pushes[..|pushes| - 1], bucket), p.players, c);
      assert Minute(pushes[..|pushes| - 1], bucket) + [] == Minute(pushes[..|pushes| - 1], bucket);
    }
  }

  lemma {:induction false} NoMinutes(pushes: seq<Push>, first: int, last: int, c: Cell)
    requires last < first
    ensures Pushed(pushes, first, last, c) == 0
  {
    if pushes != [] { NoMinutes(pushes[..|pushes| - 1], first, last, c); }
  }

  /** The last n minutes, newest first. */
  ghost function LastMinutes(pushes: seq<Push>, clock: nat, n: nat): seq<seq<Position>>
  {
    seq(n, i requires 0 <= i < n => Minute(pushes, BucketOf(clock) - i))
  }

  lemma {:induction false} WindowCounts(pushes: seq<Push>, clock: nat, n: nat, c: Cell)
    ensures InCell(Concat(LastMinutes(pushes, clock, n)), c)
         == Pushed(pushes, BucketOf(clock) - n + 1, BucketOf(clock), c)
  {
    if n == 0 {
      NoMinutes(pushes, BucketOf(clock) + 1, BucketOf(clock), c);
    } else {
      var all := LastMinutes(pushes, clock, n);
      assert all[..n - 1] == LastMinutes(pushes, clock, n - 1);
      WindowCounts(pushes, clock, n - 1, c);
      MinuteCounts(pushes, BucketOf(clock) - (n - 1), BucketOf(clock), c);
      InCellAppend(Concat(all[..n - 1]), all[n - 1], c);
    }
  }

  /** How many positions were pushed, while opted in, in the given minutes. */
  ghost function PushedInAll(pushes: seq<Push>, first: int, last: int): nat
  {
    if pushes == [] then 0
    else
      var p := pushes[|pushes| - 1];
      PushedInAll(pushes[..|pushes| - 1], first, last)
      + if p.optedIn && 60000 * first <= p.clock < 60000 * last + 60000 then |p.players| else 0
  }

  lemma {:induction false} MinuteSizes(pushes: seq<Push>, bucket: int, last: int)
    requires bucket <= last
    ensures PushedInAll(pushes, bucket, last) == |Minute(pushes, bucket)| + PushedInAll(pushes, bucket + 1, last)
  {
    if pushes != [] { MinuteSizes(pushes[..|pushes| - 1], bucket, last); }
  }

  lemma {:induction false} NoPushes(pushes: seq<Push>, first: int, last: int)
    requires last < first
    ensures PushedInAll(pushes, first, last) == 0
  {
    if pushes != [] { NoPushes(pushes[..|pushes| - 1], first, last); }
  }

  lemma {:induction false} WindowSize(pushes: seq<Push>, clock: nat, n: nat)
    ensures |Concat(LastMinutes(pushes, clock, n))| == PushedInAll(pushes, BucketOf(clock) - n + 1, BucketOf(clock))
  {
    if n == 0 {
      NoPushes(pushes, BucketOf(clock) + 1, BucketOf(clock));
    } else {
      var all := LastMinutes(pushes, clock, n);
      assert all[..n - 1] == LastMinutes(pushes, clock, n - 1);
      WindowSize(pushes, clock, n - 1);
      MinuteSizes(pushes, BucketOf(clock) - (n - 1), BucketOf(clock));
    }
  }

  // ------------------------------------------------------------------ the service

  /** The counters of a hash in some order, as Object.entries lists them. */
  ghost predicate Lists(names: seq<string>, m: Counts)
  {
    (forall k | 0 <= k < |names| :: names[k] in m) && (forall j, k | 0 <= j < k < |names| :: names[j] != names[k])
  }

  method Names(m: Counts) returns (names: seq<string>)
    ensures Lists(names, m) && |names| == |m| && forall f | f in m :: f in names
  {
    names := [];
    var rest := m;
    while rest != map[]
      invariant rest.Keys <= m.Keys && |names| + |rest| == |m|
      invariant Lists(names, m) && (forall k | 0 <= k < |names| :: names[k] !in rest)
      invariant forall f | f in m && f !in rest :: f in names
      decreases |rest|
    {
      var f :| f in rest;
      names := names + [f];
      rest := rest - {f};
    }
  }

  function Part(m: Counts, names: seq<string>): Counts
  {
    map f | f in names && f in m :: m[f]
  }

  lemma PartGrows(m: Counts, names: seq<string>, k: nat)
    requires Lists(names, m) && k < |names|
    ensures Part(m, names[..k + 1]) == Bump(Part(m, names[..k]), names[k], m[names[k]])
  {
    var l, r := Part(m, names[..k + 1]), Bump(Part(m, names[..k]), names[k], m[names[k]]);
    assert names[..k + 1] == names[..k] + [names[k]];
    assert names[k] !in names[..k];
    forall g ensures g in l <==> g in r {}
    forall g | g in l ensures l[g] == r[g] {}
  }

  lemma PartIsAll(m: Counts, names: seq<string>)
    requires Lists(names, m) && forall f | f in m :: f in names
    ensures Part(m, names) == m
  {
  }

  method CountPlayers(players: seq<Position>) returns (counts: Counts)
    ensures counts == Tally(players)
  {
    counts := map[];
    for i := 0 to |players|
      invariant counts == Tally(players[..i])
    {
      assert players[..i + 1][..i] == players[..i];
      var gx, gy := Round(players[i].x / CELL_SIZE), Round(players[i].y / CELL_SIZE);
      TallyLast(players[..i + 1]);
      var field := PrintInt(gx) + [':'] + PrintInt(gy);
      counts := counts[field := (if field in counts then counts[field] else 0) + 1];
    }
    assert players[..|players|] == players;
  }

  lemma AddStep(totals: Counts, m: Counts, names: seq<string>, k: nat)
    requires Lists(names, m) && k < |names|
    ensures AddAll(totals, Part(m, names[..k + 1])) == Bump(AddAll(totals, Part(m, names[..k])), names[k], m[names[k]])
  {
    PartGrows(m, names, k);
    BumpOfSum(totals, Part(m, names[..k]), names[k], m[names[k]]);
  }

  /** Add every counter of a hash to the totals. */
  method AddHash(totals: Counts, hash: Counts) returns (sum: Counts)
    ensures sum == AddAll(totals, hash)
  {
    sum := totals;
    var names := Names(hash);
    SumWithNothing(totals);
    assert Part(hash, []) == map[];
    for k := 0 to |names|
      invariant sum == AddAll(totals, Part(hash, names[..k]))
    {
      AddStep(totals, hash, names, k);
      sum := Bump(sum, names[k], hash[names[k]]);
    }
    assert names[..|names|] == names;
    PartIsAll(hash, names);
  }

  lemma ParsedBack(f: string) returns (c: Cell)
    requires IsField(f)
    ensures ParseField(f) == Some(c) && f == Field(c)
  {
    c :| f == Field(c);
    FieldRoundTrip(c);
  }

  function SumCells(cells: seq<CellCount>): nat
  {
    if cells == [] then 0 else SumCells(cells[..|cells| - 1]) + cells[|cells| - 1].count
  }

  lemma SumCellsAppend(cells: seq<CellCount>, c: CellCount)
    ensures SumCells(cells + [c]) == SumCells(cells) + c.count
  {
    assert (cells + [c])[..|cells|] == cells;
  }

  /** The cells of the answer are the parsed names of the counters, with their counts. */
  ghost predicate Answers(cells: seq<CellCount>, names: seq<string>, totals: Counts)
  {
    |cells| <= |names| && forall k | 0 <= k < |cells| ::
      names[k] in totals && cells[k].count == totals[names[k]] && names[k] == Field(cells[k].cell)
  }

  lemma AnswersGrow(cells: seq<CellCount>, names: seq<string>, totals: Counts, c: CellCount)
    requires Answers(cells, names, totals) && |cells| < |names|
    requires names[|cells|] in totals && c.count == totals[names[|cells|]] && names[|cells|] == Field(c.cell)
    ensures Answers(cells + [c], names, totals)
  {
  }

  /** The counts of the first counters listed. */
  function SumOf(m: Counts, names: seq<string>): nat
    requires forall f | f in names :: f in m
  {
    if names == [] then 0
    else
      assert forall f | f in names[..|names| - 1] :: f in names;
      SumOf(m, names[..|names| - 1]) + m[names[|names| - 1]]
  }

  lemma {:induction false} SumOfAgrees(m: Counts, m': Counts, names: seq<string>)
    requires forall f | f in names :: f in m && f in m' && m[f] == m'[f]
    ensures SumOf(m, names) == SumOf(m', names)
  {
    if names != [] { SumOfAgrees(m, m', names[..|names| - 1]); }
  }

  lemma {:induction false} SumOfIsTotal(m: Counts, names: seq<string>)
    requires Lists(names, m) && forall f | f in m :: f in names
    ensures SumOf(m, names) == Total(m)
  {
    if names == [] {
      assert m == map[];
    } else {
      var n := |names| - 1;
      var rest := m - {names[n]};
      assert names == names[..n] + [names[n]];
      SumOfIsTotal(rest, names[..n]);
      SumOfAgrees(m, rest, names[..n]);
      TotalWithout(m, names[n]);
    }
  }

  /** The answer so far: the first counters listed, and their sum. */
  ghost predicate Partial(cells: seq<CellCount>, names: seq<string>, totals: Counts)
    requires forall f | f in names :: f in totals
  {
    && |cells| <= |names| && Answers(cells, names, totals)
    && SumCells(cells) == SumOf(totals, names[..|cells|])
  }

  lemma PartialSum(cells: seq<CellCount>, names: seq<string>, totals: Counts, c: CellCount)
    requires (forall f | f in names :: f in totals) && |cells| < |names| && c.count == totals[names[|cells|]]
    requires SumCells(cells) == SumOf(totals, names[..|cells|])
    ensures SumCells(cells + [c]) == SumOf(totals, names[..|cells| + 1])
  {
    SumCellsAppend(cells, c);
    assert names[..|cells| + 1][..|cells|] == names[..|cells|];
  }

  lemma PartialGrows(cells: seq<CellCount>, names: seq<string>, totals: Counts, c: CellCount)
    requires (forall f | f in names :: f in totals) && Partial(cells, names, totals) && |cells| < |names|
    requires c.count == totals[names[|cells|]] && names[|cells|] == Field(c.cell)
    ensures Partial(cells + [c], names, totals)
  {
    AnswersGrow(cells, names, totals, c);
    PartialSum(cells, names, totals, c);
    assert |cells + [c]| == |cells| + 1;
  }

  method ParseCell(field: string) returns (cell: Cell)
    requires IsField(field)
    ensures field == Field(cell)
  {
    ghost var c := ParsedBack(field);
    cell := ParseField(field).value;
  }

  method CellsOf(totals: Counts) returns (cells: seq<CellCount>, ghost names: seq<string>)
    requires forall f | f in totals :: IsField(f)
    ensures Lists(names, totals) && (forall f | f in totals :: f in names)
    ensures |cells| == |names| && Answers(cells, names, totals)
    ensures SumCells(cells) == Total(totals)
  {
    var order := Names(totals);
    names := order;
    cells := [];
    while |cells| < |order|
      invariant Partial(cells, order, totals)
    {
      var field := order[|cells|];
      var cell := ParseCell(field);
      PartialGrows(cells, order, totals, CellCount(cell, totals[field]));
      cells := cells + [CellCount(cell, totals[field])];
    }
    assert order[..|cells|] == order;
    SumOfIsTotal(totals, order);
  }

  /** One turn of a read: the pushes that reach the cache before its fetch, when that runs, and if it is answered. */
  datatype Turn = Turn(arrivals: seq<Push>, at: nat, answered: bool)

  /** Every push that the cache has seen after some turns. */
  function History(pushes: seq<Push>, turns: seq<Turn>): seq<Push>
  {
    if turns == [] then pushes else History(pushes, turns[..|turns| - 1]) + turns[|turns| - 1].arrivals
  }

  function FetchesOf(pushes: seq<Push>, turns: seq<Turn>): seq<Fetch>
  {
    seq(|turns|, i requires 0 <= i < |turns| =>
      Fetch(|History(pushes, turns[..i + 1])|, turns[i].at, turns[i].answered))
  }

  lemma {:induction false} HistoryGrows(pushes: seq<Push>, turns: seq<Turn>, i: nat)
    requires i <= |turns|
    ensures History(pushes, turns[..i]) <= History(pushes, turns)
    decreases |turns|
  {
    if i == |turns| {
      assert turns[..i] == turns;
    } else {
      var n := |turns| - 1;
      HistoryGrows(pushes, turns[..n], i);
      assert turns[..n][..i] == turns[..i];
    }
  }

  lemma FetchesFit(pushes: seq<Push>, turns: seq<Turn>)
    ensures Within(History(pushes, turns), FetchesOf(pushes, turns))
  {
    forall i | 0 <= i < |turns| ensures FetchesOf(pushes, turns)[i].stored <= |History(pushes, turns)| {
      HistoryGrows(pushes, turns, i + 1);
    }
  }

  /** The positions that a read has to count, minute by minute. */
  ghost function Window(pushes: seq<Push>, clock: nat, turns: seq<Turn>): seq<Position>
  {
    FetchesFit(pushes, turns);
    Concat(Minutes(History(pushes, turns), clock, FetchesOf(pushes, turns)))
  }

  /** What the fetches of a read return. */
  function Answered(pushes: seq<Push>, edge: nat, clock: nat, turns: seq<Turn>): seq<Counts>
  {
    FetchesFit(pushes, turns);
    Fetched(History(pushes, turns), edge, clock, FetchesOf(pushes, turns))
  }

  /** What the fetch of a turn returns from the store. */
  function FetchFrom(s: Store, edge: nat, bucket: int, t: Turn): Counts
  {
    if t.answered then Visible(s, bucket, t.at, edge) else map[]
  }

  lemma PrefixFetch(before: seq<Push>, all: seq<Push>, edge: nat, bucket: int, t: Turn)
    requires before <= all
    ensures FetchValue(all, edge, bucket, Fetch(|before|, t.at, t.answered))
         == FetchFrom(Stored(before, edge), edge, bucket, t)
  {
    assert all[..|before|] == before;
  }

  lemma AnsweredAt(pushes: seq<Push>, edge: nat, clock: nat, turns: seq<Turn>, i: nat)
    requires i < |turns|
    ensures |Answered(pushes, edge, clock, turns)| == |turns|
    ensures Answered(pushes, edge, clock, turns)[i]
         == FetchFrom(Stored(History(pushes, turns[..i + 1]), edge), edge, BucketOf(clock) - i, turns[i])
  {
    FetchesFit(pushes, turns);
    HistoryGrows(pushes, turns, i + 1);
    PrefixFetch(History(pushes, turns[..i + 1]), History(pushes, turns), edge, BucketOf(clock) - i, turns[i]);
  }

  lemma HistoryStep(pushes: seq<Push>, turns: seq<Turn>, i: nat)
    requires i < |turns|
    ensures History(pushes, turns[..i + 1]) == History(pushes, turns[..i]) + turns[i].arrivals
  {
    assert turns[..i + 1][..i] == turns[..i];
  }

  lemma SumStep(hashes: seq<Counts>, i: nat)
    requires i < |hashes|
    ensures Sum(hashes[..i + 1]) == AddAll(Sum(hashes[..i]), hashes[i])
  {
    assert hashes[..i + 1][..i] == hashes[..i];
  }

  function AfterAll(s: Store, arrivals: seq<Push>, edge: nat): Store
  {
    if arrivals == [] then s
    else AfterPush(AfterAll(s, arrivals[..|arrivals| - 1], edge), arrivals[|arrivals| - 1], edge)
  }

  lemma StoredLast(pushes: seq<Push>, p: Push, edge: nat)
    ensures Stored(pushes + [p], edge) == AfterPush(Stored(pushes, edge), p, edge)
  {
    assert (pushes + [p])[..|pushes|] == pushes;
  }

  lemma {:induction false} StoredAppend(before: seq<Push>, arrivals: seq<Push>, edge: nat)
    ensures Stored(before + arrivals, edge) == AfterAll(Stored(before, edge), arrivals, edge)
  {
    if arrivals == [] {
      assert before + arrivals == before;
    } else {
      var n := |arrivals| - 1;
      StoredAppend(before, arrivals[..n], edge);
      StoredLast(before + arrivals[..n], arrivals[n], edge);
      assert before + arrivals == before + arrivals[..n] + [arrivals[n]];
    }
  }

  /** One turn takes the store and the totals one place further. */
  ghost predicate TurnTaken(stores: seq<Store>, sums: seq<Counts>, edge: nat, clock: nat, t: Turn, i: nat)
    requires i + 1 < |stores| == |sums|
  {
    && stores[i + 1] == AfterAll(stores[i], t.arrivals, edge)
    && sums[i + 1] == AddAll(sums[i], FetchFrom(stores[i + 1], edge, BucketOf(clock) - i, t))
  }

  lemma TurnsTaken(pushes: seq<Push>, edge: nat, clock: nat, turns: seq<Turn>)
    returns (stores: seq<Store>, sums: seq<Counts>)
    ensures |stores| == |sums| == |turns| + 1
    ensures stores[0] == Stored(pushes, edge) && sums[0] == map[]
    ensures stores[|turns|] == Stored(History(pushes, turns), edge)
    ensures sums[|turns|] == Sum(Answered(pushes, edge, clock, turns))
    ensures forall i | 0 <= i < |turns| :: TurnTaken(stores, sums, edge, clock, turns[i], i)
  {
    var all := Answered(pushes, edge, clock, turns);
    stores := seq(|turns| + 1, i requires 0 <= i <= |turns| => Stored(History(pushes, turns[..i]), edge));
    sums := seq(|turns| + 1, i requires 0 <= i <= |turns| => Sum(all[..i]));
    assert turns[..|turns|] == turns && all[..|turns|] == all;
    forall i | 0 <= i < |turns| ensures TurnTaken(stores, sums, edge, clock, turns[i], i) {
      AnsweredAt(pushes, edge, clock, turns, i);
      HistoryStep(pushes, turns, i);
      StoredAppend(History(pushes, turns[..i]), turns[i].arrivals, edge);
      SumStep(all, i);
    }
  }

  /** Pushes and fetches reach the cache in order, and no fetch comes too late for its minute. */
  ghost predicate Readable(pushes: seq<Push>, edge: nat, clock: nat, turns: seq<Turn>)
  {
    InOrder(History(pushes, turns)) && Fetchable(History(pushes, turns), edge, clock, FetchesOf(pushes, turns))
  }

  /** No push comes while the read is under way, and the cache answers every fetch. */
  predicate Quiet(turns: seq<Turn>) { forall t | t in turns :: t.arrivals == [] && t.answered }

  lemma {:induction false} QuietHistory(pushes: seq<Push>, turns: seq<Turn>, i: nat)
    requires Quiet(turns) && i <= |turns|
    ensures History(pushes, turns[..i]) == pushes
  {
    if i > 0 {
      assert turns[..i][..i - 1] == turns[..i - 1] && turns[i - 1] in turns;
      QuietHistory(pushes, turns, i - 1);
    }
  }

  lemma QuietMinute(pushes: seq<Push>, clock: nat, turns: seq<Turn>, i: nat)
    requires Quiet(turns) && i < |turns| && Within(pushes, FetchesOf(pushes, turns))
    ensures Minutes(pushes, clock, FetchesOf(pushes, turns))[i] == Minute(pushes, BucketOf(clock) - i)
  {
    assert turns[i] in turns && pushes[..|pushes|] == pushes;
    QuietHistory(pushes, turns, i + 1);
  }

  lemma QuietWindow(pushes: seq<Push>, clock: nat, turns: seq<Turn>)
    requires Quiet(turns)
    ensures Window(pushes, clock, turns) == Concat(LastMinutes(pushes, clock, |turns|))
  {
    FetchesFit(pushes, turns);
    QuietHistory(pushes, turns, |turns|);
    assert turns[..|turns|] == turns;
    var minutes, last := Minutes(History(pushes, turns), clock, FetchesOf(pushes, turns)),
                         LastMinutes(pushes, clock, |turns|);
    forall i | 0 <= i < |turns| ensures minutes[i] == last[i] { QuietMinute(pushes, clock, turns, i); }
    assert minutes == last;
  }

  lemma WindowIsCounted(pushes: seq<Push>, clock: nat, window: seq<Position>)
    requires window == Concat(LastMinutes(pushes, clock, RETENTION_BUCKETS))
    ensures |window| == PushedInAll(pushes, BucketOf(clock) - 29, BucketOf(clock))
    ensures forall c :: InCell(window, c) == Pushed(pushes, BucketOf(clock) - 29, BucketOf(clock), c)
  {
    WindowSize(pushes, clock, RETENTION_BUCKETS);
    forall c ensures InCell(window, c) == Pushed(pushes, BucketOf(clock) - 29, BucketOf(clock), c) {
      WindowCounts(pushes, clock, RETENTION_BUCKETS, c);
    }
  }

  predicate HasCell(cells: seq<CellCount>, c: Cell) { exists k | 0 <= k < |cells| :: cells[k].cell == c }

  /** Each cell with a position once, with the number of positions in it, and no other cell. */
  ghost predicate CountsPositions(cells: seq<CellCount>, window: seq<Position>)
  {
    && (forall k | 0 <= k < |cells| :: cells[k].count == InCell(window, cells[k].cell))
    && (forall j, k | 0 <= j < k < |cells| :: cells[j].cell != cells[k].cell)
    && (forall c :: HasCell(cells, c) <==> InCell(window, c) > 0)
  }

  /** The same for the positions pushed during the current and the 29 preceding minutes. */
  ghost predicate CountsWindow(cells: seq<CellCount>, pushes: seq<Push>, clock: nat)
  {
    && (forall k | 0 <= k < |cells| ::
          cells[k].count == Pushed(pushes, clock / 60000 - 29, clock / 60000, cells[k].cell))
    && (forall j, k | 0 <= j < k < |cells| :: cells[j].cell != cells[k].cell)
    && (forall c :: HasCell(cells, c) <==> Pushed(pushes, clock / 60000 - 29, clock / 60000, c) > 0)
    && SumCells(cells) == PushedInAll(pushes, clock / 60000 - 29, clock / 60000)
  }

  lemma AnswerCounts(cells: seq<CellCount>, names: seq<string>, totals: Counts, window: seq<Position>)
    requires totals == Tally(window) && Lists(names, totals) && forall f | f in totals :: f in names
    requires |cells| == |names| && Answers(cells, names, totals)
    ensures CountsPositions(cells, window)
  {
    forall k | 0 <= k < |cells| ensures cells[k].count == InCell(window, cells[k].cell) {
      TallyCounts(window, cells[k].cell);
    }
    forall j, k | 0 <= j < k < |cells| ensures cells[j].cell != cells[k].cell {
      assert names[j] != names[k];
    }
    forall c ensures HasCell(cells, c) <==> InCell(window, c) > 0 {
      NamedIffPresent(cells, names, totals, window, c);
    }
  }

  lemma QuietAnswer(cells: seq<CellCount>, pushes: seq<Push>, clock: nat, turns: seq<Turn>)
    requires Quiet(turns) && |turns| == RETENTION_BUCKETS && SumCells(cells) == |Window(pushes, clock, turns)|
    requires CountsPositions(cells, Window(pushes, clock, turns))
    ensures CountsWindow(cells, pushes, clock)
  {
    QuietWindow(pushes, clock, turns);
    WindowIsCounted(pushes, clock, Window(pushes, clock, turns));
  }

  lemma NamedIffPresent(cells: seq<CellCount>, names: seq<string>, totals: Counts, window: seq<Position>, c: Cell)
    requires totals == Tally(window) && Lists(names, totals) && forall f | f in totals :: f in names
    requires |cells| == |names| && Answers(cells, names, totals)
    ensures HasCell(cells, c) <==> InCell(window, c) > 0
  {
    TallyCounts(window, c);
    if Field(c) in totals {
      var k :| 0 <= k < |names| && names[k] == Field(c);
      FieldRoundTrip(c);
      FieldRoundTrip(cells[k].cell);
      assert cells[k].cell == c;
    }
  }

  /** The hash of the minute lives for 31 more minutes, each cell has its positions added, other minutes stay. */
  ghost predicate Counted(before: Store, after: Store, p: Push, edge: nat)
  {
    var b := p.clock / 60000;
    && b in after && after == before[b := after[b]] && after[b].deadline == p.at + 1860000
    && forall c :: Get(after[b].counts, Field(c))
                == (if b in before && p.at < before[b].deadline + edge then Get(before[b].counts, Field(c)) else 0)
                   + InCell(p.players, c)
  }

  lemma PushCounts(s: Store, p: Push, edge: nat)
    requires p.players != []
    ensures p.optedIn ==> Counted(s, AfterPush(s, p, edge), p, edge)
  {
    forall c ensures Get(Tally(p.players), Field(c)) == InCell(p.players, c) { TallyCounts(p.players, c); }
  }

  class HeatmapStore {
    var hashes: Store
    const edge: nat

    constructor (edge: nat)
      ensures hashes == Stored([], edge) && this.edge == edge
    {
      hashes, this.edge := map[], edge;
    }

    /** Count the snapshot, add its counters to the hash of the current minute and renew the expiry of the hash. */
    method Aggregate(p: Push)
      modifies this
      ensures hashes == AfterPush(old(hashes), p, edge)
      ensures p.players == [] || !p.optedIn ==> hashes == old(hashes)
      ensures p.players != [] && p.optedIn ==> Counted(old(hashes), hashes, p, edge)
    {
      if p.players != [] { PushCounts(hashes, p, edge); }
      if |p.players| == 0 || !p.optedIn {
        return;
      }
      var counts := CountPlayers(p.players);
      var bucket := p.clock / 60000;
      var counters := AddHash(Visible(hashes, bucket, p.at, edge), counts);
      hashes := hashes[bucket := Hash(counters, p.at + TTL_MS)];
    }

    method AggregateAll(arrivals: seq<Push>)
      modifies this
      ensures hashes == AfterAll(old(hashes), arrivals, edge)
      decreases |arrivals|
    {
      if arrivals != [] {
        AggregateAll(arrivals[..|arrivals| - 1]);
        Aggregate(arrivals[|arrivals| - 1]);
      }
    }

    /** The pushes that come first, then one fetch. */
    method FetchOne(bucket: int, t: Turn) returns (hash: Counts)
      modifies this
      ensures hashes == AfterAll(old(hashes), t.arrivals, edge) && hash == FetchFrom(hashes, edge, bucket, t)
    {
      AggregateAll(t.arrivals);
      hash := map[];
      if t.answered { hash := Visible(hashes, bucket, t.at, edge); }
    }

    /** Thirty fetches one after the other. */
    method Totals(clock: nat, turns: seq<Turn>, ghost pushes: seq<Push>) returns (totals: Counts)
      requires |turns| == RETENTION_BUCKETS && hashes == Stored(pushes, edge)
      modifies this
      ensures totals == Sum(Answered(pushes, edge, clock, turns))
      ensures hashes == Stored(History(pushes, turns), edge)
    {
      totals := map[];
      ghost var stores, sums := TurnsTaken(pushes, edge, clock, turns);
      var now := BucketOf(clock);
      for i := 0 to RETENTION_BUCKETS
        invariant hashes == stores[i] && totals == sums[i]
      {
        assert TurnTaken(stores, sums, edge, clock, turns[i], i);
        var hash := FetchOne(now - i, turns[i]);
        totals := AddHash(totals, hash);
      }
    }

    /**
     * The answer of the route on a store with any history, whatever is pushed and fails between the fetches: each
     * cell once, with the number of positions in it that its fetched minutes held by then, none left out, and counts
     * that add up. When nothing is pushed or fails meanwhile, those are the positions of the last thirty minutes.
     */
    method Read(clock: nat, turns: seq<Turn>, optedIn: bool, ghost pushes: seq<Push>) returns (cells: seq<CellCount>)
      requires |turns| == RETENTION_BUCKETS && hashes == Stored(pushes, edge)
      requires Readable(pushes, edge, clock, turns)
      modifies this
      ensures !optedIn ==> cells == [] && hashes == old(hashes)
      ensures optedIn ==> hashes == Stored(History(pushes, turns), edge)
      ensures optedIn ==> CountsPositions(cells, Window(pushes, clock, turns))
      ensures optedIn ==> SumCells(cells) == |Window(pushes, clock, turns)|
      ensures optedIn && Quiet(turns) ==> CountsWindow(cells, pushes, clock)
    {
      if !optedIn {
        return [];
      }
      var totals := Totals(clock, turns, pushes);
      ghost var window := Window(pushes, clock, turns);
      InterleavedRead(History(pushes, turns), edge, clock, FetchesOf(pushes, turns));
      assert totals == Tally(window);
      forall f | f in totals ensures IsField(f) { FieldsAreCells(window, f); }
      ghost var names;
      cells, names := CellsOf(totals);
      TallyTotal(window);
      AnswerCounts(cells, names, totals, window);
      if Quiet(turns) { QuietAnswer(cells, pushes, clock, turns); }
    }
  }
}
