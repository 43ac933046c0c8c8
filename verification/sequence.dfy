/** gateway/stat/sequence/sequence.go: one table of request counts per time bucket, and a
    query that walks the buckets. Times are nanoseconds from Go's zero time; the zone is a
    fixed offset in nanoseconds. */
module Sequence {
  import opened Arithmetic
  import opened Calendar

  // ----- buckets -----

  /** Time.Truncate: `t` down to a multiple of the interval, or as it is for an interval that is
      not positive. */
  function BucketStart(t: int, interval: int): int
    decreases if t < 0 then -t + interval else t
  {
    if interval <= 0 then t
    else if t < 0 then BucketStart(t + interval, interval) - interval
    else if t < interval then 0
    else BucketStart(t - interval, interval) + interval
  }

  lemma {:induction false} RemainderShifts(t: int, n: int)
    requires n > 0
    ensures (t + n) % n == t % n
  {
    assert t + n == (t / n + 1) * n + t % n;
    DivisionIsUnique(t + n, t / n + 1, t % n, n);
  }

  lemma {:induction false} BucketStartIsTruncation(t: int, interval: int)
    requires interval > 0
    ensures BucketStart(t, interval) == t - t % interval
    decreases if t < 0 then -t + interval else t
  {
    if t < 0 {
      BucketStartIsTruncation(t + interval, interval);
      RemainderShifts(t, interval);
    } else if t < interval {
      DivisionIsUnique(t, 0, t, interval);
    } else {
      BucketStartIsTruncation(t - interval, interval);
      RemainderShifts(t - interval, interval);
    }
  }

  predicate IsBucket(t: int, interval: int) {
    BucketStart(t, interval) == t
  }

  lemma {:induction false} BucketShifts(t: int, interval: int)
    requires interval > 0
    ensures BucketStart(t + interval, interval) == BucketStart(t, interval) + interval
  {
  }

  lemma {:induction false} BucketHolds(t: int, interval: int)
    requires interval > 0
    ensures BucketStart(t, interval) <= t < BucketStart(t, interval) + interval
    ensures IsBucket(BucketStart(t, interval), interval)
    decreases if t < 0 then -t + interval else t
  {
    if t < 0 {
      BucketHolds(t + interval, interval);
      BucketShifts(BucketStart(t, interval), interval);
    } else if t >= interval {
      BucketHolds(t - interval, interval);
      BucketShifts(BucketStart(t - interval, interval), interval);
    }
  }

  /** Bucket starts that differ, differ by at least the interval. */
  lemma {:induction false} BucketsAreApart(a: int, b: int, interval: int)
    requires interval > 0 && IsBucket(a, interval) && IsBucket(b, interval) && a < b
    ensures a + interval <= b
    decreases if a < 0 then -a + interval else a
  {
    if a < 0 {
      BucketShifts(a, interval);
      BucketShifts(b, interval);
      BucketsAreApart(a + interval, b + interval, interval);
    } else if a >= interval {
      BucketsAreApart(a - interval, b - interval, interval);
    }
  }

  lemma {:induction false} BucketStartMonotone(a: int, b: int, interval: int)
    requires interval > 0 && a <= b
    ensures BucketStart(a, interval) <= BucketStart(b, interval)
  {
    BucketHolds(a, interval);
    BucketHolds(b, interval);
    if BucketStart(b, interval) < BucketStart(a, interval) {
      BucketsAreApart(BucketStart(b, interval), BucketStart(a, interval), interval);
    }
  }

  // ----- table names -----

  /** The table of each bucket start. */
  type Naming = int -> string

  /** The local minute a time falls in. */
  function Minute(t: int, zone: int): int {
    (t + zone) / 60_000_000_000
  }

  predicate AtLeastAMinute(interval: int) {
    interval >= 60_000_000_000
  }

  /** The source's naming. */
  function Names(zone: int): Naming {
    b => "api_sequence_" + Stamp(Minute(b, zone))
  }

  /** No two buckets share a table. */
  ghost predicate TellsApart(name: Naming, interval: int) {
    forall a, b :: IsBucket(a, interval) && IsBucket(b, interval) && name(a) == name(b) ==> a == b
  }

  /** With buckets of a minute or more, distinct buckets get distinct tables. */
  lemma {:induction false} TablesAreDistinct(interval: int, zone: int)
    requires AtLeastAMinute(interval)
    ensures TellsApart(Names(zone), interval)
  {
    forall a, b | IsBucket(a, interval) && IsBucket(b, interval) && Names(zone)(a) == Names(zone)(b)
      ensures a == b
    {
      var prefix := "api_sequence_";
      var m, n := Minute(a, zone), Minute(b, zone);
      assert (prefix + Stamp(m))[|prefix|..] == Stamp(m) && (prefix + Stamp(n))[|prefix|..] == Stamp(n);
      StampInjective(m, n);
      if a < b {
        BucketsAreApart(a, b, interval);
      } else if b < a {
        BucketsAreApart(b, a, interval);
      }
    }
  }

  lemma {:induction false} MinuteIs(t: int, zone: int, m: int)
    requires m * 60_000_000_000 <= t + zone < (m + 1) * 60_000_000_000
    ensures Minute(t, zone) == m
  {
    DivisionIsUnique(t + zone, m, t + zone - m * 60_000_000_000, 60_000_000_000);
  }

  lemma {:induction false} NameParts(stamp: string)
    ensures var name := "api_sequence_" + stamp;
            |name| == 13 + |stamp| && name[..13] == "api_sequence_" && name[13..] == stamp
  {
  }

  /** A bucket's table carries the local date and time of its start, down to the minute `m`. */
  lemma {:induction false} TableNameShows(b: int, zone: int, m: int, d: Date, hour: nat, minute: nat)
    requires m * 60_000_000_000 <= b + zone < (m + 1) * 60_000_000_000
    requires IsDate(d) && 0 <= d.year < 10000 && hour < 24 && minute < 60
    requires m == (DayNumber(d) * 24 + hour) * 60 + minute
    ensures var name := Names(zone)(b);
            |name| == 26 && name[..13] == "api_sequence_" && Shows(name[13..], d.year, d.month, d.day, hour, minute)
  {
    MinuteIs(b, zone, m);
    StampReads(d, hour, minute);
    NameParts(Stamp(m));
  }

  // ----- the database -----

  datatype Row = Row(domain: string, path: string, verb: string)

  datatype Record = Record(row: Row, count: nat)

  type Table = seq<Record>
  type Database = map<string, Table>

  type Filter = Row -> bool

  /** The WHERE clauses of a query: empty fields match everything. */
  function Matching(domain: string, path: string, verb: string): Filter {
    (row: Row) =>
      && (domain == "" || domain == row.domain)
      && (path == "" || path == row.path)
      && (verb == "" || verb == row.verb)
  }

  /** Insert with count 1, or add one on a conflict of (domain, path, method). */
  function Upsert(t: Table, row: Row): Table {
    if t == [] then [Record(row, 1)]
    else if t[0].row == row then [Record(row, t[0].count + 1)] + t[1..]
    else [t[0]] + Upsert(t[1..], row)
  }

  /** SELECT SUM(count) over the rows that match. */
  function Sum(t: Table, filter: Filter): nat {
    if t == [] then 0 else (if filter(t[0].row) then t[0].count else 0) + Sum(t[1..], filter)
  }

  lemma {:induction false} UpsertSum(t: Table, row: Row, filter: Filter)
    ensures Sum(Upsert(t, row), filter) == Sum(t, filter) + if filter(row) then 1 else 0
  {
    if t != [] && t[0].row != row { UpsertSum(t[1..], row, filter); }
  }

  ghost predicate OneRowEach(t: Table) {
    forall i, j :: 0 <= i < j < |t| ==> t[i].row != t[j].row
  }

  /** The unique index on (domain, path, method) is kept. */
  lemma {:induction false} UpsertKeepsIndex(t: Table, row: Row)
    requires OneRowEach(t)
    ensures OneRowEach(Upsert(t, row))
    ensures forall r :: r in Upsert(t, row) ==> r.row == row || exists q :: q in t && q.row == r.row
  {
    if t != [] && t[0].row != row {
      UpsertKeepsIndex(t[1..], row);
      forall r | r in Upsert(t[1..], row) ensures r.row != t[0].row {
        if r.row != row {
          var q :| q in t[1..] && q.row == r.row;
          var k :| 0 <= k < |t[1..]| && t[1..][k] == q;
          assert t[k + 1].row != t[0].row;
        }
      }
    }
  }

  function TableOf(db: Database, table: string): Table {
    if table in db then db[table] else []
  }

  // ----- recording and querying -----

  datatype Hit = Hit(time: int, row: Row)

  function Insert(db: Database, name: Naming, hit: Hit, interval: int): Database {
    var table := name(BucketStart(hit.time, interval));
    db[table := Upsert(TableOf(db, table), hit.row)]
  }

  datatype Result = Ok(total: int) | Failed

  /** One table's sum; a missing table counts nothing, any other error ends the query. */
  function BucketTotal(db: Database, table: string, filter: Filter, errors: set<string>): Result {
    if table !in db then Ok(0) else if table in errors then Failed else Ok(Sum(db[table], filter))
  }

  function Then(first: Result, rest: Result): Result {
    if first.Ok? && rest.Ok? then Ok(first.total + rest.total) else Failed
  }

  /** The result of each bucket. */
  type Totals = int -> Result

  function TotalsOf(db: Database, name: Naming, filter: Filter, errors: set<string>): Totals {
    b => BucketTotal(db, name(b), filter, errors)
  }

  /** The totals of the buckets from `start` up to `end`, in that order. */
  function QueryTo(totals: Totals, start: int, end: int, interval: int): Result
    requires interval > 0
    decreases end - start
  {
    if end < start then Ok(0) else Then(QueryTo(totals, start, end - interval, interval), totals(end))
  }

  function Sooner(a: int, b: int): int {
    if b < a then b else a
  }

  function Later(a: int, b: int): int {
    if b < a then a else b
  }

  /** The query as called: the ends may come in either order. */
  function Query(totals: Totals, from: int, to: int, interval: int): Result
    requires interval > 0
  {
    QueryTo(totals, BucketStart(Sooner(from, to), interval), BucketStart(Later(from, to), interval), interval)
  }

  // ----- agreement with the raw history -----

  /** How many recorded requests match and lie in buckets from `lo` to `hi`. */
  function CountBetween(h: seq<Hit>, lo: int, hi: int, filter: Filter, interval: int): nat {
    if h == [] then 0
    else
      var last := h[|h| - 1];
      CountBetween(h[..|h| - 1], lo, hi, filter, interval)
      + if lo <= BucketStart(last.time, interval) <= hi && filter(last.row) then 1 else 0
  }

  /** How many matching requests were recorded into the table of this name. */
  function CountNamed(h: seq<Hit>, name: Naming, table: string, filter: Filter, interval: int): nat {
    if h == [] then 0
    else
      var last := h[|h| - 1];
      CountNamed(h[..|h| - 1], name, table, filter, interval)
      + if name(BucketStart(last.time, interval)) == table && filter(last.row) then 1 else 0
  }

  ghost predicate Holds(db: Database, name: Naming, h: seq<Hit>, interval: int) {
    forall table, filter :: Sum(TableOf(db, table), filter) == CountNamed(h, name, table, filter, interval)
  }

  lemma {:induction false} InsertHolds(db: Database, name: Naming, h: seq<Hit>, hit: Hit, interval: int)
    requires Holds(db, name, h, interval)
    ensures Holds(Insert(db, name, hit, interval), name, h + [hit], interval)
  {
    var h' := h + [hit];
    assert h'[..|h|] == h;
    forall table, filter
      ensures Sum(TableOf(Insert(db, name, hit, interval), table), filter)
              == CountNamed(h', name, table, filter, interval)
    {
      UpsertSum(TableOf(db, name(BucketStart(hit.time, interval))), hit.row, filter);
      assert Sum(TableOf(db, table), filter) == CountNamed(h, name, table, filter, interval);
    }
  }

  lemma {:induction false} TableIsBucket(h: seq<Hit>, name: Naming, t: int, filter: Filter, interval: int)
    requires interval > 0 && TellsApart(name, interval) && IsBucket(t, interval)
    ensures CountNamed(h, name, name(t), filter, interval) == CountBetween(h, t, t, filter, interval)
  {
    if h != [] {
      TableIsBucket(h[..|h| - 1], name, t, filter, interval);
      BucketHolds(h[|h| - 1].time, interval);
    }
  }

  lemma {:induction false} LastBucketApart(h: seq<Hit>, start: int, end: int, filter: Filter, interval: int)
    requires interval > 0 && IsBucket(end, interval) && start <= end
    ensures CountBetween(h, start, end, filter, interval)
            == CountBetween(h, start, end - interval, filter, interval) + CountBetween(h, end, end, filter, interval)
  {
    if h != [] {
      LastBucketApart(h[..|h| - 1], start, end, filter, interval);
      BucketHolds(h[|h| - 1].time, interval);
      if BucketStart(h[|h| - 1].time, interval) < end {
        BucketsAreApart(BucketStart(h[|h| - 1].time, interval), end, interval);
      }
    }
  }

  lemma {:induction false} EmptyRange(h: seq<Hit>, lo: int, hi: int, filter: Filter, interval: int)
    requires interval > 0 && lo > hi
    ensures CountBetween(h, lo, hi, filter, interval) == 0
  {
    if h != [] { EmptyRange(h[..|h| - 1], lo, hi, filter, interval); }
  }

  ghost predicate TotalsCount(totals: Totals, h: seq<Hit>, filter: Filter, interval: int) {
    forall b :: IsBucket(b, interval) && totals(b).Ok? ==> totals(b).total == CountBetween(h, b, b, filter, interval)
  }

  lemma {:induction false} TablesCount(
      db: Database, name: Naming, h: seq<Hit>, filter: Filter, errors: set<string>, interval: int)
    requires interval > 0 && TellsApart(name, interval) && Holds(db, name, h, interval)
    ensures TotalsCount(TotalsOf(db, name, filter, errors), h, filter, interval)
  {
    forall b | IsBucket(b, interval) && TotalsOf(db, name, filter, errors)(b).Ok?
      ensures TotalsOf(db, name, filter, errors)(b).total == CountBetween(h, b, b, filter, interval)
    {
      TableIsBucket(h, name, b, filter, interval);
      assert Sum(TableOf(db, name(b)), filter) == CountNamed(h, name, name(b), filter, interval);
    }
  }

  lemma {:induction false} WalkCounts(
      totals: Totals, h: seq<Hit>, start: int, end: int, filter: Filter, interval: int)
    requires interval > 0 && TotalsCount(totals, h, filter, interval) && IsBucket(end, interval)
    ensures var r := QueryTo(totals, start, end, interval);
            r.Ok? ==> r.total == CountBetween(h, start, end, filter, interval)
    decreases end - start
  {
    if end < start {
      EmptyRange(h, start, end, filter, interval);
    } else {
      BucketShifts(end - interval, interval);
      WalkCounts(totals, h, start, end - interval, filter, interval);
      LastBucketApart(h, start, end, filter, interval);
    }
  }

  /** Whenever the walk ends without an error, its total is the count over the raw history. */
  lemma {:induction false} QueryCounts(
      db: Database, name: Naming, h: seq<Hit>, start: int, end: int,
      filter: Filter, errors: set<string>, interval: int)
    requires interval > 0 && TellsApart(name, interval) && Holds(db, name, h, interval) && IsBucket(end, interval)
    ensures var r := QueryTo(TotalsOf(db, name, filter, errors), start, end, interval);
            r.Ok? ==> r.total == CountBetween(h, start, end, filter, interval)
  {
    TablesCount(db, name, h, filter, errors, interval);
    WalkCounts(TotalsOf(db, name, filter, errors), h, start, end, filter, interval);
  }

  /** The walk ends in an error exactly when one of its buckets does. */
  lemma {:induction false} WalkFailsIff(totals: Totals, start: int, end: int, interval: int)
    requires interval > 0 && IsBucket(start, interval) && IsBucket(end, interval)
    ensures QueryTo(totals, start, end, interval).Failed?
            <==> exists b :: IsBucket(b, interval) && start <= b <= end && totals(b).Failed?
    decreases end - start
  {
    if start <= end {
      var last := end - interval;
      BucketShifts(last, interval);
      WalkFailsIff(totals, start, last, interval);
      forall b | IsBucket(b, interval) && start <= b <= end && b != end ensures b <= last {
        BucketsAreApart(b, end, interval);
      }
    }
  }

  ghost predicate FailsWithin(db: Database, name: Naming, start: int, end: int, errors: set<string>, interval: int) {
    exists b :: IsBucket(b, interval) && start <= b <= end && name(b) in db && name(b) in errors
  }

  /** A query fails exactly when, in some bucket from the one of its earlier end to the one of its
      later end, the table exists and the database reports an error on it. Missing tables are skipped. */
  lemma {:induction false} QueryFailsIff(
      db: Database, name: Naming, from: int, to: int, filter: Filter, errors: set<string>, interval: int)
    requires interval > 0
    ensures Query(TotalsOf(db, name, filter, errors), from, to, interval).Failed?
            <==> FailsWithin(
                   db, name, BucketStart(Sooner(from, to), interval), BucketStart(Later(from, to), interval),
                   errors, interval)
  {
    var totals := TotalsOf(db, name, filter, errors);
    var start, end := BucketStart(Sooner(from, to), interval), BucketStart(Later(from, to), interval);
    BucketHolds(Sooner(from, to), interval);
    BucketHolds(Later(from, to), interval);
    WalkFailsIff(totals, start, end, interval);
    assert forall b :: totals(b).Failed? <==> name(b) in db && name(b) in errors;
  }

  /** If the query succeeded, its total is the number of recorded requests that match and whose
      bucket lies between those of the two ends, in whichever order they are given. */
  ghost predicate AgreesWith(h: seq<Hit>, from: int, to: int, filter: Filter, interval: int, r: Result) {
    var lo, hi := BucketStart(Sooner(from, to), interval), BucketStart(Later(from, to), interval);
    r.Ok? ==> r.total == CountBetween(h, lo, hi, filter, interval)
  }

  lemma {:induction false} QueryAgrees(
      db: Database, name: Naming, h: seq<Hit>, from: int, to: int,
      filter: Filter, errors: set<string>, interval: int)
    requires interval > 0 && TellsApart(name, interval) && Holds(db, name, h, interval)
    ensures AgreesWith(h, from, to, filter, interval, Query(TotalsOf(db, name, filter, errors), from, to, interval))
  {
    var first, last := Sooner(from, to), Later(from, to);
    BucketHolds(last, interval);
    QueryCounts(db, name, h, BucketStart(first, interval), BucketStart(last, interval), filter, errors, interval);
  }

  // ----- what a query selects -----

  /** How many of the requests `h` lie in buckets from `lo` to `hi` and agree with the query in
      domain, path and method; an empty field of the query agrees with anything. */
  function Recorded(h: seq<Hit>, lo: int, hi: int, domain: string, path: string, verb: string, interval: int): nat {
    if h == [] then 0
    else
      var last := h[|h| - 1];
      Recorded(h[..|h| - 1], lo, hi, domain, path, verb, interval)
      + if lo <= BucketStart(last.time, interval) <= hi
           && domain in {"", last.row.domain} && path in {"", last.row.path} && verb in {"", last.row.verb}
        then 1 else 0
  }

  lemma {:induction false} MatchingSelects(
      h: seq<Hit>, lo: int, hi: int, domain: string, path: string, verb: string, interval: int)
    ensures CountBetween(h, lo, hi, Matching(domain, path, verb), interval)
            == Recorded(h, lo, hi, domain, path, verb, interval)
  {
    if h != [] { MatchingSelects(h[..|h| - 1], lo, hi, domain, path, verb, interval); }
  }

  /** One more recorded request raises a query's total by one if its bucket lies between those of the
      ends and it agrees in every field that the query does not leave empty; else not at all. */
  lemma {:induction false} OneMoreRecorded(
      db: Database, name: Naming, h: seq<Hit>, hit: Hit, from: int, to: int,
      domain: string, path: string, verb: string, errors: set<string>, interval: int)
    requires interval > 0 && TellsApart(name, interval) && Holds(db, name, h, interval)
    ensures var filter := Matching(domain, path, verb);
            var r := Query(TotalsOf(db, name, filter, errors), from, to, interval);
            var r' := Query(TotalsOf(Insert(db, name, hit, interval), name, filter, errors), from, to, interval);
            r.Ok? && r'.Ok? ==>
              var b := BucketStart(hit.time, interval);
              r'.total == r.total
                + if BucketStart(Sooner(from, to), interval) <= b <= BucketStart(Later(from, to), interval)
                     && (domain == "" || hit.row.domain == domain)
                     && (path == "" || hit.row.path == path)
                     && (verb == "" || hit.row.verb == verb)
                  then 1 else 0
  {
    var filter := Matching(domain, path, verb);
    InsertHolds(db, name, h, hit, interval);
    QueryAgrees(db, name, h, from, to, filter, errors, interval);
    QueryAgrees(Insert(db, name, hit, interval), name, h + [hit], from, to, filter, errors, interval);
    assert (h + [hit])[..|h|] == h;
  }

  // ----- the object -----

  lemma {:induction false} FailureLasts(totals: Totals, start: int, t: int, end: int, interval: int)
    requires interval > 0 && IsBucket(t, interval) && IsBucket(end, interval) && start <= t <= end
    requires QueryTo(totals, start, t, interval).Failed?
    ensures QueryTo(totals, start, end, interval).Failed?
    decreases end - t
  {
    if t < end {
      BucketsAreApart(t, end, interval);
      BucketShifts(end - interval, interval);
      FailureLasts(totals, start, t, end - interval, interval);
    }
  }

  class SequenceManager {
    const enable: bool
    const interval: int
    const zone: int
    const name: Naming
    var db: Database
    ghost var history: seq<Hit>  // the requests whose upsert went through

    ghost predicate Valid()
      reads this
    {
      && name == Names(zone) && Holds(db, name, history, interval)
      && forall table :: table in db ==> OneRowEach(db[table])
    }

    constructor (enable: bool, interval: int, zone: int)
      ensures Valid() && history == [] && this.enable == enable && this.interval == interval && this.zone == zone
    {
      this.enable := enable;
      this.interval := interval;
      this.zone := zone;
      name := Names(zone);
      db := map[];
      history := [];
    }

    function TableNameFor(t: int): string {
      name(BucketStart(t, interval))
    }

    /** `written` says whether the database took the upsert. */
    method RecordRequest(domain: string, path: string, verb: string, now: int, written: bool)
      requires Valid()
      modifies this
      ensures Valid()
      ensures !enable ==> db == old(db)
      ensures history == if enable && written then old(history) + [Hit(now, Row(domain, path, verb))] else old(history)
    {
      if !enable {
        return;
      }
      var table := TableNameFor(now);
      if table !in db {
        db := db[table := []];
      }
      if written {
        var row := Row(domain, path, verb);
        InsertHolds(db, name, history, Hit(now, row), interval);
        UpsertKeepsIndex(db[table], row);
        db := db[table := Upsert(db[table], row)];
        history := history + [Hit(now, row)];
      }
    }

    method SumBuckets(start: int, end: int, filter: Filter, errors: set<string>) returns (r: Result)
      requires interval > 0 && IsBucket(start, interval) && IsBucket(end, interval) && start <= end
      ensures r == QueryTo(TotalsOf(db, name, filter, errors), start, end, interval)
    {
      ghost var totals := TotalsOf(db, name, filter, errors);
      var total := 0;
      var t := start;
      while t <= end
        invariant IsBucket(t, interval) && t <= end + interval
        invariant QueryTo(totals, start, t - interval, interval) == Ok(total)
        decreases end - t
      {
        var table := TableNameFor(t);
        assert totals(t) == BucketTotal(db, table, filter, errors);
        if table in db {
          if table in errors {
            FailureLasts(totals, start, t, end, interval);
            return Failed;
          }
          total := total + Sum(db[table], filter);
        }
        BucketShifts(t, interval);
        if t < end {
          BucketsAreApart(t, end, interval);
        }
        t := t + interval;
      }
      BucketShifts(end, interval);
      if t < end + interval {
        BucketsAreApart(end, t, interval);
      }
      return Ok(total);
    }

    method QueryRequests(
        from_: int, to_: int, domain: string, path: string, verb: string, errors: set<string>) returns (r: Result)
      requires Valid() && interval > 0
      ensures !enable ==> r == Ok(0)
      ensures enable ==>
        r == Query(TotalsOf(db, name, Matching(domain, path, verb), errors), from_, to_, interval)
      ensures enable ==>
        var lo, hi := BucketStart(Sooner(from_, to_), interval), BucketStart(Later(from_, to_), interval);
        && (r.Failed? <==> FailsWithin(db, name, lo, hi, errors, interval))
        && (r.Ok? && AtLeastAMinute(interval) ==>
              r.total == Recorded(history, lo, hi, domain, path, verb, interval))
    {
      if !enable {
        return Ok(0);
      }
      var filter := Matching(domain, path, verb);
      var from, to := from_, to_;
      if to < from {
        from, to := to, from;
      }
      BucketHolds(from, interval);
      BucketHolds(to, interval);
      BucketStartMonotone(from, to, interval);
      r := SumBuckets(BucketStart(from, interval), BucketStart(to, interval), filter, errors);
      QueryFailsIff(db, name, from_, to_, filter, errors, interval);
      if AtLeastAMinute(interval) {
        TablesAreDistinct(interval, zone);
        QueryAgrees(db, name, history, from_, to_, filter, errors, interval);
        MatchingSelects(history, BucketStart(from, interval), BucketStart(to, interval), domain, path, verb, interval);
      }
    }
  }

  // ----- exactly when -----

  /** The database after recording a whole history. */
  function Build(h: seq<Hit>, name: Naming, interval: int): Database {
    if h == [] then map[] else Insert(Build(h[..|h| - 1], name, interval), name, h[|h| - 1], interval)
  }

  lemma {:induction false} BuildHolds(h: seq<Hit>, name: Naming, interval: int)
    ensures Holds(Build(h, name, interval), name, h, interval)
  {
    if h != [] {
      var front := h[..|h| - 1];
      BuildHolds(front, name, interval);
      InsertHolds(Build(front, name, interval), name, front, h[|h| - 1], interval);
      assert h == front + [h[|h| - 1]];
    }
  }

  /** The query's total is the raw count, for this history and these arguments. */
  ghost predicate Agrees(
      name: Naming, h: seq<Hit>, from: int, to: int, filter: Filter, errors: set<string>, interval: int)
    requires interval > 0
  {
    var totals := TotalsOf(Build(h, name, interval), name, filter, errors);
    AgreesWith(h, from, to, filter, interval, Query(totals, from, to, interval))
  }

  /** For every history, query and choice of failing tables. */
  ghost predicate AlwaysAgrees(name: Naming, interval: int)
    requires interval > 0
  {
    forall h, from, to, filter, errors :: Agrees(name, h, from, to, filter, errors, interval)
  }

  lemma {:induction false} ApartAgrees(name: Naming, interval: int)
    requires interval > 0 && TellsApart(name, interval)
    ensures AlwaysAgrees(name, interval)
  {
    forall h, from, to, filter, errors ensures Agrees(name, h, from, to, filter, errors, interval) {
      BuildHolds(h, name, interval);
      QueryAgrees(Build(h, name, interval), name, h, from, to, filter, errors, interval);
    }
  }

  lemma {:induction false} MinuteMonotone(a: int, b: int, zone: int)
    requires a <= b
    ensures Minute(a, zone) <= Minute(b, zone)
  {
  }

  lemma {:induction false} ThatManyMinutes(n: int, zone: int)
    ensures Minute(60_000_000_000 * n, zone) == n + Minute(0, zone)
  {
  }

  /** Two successive buckets in one minute: were there none among the first k, the k-th would be k
      minutes on, which k = 60_000_000_000 shows to be too far. */
  lemma {:induction false} SharedMinute(interval: int, zone: int, k: nat) returns (t: int)
    requires 0 < interval && !AtLeastAMinute(interval) && k <= 60_000_000_000
    requires IsBucket(k * interval, interval) && Minute(k * interval, zone) >= Minute(0, zone) + k
    ensures IsBucket(t, interval) && Minute(t, zone) == Minute(t + interval, zone)
    decreases 60_000_000_000 - k
  {
    t := k * interval;
    if k == 60_000_000_000 {
      ThatManyMinutes(interval, zone);
      assert false;
    } else if Minute(t, zone) != Minute(t + interval, zone) {
      MinuteMonotone(t, t + interval, zone);
      BucketShifts(t, interval);
      assert t + interval == (k + 1) * interval;
      t := SharedMinute(interval, zone, k + 1);
    }
  }

  /** Two buckets that share a table: a query over both adds its count twice. */
  lemma {:induction false} SharedTableOvercounts(name: Naming, t: int, interval: int)
    requires interval > 0 && IsBucket(t, interval) && name(t) == name(t + interval)
    ensures !AlwaysAgrees(name, interval)
  {
    var row, any: Filter := Row("", "", ""), (r: Row) => true;
    var h := [Hit(t, row)];
    var front: seq<Hit> := h[..|h| - 1];
    assert front == [] && Build(front, name, interval) == map[];
    var db := Build(h, name, interval);
    assert db == Insert(map[], name, Hit(t, row), interval);
    assert db == map[name(t) := Upsert([], row)] && Upsert([], row) == [Record(row, 1)];
    assert Sum([Record(row, 1)], any) == 1 by { assert [Record(row, 1)][1..] == []; }
    BucketShifts(t, interval);
    var totals := TotalsOf(db, name, any, {});
    assert totals(t) == Ok(1) && totals(t + interval) == Ok(1);
    assert QueryTo(totals, t, t - interval, interval) == Ok(0);
    assert QueryTo(totals, t, t, interval) == Ok(1);
    assert QueryTo(totals, t, t + interval, interval) == Ok(2);
    assert CountBetween(h, t, t + interval, any, interval) == 1;
    assert !Agrees(name, h, t, t + interval, any, {}, interval);
  }

  lemma {:induction false} SameName(a: int, b: int, zone: int)
    requires Minute(a, zone) == Minute(b, zone)
    ensures Names(zone)(a) == Names(zone)(b)
  {
  }

  /** The bucketed index agrees with the history, for every history and every query, exactly
      when a bucket is at least a minute long: table names have no finer resolution. */
  lemma {:induction false} AgreesIffAMinute(interval: int, zone: int)
    requires interval > 0
    ensures AlwaysAgrees(Names(zone), interval) <==> AtLeastAMinute(interval)
  {
    if AtLeastAMinute(interval) {
      TablesAreDistinct(interval, zone);
      ApartAgrees(Names(zone), interval);
    } else {
      assert IsBucket(0 * interval, interval);
      var t := SharedMinute(interval, zone, 0);
      SameName(t, t + interval, zone);
      SharedTableOvercounts(Names(zone), t, interval);
    }
  }
}
