/** Duration percentiles over the invocation records (`metrics.rs`).

Durations and times are 64-bit unsigned numbers that the table stores as signed ones, as the source
casts them. The percentile offsets are computed with exact fractions. */
module Metrics {
  import opened Wrappers
  import opened Text

  const I64_RANGE: int := 0x8000_0000_0000_0000

  type I64 = i: int | -I64_RANGE <= i < I64_RANGE

  function AsI64(n: U64): I64 {
    if n < I64_RANGE then n else n - 2 * I64_RANGE
  }

  function AsU64(i: I64): (n: U64)
    ensures AsI64(n) == i
  {
    if i >= 0 then i else i + 2 * I64_RANGE
  }

  datatype Record = Record(function_: nat, durationMs: Option<U64>, startedAt: U64)

  datatype Row = Row(function_: nat, durationMs: Option<I64>, startedAt: I64)

  function Stored(r: Record): Row {
    Row(r.function_, if r.durationMs.Some? then Some(AsI64(r.durationMs.value)) else None, AsI64(r.startedAt))
  }

  datatype Window = Window(function_: nat, start: Option<U64>, end: Option<U64>)

  predicate Selects(q: Window, r: Row) {
    && r.function_ == q.function_ && r.durationMs.Some?
    && (q.start.Some? ==> r.startedAt >= AsI64(q.start.value))
    && (q.end.Some? ==> r.startedAt <= AsI64(q.end.value))
  }

  /** The durations a query selects, in table order. */
  function Durations(rows: seq<Row>, q: Window): seq<I64> {
    if rows == [] then []
    else (if Selects(q, rows[0]) then [rows[0].durationMs.value] else []) + Durations(rows[1..], q)
  }

  // ---------------------------------------------------------------------------------------------
  // ORDER BY
  // ---------------------------------------------------------------------------------------------

  predicate IsSorted(s: seq<I64>) {
    forall i, j | 0 <= i < j < |s| :: s[i] <= s[j]
  }

  function Insert(x: I64, s: seq<I64>): seq<I64> {
    if s == [] || x <= s[0] then [x] + s else [s[0]] + Insert(x, s[1..])
  }

  function Sorted(s: seq<I64>): seq<I64> {
    if s == [] then [] else Insert(s[0], Sorted(s[1..]))
  }

  predicate AllFrom(lo: int, s: seq<I64>) {
    forall i | 0 <= i < |s| :: lo <= s[i]
  }

  lemma {:induction false} InsertKeepsElements(x: I64, s: seq<I64>)
    ensures multiset(Insert(x, s)) == multiset(s) + multiset{x} && |Insert(x, s)| == |s| + 1
  {
    if s != [] && x > s[0] {
      InsertKeepsElements(x, s[1..]);
      assert s == [s[0]] + s[1..];
    }
  }

  lemma {:induction false} InsertKeepsBound(lo: int, x: I64, s: seq<I64>)
    requires lo <= x && AllFrom(lo, s)
    ensures AllFrom(lo, Insert(x, s))
  {
    if s != [] && x > s[0] {
      InsertKeepsBound(lo, x, s[1..]);
    }
  }

  lemma {:induction false} InsertSorts(x: I64, s: seq<I64>)
    requires IsSorted(s)
    ensures IsSorted(Insert(x, s))
  {
    if s != [] && x > s[0] {
      InsertSorts(x, s[1..]);
      InsertKeepsBound(s[0], x, s[1..]);
    }
  }

  lemma {:induction false} SortedSorts(s: seq<I64>)
    ensures IsSorted(Sorted(s)) && multiset(Sorted(s)) == multiset(s) && |Sorted(s)| == |s|
  {
    if s != [] {
      SortedSorts(s[1..]);
      InsertSorts(s[0], Sorted(s[1..]));
      InsertKeepsElements(s[0], Sorted(s[1..]));
      assert s == [s[0]] + s[1..];
    }
  }

  // ---------------------------------------------------------------------------------------------
  // Percentiles
  // ---------------------------------------------------------------------------------------------

  datatype Error = RowNotFound

  datatype Percentiles = Percentiles(p50: U64, p95: U64, p99: U64)

  function Offset(count: nat, percent: nat): nat {
    count * percent / 100
  }

  /** What other callers do to the table. The rows of a function go when the function is deleted. */
  datatype Change =
    | Recorded(record: Record)
    | CleanedUp(now: U64, retentionMs: U64)
    | FunctionDeleted(function_: nat)

  /** The start of the retention period; saturating subtraction. */
  function Cutoff(now: U64, retentionMs: U64): I64 {
    AsI64(if now < retentionMs then 0 else now - retentionMs)
  }

  function AfterChange(rows: seq<Row>, c: Change): seq<Row> {
    match c
    case Recorded(record) => rows + [Stored(record)]
    case CleanedUp(now, retentionMs) => KeptSince(rows, Cutoff(now, retentionMs))
    case FunctionDeleted(f) => WithoutFunction(rows, f)
  }

  function AfterChanges(rows: seq<Row>, cs: seq<Change>): seq<Row> {
    if cs == [] then rows else AfterChange(AfterChanges(rows, cs[..|cs| - 1]), cs[|cs| - 1])
  }

  class MetricsCollector {
    var rows: seq<Row>

    constructor ()
      ensures rows == []
    {
      rows := [];
    }

    method RecordInvocation(r: Record)
      modifies this
      ensures rows == old(rows) + [Stored(r)]
    {
      rows := rows + [Stored(r)];
    }

    /** Deletes the records that started before the retention period. */
    method CleanupOldRecords(now: U64, retentionMs: U64) returns (deleted: nat)
      modifies this
      ensures rows == KeptSince(old(rows), Cutoff(now, retentionMs))
      ensures deleted == |old(rows)| - |rows|
    {
      var cutoff := if now < retentionMs then 0 else now - retentionMs;
      var kept := KeptSince(rows, AsI64(cutoff));
      deleted := |rows| - |kept|;
      rows := kept;
    }

    /** Other callers run. */
    method Environment(changes: seq<Change>)
      modifies this
      ensures rows == AfterChanges(old(rows), changes)
    {
      for i := 0 to |changes|
        invariant rows == AfterChanges(old(rows), changes[..i])
      {
        assert changes[..i + 1][..i] == changes[..i];
        match changes[i] {
          case Recorded(record) => RecordInvocation(record);
          case CleanedUp(now, retentionMs) => var _ := CleanupOldRecords(now, retentionMs);
          case FunctionDeleted(f) => rows := WithoutFunction(rows, f);
        }
      }
      assert changes[..|changes|] == changes;
    }

    /** `LIMIT 1 OFFSET offset` of the sorted durations; an offset past the end finds no row. */
    method FetchPercentile(q: Window, offset: nat) returns (r: Result<U64, Error>)
      ensures r.Ok? <==> offset < |Durations(rows, q)|
      ensures r.Ok? ==> IsRank(Durations(rows, q), offset, AsI64(r.value))
    {
      var ordered := Sorted(Durations(rows, q));
      SortedSorts(Durations(rows, q));
      if offset >= |ordered| {
        return Err(RowNotFound);
      }
      SortedElementHasItsRank(Durations(rows, q), offset);
      r := Ok(AsU64(ordered[offset]));
    }

    /** Four queries, between which other callers run. With nothing to count all percentiles are zero;
        otherwise each fetch finds a duration of the right rank as long as the table has not shrunk to
        its offset, and the first one that finds none fails the whole. */
    method CalculatePercentiles(q: Window, env: nat -> seq<Change>) returns (r: Result<Percentiles, Error>)
      modifies this
      ensures var total, at := |Durations(old(rows), q)|, k => Table(old(rows), env, k);
              if total == 0 then r == Ok(Percentiles(0, 0, 0)) && rows == old(rows)
              else
                && (r.Err? <==> Shrunk(at(1), q, total, 50) || Shrunk(at(2), q, total, 95)
                                || Shrunk(at(3), q, total, 99))
                && (r.Ok? ==>
                      && IsPercentile(Durations(at(1), q), total, 50, AsI64(r.value.p50))
                      && IsPercentile(Durations(at(2), q), total, 95, AsI64(r.value.p95))
                      && IsPercentile(Durations(at(3), q), total, 99, AsI64(r.value.p99)))
                && rows == (if Shrunk(at(1), q, total, 50) then at(1)
                            else if Shrunk(at(2), q, total, 95) then at(2) else at(3))
    {
      var total := |Durations(rows, q)|;
      if total == 0 {
        return Ok(Percentiles(0, 0, 0));
      }
      Environment(env(0));
      assert rows == Table(old(rows), env, 1);
      RankIsPercentile(rows, q, total, 50);
      var p50 := FetchPercentile(q, Offset(total, 50));
      if p50.Err? {
        return Err(p50.error);
      }
      Environment(env(1));
      assert rows == Table(old(rows), env, 2);
      RankIsPercentile(rows, q, total, 95);
      var p95 := FetchPercentile(q, Offset(total, 95));
      if p95.Err? {
        return Err(p95.error);
      }
      Environment(env(2));
      assert rows == Table(old(rows), env, 3);
      RankIsPercentile(rows, q, total, 99);
      var p99 := FetchPercentile(q, Offset(total, 99));
      if p99.Err? {
        return Err(p99.error);
      }
      r := Ok(Percentiles(p50.value, p95.value, p99.value));
    }
  }

  /** The table as it is after `k` turns of the others. */
  function Table(rows: seq<Row>, env: nat -> seq<Change>, k: nat): seq<Row> {
    if k == 0 then rows else AfterChanges(Table(rows, env, k - 1), env(k - 1))
  }

  /** The window has become so small against the count that the given percentage of the count covers it. */
  predicate Shrunk(rows: seq<Row>, q: Window, total: nat, percent: nat) {
    100 * |Durations(rows, q)| <= percent * total
  }

  /** `v` is one of the durations; more than the given percentage of the count are at or below it, and all
      but at most that percentage are at or above it. */
  ghost predicate IsPercentile(ds: seq<int>, total: nat, percent: nat, v: int) {
    && v in ds
    && 100 * CountAtMost(ds, v) > percent * total
    && 100 * CountAtLeast(ds, v) >= 100 * |ds| - percent * total
  }

  /** The offset is the percentage of the count, rounded down. */
  lemma OffsetRoundsDown(count: nat, percent: nat)
    ensures 100 * Offset(count, percent) <= percent * count < 100 * (Offset(count, percent) + 1)
  {
  }

  lemma RankIsPercentile(rows: seq<Row>, q: Window, total: nat, percent: nat)
    ensures var k, ds := Offset(total, percent), Durations(rows, q);
            && (Shrunk(rows, q, total, percent) <==> |ds| <= k)
            && (forall v :: IsRank(ds, k, v) ==> IsPercentile(ds, total, percent, v))
  {
    OffsetRoundsDown(total, percent);
  }

  /** In a window that did not change there is only one such duration. */
  lemma PercentileIsUnique(ds: seq<int>, percent: nat, v: int, w: int)
    requires IsPercentile(ds, |ds|, percent, v) && IsPercentile(ds, |ds|, percent, w)
    ensures v == w
  {
    if v < w {
      CountsMonotone(ds, v, w);
    } else if w < v {
      CountsMonotone(ds, w, v);
    }
  }

  /** While the durations in the window stay as they were counted, nothing fails, and the percentiles are
      ordered unless durations of 2^63 or more, which the table sorts as negative, are more than half of
      all but not more than 99 percent. */
  lemma UndisturbedPercentiles(rows: seq<Row>, q: Window, p: Percentiles)
    requires Durations(rows, q) != []
    ensures var n := |Durations(rows, q)|;
            !Shrunk(rows, q, n, 50) && !Shrunk(rows, q, n, 95) && !Shrunk(rows, q, n, 99)
    ensures var ds, n := Durations(rows, q), |Durations(rows, q)|;
            && IsPercentile(ds, n, 50, AsI64(p.p50))
            && IsPercentile(ds, n, 95, AsI64(p.p95))
            && IsPercentile(ds, n, 99, AsI64(p.p99)) ==>
              (p.p50 <= p.p95 <= p.p99
               <==> 100 * CountAtMost(ds, -1) <= 50 * n || 100 * CountAtMost(ds, -1) > 99 * n)
  {
    var ds, n := Durations(rows, q), |Durations(rows, q)|;
    var i, j, k := AsI64(p.p50), AsI64(p.p95), AsI64(p.p99);
    if IsPercentile(ds, n, 50, i) && IsPercentile(ds, n, 95, j) && IsPercentile(ds, n, 99, k) {
      PercentilesAreOrdered(ds, 50, i, 95, j);
      PercentilesAreOrdered(ds, 95, j, 99, k);
      NegativeIffFewerBelow(ds, 50, i);
      NegativeIffFewerBelow(ds, 99, k);
    }
  }

  lemma PercentilesAreOrdered(ds: seq<int>, a: nat, v: int, b: nat, w: int)
    requires a <= b && IsPercentile(ds, |ds|, a, v) && IsPercentile(ds, |ds|, b, w)
    ensures v <= w
  {
    TimesIsMonotone(a, b, |ds|);
    if w < v {
      CountsMonotone(ds, w, v);
    }
  }

  lemma TimesIsMonotone(a: nat, b: nat, n: nat)
    requires a <= b
    ensures a * n <= b * n
  {
  }

  /** Recording never makes a fetch fail: only a cleanup or the deletion of the function can. */
  lemma {:induction false} OnlyDeletionsShrink(rows: seq<Row>, cs: seq<Change>, q: Window)
    requires forall i | 0 <= i < |cs| :: cs[i].Recorded? || (cs[i].FunctionDeleted? && cs[i].function_ != q.function_)
    ensures |Durations(AfterChanges(rows, cs), q)| >= |Durations(rows, q)|
  {
    if cs != [] {
      var n := |cs| - 1;
      OnlyDeletionsShrink(rows, cs[..n], q);
      var before := AfterChanges(rows, cs[..n]);
      match cs[n] {
        case Recorded(record) => DurationsJoined(before, [Stored(record)], q);
        case FunctionDeleted(f) => OthersRowsStay(before, f, q);
      }
    }
  }

  lemma {:induction false} DurationsJoined(a: seq<Row>, b: seq<Row>, q: Window)
    ensures Durations(a + b, q) == Durations(a, q) + Durations(b, q)
  {
    if a == [] {
      assert a + b == b;
    } else {
      assert (a + b)[0] == a[0] && (a + b)[1..] == a[1..] + b;
      DurationsJoined(a[1..], b, q);
    }
  }

  function WithoutFunction(rows: seq<Row>, f: nat): seq<Row> {
    if rows == [] then []
    else (if rows[0].function_ == f then [] else [rows[0]]) + WithoutFunction(rows[1..], f)
  }

  /** The deletion of a function takes all durations from its windows and none from the others. */
  lemma {:induction false} OthersRowsStay(rows: seq<Row>, f: nat, q: Window)
    ensures Durations(WithoutFunction(rows, f), q) == if q.function_ == f then [] else Durations(rows, q)
  {
    if rows != [] {
      var first := if rows[0].function_ == f then [] else [rows[0]];
      OthersRowsStay(rows[1..], f, q);
      DurationsJoined(first, WithoutFunction(rows[1..], f), q);
      assert rows[0].function_ != f ==> [rows[0]][1..] == [];
    }
  }

  function KeptSince(rows: seq<Row>, cutoff: int): (kept: seq<Row>)
    ensures |kept| <= |rows|
  {
    if rows == [] then []
    else (if rows[0].startedAt < cutoff then [] else [rows[0]]) + KeptSince(rows[1..], cutoff)
  }

  /** Cleaning up takes nothing from a window that starts within the retention period, and leaves
      nothing older. */
  lemma {:induction false} CleanupKeepsRecentWindows(rows: seq<Row>, cutoff: I64, q: Window)
    ensures q.start.Some? && AsI64(q.start.value) >= cutoff ==>
              Durations(KeptSince(rows, cutoff), q) == Durations(rows, q)
    ensures forall r :: r in KeptSince(rows, cutoff) <==> r in rows && r.startedAt >= cutoff
  {
    if rows != [] {
      CleanupKeepsRecentWindows(rows[1..], cutoff, q);
      if rows[0].startedAt >= cutoff {
        assert KeptSince(rows, cutoff)[1..] == KeptSince(rows[1..], cutoff);
      } else {
        assert KeptSince(rows, cutoff) == KeptSince(rows[1..], cutoff);
      }
    }
  }

  /** The retention period ends now and is as long as asked, or it starts at zero. */
  lemma CutoffIsRetentionAgo(now: U64, retentionMs: U64)
    requires now < I64_RANGE
    ensures if retentionMs <= now then Cutoff(now, retentionMs) + retentionMs == now else Cutoff(now, retentionMs) == 0
  {
  }

  lemma OffsetsAreOrdered(count: nat)
    requires count > 0
    ensures Offset(count, 50) <= Offset(count, 95) <= Offset(count, 99) < count
  {
  }

  function CountAtMost(s: seq<int>, v: int): nat {
    if s == [] then 0 else (if s[0] <= v then 1 else 0) + CountAtMost(s[1..], v)
  }

  function CountAtLeast(s: seq<int>, v: int): nat {
    if s == [] then 0 else (if s[0] >= v then 1 else 0) + CountAtLeast(s[1..], v)
  }

  /** `v` is one of the durations, at least `k + 1` of them are at or below it, and at least all but
      `k` are at or above it. */
  ghost predicate IsRank(ds: seq<int>, k: nat, v: int) {
    v in ds && CountAtMost(ds, v) >= k + 1 && CountAtLeast(ds, v) + k >= |ds|
  }

  lemma {:induction false} InsertCounts(x: I64, s: seq<I64>, v: int)
    ensures CountAtMost(Insert(x, s), v) == CountAtMost(s, v) + (if x <= v then 1 else 0)
    ensures CountAtLeast(Insert(x, s), v) == CountAtLeast(s, v) + (if x >= v then 1 else 0)
  {
    if s == [] || x <= s[0] {
      assert ([x] + s)[1..] == s;
    } else {
      InsertCounts(x, s[1..], v);
      assert Insert(x, s)[1..] == Insert(x, s[1..]);
    }
  }

  lemma {:induction false} SortedCounts(s: seq<I64>, v: int)
    ensures CountAtMost(Sorted(s), v) == CountAtMost(s, v) && CountAtLeast(Sorted(s), v) == CountAtLeast(s, v)
  {
    if s != [] {
      SortedCounts(s[1..], v);
      InsertCounts(s[0], Sorted(s[1..]), v);
    }
  }

  lemma {:induction false} CountsInSorted(s: seq<I64>, k: nat, v: int)
    requires IsSorted(s) && k < |s|
    ensures v >= s[k] ==> CountAtMost(s, v) >= k + 1
    ensures v <= s[k] ==> CountAtLeast(s, v) + k >= |s|
    decreases |s|
  {
    if k > 0 {
      assert IsSorted(s[1..]);
      CountsInSorted(s[1..], k - 1, v);
    } else if v <= s[0] {
      AllAtLeast(s, v);
    }
  }

  lemma {:induction false} AllAtLeast(s: seq<I64>, v: int)
    requires forall i | 0 <= i < |s| :: s[i] >= v
    ensures CountAtLeast(s, v) == |s|
  {
    if s != [] {
      AllAtLeast(s[1..], v);
    }
  }

  lemma SortedElementHasItsRank(ds: seq<I64>, k: nat)
    requires k < |ds|
    ensures |Sorted(ds)| == |ds| && IsRank(ds, k, Sorted(ds)[k])
  {
    SortedSorts(ds);
    var s, v := Sorted(ds), Sorted(ds)[k];
    CountsInSorted(s, k, v);
    SortedCounts(ds, v);
    assert v in multiset(s);
  }

  lemma {:induction false} CountsMonotone(s: seq<int>, v: int, w: int)
    requires v < w
    ensures CountAtMost(s, v) + CountAtLeast(s, w) <= |s|
  {
    if s != [] {
      CountsMonotone(s[1..], v, w);
    }
  }

  /** A rank determines its value: larger ranks have values that are not smaller. */
  lemma RanksAreOrdered(ds: seq<I64>, j: nat, v: int, k: nat, w: int)
    requires j <= k && IsRank(ds, j, v) && IsRank(ds, k, w)
    ensures v <= w
  {
    if w < v {
      CountsMonotone(ds, w, v);
    }
  }

  lemma {:induction false} CountAtMostGrows(s: seq<int>, v: int, w: int)
    requires v <= w
    ensures CountAtMost(s, v) <= CountAtMost(s, w)
  {
    if s != [] {
      CountAtMostGrows(s[1..], v, w);
    }
  }

  lemma NegativeIffFewerBelow(ds: seq<int>, percent: nat, v: int)
    requires IsPercentile(ds, |ds|, percent, v)
    ensures v < 0 <==> 100 * CountAtMost(ds, -1) > percent * |ds|
  {
    if v < 0 {
      CountAtMostGrows(ds, v, -1);
    } else {
      CountsMonotone(ds, -1, v);
    }
  }

  function StoredAll(records: seq<Record>): seq<Row> {
    if records == [] then [] else [Stored(records[0])] + StoredAll(records[1..])
  }

  /** Record `i` is in the window and has this duration. */
  predicate HasDuration(records: seq<Record>, q: Window, i: nat, duration: U64)
    requires i < |records|
  {
    InWindow(records[i], q) && records[i].durationMs == Some(duration)
  }

  /** Storing and reading back loses nothing: every percentile is a duration that was recorded in the
      window. */
  lemma PercentilesWereRecorded(records: seq<Record>, q: Window, total: nat, percent: nat, p: U64)
    requires IsPercentile(Durations(StoredAll(records), q), total, percent, AsI64(p))
    ensures exists i: nat :: i < |records| && HasDuration(records, q, i, p)
  {
    DurationsComeFromRecords(records, q, p);
  }

  lemma {:induction false} DurationsComeFromRecords(records: seq<Record>, q: Window, p: U64)
    requires AsI64(p) in Durations(StoredAll(records), q)
    ensures exists i: nat :: i < |records| && HasDuration(records, q, i, p)
  {
    var rows := StoredAll(records);
    assert rows[1..] == StoredAll(records[1..]);
    assert Selects(q, rows[0]) <==> InWindow(records[0], q);
    if Selects(q, rows[0]) && rows[0].durationMs.value == AsI64(p) {
      assert HasDuration(records, q, 0, p);
    } else {
      DurationsComeFromRecords(records[1..], q, p);
      var i: nat :| i < |records[1..]| && HasDuration(records[1..], q, i, p);
      assert HasDuration(records, q, i + 1, p);
    }
  }

  // ---------------------------------------------------------------------------------------------
  // Ranks among the recorded durations
  // ---------------------------------------------------------------------------------------------

  /** The order in which the table has times: those of 2^63 and more come first. */
  predicate SortedAtMost(a: U64, b: U64) {
    if (a < I64_RANGE) == (b < I64_RANGE) then a <= b else b < I64_RANGE
  }

  predicate InWindow(r: Record, q: Window) {
    && r.function_ == q.function_ && r.durationMs.Some?
    && (q.start.Some? ==> SortedAtMost(q.start.value, r.startedAt))
    && (q.end.Some? ==> SortedAtMost(r.startedAt, q.end.value))
  }

  /** The durations that were recorded in the window, as they were recorded. */
  function RecordedDurations(records: seq<Record>, q: Window): seq<U64> {
    if records == [] then []
    else (if InWindow(records[0], q) then [records[0].durationMs.value] else []) + RecordedDurations(records[1..], q)
  }

  function AllAsI64(ds: seq<U64>): seq<I64> {
    if ds == [] then [] else [AsI64(ds[0])] + AllAsI64(ds[1..])
  }

  /** What a query selects are exactly the durations recorded in its window, cast and in order. */
  lemma {:induction false} SelectedAreRecorded(records: seq<Record>, q: Window)
    ensures Durations(StoredAll(records), q) == AllAsI64(RecordedDurations(records, q))
  {
    if records != [] {
      var first, rest := records[0], RecordedDurations(records[1..], q);
      SelectedAreRecorded(records[1..], q);
      assert StoredAll(records)[1..] == StoredAll(records[1..]);
      assert Selects(q, Stored(first)) <==> InWindow(first, q);
      if InWindow(first, q) {
        assert ([first.durationMs.value] + rest)[1..] == rest;
      } else {
        assert RecordedDurations(records, q) == rest;
      }
    }
  }

  predicate AllBelow(ds: seq<U64>, bound: int) {
    forall i | 0 <= i < |ds| :: ds[i] < bound
  }

  lemma {:induction false} SmallAreKept(ds: seq<U64>)
    requires AllBelow(ds, I64_RANGE)
    ensures AllAsI64(ds) == ds
  {
    if ds != [] {
      SmallAreKept(ds[1..]);
      assert [ds[0]] + ds[1..] == ds;
    }
  }

  /** As long as no duration in the window reaches 2^63, a percentile of the stored numbers is one of the
      recorded durations. */
  lemma PercentilesAreOfRecordedDurations(records: seq<Record>, q: Window, total: nat, percent: nat, p: U64)
    requires AllBelow(RecordedDurations(records, q), I64_RANGE)
    requires IsPercentile(Durations(StoredAll(records), q), total, percent, AsI64(p))
    ensures IsPercentile(RecordedDurations(records, q), total, percent, p)
  {
    SelectedAreRecorded(records, q);
    SmallAreKept(RecordedDurations(records, q));
    assert AsI64(p) in RecordedDurations(records, q);
  }

  /** From 2^63 on it is not so: of the durations 2^63, 2^63 and 0 the table has the two large ones in
      front, so that the 50th percentile is larger than the 99th. */
  lemma HugeDurationsDisorderPercentiles(p50: U64, p99: U64)
    requires var ds: seq<I64> := [AsI64(I64_RANGE), AsI64(I64_RANGE), AsI64(0)];
             IsPercentile(ds, 3, 50, AsI64(p50)) && IsPercentile(ds, 3, 99, AsI64(p99))
    ensures p50 == I64_RANGE && p99 == 0 && p50 > p99
  {
    var ds: seq<I64> := [AsI64(I64_RANGE), AsI64(I64_RANGE), AsI64(0)];
    var least := -I64_RANGE;
    assert ds == [least, least, 0];
    CountsOfThree(least, least, 0, 0);
    CountsOfThree(least, least, 0, least);
  }

  lemma CountsOfCons(x: int, s: seq<int>, v: int)
    ensures CountAtMost([x] + s, v) == (if x <= v then 1 else 0) + CountAtMost(s, v)
    ensures CountAtLeast([x] + s, v) == (if x >= v then 1 else 0) + CountAtLeast(s, v)
  {
    assert ([x] + s)[1..] == s;
  }

  lemma CountsOfThree(a: int, b: int, c: int, v: int)
    ensures CountAtMost([a, b, c], v) == CountAtMost([a], v) + CountAtMost([b], v) + CountAtMost([c], v)
    ensures CountAtLeast([a, b, c], v) == CountAtLeast([a], v) + CountAtLeast([b], v) + CountAtLeast([c], v)
    ensures forall x ::
              CountAtMost([x], v) == (if x <= v then 1 else 0) && CountAtLeast([x], v) == (if x >= v then 1 else 0)
  {
    forall x
      ensures CountAtMost([x], v) == (if x <= v then 1 else 0) && CountAtLeast([x], v) == (if x >= v then 1 else 0)
    {
      CountsOfCons(x, [], v);
      assert [x] + [] == [x];
    }
    CountsOfCons(a, [b, c], v);
    CountsOfCons(b, [c], v);
    assert [a] + [b, c] == [a, b, c] && [b] + [c] == [b, c];
  }
}
