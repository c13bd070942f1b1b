/** The usage analytics of src/components/Analytics.jsx
    (`calculateWeeklyUsage`): the records of the last N days, sorted by
    timestamp, summarised per tank and in aggregate. Volumes are exact reals;
    instants are integer milliseconds. */
module Analytics {
  import opened Wrappers
  import opened Sequences
  import opened Records
  import opened Sorting
  import StorageManager

  /** `1000 * 60 * 60 * 24`. */
  const MsPerDay: int := 86400000

  /** `new Date(record.timestamp)` as milliseconds: the sort and filter key. */
  function Timestamp(r: Record): int
  {
    r.timestamp
  }

  /** `[...records].sort((a, b) => new Date(a.timestamp) - new Date(b.timestamp))`. */
  function SortByTimestamp(s: seq<Record>): (r: seq<Record>)
    ensures |r| == |s|
    ensures multiset(r) == multiset(s)
    ensures Ascending(r, Timestamp)
  {
    SortPermutes(s, Timestamp);
    SortAscending(s, Timestamp);
    Sort(s, Timestamp)
  }

  /** The records stamped at or after `cutoff`. */
  function AtOrAfter(cutoff: int): Record -> bool
  {
    KeyAtLeast(Timestamp, cutoff)
  }

  /** The records of the period in stored order: timestamp at or after the
      cutoff. */
  function InPeriod(records: seq<Record>, cutoff: int): seq<Record>
  {
    Filter(records, AtOrAfter(cutoff))
  }

  /** `periodRecords`: the sorted records, then those at or after the cutoff. */
  function PeriodRecords(records: seq<Record>, cutoff: int): (p: seq<Record>)
    ensures p == SortByTimestamp(InPeriod(records, cutoff))
    ensures multiset(p) == multiset(InPeriod(records, cutoff))
    ensures Ascending(p, Timestamp)
  {
    SortThenFilter(records, Timestamp, cutoff);
    Filter(SortByTimestamp(records), AtOrAfter(cutoff))
  }

  /** The cutoff `now` minus N days. */
  function Cutoff(now: int, periodDays: int): (c: int)
    ensures now - c == periodDays * MsPerDay
    ensures periodDays >= 0 ==> c <= now
  {
    now - periodDays * MsPerDay
  }

  /** `Math.max(1, timeDiff / MsPerDay)`: the elapsed days between the first
      and the last record, never less than one. */
  function DaysDiff(first: Record, last: Record): (d: real)
    ensures d >= 1.0
    ensures d * MsPerDay as real >= (last.timestamp - first.timestamp) as real
    ensures d == 1.0 || d * MsPerDay as real == (last.timestamp - first.timestamp) as real
  {
    var elapsed := (last.timestamp - first.timestamp) as real / MsPerDay as real;
    if elapsed > 1.0 then elapsed else 1.0
  }

  /** `record.results[tank]?.volume || 0`, as a function of the record. */
  function TankVolume(tank: string): Record -> real
  {
    (r: Record) => VolumeOr0(r.results, tank)
  }

  /** One tank's figures. */
  datatype TankUsage = TankUsage(
    name: string,
    firstVolume: real,
    lastVolume: real,
    averageVolume: real,
    totalUsage: real,
    dailyUsage: real,
    maxCapacity: real)

  /** `weeklyData`. `days` is the elapsed-day figure before display
      formatting. */
  datatype Summary = Summary(
    startDate: CalDate,
    endDate: CalDate,
    days: real,
    uniqueDays: nat,
    selectedPeriod: int,
    tankUsage: map<string, TankUsage>,
    totalUsage: real,
    totalDailyUsage: real,
    averageTotalVolume: real,
    recordCount: nat)

  /** One tank's entry of `tankUsage` over the sorted, non-empty period. */
  function UsageOf(p: seq<Record>, tank: string, cal: Calibration): (u: TankUsage)
    requires |p| > 0
    ensures u.averageVolume == Sum(p, TankVolume(tank)) / |p| as real
    ensures u.firstVolume == VolumeOr0(p[0].results, tank)
    ensures u.lastVolume == VolumeOr0(p[|p| - 1].results, tank)
    ensures u.totalUsage == u.firstVolume - u.lastVolume
    ensures u.dailyUsage == u.totalUsage / DaysDiff(p[0], p[|p| - 1])
    ensures u.name == cal.info(tank).name && u.maxCapacity == cal.info(tank).maxVolume
  {
    var first := p[0];
    var last := p[|p| - 1];
    var firstVolume := VolumeOr0(first.results, tank);
    var lastVolume := VolumeOr0(last.results, tank);
    var totalUsage := firstVolume - lastVolume;
    TankUsage(
      name := cal.info(tank).name,
      firstVolume := firstVolume,
      lastVolume := lastVolume,
      averageVolume := Sum(p, TankVolume(tank)) / |p| as real,
      totalUsage := totalUsage,
      dailyUsage := totalUsage / DaysDiff(first, last),
      maxCapacity := cal.info(tank).maxVolume)
  }

  /** A list without repetitions has as many distinct values as elements. */
  lemma {:induction false} DistinctCount(ds: seq<CalDate>)
    requires forall i, j :: 0 <= i < j < |ds| ==> ds[i] != ds[j]
    ensures |set d | d in ds| == |ds|
  {
    if |ds| > 0 {
      DistinctCount(ds[1..]);
      assert (set d | d in ds) == {ds[0]} + (set d | d in ds[1..]);
      assert ds[0] !in (set d | d in ds[1..]);
    }
  }

  /** The number of distinct dates of a list of records. */
  function DistinctDays(rs: seq<Record>): nat
  {
    |set r | r in rs :: r.date|
  }

  /** Grouping by date yields one group per distinct date. */
  lemma GroupCount(rs: seq<Record>)
    ensures |Dedup(Dates(rs))| == DistinctDays(rs)
  {
    var ds := Dates(rs);
    var u := Dedup(ds);
    DistinctCount(u);
    assert (set d | d in u) == (set r | r in rs :: r.date) by {
      forall d | d in u
        ensures d in (set r | r in rs :: r.date)
      {
        var i :| 0 <= i < |ds| && ds[i] == d;
        assert rs[i] in rs;
      }
      forall r | r in rs
        ensures r.date in u
      {
        var i :| 0 <= i < |rs| && rs[i] == r;
        assert ds[i] == r.date;
      }
    }
  }

  /** The whole summary over the sorted, non-empty period. */
  function SummaryOf(p: seq<Record>, periodDays: int, cal: Calibration): (s: Summary)
    requires |p| > 0
    ensures s.recordCount == |p|
    ensures s.startDate == p[0].date && s.endDate == p[|p| - 1].date
    ensures s.days == DaysDiff(p[0], p[|p| - 1])
    ensures s.uniqueDays == DistinctDays(p)
    ensures 1 <= s.uniqueDays <= |p|
    ensures s.selectedPeriod == periodDays
    ensures s.tankUsage.Keys == set k | k in cal.keys
    ensures forall k :: k in cal.keys ==> s.tankUsage[k] == UsageOf(p, k, cal)
    ensures s.averageTotalVolume == Sum(p, RecordTotal) / |p| as real
    ensures s.totalUsage == RecordTotal(p[0]) - RecordTotal(p[|p| - 1])
    ensures s.totalDailyUsage == s.totalUsage / s.days
  {
    var first := p[0];
    var last := p[|p| - 1];
    var uniqueDays := |Dedup(Dates(p))|;
    GroupCount(p);
    assert Dates(p)[0] in Dedup(Dates(p));
    var days := DaysDiff(first, last);
    var totalUsage := RecordTotal(first) - RecordTotal(last);
    Summary(
      startDate := first.date,
      endDate := last.date,
      days := days,
      uniqueDays := uniqueDays,
      selectedPeriod := periodDays,
      tankUsage := map k | k in cal.keys :: UsageOf(p, k, cal),
      totalUsage := totalUsage,
      totalDailyUsage := totalUsage / days,
      averageTotalVolume := Sum(p, RecordTotal) / |p| as real,
      recordCount := |p|)
  }

  /** Two lists with the same elements have the same distinct dates. */
  lemma SameDays(a: seq<Record>, b: seq<Record>)
    requires multiset(a) == multiset(b)
    ensures DistinctDays(a) == DistinctDays(b)
  {
    SameElements(a, b);
    assert (set r | r in a :: r.date) == (set r | r in b :: r.date);
  }

  /** The summary of the sorted period restates, in terms of the period's
      records in stored order, every figure that does not depend on the
      order: the count, the distinct days and the averages. */
  lemma {:induction false} SummaryOrderFree(q: seq<Record>, periodDays: int, cal: Calibration)
    requires |q| > 0
    ensures var s := SummaryOf(SortByTimestamp(q), periodDays, cal);
      && s.recordCount == |q|
      && s.uniqueDays == DistinctDays(q)
      && s.averageTotalVolume == Sum(q, RecordTotal) / |q| as real
      && forall k :: k in cal.keys ==>
           s.tankUsage[k].averageVolume == Sum(q, TankVolume(k)) / |q| as real
  {
    var p := SortByTimestamp(q);
    var s := SummaryOf(p, periodDays, cal);
    SameDays(p, q);
    SumSorted(q, Timestamp, RecordTotal);
    forall k | k in cal.keys
      ensures s.tankUsage[k].averageVolume == Sum(q, TankVolume(k)) / |q| as real
    {
      SumSorted(q, Timestamp, TankVolume(k));
    }
  }

  /** The figures of `calculateWeeklyUsage` over a record list: None when
      the list is empty or no record falls in the period. */
  function Summarize(records: seq<Record>, now: int, periodDays: int, cal: Calibration): (r: Option<Summary>)
    ensures var q := InPeriod(records, Cutoff(now, periodDays));
      r.None? <==> |q| == 0
    ensures |records| == 0 ==> r.None?
    ensures r.Some? ==>
      r.value == SummaryOf(PeriodRecords(records, Cutoff(now, periodDays)), periodDays, cal)
  {
    if |records| == 0 then None
    else
      var p := PeriodRecords(records, Cutoff(now, periodDays));
      if |p| == 0 then None
      else
        var s := SummaryOf(p, periodDays, cal);
        if s.uniqueDays == 0 then None
        else Some(s)
  }

  /** The summary, when there is one, counts and averages exactly the
      records stamped at or after the cutoff, whatever their stored order. */
  lemma SummarizeCounts(records: seq<Record>, now: int, periodDays: int, cal: Calibration)
    ensures var r := Summarize(records, now, periodDays, cal);
      var q := InPeriod(records, Cutoff(now, periodDays));
      r.Some? ==>
      && r.value.recordCount == |q|
      && r.value.uniqueDays == DistinctDays(q)
      && 1 <= r.value.uniqueDays <= r.value.recordCount
      && r.value.days >= 1.0
      && r.value.averageTotalVolume == Sum(q, RecordTotal) / |q| as real
      && r.value.tankUsage.Keys == set k | k in cal.keys
      && forall k :: k in cal.keys ==>
           r.value.tankUsage[k].averageVolume == Sum(q, TankVolume(k)) / |q| as real
  {
    var q := InPeriod(records, Cutoff(now, periodDays));
    if |q| > 0 {
      SummaryOrderFree(q, periodDays, cal);
    }
  }

  /** The first and last period records are the earliest and the latest
      records of the period, and both belong to it. */
  lemma PeriodEnds(records: seq<Record>, cutoff: int)
    requires |InPeriod(records, cutoff)| > 0
    ensures var p := PeriodRecords(records, cutoff);
      && p[0] in InPeriod(records, cutoff)
      && p[|p| - 1] in InPeriod(records, cutoff)
      && forall x :: x in InPeriod(records, cutoff) ==>
           p[0].timestamp <= x.timestamp <= p[|p| - 1].timestamp
  {
    var p := PeriodRecords(records, cutoff);
    var q := InPeriod(records, cutoff);
    SameElements(p, q);
    AscendingEnds(p, Timestamp);
    assert p[0] in p && p[|p| - 1] in p;
    forall x | x in q
      ensures p[0].timestamp <= x.timestamp <= p[|p| - 1].timestamp
    {
      var i :| 0 <= i < |p| && p[i] == x;
      assert Timestamp(p[i]) == x.timestamp;
    }
  }

  /** Among records sharing the earliest timestamp, the first one stored is
      the period's first record. */
  lemma FirstIsEarliestStored(records: seq<Record>, cutoff: int)
    requires |InPeriod(records, cutoff)| > 0
    ensures var p := PeriodRecords(records, cutoff);
      var same := Filter(InPeriod(records, cutoff), KeyIs(Timestamp, p[0].timestamp));
      |same| > 0 && same[0] == p[0]
  {
    var p := PeriodRecords(records, cutoff);
    var q := InPeriod(records, cutoff);
    SortStable(q, Timestamp, p[0].timestamp);
    assert p == [p[0]] + p[1..];
    FilterCons(p[0], p[1..], KeyIs(Timestamp, p[0].timestamp));
  }

  /** With one record in the period there is no usage: first and last are
      the same record and the elapsed time is the one-day minimum. */
  lemma SingleRecordNoUsage(records: seq<Record>, now: int, periodDays: int, cal: Calibration)
    requires |InPeriod(records, Cutoff(now, periodDays))| == 1
    ensures var r := Summarize(records, now, periodDays, cal);
      && r.Some?
      && r.value.days == 1.0
      && r.value.totalUsage == 0.0 && r.value.totalDailyUsage == 0.0
      && forall k :: k in cal.keys ==>
           r.value.tankUsage[k].totalUsage == 0.0 && r.value.tankUsage[k].dailyUsage == 0.0
  {
  }

  /** Dividing by a number of days that is at least one moves a value
      towards zero without changing its sign. */
  lemma RateBounds(t: real, d: real)
    requires d >= 1.0
    ensures t >= 0.0 ==> 0.0 <= t / d <= t
    ensures t <= 0.0 ==> t <= t / d <= 0.0
  {
  }

  /** The daily rates never exceed the total change in size, per tank and
      in aggregate, since the elapsed time is at least one day. */
  lemma DailyRateBounded(p: seq<Record>, periodDays: int, cal: Calibration, k: string)
    requires |p| > 0
    ensures var u := UsageOf(p, k, cal);
      && (u.totalUsage >= 0.0 ==> 0.0 <= u.dailyUsage <= u.totalUsage)
      && (u.totalUsage <= 0.0 ==> u.totalUsage <= u.dailyUsage <= 0.0)
    ensures var s := SummaryOf(p, periodDays, cal);
      && (s.totalUsage >= 0.0 ==> 0.0 <= s.totalDailyUsage <= s.totalUsage)
      && (s.totalUsage <= 0.0 ==> s.totalUsage <= s.totalDailyUsage <= 0.0)
  {
    var d := DaysDiff(p[0], p[|p| - 1]);
    RateBounds(UsageOf(p, k, cal).totalUsage, d);
    RateBounds(SummaryOf(p, periodDays, cal).totalUsage, d);
  }

  /** `calculateWeeklyUsage()`: read the store, then summarise. */
  function CalculateWeeklyUsage(st: StorageManager.Store, now: int, periodDays: int, cal: Calibration)
    : (r: StorageManager.Step<Option<Summary>>)
    ensures r.store == StorageManager.GetRecords(st).store
    ensures r.result.Success? <==> StorageManager.GetRecords(st).result.Success?
    ensures r.result.Success? ==>
      r.result.value == Summarize(StorageManager.GetRecords(st).result.value, now, periodDays, cal)
  {
    var got := StorageManager.GetRecords(st);
    match got.result
    case Failure(e) => StorageManager.Step(Failure(e), got.store)
    case Success(records) =>
      StorageManager.Step(Success(Summarize(records, now, periodDays, cal)), got.store)
  }
}
