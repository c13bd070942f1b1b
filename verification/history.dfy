/** The history page's `loadRecords` (src/components/History.jsx): read the
    store, list its distinct days for the day selector, and show either all
    records or one day's records, newest first. */
module History {
  import opened Wrappers
  import opened Sequences
  import opened Records
  import StorageManager

  /** The day selector: `'all'` or one of the listed days. */
  datatype Selection = AllDates | OnDay(day: CalDate)

  /** What the page shows: the records, in display order, and the days
      offered by the selector. */
  datatype View = View(records: seq<Record>, dates: seq<CalDate>)

  /** The records a selection keeps, in stored order. */
  function Selected(all: seq<Record>, sel: Selection): seq<Record>
  {
    match sel
    case AllDates => all
    case OnDay(d) => Filter(all, OnDate(d))
  }

  /** A record passes the selection. */
  predicate Matches(r: Record, sel: Selection)
  {
    sel.OnDay? ==> r.date == sel.day
  }

  /** The selected records are exactly the stored ones that match, in their
      stored order. */
  lemma SelectedMembers(all: seq<Record>, sel: Selection)
    ensures |Selected(all, sel)| <= |all|
    ensures forall x :: x in Selected(all, sel) <==> x in all && Matches(x, sel)
  {
  }

  /** `loadRecords()`: `getRecords()`, then `getUniqueDates()` on the store
      the first read left, then the selected records reversed. The second
      read returns the same list as the first, so it cannot fail once the
      first has succeeded. */
  function LoadRecords(s: StorageManager.Store, sel: Selection): (st: StorageManager.Step<View>)
    ensures st.store == StorageManager.GetRecords(s).store
    ensures st.result.Success? <==> StorageManager.GetRecords(s).result.Success?
    ensures st.result.Failure? ==> st.result.error == StorageManager.GetRecords(s).result.error
    ensures st.result.Success? ==>
      var all := StorageManager.GetRecords(s).result.value;
      var v := st.result.value;
      && |v.records| <= |all|
      && (forall x :: x in v.records <==> x in all && Matches(x, sel))
      && (sel.AllDates? ==>
            |v.records| == |all| && forall i :: 0 <= i < |all| ==> v.records[i] == all[|all| - 1 - i])
      && (sel.OnDay? ==> v.records == Reverse(Filter(all, OnDate(sel.day))))
      && StorageManager.NewestFirst(v.dates)
      && (forall d :: d in v.dates <==> exists i :: 0 <= i < |all| && all[i].date == d)
  {
    var got := StorageManager.GetRecords(s);
    match got.result
    case Failure(e) => StorageManager.Step(Failure(e), got.store)
    case Success(all) =>
      StorageManager.GetRecordsStable(s);
      var days := StorageManager.GetUniqueDates(got.store);
      var shown := Selected(all, sel);
      SelectedMembers(all, sel);
      ReverseSameElements(shown);
      StorageManager.Step(Success(View(Reverse(shown), days.result.value)), days.store)
  }

  /** Every day the selector offers shows at least one record. */
  lemma OfferedDayNotEmpty(s: StorageManager.Store, d: CalDate)
    requires LoadRecords(s, AllDates).result.Success?
    requires d in LoadRecords(s, AllDates).result.value.dates
    ensures LoadRecords(s, OnDay(d)).result.Success?
    ensures |LoadRecords(s, OnDay(d)).result.value.records| > 0
  {
    var all := StorageManager.GetRecords(s).result.value;
    var i :| 0 <= i < |all| && all[i].date == d;
    assert all[i] in all;
    var v := LoadRecords(s, OnDay(d)).result.value;
    assert all[i] in v.records;
  }

  /** After a save whose file write succeeds, the history page lists the new
      record first, whether or not the two copies agreed before. */
  lemma NewestOnTop(s: StorageManager.Store, clock: Clock, soundings: Results, results: Results, customDate: string)
    requires StorageManager.SaveRecord(s, clock, soundings, results, customDate, true).result.Success?
    ensures var st := StorageManager.SaveRecord(s, clock, soundings, results, customDate, true);
      var v := LoadRecords(st.store, AllDates);
      && v.result.Success?
      && |v.result.value.records| > 0
      && v.result.value.records[0] == st.result.value
  {
  }
}
