/** The renderer's record store (src/utils/storageManager.js): a copy of the
    record list in `localStorage` under one key and, when running inside the
    desktop shell, the records file of `ElectronMain`. Every operation is one
    atomic step from a store to a store; the clock and the outcome of a file
    write are parameters. */
module StorageManager {
  import opened Wrappers
  import opened Sequences
  import opened Records
  import ElectronMain

  /** The `localStorage` slot: no value (or the empty string), text that
      `JSON.parse` rejects, or a serialised record list. */
  datatype LocalSlot = NoKey | Unreadable | Saved(records: seq<Record>)

  /** The two copies. `file` is None when the desktop bridge is absent
      (`isElectron()` is false). */
  datatype Store = Store(local: LocalSlot, file: Option<ElectronMain.FileContent>)

  /** The exceptions that escape: `JSON.parse` of the local copy, and
      `toISOString` of an invalid custom date. */
  datatype StoreError = CorruptLocalData | InvalidDate

  /** The value an operation yields (or the exception it throws) together
      with the store afterwards. */
  datatype Step<T> = Step(result: Result<T, StoreError>, store: Store)

  /** `getRecordsFromLocalStorage()`. */
  function ReadLocal(slot: LocalSlot): (r: Result<seq<Record>, StoreError>)
    ensures r.Failure? <==> slot.Unreadable?
    ensures slot.NoKey? ==> r == Success([])
    ensures slot.Saved? ==> r == Success(slot.records)
  {
    match slot
    case NoKey => Success([])
    case Unreadable => Failure(CorruptLocalData)
    case Saved(rs) => Success(rs)
  }

  /** In the desktop shell, the file holds a non-empty list. */
  predicate FileHasRecords(s: Store)
  {
    s.file.Some? && |ElectronMain.LoadRecords(s.file.value)| > 0
  }

  /** `getRecords()`: a non-empty file list wins and overwrites the local
      copy; otherwise the local copy is read and nothing is written. */
  function GetRecords(s: Store): (st: Step<seq<Record>>)
    ensures st.store.file == s.file
    ensures FileHasRecords(s) ==>
      var rs := ElectronMain.LoadRecords(s.file.value);
      st.result == Success(rs) && st.store.local == Saved(rs)
    ensures !FileHasRecords(s) ==> st.store == s
    ensures !FileHasRecords(s) ==> (st.result.Failure? <==> s.local.Unreadable?)
    ensures !FileHasRecords(s) && s.local.NoKey? ==> st.result == Success([])
    ensures !FileHasRecords(s) && s.local.Saved? ==> st.result == Success(s.local.records)
  {
    if FileHasRecords(s) then
      var rs := ElectronMain.LoadRecords(s.file.value);
      Step(Success(rs), s.(local := Saved(rs)))
    else
      Step(ReadLocal(s.local), s)
  }

  /** Reading twice reads the same list (or throws the same error) and leaves
      the store as the first read left it. */
  lemma GetRecordsStable(s: Store)
    ensures GetRecords(GetRecords(s).store) == GetRecords(s)
  {
  }

  /** Records held only in the local copy are dropped as soon as the file
      holds a non-empty list: the read neither returns them nor keeps them. */
  lemma LocalOnlyRecordsDropped(s: Store, x: Record)
    requires FileHasRecords(s)
    requires s.local.Saved? && x in s.local.records
    requires x !in ElectronMain.LoadRecords(s.file.value)
    ensures x !in GetRecords(s).result.value
    ensures x !in GetRecords(s).store.local.records
  {
  }

  /** `saveRecord(soundings, results, customDate)` when the date is usable:
      the record it builds. `customDate` is `""` when absent. */
  function NewRecord(clock: Clock, instant: int, soundings: Results, results: Results): (rec: Record)
    ensures rec.id == clock.now && rec.timestamp == instant
    ensures rec.date == clock.calendarDate(instant) && rec.time == clock.clockTime(clock.now)
    ensures rec.soundings == soundings && rec.results == results
    ensures rec.totalVolume == Sum(results, EntryVolume)
  {
    Record(
      id := clock.now,
      timestamp := instant,
      date := clock.calendarDate(instant),
      time := clock.clockTime(clock.now),
      soundings := soundings,
      results := results,
      totalVolume := ResultsTotal(results))
  }

  /** The instant a record is dated: the custom date when one is given,
      otherwise now; None when `new Date(customDate)` is invalid. */
  function RecordInstant(clock: Clock, customDate: string): (t: Option<int>)
    ensures customDate == "" ==> t == Some(clock.now)
    ensures customDate != "" ==> t == clock.parseDate(customDate)
  {
    if customDate == "" then Some(clock.now) else clock.parseDate(customDate)
  }

  /** `saveRecord(soundings, results, customDate)`: builds the record,
      appends it to the local list and, in the desktop shell, to the file. */
  function SaveRecord(s: Store, clock: Clock, soundings: Results, results: Results,
                      customDate: string, writeOk: bool): (st: Step<Record>)
    ensures RecordInstant(clock, customDate).None? ==> st == Step(Failure(InvalidDate), s)
    ensures RecordInstant(clock, customDate).Some? && s.local.Unreadable? ==>
      st == Step(Failure(CorruptLocalData), s)
    ensures st.result.Success? <==>
      RecordInstant(clock, customDate).Some? && !s.local.Unreadable?
    ensures st.result.Success? ==>
      var rec := st.result.value;
      && rec.id == clock.now
      && rec.timestamp == RecordInstant(clock, customDate).value
      && rec.date == clock.calendarDate(rec.timestamp)
      && rec.time == clock.clockTime(clock.now)
      && rec.soundings == soundings
      && rec.results == results
      && rec.totalVolume == Sum(results, EntryVolume)
      && st.store.local == Saved(ReadLocal(s.local).value + [rec])
      && (s.file.None? ==> st.store.file.None?)
      && (s.file.Some? && writeOk ==>
            st.store.file.Some? &&
            ElectronMain.LoadRecords(st.store.file.value)
              == ElectronMain.LoadRecords(s.file.value) + [rec])
      && (!writeOk ==> st.store.file == s.file)
  {
    match RecordInstant(clock, customDate)
    case None => Step(Failure(InvalidDate), s)
    case Some(instant) =>
      var rec := NewRecord(clock, instant, soundings, results);
      match ReadLocal(s.local)
      case Failure(e) => Step(Failure(e), s)
      case Success(records) =>
        var file' := if s.file.Some?
          then Some(ElectronMain.SaveRecord(s.file.value, rec, writeOk).file)
          else None;
        Step(Success(rec), Store(Saved(records + [rec]), file'))
  }

  /** `getRecordsByDate(date)`: the records of one day, in stored order. */
  function GetRecordsByDate(s: Store, d: CalDate): (st: Step<seq<Record>>)
    ensures st.store == GetRecords(s).store
    ensures st.result.Success? <==> GetRecords(s).result.Success?
    ensures st.result.Success? ==>
      var all := GetRecords(s).result.value;
      && |st.result.value| <= |all|
      && (forall x :: x in st.result.value <==> x in all && x.date == d)
      && (forall x: Record :: x.date == d ==> multiset(st.result.value)[x] == multiset(all)[x])
      && st.result.value == Filter(all, OnDate(d))
  {
    var got := GetRecords(s);
    match got.result
    case Failure(e) => Step(Failure(e), got.store)
    case Success(all) =>
      FilterCounts(all, OnDate(d));
      Step(Success(Filter(all, OnDate(d))), got.store)
  }

  /** The days are listed newest first, each strictly later than the next. */
  predicate NewestFirst(ds: seq<CalDate>)
  {
    forall i, j :: 0 <= i < j < |ds| ==> Later(ds[i], ds[j])
  }

  /** Puts a day into a newest-first list. */
  function InsertNewest(d: CalDate, ds: seq<CalDate>): (r: seq<CalDate>)
    ensures |r| == |ds| + 1
    ensures forall x :: x in r <==> x == d || x in ds
    ensures NewestFirst(ds) && d !in ds ==> NewestFirst(r)
  {
    if |ds| == 0 then [d]
    else if Later(ds[0], d) then
      var rest := InsertNewest(d, ds[1..]);
      assert NewestFirst(ds) && d !in ds ==> NewestFirst([ds[0]] + rest) by {
        if NewestFirst(ds) && d !in ds {
          assert NewestFirst(ds[1..]);
          forall k | 0 <= k < |rest|
            ensures Later(ds[0], rest[k])
          {
            assert rest[k] in rest;
            if rest[k] != d {
              var m :| 0 <= m < |ds| - 1 && ds[1..][m] == rest[k];
              assert ds[m + 1] == rest[k];
            }
          }
        }
      }
      [ds[0]] + rest
    else
      assert NewestFirst(ds) && d !in ds ==> Later(d, ds[0]) by {
        if d != ds[0] { LaterTotal(d, ds[0]); }
      }
      [d] + ds
  }

  /** The `.sort((a, b) => dateB - dateA)` of distinct days. */
  function SortNewestFirst(ds: seq<CalDate>): (r: seq<CalDate>)
    requires forall i, j :: 0 <= i < j < |ds| ==> ds[i] != ds[j]
    ensures |r| == |ds|
    ensures forall x :: x in r <==> x in ds
    ensures NewestFirst(r)
  {
    if |ds| == 0 then []
    else InsertNewest(ds[0], SortNewestFirst(ds[1..]))
  }

  /** The distinct dates of a list of records, newest first. */
  function UniqueDates(records: seq<Record>): (r: seq<CalDate>)
    ensures forall d :: d in r <==> exists i :: 0 <= i < |records| && records[i].date == d
    ensures NewestFirst(r)
    ensures |r| <= |records|
  {
    var ds := Dates(records);
    forall d | d in ds
      ensures exists i :: 0 <= i < |records| && records[i].date == d
    {
      var i :| 0 <= i < |ds| && ds[i] == d;
    }
    SortNewestFirst(Dedup(ds))
  }

  /** The head of a newest-first list is later than every other day in it. */
  lemma HeadIsLatest(a: seq<CalDate>, x: CalDate)
    requires NewestFirst(a)
    requires x in a && x != a[0]
    ensures Later(a[0], x)
  {
  }

  /** Newest-first order leaves no choice: two newest-first lists of the same
      days are the same list. */
  lemma {:induction false} NewestFirstUnique(a: seq<CalDate>, b: seq<CalDate>)
    requires NewestFirst(a) && NewestFirst(b)
    requires forall x :: x in a <==> x in b
    ensures a == b
  {
    if |a| > 0 { assert a[0] in b; }
    if |b| > 0 { assert b[0] in a; }
    if |a| > 0 {
      if a[0] != b[0] {
        HeadIsLatest(a, b[0]);
        HeadIsLatest(b, a[0]);
        assert false;
      }
      forall x | x in a[1..]
        ensures x in b[1..]
      {
        var k :| 1 <= k < |a| && a[k] == x;
        assert x in b;
      }
      forall x | x in b[1..]
        ensures x in a[1..]
      {
        var k :| 1 <= k < |b| && b[k] == x;
        assert x in a;
      }
      NewestFirstUnique(a[1..], b[1..]);
      assert a == [a[0]] + a[1..];
      assert b == [b[0]] + b[1..];
    }
  }

  /** `getUniqueDates()`. */
  function GetUniqueDates(s: Store): (st: Step<seq<CalDate>>)
    ensures st.store == GetRecords(s).store
    ensures st.result.Success? <==> GetRecords(s).result.Success?
    ensures st.result.Success? ==>
      var all := GetRecords(s).result.value;
      && NewestFirst(st.result.value)
      && (forall d :: d in st.result.value <==> exists i :: 0 <= i < |all| && all[i].date == d)
  {
    var got := GetRecords(s);
    match got.result
    case Failure(e) => Step(Failure(e), got.store)
    case Success(all) => Step(Success(UniqueDates(all)), got.store)
  }

  /** `deleteRecord(id)`: every record with that id goes, the rest stay in
      order, and the same list is written to both copies. Nothing is
      returned, found or not. */
  function DeleteRecord(s: Store, id: int, writeOk: bool): (st: Step<()>)
    ensures st.result.Failure? <==> GetRecords(s).result.Failure?
    ensures st.result.Failure? ==> st.store == s
    ensures st.result.Success? ==>
      var all := GetRecords(s).result.value;
      && st.store.local.Saved?
      && var kept := st.store.local.records;
      && (forall x :: x in kept <==> x in all && x.id != id)
      && (forall x: Record :: x.id != id ==> multiset(kept)[x] == multiset(all)[x])
      && kept == Filter(all, IdIsNot(id))
      && (s.file.None? ==> st.store.file.None?)
      && (s.file.Some? && writeOk ==>
            st.store.file.Some? && ElectronMain.LoadRecords(st.store.file.value) == kept)
      && (!writeOk ==> st.store.file == s.file)
  {
    var got := GetRecords(s);
    match got.result
    case Failure(e) => Step(Failure(e), got.store)
    case Success(all) =>
      var kept := Filter(all, IdIsNot(id));
      FilterCounts(all, IdIsNot(id));
      var file' := if s.file.Some?
        then Some(ElectronMain.SaveAllRecords(s.file.value, kept, writeOk).file)
        else None;
      Step(Success(()), Store(Saved(kept), file'))
  }

  /** The number formatting `toFixed(digits)` and the `en-GB` date text,
      both opaque. */
  datatype Locale = Locale(toFixed: (real, nat) -> string, dateText: CalDate -> string)

  /** The fixed header row. */
  const CsvHeader: seq<string> := [
    "Date", "Time",
    "Tank 1 Port (cm)", "Tank 1 Starboard (cm)",
    "Tank 2 Port (cm)", "Tank 2 Starboard (cm)",
    "Tank 3 Port (cm)", "Tank 3 Center (cm)", "Tank 3 Starboard (cm)",
    "Total Volume (tonnes)"]

  /** The tank of each sounding column, in column order. */
  const CsvTanks: seq<string> := [
    "TANK_1_PORT", "TANK_1_STARBOARD",
    "TANK_2_PORT", "TANK_2_STARBOARD",
    "TANK_3_PORT", "TANK_3_CENTER", "TANK_3_STARBOARD"]

  /** `tanks.X?.sounding.toFixed(1) || '-'`: the formatted sounding, or `-`
      when the record has no reading for the tank; never an empty cell. */
  function TankCell(r: Record, tank: string, loc: Locale): (cell: string)
    ensures cell != ""
    ensures Lookup(r.results, tank).None? ==> cell == "-"
    ensures Lookup(r.results, tank).Some? ==>
      var text := loc.toFixed(Lookup(r.results, tank).value.sounding, 1);
      cell == if text == "" then "-" else text
  {
    match Lookup(r.results, tank)
    case None => "-"
    case Some(t) =>
      var text := loc.toFixed(t.sounding, 1);
      if text == "" then "-" else text
  }

  /** The sounding cells of a record, one per column tank. */
  function TankCells(r: Record, tanks: seq<string>, loc: Locale): (cells: seq<string>)
    ensures |cells| == |tanks|
    ensures forall j :: 0 <= j < |tanks| ==> cells[j] == TankCell(r, tanks[j], loc)
  {
    if |tanks| == 0 then [] else [TankCell(r, tanks[0], loc)] + TankCells(r, tanks[1..], loc)
  }

  /** The ten fields of a record's row. */
  function RowFields(r: Record, loc: Locale): seq<string>
  {
    [loc.dateText(r.date), r.time] + TankCells(r, CsvTanks, loc) + [loc.toFixed(r.totalVolume, 3)]
  }

  /** The text line of each record, in stored order. */
  function RowLines(records: seq<Record>, loc: Locale): (lines: seq<string>)
    ensures |lines| == |records|
    ensures forall i :: 0 <= i < |records| ==> lines[i] == Join(RowFields(records[i], loc), ',')
  {
    if |records| == 0 then []
    else [Join(RowFields(records[0], loc), ',')] + RowLines(records[1..], loc)
  }

  /** The whole export text: header line, then one line per record. */
  function CsvText(records: seq<Record>, loc: Locale): string
  {
    Join([Join(CsvHeader, ',')] + RowLines(records, loc), '\n')
  }

  /** `exportToCSV()`: null for an empty list, the text otherwise. */
  function ExportToCsv(s: Store, loc: Locale): (st: Step<Option<string>>)
    ensures st.store == GetRecords(s).store
    ensures st.result.Success? <==> GetRecords(s).result.Success?
    ensures st.result.Success? ==>
      var all := GetRecords(s).result.value;
      (st.result.value.None? <==> |all| == 0)
      && (|all| > 0 ==> st.result.value == Some(CsvText(all, loc)))
  {
    var got := GetRecords(s);
    match got.result
    case Failure(e) => Step(Failure(e), got.store)
    case Success(all) =>
      if |all| == 0 then Step(Success(None), got.store)
      else Step(Success(Some(CsvText(all, loc))), got.store)
  }

  /** No formatted number contains a comma or a line break. */
  ghost predicate PlainNumbers(loc: Locale)
  {
    forall x, n :: ',' !in loc.toFixed(x, n) && '\n' !in loc.toFixed(x, n)
  }

  /** The date and time text of a record contain no comma or line break. */
  predicate PlainText(r: Record, loc: Locale)
  {
    && ',' !in loc.dateText(r.date) && '\n' !in loc.dateText(r.date)
    && ',' !in r.time && '\n' !in r.time
  }

  /** A row has the ten columns of the header: date, time, the seven tanks
      in column order with `-` for a tank the record lacks, and the total. */
  lemma RowShape(r: Record, loc: Locale)
    ensures |RowFields(r, loc)| == |CsvHeader| == 10
    ensures RowFields(r, loc)[0] == loc.dateText(r.date)
    ensures RowFields(r, loc)[1] == r.time
    ensures RowFields(r, loc)[9] == loc.toFixed(r.totalVolume, 3)
    ensures forall j :: 0 <= j < 7 ==>
      (Lookup(r.results, CsvTanks[j]).None? ==> RowFields(r, loc)[j + 2] == "-")
    ensures forall j :: (0 <= j < 7 && Lookup(r.results, CsvTanks[j]).Some?
        && loc.toFixed(Lookup(r.results, CsvTanks[j]).value.sounding, 1) != "") ==>
        RowFields(r, loc)[j + 2] == loc.toFixed(Lookup(r.results, CsvTanks[j]).value.sounding, 1)
  {
  }

  /** No cell of a row contains a comma or a line break. */
  lemma RowFieldsPlain(r: Record, loc: Locale)
    requires PlainNumbers(loc) && PlainText(r, loc)
    ensures forall k :: 0 <= k < |RowFields(r, loc)| ==>
      ',' !in RowFields(r, loc)[k] && '\n' !in RowFields(r, loc)[k]
  {
  }

  /** A joined list of plain fields has no line break. */
  lemma {:induction false} JoinNoBreak(fields: seq<string>)
    requires forall k :: 0 <= k < |fields| ==> '\n' !in fields[k]
    ensures '\n' !in Join(fields, ',')
  {
    if |fields| > 1 {
      JoinNoBreak(fields[1..]);
    }
  }

  /** The header's own text holds no comma and no line break. */
  lemma HeaderPlain()
    ensures forall k :: 0 <= k < |CsvHeader| ==> ',' !in CsvHeader[k] && '\n' !in CsvHeader[k]
  {
    forall k | 0 <= k < |CsvHeader|
      ensures ',' !in CsvHeader[k] && '\n' !in CsvHeader[k]
    {
      var h := CsvHeader[k];
      assert forall c :: 0 <= c < |h| ==> h[c] != ',' && h[c] != '\n';
    }
  }

  /** A row of plain fields is one line that splits back into its ten
      fields. */
  lemma RowReadsBack(r: Record, loc: Locale)
    requires PlainNumbers(loc) && PlainText(r, loc)
    ensures '\n' !in Join(RowFields(r, loc), ',')
    ensures Split(Join(RowFields(r, loc), ','), ',') == RowFields(r, loc)
    ensures |RowFields(r, loc)| == 10
  {
    RowFieldsPlain(r, loc);
    RowShape(r, loc);
    JoinNoBreak(RowFields(r, loc));
    SplitJoin(RowFields(r, loc), ',');
  }

  /** Reading the export back: splitting at line breaks gives the header and
      one line per record in stored order, and splitting each line at commas
      gives back its fields, ten per line. */
  lemma CsvReadsBack(records: seq<Record>, loc: Locale)
    requires PlainNumbers(loc)
    requires forall i :: 0 <= i < |records| ==> PlainText(records[i], loc)
    ensures var lines := Split(CsvText(records, loc), '\n');
      && |lines| == |records| + 1
      && Split(lines[0], ',') == CsvHeader
      && forall i :: 0 <= i < |records| ==>
           Split(lines[i + 1], ',') == RowFields(records[i], loc)
           && |Split(lines[i + 1], ',')| == 10
  {
    var rows := RowLines(records, loc);
    var header := Join(CsvHeader, ',');
    HeaderPlain();
    JoinNoBreak(CsvHeader);
    SplitJoin(CsvHeader, ',');
    forall i | 0 <= i < |records|
      ensures '\n' !in rows[i]
      ensures Split(rows[i], ',') == RowFields(records[i], loc)
      ensures |RowFields(records[i], loc)| == 10
    {
      RowReadsBack(records[i], loc);
    }
    LinesReadBack(header, rows);
  }

  /** A first line followed by further lines, none with a line break, splits
      back into exactly those lines. */
  lemma LinesReadBack(first: string, rows: seq<string>)
    requires '\n' !in first
    requires forall i :: 0 <= i < |rows| ==> '\n' !in rows[i]
    ensures Split(Join([first] + rows, '\n'), '\n') == [first] + rows
  {
    var lines := [first] + rows;
    assert forall k :: 0 < k < |lines| ==> lines[k] == rows[k - 1];
    SplitJoin(lines, '\n');
  }

  /** Both copies hold the same readable list (trivially so in the browser,
      where there is no file). */
  predicate InSync(s: Store)
  {
    s.file.Some? ==>
      && !s.local.Unreadable?
      && !s.file.value.Corrupt?
      && ElectronMain.LoadRecords(s.file.value) == ReadLocal(s.local).value
  }

  /** In sync, a read returns the shared list. */
  lemma ReadInSync(s: Store)
    requires InSync(s) && !s.local.Unreadable?
    ensures GetRecords(s).result == ReadLocal(s.local)
    ensures InSync(GetRecords(s).store)
  {
  }

  /** A save whose file write succeeds keeps the copies in sync, and the
      next read returns the previous list with the new record at the end. */
  lemma SaveKeepsSync(s: Store, clock: Clock, soundings: Results, results: Results, customDate: string)
    requires InSync(s)
    requires SaveRecord(s, clock, soundings, results, customDate, true).result.Success?
    ensures var st := SaveRecord(s, clock, soundings, results, customDate, true);
      && InSync(st.store)
      && GetRecords(st.store).result
           == Success(GetRecords(s).result.value + [st.result.value])
  {
  }

  /** A delete whose file write succeeds keeps the copies in sync, and the
      next read returns the previous list without the deleted id. */
  lemma DeleteKeepsSync(s: Store, id: int)
    requires InSync(s)
    requires DeleteRecord(s, id, true).result.Success?
    ensures var st := DeleteRecord(s, id, true);
      && InSync(st.store)
      && GetRecords(st.store).result == Success(Filter(GetRecords(s).result.value, IdIsNot(id)))
  {
  }

  /** When both copies held the same readable list before, a save whose file
      write succeeds adds the new record at the end of its day's list and
      leaves every other day's list as it was. Without that agreement the
      file's list replaces the local one at the next read, and the day can
      lose records the local copy held. */
  lemma SaveThenByDate(s: Store, clock: Clock, soundings: Results, results: Results,
                       customDate: string, e: CalDate)
    requires InSync(s)
    requires SaveRecord(s, clock, soundings, results, customDate, true).result.Success?
    ensures var st := SaveRecord(s, clock, soundings, results, customDate, true);
      var rec := st.result.value;
      && GetRecordsByDate(st.store, e).result.Success?
      && GetRecordsByDate(s, e).result.Success?
      && GetRecordsByDate(st.store, e).result.value
           == GetRecordsByDate(s, e).result.value + (if rec.date == e then [rec] else [])
  {
    var st := SaveRecord(s, clock, soundings, results, customDate, true);
    var rec := st.result.value;
    SaveKeepsSync(s, clock, soundings, results, customDate);
    var all := GetRecords(s).result.value;
    assert GetRecords(st.store).result.value == all + [rec];
    assert GetRecordsByDate(st.store, e).result.value == Filter(all + [rec], OnDate(e));
    assert GetRecordsByDate(s, e).result.value == Filter(all, OnDate(e));
    FilterAppend(all, [rec], OnDate(e));
    FilterCons(rec, [], OnDate(e));
    assert [rec] + [] == [rec];
  }

  /** Deleting an id no record carries writes the list back as it was to
      the local copy, whatever the file write's outcome. */
  lemma DeleteAbsentId(s: Store, id: int, writeOk: bool)
    requires GetRecords(s).result.Success?
    requires forall i :: 0 <= i < |GetRecords(s).result.value| ==> GetRecords(s).result.value[i].id != id
    ensures DeleteRecord(s, id, writeOk).store.local == Saved(GetRecords(s).result.value)
  {
    FilterKeepsAll(GetRecords(s).result.value, IdIsNot(id));
  }

  /** Deleting the same id twice is the same as deleting it once, when both
      file writes have the same outcome. (A failed first write followed by a
      successful second one does change the file.) */
  lemma DeleteTwice(s: Store, id: int, writeOk: bool)
    requires DeleteRecord(s, id, writeOk).result.Success?
    ensures var once := DeleteRecord(s, id, writeOk).store;
      DeleteRecord(once, id, writeOk).store == once
  {
    FilterIdempotent(GetRecords(s).result.value, IdIsNot(id));
  }

  /** A save whose file write fails while the file already holds records is
      lost at the next read: the file list wins and replaces the local copy,
      which held the new record. */
  lemma FailedFileWriteLosesRecord(s: Store, clock: Clock, soundings: Results, results: Results, customDate: string)
    requires FileHasRecords(s)
    requires SaveRecord(s, clock, soundings, results, customDate, false).result.Success?
    requires var rec := SaveRecord(s, clock, soundings, results, customDate, false).result.value;
      rec !in ElectronMain.LoadRecords(s.file.value)
    ensures var st := SaveRecord(s, clock, soundings, results, customDate, false);
      && st.result.value in st.store.local.records
      && st.result.value !in GetRecords(st.store).result.value
      && st.result.value !in GetRecords(st.store).store.local.records
  {
  }
}
