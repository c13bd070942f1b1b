# Vessel sounding records — a Dafny model

This project models the record-keeping core of a small desktop and browser
application for a vessel's tank soundings. An engineer types a sounding (in
centimetres) for each of seven tanks. The form turns every usable sounding
into a volume with the vessel's calibration tables. The result is saved as a
dated record, and the record store keeps two copies of the list: the
browser's `localStorage` and, under the desktop shell, a JSON file written by
the main process. The history page lists the records by day. The export
writes them as CSV. The analytics page summarises the records of the last N
days per tank and in aggregate.

Modules, following the program's files:

- `Wrappers`, `Sequences`, `Sorting`: `Option`/`Result`, and the list
  operations the program borrows from JavaScript (`filter`, `reverse`,
  `join`, `split`, `reduce`, and the stable `sort` by a numeric key).
- `Records`: a record, its results, calendar days, the calibration tables
  and the clock. A JavaScript object is an ordered list of entries.
- `ElectronMain`: the records file of the main process (`loadRecords`,
  `saveAllRecords`, `saveRecord`).
- `StorageManager`: the two-copy store (`saveRecord`, `getRecords`,
  `getRecordsByDate`, `getUniqueDates`, `deleteRecord`, `exportToCSV`). An
  operation returns its result and the store it leaves behind. A `JSON.parse`
  failure of the local copy and an invalid custom date are modelled as
  errors, because the source lets those exceptions escape.
- `Analytics`: `calculateWeeklyUsage`.
- `TankSoundingForm`: `handleChange`, `handleSubmit` and `handleReset`.
- `History`: the history page's `loadRecords`.

The environment is passed in as parameters:

- a `Clock` for `Date.now()`, the local calendar day, the clock time, date
  parsing and the ISO day;
- a `Calibration` for the tank tables, whose contents are not part of this
  model;
- a `Locale` for `toFixed` and date text;
- a `parse` function for `parseFloat`;
- whether a file write succeeds.

The analytics guard `uniqueDays === 0` can never fire once the period holds
a record. It is kept in `Summarize`, and `SummaryOf` proves
`1 <= uniqueDays`.

## Model

| member | source | states |
|---|---|---|
| Records.Dedup | src/utils/storageManager.js:73 | `[...new Set(dates)]` keeps every date exactly once: same members as the input, no repeats, no longer than the input |
| Records.Lookup | src/components/Analytics.jsx:69 | `results[tank]` is absent exactly when no entry has that key, and a found reading belongs to an entry with that key |
| Records.LookupEntry | src/components/Analytics.jsx:76-77 | with distinct keys, looking up an entry's key yields that entry's reading |
| ElectronMain.LoadRecords | electron/main.js:29-39 | the file's parsed list, or an empty list when the file is missing or unparsable |
| ElectronMain.SaveAllRecords | electron/main.js:43-53 | the answer is the write's success; on success the file reads back exactly the list written, on failure the file is untouched |
| ElectronMain.SaveRecord | electron/main.js:56-60 | on success the file reads back as its previous list with the record appended; on failure it is untouched |
| ElectronMain.SaveAllThenLoad | electron/main.js:30-53 | writing a list and loading it gives the same list |
| ElectronMain.LoadThenSaveAll | electron/main.js:30-53 | writing back what was loaded leaves a readable file unchanged and turns a missing or corrupt file into an empty list |
| ElectronMain.SaveRecordOverCorruptFile | electron/main.js:30-60 | saving into a corrupt file discards its content: only the new record remains |
| StorageManager.ReadLocal | src/utils/storageManager.js:41-44 | reading the local copy fails only for unparsable data, gives `[]` without a key, and the stored list otherwise |
| StorageManager.GetRecords | src/utils/storageManager.js:46-63 | a non-empty file list is returned and copied to the local copy; otherwise the local copy is read and nothing changes |
| StorageManager.GetRecordsStable | src/utils/storageManager.js:46-63 | a second read returns the same list, or fails with the same error, and leaves the store as the first read left it |
| StorageManager.LocalOnlyRecordsDropped | src/utils/storageManager.js:48-55 | a record held only in the local copy disappears from the result and from the local copy once the file has records |
| StorageManager.RecordInstant | src/utils/storageManager.js:12 | a record is dated now when no custom date is given, and at the parsed custom date otherwise |
| StorageManager.NewRecord | src/utils/storageManager.js:14-22 | the record carries now as its id, the chosen instant, that instant's day, the current clock time, the soundings and results given, and the sum of the result volumes |
| StorageManager.SaveRecord | src/utils/storageManager.js:11-39 | invalid dates and unreadable local data fail without a change; otherwise the record's fields (id, instant, day, time, total) and the append to the local copy and, when the write succeeds, to the file |
| StorageManager.GetRecordsByDate | src/utils/storageManager.js:65-68 | the day's records are the stored list filtered to that day, in stored order, every copy kept |
| StorageManager.SaveThenByDate | src/utils/storageManager.js:11-68 | when both copies held the same readable list before, a save whose file write succeeds adds the new record at the end of its day's list and leaves every other day unchanged |
| StorageManager.InsertNewest | src/utils/storageManager.js:73-77 | inserting a new day into a newest-first list keeps it newest first with one more member |
| StorageManager.SortNewestFirst | src/utils/storageManager.js:73-77 | distinct days sorted by `dateB - dateA`: same members, each strictly later than the next |
| StorageManager.UniqueDates | src/utils/storageManager.js:70-78 | a day is listed exactly when some record has it, newest first, so without repetition |
| StorageManager.NewestFirstUnique | src/utils/storageManager.js:73-77 | two newest-first lists of the same days are equal, so the listing does not depend on the stored order |
| StorageManager.GetUniqueDates | src/utils/storageManager.js:70-78 | the same read as `getRecords`, then the distinct days newest first |
| StorageManager.DeleteRecord | src/utils/storageManager.js:80-95 | the kept list is the stored list filtered to the records with another id, in stored order, every copy kept; it goes to the local copy and, when the write succeeds, to the file |
| StorageManager.TankCell | src/utils/storageManager.js:122-128 | a tank's cell is its sounding's `toFixed(1)`, or `-` when the record lacks the tank or the text is empty, so never empty |
| StorageManager.TankCells | src/utils/storageManager.js:122-128 | one cell per sounding column, each the tank's `toFixed(1)` or `-` |
| StorageManager.RowLines | src/utils/storageManager.js:117-136 | one CSV line per record, in stored order |
| StorageManager.RowShape | src/utils/storageManager.js:103-130 | a row has the header's ten columns: date, time, the seven tanks in column order with `-` for a missing tank, then the total to three places |
| StorageManager.ExportToCsv | src/utils/storageManager.js:97-140 | null exactly for an empty list, otherwise the header line followed by one line per record |
| StorageManager.RowReadsBack | src/utils/storageManager.js:117-136 | a row of plain fields is one line that splits back into its ten fields |
| StorageManager.CsvReadsBack | src/utils/storageManager.js:97-140 | when no field holds a comma or line break, splitting the export at line breaks and commas gives back the header and every record's ten fields in stored order |
| StorageManager.ReadInSync | src/utils/storageManager.js:46-63 | when both copies agree, a read returns the shared list and they still agree |
| StorageManager.SaveKeepsSync | src/utils/storageManager.js:11-39 | a save whose file write succeeds keeps the copies equal, and the next read returns the old list plus the new record |
| StorageManager.DeleteKeepsSync | src/utils/storageManager.js:80-95 | a delete whose file write succeeds keeps the copies equal, and the next read returns the old list without that id |
| StorageManager.DeleteAbsentId | src/utils/storageManager.js:80-95 | deleting an id no record carries writes the read list back unchanged to the local copy, whatever the file write's outcome |
| StorageManager.DeleteTwice | src/utils/storageManager.js:80-95 | deleting the same id twice leaves the store as deleting it once when both file writes have the same outcome, whether or not the two copies agreed before |
| StorageManager.FailedFileWriteLosesRecord | src/utils/storageManager.js:29-55 | when the file write of a save fails and the file holds records, the next read loses the new record |
| Sorting.InsertPermutes | src/components/Analytics.jsx:23-25 | inserting adds exactly one copy of the element |
| Sorting.InsertAscending | src/components/Analytics.jsx:23-25 | inserting into an ascending list keeps it ascending |
| Sorting.SortPermutes | src/components/Analytics.jsx:23-25 | the sorted list is a permutation of the input |
| Sorting.SortAscending | src/components/Analytics.jsx:23-25 | the sorted list's keys never decrease |
| Sorting.AscendingEnds | src/components/Analytics.jsx:42-43 | in an ascending list the first key is the least and the last key the greatest |
| Sorting.InsertKeyIs | src/components/Analytics.jsx:23-25 | an inserted element goes in front of every already-placed element with its key, and their order is kept |
| Sorting.SortStable | src/components/Analytics.jsx:23-25 | elements with equal timestamps keep their stored order, as ECMAScript 2019 and later require of `Array.prototype.sort` |
| Sorting.InsertKeyAtLeast | src/components/Analytics.jsx:23-34 | keeping the elements with a key at least the cutoff commutes with one insertion |
| Sorting.SortThenFilter | src/components/Analytics.jsx:23-34 | sorting and then keeping the period's records equals keeping them and then sorting |
| Sorting.SumInsert | src/components/Analytics.jsx:67-70 | a sum over an insertion adds the inserted element's value |
| Sorting.SumSorted | src/components/Analytics.jsx:67-70 | sorting does not change any sum over the records |
| Analytics.SortByTimestamp | src/components/Analytics.jsx:23-25 | a permutation of the records with non-decreasing timestamps |
| Analytics.PeriodRecords | src/components/Analytics.jsx:23-34 | the period records are the sorted records stamped at or after the cutoff, in ascending order, a permutation of them |
| Analytics.Cutoff | src/components/Analytics.jsx:27-30 | the cutoff lies exactly N days of milliseconds before now, and not after now for a non-negative N |
| Analytics.DaysDiff | src/components/Analytics.jsx:81-82 | the elapsed days between first and last record, never less than one |
| Analytics.UsageOf | src/components/Analytics.jsx:65-93 | a tank's average is its summed volume over the record count, its usage first minus last volume, its daily rate usage over the elapsed days, plus name and capacity from the tables |
| Analytics.GroupCount | src/components/Analytics.jsx:45-55 | grouping the records by date yields as many groups as distinct dates |
| Analytics.SummaryOf | src/components/Analytics.jsx:41-124 | the summary's count, date range, distinct days (between 1 and the count), one entry per table key, the average total and the total daily rate |
| Analytics.SameDays | src/components/Analytics.jsx:45-55 | permuting the records does not change the number of distinct days |
| Analytics.SummaryOrderFree | src/components/Analytics.jsx:62-103 | count, distinct days and averages of the sorted period equal those of the period in stored order |
| Analytics.Summarize | src/components/Analytics.jsx:14-124 | no summary exactly when no record lies at or after the cutoff, an empty list included; otherwise the summary of the sorted period |
| Analytics.SummarizeCounts | src/components/Analytics.jsx:14-124 | the summary counts and averages exactly the records at or after the cutoff, whatever their stored order |
| Analytics.PeriodEnds | src/components/Analytics.jsx:32-43 | the first and last period records belong to the period and carry its earliest and latest timestamps |
| Analytics.FirstIsEarliestStored | src/components/Analytics.jsx:23-43 | among period records sharing the earliest timestamp, the first stored is the one taken as first |
| Analytics.SingleRecordNoUsage | src/components/Analytics.jsx:41-111 | with one record in the period, the elapsed time is one day and every usage and rate is zero |
| Analytics.RateBounds | src/components/Analytics.jsx:82-83 | dividing by at least one day moves a value towards zero without changing its sign |
| Analytics.DailyRateBounded | src/components/Analytics.jsx:78-111 | every daily rate, per tank and total, lies between zero and the total usage |
| Analytics.CalculateWeeklyUsage | src/components/Analytics.jsx:14-21 | reads the store as `getRecords` does and summarises the list it returns |
| TankSoundingForm.WellFormedDistinct | src/components/TankSoundingForm.jsx:6-14 | the seven declared inputs belong to seven different tanks |
| TankSoundingForm.BlankFields | src/components/TankSoundingForm.jsx:51-59 | one empty input per listed tank, in order |
| TankSoundingForm.HandleReset | src/components/TankSoundingForm.jsx:50-65 | after a reset the form has the seven inputs, all empty, and today's ISO day |
| TankSoundingForm.Replace | src/components/TankSoundingForm.jsx:21-27 | the named input takes the new text in place and every other input is unchanged |
| TankSoundingForm.SetField | src/components/TankSoundingForm.jsx:21-27 | an existing key keeps its position and takes the text; an unknown key is appended |
| TankSoundingForm.HandleChange | src/components/TankSoundingForm.jsx:21-27 | typing into one of the seven inputs keeps the form well formed and changes only that input's text |
| TankSoundingForm.ReadingOfAccepts | src/components/TankSoundingForm.jsx:35-43 | an input contributes a reading exactly when its text parses to a number that is not negative, and then that sounding, its calibrated volume and the tank's description |
| TankSoundingForm.Accepted | src/components/TankSoundingForm.jsx:33-45 | every entry of `results` comes from an input whose text parses to that non-negative sounding |
| TankSoundingForm.SubmitIgnoresOthers | src/components/TankSoundingForm.jsx:33-45 | a tank without an input never appears in `results` |
| TankSoundingForm.SubmitLookup | src/components/TankSoundingForm.jsx:33-45 | with one input per tank, `results[tank]` exists exactly when its text is a non-negative number, and then holds that sounding, its volume and the tank's description |
| TankSoundingForm.SubmitDistinct | src/components/TankSoundingForm.jsx:33-45 | with one input per tank no key of `results` repeats |
| TankSoundingForm.SubmitWellFormed | src/components/TankSoundingForm.jsx:29-48 | on the seven-input form each tank's entry is what its input contributes, and no key repeats |
| TankSoundingForm.CollectReadings | src/components/TankSoundingForm.jsx:33-45 | walking the inputs in key order and keeping each accepted reading yields exactly the reference `results` |
| TankSoundingForm.HandleSubmit | src/components/TankSoundingForm.jsx:29-48 | the loop over the inputs produces the accepted readings in key order and passes on the chosen day |
| TankSoundingForm.ResetThenSubmitEmpty | src/components/TankSoundingForm.jsx:29-65 | submitting right after a reset yields no results, because empty text is NaN |
| History.SelectedMembers | src/components/History.jsx:20-24 | the selected records are exactly the stored records matching the day, no more than all of them |
| History.LoadRecords | src/components/History.jsx:14-25 | the page shows every stored record in reverse stored order for `'all'`, and the day's records filtered in stored order and then reversed for one day; it offers exactly the stored days newest first |
| History.OfferedDayNotEmpty | src/components/History.jsx:14-25 | every day the selector offers shows at least one record |
| History.NewestOnTop | src/components/History.jsx:14-21 | after a save whose file write succeeds, the history lists the new record first, whatever the copies held before |

## Left out

- The calibration data (`getTankData`, `getSoundingVolume`, `TANK_INFO`) is not part of this model. It is a parameter about which nothing is assumed.
- `parseFloat`, `toFixed` and locale date and time formatting are opaque parameters. So is the `en-GB` day. Numbers are exact reals, so IEEE rounding, `Infinity` and `NaN` arithmetic are not modelled. `parseFloat` answering NaN is modelled as no number.
- Analytics.Summarize: the summary keeps `days` as a number, not the `toFixed(1)` text shown.
- Analytics.Cutoff: the cutoff is now minus N times 86 400 000 ms. The source's `setDate` steps back N local calendar days, which differs by an hour across a daylight-saving change.
- The source reads the clock several times in one call. The model reads it once per operation.
- A record's `timestamp` is kept as its millisecond instant rather than as ISO text. `toISOString` and `new Date` convert between them exactly at that precision.
- StorageManager.ReadLocal: local text that parses to something other than a record list, such as `null`, is not modelled. The source returns that value from the read, and the `push` in `saveRecord` and the `filter` of the callers then throw.
- StorageManager.GetRecords: `localStorage.setItem` is taken never to throw. If it threw inside the `try` of `getRecords`, for instance with the storage quota full, the read would fall back to the local copy instead of returning the file's list. In `saveRecord` and `deleteRecord` the exception would escape before the file write. Quota exhaustion is part of the environment and is not modelled.
- A records file holding JSON that is not an array is not modelled. The file is missing, unparsable, or a list of records.
- A failed file write leaves the file as it was. A partially written file is not modelled.
- Concurrency is not modelled: the asynchronous calls are taken to run one after another.
- `downloadCSV`, `saveCSV`, the window and preload code, and the other components are not modelled. Neither is the application's guard that saves only non-empty results.
- `handleReset` calls the parent's `onReset`, which belongs to the application shell and is not modelled. Neither is `preventDefault` in `handleSubmit`.
- The period selector's `parseInt(selectedPeriod)` is taken as an integer parameter, since the selector only offers whole numbers of days.
- The `isElectron()` check is modelled by whether the store has a file.
- `deleteRecord` returns nothing, whether or not the id was found, and the model does the same. It does not answer whether a record was deleted.
