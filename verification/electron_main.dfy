/** The file half of the record store, kept by the desktop shell's main
    process in `sounding_records.json`: `loadRecords`, `saveAllRecords` and
    `saveRecord` (electron/main.js). The file is an abstract state; whether a
    write succeeds is decided by the environment and given as a parameter. */
module ElectronMain {
  import opened Records

  /** What the records file holds: nothing yet, text `JSON.parse` rejects,
      or a JSON array of records. */
  datatype FileContent = NoFile | Corrupt | Json(records: seq<Record>)

  /** The outcome of a write: the flag returned to the caller and the file
      afterwards. */
  datatype FileWrite = FileWrite(ok: bool, file: FileContent)

  /** `loadRecords()`: the parsed list, or `[]` when the file is missing or
      unparsable. It never fails. */
  function LoadRecords(f: FileContent): (rs: seq<Record>)
    ensures f.Json? ==> rs == f.records
    ensures !f.Json? ==> rs == []
  {
    match f
    case Json(rs) => rs
    case _ => []
  }

  /** `saveAllRecords(records)`: replaces the file with exactly `records` and
      answers true, or answers false when the write fails. */
  function SaveAllRecords(f: FileContent, records: seq<Record>, writeOk: bool): (w: FileWrite)
    ensures w.ok == writeOk
    ensures w.ok ==> LoadRecords(w.file) == records
    ensures !w.ok ==> w.file == f
  {
    if writeOk then FileWrite(true, Json(records)) else FileWrite(false, f)
  }

  /** `saveRecord(record)`: load, append, save everything. */
  function SaveRecord(f: FileContent, record: Record, writeOk: bool): (w: FileWrite)
    ensures w.ok == writeOk
    ensures w.ok ==> LoadRecords(w.file) == LoadRecords(f) + [record]
    ensures !w.ok ==> w.file == f
  {
    SaveAllRecords(f, LoadRecords(f) + [record], writeOk)
  }

  /** Writing a list and reading it back gives the same list. */
  lemma SaveAllThenLoad(f: FileContent, records: seq<Record>)
    ensures LoadRecords(SaveAllRecords(f, records, true).file) == records
    ensures SaveAllRecords(f, records, true).file.Json?
  {
  }

  /** Writing back what was read changes nothing, as long as the file held a
      readable list; an unreadable file is replaced by an empty list. */
  lemma LoadThenSaveAll(f: FileContent)
    ensures f.Json? ==> SaveAllRecords(f, LoadRecords(f), true).file == f
    ensures !f.Json? ==> SaveAllRecords(f, LoadRecords(f), true).file == Json([])
  {
  }

  /** Saving one record into an unreadable file discards the file's previous
      content: afterwards the file holds only the new record. */
  lemma SaveRecordOverCorruptFile(record: Record)
    ensures SaveRecord(Corrupt, record, true).file == Json([record])
  {
  }
}
