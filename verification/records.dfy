/** The data a sounding record is made of, the opaque collaborators the
    program imports (the calibration tables and the clock), and the small
    queries every other module shares.

    A JavaScript object such as `results` keeps its keys in insertion order,
    so it is modelled as an ordered list of entries rather than as a map. */
module Records {
  import opened Wrappers
  import opened Sequences

  /** A calendar day as `toLocaleDateString('en-GB')` shows it, `DD/MM/YYYY`. */
  datatype CalDate = CalDate(day: int, month: int, year: int)

  /** `a` is a strictly later day than `b`: the order obtained by reading
      `DD/MM/YYYY` as `YYYY-MM-DD`. */
  predicate Later(a: CalDate, b: CalDate)
  {
    || a.year > b.year
    || (a.year == b.year && a.month > b.month)
    || (a.year == b.year && a.month == b.month && a.day > b.day)
  }

  /** Two different days are always ordered one way or the other. */
  lemma LaterTotal(a: CalDate, b: CalDate)
    requires a != b
    ensures Later(a, b) || Later(b, a)
  {
  }

  /** An entry of `TANK_INFO`: the fields the program reads. */
  datatype TankInfo = TankInfo(name: string, maxVolume: real)

  /** `{ sounding, volume, tankInfo }`, one tank's computed reading. */
  datatype TankResult = TankResult(sounding: real, volume: real, tankInfo: TankInfo)

  /** One key/value pair of a `results` object. */
  datatype Entry = Entry(tank: string, reading: TankResult)

  /** A `results` object: tank id to reading, in insertion order. */
  type Results = seq<Entry>

  /** A stored sounding record. `timestamp` is the instant in milliseconds
      since the epoch (the ISO text round-trips exactly at that precision);
      `soundings` holds whatever the caller passed (the app passes the
      `results` object itself). */
  datatype Record = Record(
    id: int,
    timestamp: int,
    date: CalDate,
    time: string,
    soundings: Results,
    results: Results,
    totalVolume: real)

  /** The calibration module `src/data/soundingData`, which is not part of
      this model: `keys` are `Object.keys(TANK_INFO)`, `info(t)` is
      `TANK_INFO[t]`, and `volume(t, s)` is
      `getSoundingVolume(getTankData(t), s)`. Nothing is assumed about them. */
  datatype Calibration = Calibration(
    keys: seq<string>,
    info: string -> TankInfo,
    volume: (string, real) -> real)

  /** The clock and the locale-dependent date functions: `now` is the current
      instant in milliseconds, `calendarDate(t)` the local calendar day of `t`,
      `clockTime(t)` the `HH:MM` text of `t`, `parseDate(s)` the instant
      `new Date(s)` denotes (None for an invalid date) and `isoDay(t)` the
      `YYYY-MM-DD` text of `t`. */
  datatype Clock = Clock(
    now: int,
    calendarDate: int -> CalDate,
    clockTime: int -> string,
    parseDate: string -> Option<int>,
    isoDay: int -> string)

  /** `results[tank]`: the reading stored under `tank`, if any. */
  function Lookup(rs: Results, tank: string): (r: Option<TankResult>)
    ensures r.None? <==> forall i :: 0 <= i < |rs| ==> rs[i].tank != tank
    ensures r.Some? ==> exists i :: 0 <= i < |rs| && rs[i] == Entry(tank, r.value)
  {
    if |rs| == 0 then None
    else if rs[0].tank == tank then Some(rs[0].reading)
    else Lookup(rs[1..], tank)
  }

  /** No key occurs twice, as in every JavaScript object. */
  predicate DistinctKeys(rs: Results)
  {
    forall i, j :: 0 <= i < j < |rs| ==> rs[i].tank != rs[j].tank
  }

  /** With distinct keys, an entry's key looks up exactly that entry. */
  lemma LookupEntry(rs: Results, i: nat)
    requires DistinctKeys(rs)
    requires i < |rs|
    ensures Lookup(rs, rs[i].tank) == Some(rs[i].reading)
  {
  }

  /** `results[tank]?.volume || 0`: a missing tank counts as zero. */
  function VolumeOr0(rs: Results, tank: string): real
  {
    match Lookup(rs, tank)
    case Some(t) => t.volume
    case None => 0.0
  }

  /** The volume of one entry. */
  function EntryVolume(e: Entry): real
  {
    e.reading.volume
  }

  /** `Object.values(results).reduce((sum, tank) => sum + tank.volume, 0)`. */
  function ResultsTotal(rs: Results): real
  {
    Sum(rs, EntryVolume)
  }

  /** A record's recomputed total: the sum over its `results`. */
  function RecordTotal(r: Record): real
  {
    ResultsTotal(r.results)
  }

  /** The records whose `date` is `d`. */
  function OnDate(d: CalDate): Record -> bool
  {
    (r: Record) => r.date == d
  }

  /** The records whose `id` is not `id`. */
  function IdIsNot(id: int): Record -> bool
  {
    (r: Record) => r.id != id
  }

  /** `records.map(record => record.date)`. */
  function Dates(rs: seq<Record>): (ds: seq<CalDate>)
    ensures |ds| == |rs|
    ensures forall i :: 0 <= i < |rs| ==> ds[i] == rs[i].date
  {
    if |rs| == 0 then [] else [rs[0].date] + Dates(rs[1..])
  }

  /** `[...new Set(s)]`: each value once, at its first occurrence. */
  function Dedup(s: seq<CalDate>): (r: seq<CalDate>)
    ensures |r| <= |s|
    ensures forall x :: x in r <==> x in s
    ensures forall i, j :: 0 <= i < j < |r| ==> r[i] != r[j]
  {
    if |s| == 0 then []
    else
      var rest := Dedup(s[..|s| - 1]);
      assert s == s[..|s| - 1] + [s[|s| - 1]];
      if s[|s| - 1] in rest then rest else rest + [s[|s| - 1]]
  }
}
