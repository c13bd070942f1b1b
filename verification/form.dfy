/** The sounding entry form (src/components/TankSoundingForm.jsx): the text
    typed for each tank, the chosen day, and the two handlers that turn the
    text into computed readings (`handleSubmit`) and clear it again
    (`handleReset`). `parseFloat` and the calibration tables are
    parameters. */
module TankSoundingForm {
  import opened Wrappers
  import opened Records

  /** The keys of the `soundings` state, in the order they are declared. */
  const FormTanks: seq<string> := [
    "TANK_1_PORT", "TANK_1_STARBOARD", "TANK_2_PORT", "TANK_2_STARBOARD",
    "TANK_3_PORT", "TANK_3_STARBOARD", "TANK_3_CENTER"]

  /** One input of the form: the tank it belongs to and the text typed. */
  datatype Field = Field(tank: string, text: string)

  /** The form's state: the `soundings` object, in key order, and
      `selectedDate` as `YYYY-MM-DD` text. */
  datatype Form = Form(soundings: seq<Field>, selectedDate: string)

  /** `Object.keys(soundings)`. */
  function Tanks(fs: seq<Field>): (ts: seq<string>)
    ensures |ts| == |fs|
    ensures forall i :: 0 <= i < |fs| ==> ts[i] == fs[i].tank
  {
    if |fs| == 0 then [] else [fs[0].tank] + Tanks(fs[1..])
  }

  /** No tank has two inputs. */
  predicate DistinctTanks(fs: seq<Field>)
  {
    forall i, j :: 0 <= i < j < |fs| ==> fs[i].tank != fs[j].tank
  }

  /** The form has exactly the seven inputs, in declaration order. */
  predicate WellFormed(f: Form)
  {
    Tanks(f.soundings) == FormTanks
  }

  /** A well-formed form has one input per tank. */
  lemma WellFormedDistinct(f: Form)
    requires WellFormed(f)
    ensures DistinctTanks(f.soundings)
  {
    forall i, j | 0 <= i < j < |f.soundings|
      ensures f.soundings[i].tank != f.soundings[j].tank
    {
      assert f.soundings[i].tank == FormTanks[i] && f.soundings[j].tank == FormTanks[j];
    }
  }

  /** Every input empty. */
  function BlankFields(ts: seq<string>): (fs: seq<Field>)
    ensures Tanks(fs) == ts
    ensures forall i :: 0 <= i < |fs| ==> fs[i].text == ""
  {
    if |ts| == 0 then [] else [Field(ts[0], "")] + BlankFields(ts[1..])
  }

  /** `handleReset()`, which is also the initial state: every input
      emptied and the day set to today's `toISOString().split('T')[0]`. */
  function HandleReset(clock: Clock): (f: Form)
    ensures WellFormed(f)
    ensures forall i :: 0 <= i < |f.soundings| ==> f.soundings[i].text == ""
    ensures f.selectedDate == clock.isoDay(clock.now)
  {
    Form(BlankFields(FormTanks), clock.isoDay(clock.now))
  }

  /** Every input of tank `name` takes the text `value`, in place. */
  function Replace(fs: seq<Field>, name: string, value: string): (r: seq<Field>)
    ensures |r| == |fs|
    ensures forall i :: 0 <= i < |fs| ==>
      r[i] == if fs[i].tank == name then Field(name, value) else fs[i]
  {
    if |fs| == 0 then []
    else
      var head := if fs[0].tank == name then Field(name, value) else fs[0];
      [head] + Replace(fs[1..], name, value)
  }

  /** `handleChange`: `{ ...prev, [name]: value }`. An existing key keeps its
      place and takes the new text; an unknown key is appended. */
  function SetField(fs: seq<Field>, name: string, value: string): (r: seq<Field>)
    ensures name in Tanks(fs) ==> Tanks(r) == Tanks(fs)
    ensures name !in Tanks(fs) ==> Tanks(r) == Tanks(fs) + [name]
    ensures forall i :: 0 <= i < |fs| ==>
      r[i] == if fs[i].tank == name then Field(name, value) else fs[i]
  {
    if name in Tanks(fs) then
      var r := Replace(fs, name, value);
      assert Tanks(r) == Tanks(fs);
      r
    else fs + [Field(name, value)]
  }

  /** Typing into one of the seven inputs keeps the form well formed and
      changes that input only. */
  function HandleChange(f: Form, name: string, value: string): (g: Form)
    requires WellFormed(f)
    requires name in FormTanks
    ensures WellFormed(g)
    ensures g.selectedDate == f.selectedDate
    ensures forall i :: 0 <= i < |FormTanks| ==>
      g.soundings[i].text == if FormTanks[i] == name then value else f.soundings[i].text
  {
    Form(SetField(f.soundings, name, value), f.selectedDate)
  }

  /** What one input contributes to `results`: its reading when
      `parseFloat` yields a number (not NaN) that is not negative. `parse`
      answers None where `parseFloat` answers NaN. */
  function ReadingOf(fld: Field, parse: string -> Option<real>, cal: Calibration): Option<TankResult>
  {
    match parse(fld.text)
    case Some(x) =>
      if x >= 0.0 then Some(TankResult(x, cal.volume(fld.tank, x), cal.info(fld.tank))) else None
    case None => None
  }

  /** An input contributes exactly when its text is a number that is not
      negative, and then that sounding, its volume and the tank's
      description. */
  lemma ReadingOfAccepts(fld: Field, parse: string -> Option<real>, cal: Calibration)
    ensures var r := ReadingOf(fld, parse, cal);
      && (r.Some? <==> parse(fld.text).Some? && parse(fld.text).value >= 0.0)
      && (r.Some? ==>
            && r.value.sounding == parse(fld.text).value
            && r.value.volume == cal.volume(fld.tank, r.value.sounding)
            && r.value.tankInfo == cal.info(fld.tank))
  {
  }

  /** The `results` object of a submission, as a reference definition: one
      entry per accepted input, in input order. */
  function Accepted(fs: seq<Field>, parse: string -> Option<real>, cal: Calibration): (r: Results)
    ensures |r| <= |fs|
    ensures forall j :: 0 <= j < |r| ==>
      exists i :: 0 <= i < |fs| && fs[i].tank == r[j].tank && ReadingOf(fs[i], parse, cal) == Some(r[j].reading)
  {
    if |fs| == 0 then []
    else
      var rest := Accepted(fs[1..], parse, cal);
      assert forall j :: 0 <= j < |rest| ==>
        exists i :: 0 <= i < |fs| && fs[i].tank == rest[j].tank && ReadingOf(fs[i], parse, cal) == Some(rest[j].reading) by {
        forall j | 0 <= j < |rest|
          ensures exists i :: 0 <= i < |fs| && fs[i].tank == rest[j].tank && ReadingOf(fs[i], parse, cal) == Some(rest[j].reading)
        {
          var i :| 0 <= i < |fs[1..]| && fs[1..][i].tank == rest[j].tank && ReadingOf(fs[1..][i], parse, cal) == Some(rest[j].reading);
          assert fs[i + 1] == fs[1..][i];
        }
      }
      match ReadingOf(fs[0], parse, cal)
      case Some(t) => [Entry(fs[0].tank, t)] + rest
      case None => rest
  }

  /** Dropping the first input keeps the tanks distinct. */
  lemma DistinctTail(fs: seq<Field>)
    requires DistinctTanks(fs)
    requires |fs| > 0
    ensures DistinctTanks(fs[1..])
  {
  }

  /** A lookup skips an entry with another key. */
  lemma LookupSkip(e: Entry, rest: Results, t: string)
    requires e.tank != t
    ensures Lookup([e] + rest, t) == Lookup(rest, t)
  {
  }

  /** A tank without an input has no entry in `results`. */
  lemma SubmitIgnoresOthers(fs: seq<Field>, parse: string -> Option<real>, cal: Calibration, t: string)
    requires forall i :: 0 <= i < |fs| ==> fs[i].tank != t
    ensures Lookup(Accepted(fs, parse, cal), t) == None
  {
  }

  /** With one input per tank, `results[tank]` is exactly what that input
      contributes: present if and only if its text is a non-negative number,
      and then the sounding, its volume and the tank's description. */
  lemma {:induction false} SubmitLookup(fs: seq<Field>, parse: string -> Option<real>, cal: Calibration, i: nat)
    requires DistinctTanks(fs)
    requires i < |fs|
    ensures Lookup(Accepted(fs, parse, cal), fs[i].tank) == ReadingOf(fs[i], parse, cal)
  {
    var rest := Accepted(fs[1..], parse, cal);
    var t := fs[i].tank;
    if i == 0 {
      forall k | 0 <= k < |fs[1..]|
        ensures fs[1..][k].tank != t
      {
        assert fs[1..][k] == fs[k + 1];
      }
      SubmitIgnoresOthers(fs[1..], parse, cal, t);
      match ReadingOf(fs[0], parse, cal)
      case Some(r) =>
        assert Accepted(fs, parse, cal) == [Entry(t, r)] + rest;
      case None =>
        assert Accepted(fs, parse, cal) == rest;
    } else {
      DistinctTail(fs);
      SubmitLookup(fs[1..], parse, cal, i - 1);
      assert fs[1..][i - 1] == fs[i];
      assert fs[0].tank != t;
      match ReadingOf(fs[0], parse, cal)
      case Some(r) =>
        LookupSkip(Entry(fs[0].tank, r), rest, t);
      case None =>
    }
  }

  /** With one input per tank, no key of `results` repeats. */
  lemma {:induction false} SubmitDistinct(fs: seq<Field>, parse: string -> Option<real>, cal: Calibration)
    requires DistinctTanks(fs)
    ensures DistinctKeys(Accepted(fs, parse, cal))
  {
    if |fs| > 0 {
      var rest := Accepted(fs[1..], parse, cal);
      DistinctTail(fs);
      SubmitDistinct(fs[1..], parse, cal);
      match ReadingOf(fs[0], parse, cal)
      case Some(t) =>
        var r := [Entry(fs[0].tank, t)] + rest;
        forall a, b | 0 <= a < b < |r|
          ensures r[a].tank != r[b].tank
        {
          if a == 0 {
            var i :| 0 <= i < |fs[1..]| && fs[1..][i].tank == rest[b - 1].tank
              && ReadingOf(fs[1..][i], parse, cal) == Some(rest[b - 1].reading);
            assert fs[1..][i] == fs[i + 1];
          } else {
            assert r[a] == rest[a - 1] && r[b] == rest[b - 1];
          }
        }
      case None =>
    }
  }

  /** On the seven-input form, each tank's entry in `results` is what its
      input contributes, and no key repeats. */
  lemma SubmitWellFormed(f: Form, parse: string -> Option<real>, cal: Calibration)
    requires WellFormed(f)
    ensures DistinctKeys(Accepted(f.soundings, parse, cal))
    ensures forall i :: 0 <= i < |FormTanks| ==>
      Lookup(Accepted(f.soundings, parse, cal), FormTanks[i]) == ReadingOf(f.soundings[i], parse, cal)
  {
    var fs := f.soundings;
    WellFormedDistinct(f);
    SubmitDistinct(fs, parse, cal);
    forall i | 0 <= i < |FormTanks|
      ensures Lookup(Accepted(fs, parse, cal), FormTanks[i]) == ReadingOf(fs[i], parse, cal)
    {
      assert Tanks(fs)[i] == fs[i].tank;
      SubmitLookup(fs, parse, cal, i);
    }
  }

  /** What one input adds to `results`: its entry, or nothing. */
  function Contribution(fld: Field, parse: string -> Option<real>, cal: Calibration): Results
  {
    match ReadingOf(fld, parse, cal)
    case Some(t) => [Entry(fld.tank, t)]
    case None => []
  }

  /** `results` is the first input's contribution followed by the others'. */
  lemma AcceptedHead(fs: seq<Field>, parse: string -> Option<real>, cal: Calibration)
    requires |fs| > 0
    ensures Accepted(fs, parse, cal) == Contribution(fs[0], parse, cal) + Accepted(fs[1..], parse, cal)
  {
  }

  /** One more input walked: the readings collected so far, followed by what
      input `i` contributes, still lead to the same `results`. */
  lemma AcceptedStep(fs: seq<Field>, parse: string -> Option<real>, cal: Calibration, i: nat, acc: Results)
    requires i < |fs|
    requires acc + Accepted(fs[i..], parse, cal) == Accepted(fs, parse, cal)
    ensures (acc + Contribution(fs[i], parse, cal)) + Accepted(fs[i + 1..], parse, cal) == Accepted(fs, parse, cal)
  {
    var t := fs[i..];
    AcceptedHead(t, parse, cal);
    assert t[1..] == fs[i + 1..];
    assert t[0] == fs[i];
  }

  /** The `forEach` over the inputs in key order, collecting each accepted
      reading. */
  method CollectReadings(fs: seq<Field>, parse: string -> Option<real>, cal: Calibration)
    returns (results: Results)
    ensures results == Accepted(fs, parse, cal)
  {
    results := [];
    var i := 0;
    while i < |fs|
      invariant 0 <= i <= |fs|
      invariant results + Accepted(fs[i..], parse, cal) == Accepted(fs, parse, cal)
    {
      AcceptedStep(fs, parse, cal, i, results);
      ghost var before := results;
      var reading := ReadingOf(fs[i], parse, cal);
      if reading.Some? {
        results := results + [Entry(fs[i].tank, reading.value)];
      }
      assert results == before + Contribution(fs[i], parse, cal);
      i := i + 1;
    }
    assert fs[|fs|..] == [];
  }

  /** `handleSubmit`: walks the inputs in key order and collects the accepted
      readings, then hands them to `onCalculate` with the chosen day. */
  method HandleSubmit(f: Form, parse: string -> Option<real>, cal: Calibration)
    returns (results: Results, date: string)
    ensures results == Accepted(f.soundings, parse, cal)
    ensures date == f.selectedDate
    ensures WellFormed(f) ==> DistinctKeys(results)
    ensures WellFormed(f) ==> forall i :: 0 <= i < |FormTanks| ==>
      Lookup(results, FormTanks[i]) == ReadingOf(f.soundings[i], parse, cal)
  {
    results := CollectReadings(f.soundings, parse, cal);
    date := f.selectedDate;
    if WellFormed(f) {
      SubmitWellFormed(f, parse, cal);
    }
  }

  /** Submitting a freshly reset form computes nothing, since `parseFloat`
      of empty text is NaN. */
  lemma ResetThenSubmitEmpty(clock: Clock, parse: string -> Option<real>, cal: Calibration)
    requires parse("") == None
    ensures Accepted(HandleReset(clock).soundings, parse, cal) == []
  {
    ResetAcceptsNothing(HandleReset(clock).soundings, parse, cal);
  }

  lemma {:induction false} ResetAcceptsNothing(fs: seq<Field>, parse: string -> Option<real>, cal: Calibration)
    requires parse("") == None
    requires forall i :: 0 <= i < |fs| ==> fs[i].text == ""
    ensures Accepted(fs, parse, cal) == []
  {
    if |fs| > 0 {
      ResetAcceptsNothing(fs[1..], parse, cal);
    }
  }
}
