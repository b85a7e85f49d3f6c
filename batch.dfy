/** Batch entry by weekday pattern (BatchInputModal.jsx): seven weekday
    settings, and a save that checks the period and the wage preset, then
    walks the period day by day emitting a shift on every enabled weekday
    with positive hours. Days are day numbers (0 is 1970-01-01). */
module Batch {
  import opened Common
  import opened Text
  import opened Calendar
  import opened Shifts

  /** One weekday's setting `{enabled, hours}`; index 0 is Sunday. */
  datatype WeekdaySetting = WeekdaySetting(enabled: bool, hours: NumberField)

  const Off := WeekdaySetting(false, EmptyField)

  /** The initial state: seven disabled days with empty hours. */
  const InitialWeekdays: seq<WeekdaySetting> := [Off, Off, Off, Off, Off, Off, Off]

  /** `toggleDay`: copies the array and sets entry `index`'s `enabled`. */
  function ToggleDay(weekdays: seq<WeekdaySetting>, index: int, enabled: bool): (r: seq<WeekdaySetting>)
    requires 0 <= index < |weekdays|
    ensures |r| == |weekdays|
    ensures r[index] == WeekdaySetting(enabled, weekdays[index].hours)
    ensures forall i :: 0 <= i < |weekdays| && i != index ==> r[i] == weekdays[i]
  {
    weekdays[index := weekdays[index].(enabled := enabled)]
  }

  /** `handleHoursChange`: copies the array and sets entry `index`'s hours. */
  function ChangeHours(weekdays: seq<WeekdaySetting>, index: int, hours: NumberField): (r: seq<WeekdaySetting>)
    requires 0 <= index < |weekdays|
    ensures |r| == |weekdays|
    ensures r[index] == WeekdaySetting(weekdays[index].enabled, hours)
    ensures forall i :: 0 <= i < |weekdays| && i != index ==> r[i] == weekdays[i]
  {
    weekdays[index := weekdays[index].(hours := hours)]
  }

  /** The effect that preselects the first wage preset while nothing is
      selected (the empty text). */
  function InitialWageSelection(presets: seq<WagePreset>, selected: string): (r: string)
    ensures selected != "" ==> r == selected
    ensures selected == "" && |presets| > 0 ==> r == IntToString(presets[0].id) && FindById(presets, r) == Some(presets[0])
    ensures selected == "" && |presets| == 0 ==> r == ""
  {
    if |presets| > 0 && selected == "" then
      assert IntToString(presets[0].id) == IntToString(presets[0].id);
      IntToString(presets[0].id)
    else selected
  }

  /** `setting.enabled && setting.hours && parseFloat(setting.hours) > 0`. */
  predicate Emits(setting: WeekdaySetting) {
    setting.enabled && setting.hours.text != "" && setting.hours.value > 0.0
  }

  /** The shifts the walk over `[start, end]` emits. */
  function Expansion(start: int, end: int, weekdays: seq<WeekdaySetting>, preset: WagePreset): (m: map<int, Stored>)
    requires |weekdays| == 7
    ensures end < start ==> m == map[]
  {
    map d | start <= d <= end && Emits(weekdays[WeekdayOfDay(d)]) ::
      FullRecord(weekdays[WeekdayOfDay(d)].hours.value, preset.wage, preset.name)
  }

  /** Soundness and completeness of the walk: a day gets a shift exactly
      when it lies in the period and its weekday is enabled with positive
      hours; the shift carries that weekday's hours and the preset's wage
      and name, so with a non-negative wage it never lowers a total. */
  lemma ExpansionDays(start: int, end: int, weekdays: seq<WeekdaySetting>, preset: WagePreset, d: int)
    requires |weekdays| == 7
    ensures d in Expansion(start, end, weekdays, preset) <==>
      start <= d <= end && weekdays[WeekdayOfDay(d)].enabled
      && weekdays[WeekdayOfDay(d)].hours.text != "" && weekdays[WeekdayOfDay(d)].hours.value > 0.0
    ensures d in Expansion(start, end, weekdays, preset) ==>
      var v := Expansion(start, end, weekdays, preset)[d];
      && v.Object? && v.record.hours == Some(weekdays[WeekdayOfDay(d)].hours.value)
      && v.record.wage == Some(preset.wage) && v.record.wageName == Some(preset.name)
      && (preset.wage >= 0 ==> Contribution(v) >= 0.0)
      && (preset.wage > 0 ==> Contribution(v) > 0.0)
  {
    if d in Expansion(start, end, weekdays, preset) && preset.wage >= 0 {
      var h := weekdays[WeekdayOfDay(d)].hours.value;
      assert h * (preset.wage as real) >= 0.0;
      if preset.wage > 0 {
        assert h * (preset.wage as real) > 0.0;
      }
    }
  }

  /** Extending the period by one day adds that day's shift, if it emits one. */
  lemma ExpansionStep(start: int, day: int, weekdays: seq<WeekdaySetting>, preset: WagePreset)
    requires |weekdays| == 7 && start <= day
    ensures Expansion(start, day, weekdays, preset) ==
      if Emits(weekdays[WeekdayOfDay(day)])
      then Expansion(start, day - 1, weekdays, preset)[day := FullRecord(weekdays[WeekdayOfDay(day)].hours.value, preset.wage, preset.name)]
      else Expansion(start, day - 1, weekdays, preset)
  {
  }

  /** Days on the same weekday a week apart are treated alike. */
  lemma ExpansionWeekly(start: int, end: int, weekdays: seq<WeekdaySetting>, preset: WagePreset, d: int)
    requires |weekdays| == 7
    requires start <= d && d + 7 <= end
    ensures d in Expansion(start, end, weekdays, preset) <==> d + 7 in Expansion(start, end, weekdays, preset)
  {
    assert WeekdayOfDay(d + 7) == WeekdayOfDay(d);
  }

  /** Why `handleSave` stopped, or the shifts it hands on. */
  datatype BatchOutcome = MissingPeriod | StartAfterEnd | NoWagePreset | Cancelled | Saved(shifts: map<int, Stored>)

  /** `handleSave`. An empty date field is None; `confirmed` is the user's
      answer to the dialog shown when nothing would be emitted. */
  method HandleSave(start: Option<int>, end: Option<int>, selectedWageId: string, presets: seq<WagePreset>,
                    weekdays: seq<WeekdaySetting>, confirmed: bool) returns (outcome: BatchOutcome)
    requires |weekdays| == 7
    ensures start.None? || end.None? ==> outcome == MissingPeriod
    ensures start.Some? && end.Some? && start.value > end.value ==> outcome == StartAfterEnd
    ensures start.Some? && end.Some? && start.value <= end.value && FindById(presets, selectedWageId).None? ==>
      outcome == NoWagePreset
    ensures start.Some? && end.Some? && start.value <= end.value && FindById(presets, selectedWageId).Some? ==>
      var shifts := Expansion(start.value, end.value, weekdays, FindById(presets, selectedWageId).value);
      outcome == if |shifts| == 0 && !confirmed then Cancelled else Saved(shifts)
  {
    if start.None? || end.None? {
      return MissingPeriod;
    }
    if start.value > end.value {
      return StartAfterEnd;
    }
    var found := FindById(presets, selectedWageId);
    if found.None? {
      return NoWagePreset;
    }
    var preset := found.value;
    var newShifts: map<int, Stored> := map[];
    var day := start.value;
    while day <= end.value
      invariant start.value <= day <= end.value + 1
      invariant newShifts == Expansion(start.value, day - 1, weekdays, preset)
      decreases end.value - day
    {
      var setting := weekdays[WeekdayOfDay(day)];
      ExpansionStep(start.value, day, weekdays, preset);
      if setting.enabled && setting.hours.text != "" && setting.hours.value > 0.0 {
        newShifts := newShifts[day := FullRecord(setting.hours.value, preset.wage, preset.name)];
      }
      day := day + 1;
    }
    if |newShifts| == 0 && !confirmed {
      return Cancelled;
    }
    return Saved(newShifts);
  }
}
