/** The single-day editor (ShiftEditModal.jsx): how it fills its fields
    from the day's shift and event when it opens, and the `{shift, event}`
    pair it hands back on save. */
module ShiftEdit {
  import opened Common
  import opened Text
  import opened Shifts

  /** A day's event: the chosen event preset and a note, which older data
      may lack. */
  datatype DayEvent = DayEvent(presetId: int, note: Option<string>)

  datatype Tab = ShiftTab | EventTab

  /** What the hours state holds: text from the input (or shown from a
      stored number), or a stored record's hours carried over as they were
      when that record has none (`undefined` or NaN), which is neither `''`
      nor `'0'`. */
  datatype HoursInput = Typed(field: NumberField) | Carried

  /** The editor's fields: the hours state, the selected wage preset id as
      the select holds it, the selected event preset and the note. */
  datatype Editor = Editor(hours: HoursInput, wageId: string, eventPresetId: Option<int>, note: string, tab: Tab)

  /** `String(id)` of a selection that may be `undefined`. */
  function IdText(id: Option<int>): (s: string)
    ensures id.Some? ==> s == IntToString(id.value)
    ensures id.None? ==> s == "undefined"
  {
    if id.Some? then IntToString(id.value) else "undefined"
  }

  /** `presets.find(p => p.wage === shift.wage && p.name === shift.wageName)`;
      a missing field equals no preset's. */
  function FindByWageAndName(presets: seq<WagePreset>, wage: Option<int>, name: Option<string>): (r: Option<WagePreset>)
    ensures r.None? <==> forall i :: 0 <= i < |presets| ==> Some(presets[i].wage) != wage || Some(presets[i].name) != name
    ensures r.Some? ==> Some(r.value.wage) == wage && Some(r.value.name) == name && r.value in presets
    ensures r.Some? ==> exists i :: (0 <= i < |presets| && presets[i] == r.value
      && forall j :: 0 <= j < i ==> Some(presets[j].wage) != wage || Some(presets[j].name) != name)
  {
    if presets == [] then None
    else if Some(presets[0].wage) == wage && Some(presets[0].name) == name then Some(presets[0])
    else
      var r := FindByWageAndName(presets[1..], wage, name);
      if r.Some? then
        var i :| 0 <= i < |presets[1..]| && presets[1..][i] == r.value
          && forall j :: 0 <= j < i ==> Some(presets[1..][j].wage) != wage || Some(presets[1..][j].name) != name;
        assert presets[i + 1] == r.value;
        r
      else
        assert forall i :: 1 <= i < |presets| ==> presets[i] == presets[1..][i - 1];
        r
  }

  /** The effect run when the editor opens for a day. `show` is JavaScript's
      rendering of a number, which the hours input displays. */
  function OpenEditor(shift: Option<Record>, event: Option<DayEvent>, presets: seq<WagePreset>,
                      show: real -> string): (e: Editor)
    ensures shift.Some? && shift.value.hours.Some? ==>
      e.hours == Typed(NumberField(show(shift.value.hours.value), shift.value.hours.value))
    ensures shift.Some? && shift.value.hours.None? ==> e.hours == Carried
    ensures shift.None? ==> e.hours == Typed(EmptyField)
    ensures shift.Some? && FindByWageAndName(presets, shift.value.wage, shift.value.wageName).Some? ==>
      e.wageId == IntToString(FindByWageAndName(presets, shift.value.wage, shift.value.wageName).value.id)
    ensures (shift.None? || FindByWageAndName(presets, shift.value.wage, shift.value.wageName).None?) ==>
      e.wageId == if |presets| > 0 then IntToString(presets[0].id) else "undefined"
    ensures event.Some? ==> e.eventPresetId == Some(event.value.presetId) && e.note == event.value.note.GetOr("")
    ensures event.None? ==> e.eventPresetId.None? && e.note == ""
    ensures e.tab == EventTab <==> event.Some? && shift.None?
  {
    var first := if |presets| > 0 then Some(presets[0].id) else None;
    var matched := if shift.Some? then FindByWageAndName(presets, shift.value.wage, shift.value.wageName) else None;
    var hours :=
      if shift.None? then Typed(EmptyField)
      else if shift.value.hours.Some? then Typed(NumberField(show(shift.value.hours.value), shift.value.hours.value))
      else Carried;
    var wageId := IdText(if matched.Some? then Some(matched.value.id) else first);
    var eventId := if event.Some? then Some(event.value.presetId) else None;
    var note := if event.Some? then event.value.note.GetOr("") else "";
    var tab := if shift.None? && event.Some? then EventTab else ShiftTab;
    Editor(hours, wageId, eventId, note, tab)
  }

  /** `handleSave`: typed hours build the shift as `handleSaveShift` builds
      it; carried hours never clear the day and are written back still
      missing, with the selected preset's wage and name. The event exists
      exactly when an event preset is selected (`0` counts as none), and
      carries the note as typed. */
  function SaveEditor(e: Editor, presets: seq<WagePreset>): (r: (Option<Stored>, Option<DayEvent>))
    ensures e.hours.Typed? ==> r.0 == ShiftFromInput(e.hours.field, e.wageId, presets)
    ensures e.hours.Carried? && FindById(presets, e.wageId).Some? ==>
      r.0 == Some(Object(Record(None, Some(FindById(presets, e.wageId).value.wage), Some(FindById(presets, e.wageId).value.name))))
    ensures e.hours.Carried? && FindById(presets, e.wageId).None? ==>
      r.0 == Some(Object(Record(None, Some(0), Some("不明"))))
    ensures r.1.None? <==> e.eventPresetId.None? || e.eventPresetId.value == 0
    ensures r.1.Some? ==> r.1.value == DayEvent(e.eventPresetId.value, Some(e.note))
  {
    var event := if e.eventPresetId.Some? && e.eventPresetId.value != 0
      then Some(DayEvent(e.eventPresetId.value, Some(e.note))) else None;
    var shift := match e.hours
      case Typed(field) => ShiftFromInput(field, e.wageId, presets)
      case Carried =>
        var preset := FindById(presets, e.wageId);
        Some(Object(Record(None, Some(WageOf(preset)), Some(NameOf(preset)))));
    (shift, event)
  }

  /** With unique ids, selecting a preset by its rendered id finds it. */
  lemma FindByIdOfMember(presets: seq<WagePreset>, p: WagePreset)
    requires UniqueKeys(presets, PresetId) && p in presets
    ensures FindById(presets, IntToString(p.id)) == Some(p)
  {
    FindByRenderedId(presets, p.id);
    var k :| 0 <= k < |presets| && presets[k] == p;
    var r := FindById(presets, IntToString(p.id));
    assert KeysOf(presets, PresetId)[k] == p.id;
    var i :| 0 <= i < |presets| && presets[i] == r.value
      && forall j :: 0 <= j < i ==> IntToString(presets[j].id) != IntToString(p.id);
    assert presets[i].id == presets[k].id;
  }

  /** Opening a record whose wage and name belong to a preset and saving
      without touching anything writes the same record back, whether its
      hours are set or missing; a day event comes back with its note. */
  lemma OpenThenSaveKeepsDay(record: Record, event: Option<DayEvent>, presets: seq<WagePreset>, show: real -> string)
    requires UniqueKeys(presets, PresetId)
    requires record.wage.Some? && record.wageName.Some?
    requires record.hours.Some? ==> show(record.hours.value) != "" && show(record.hours.value) != "0"
    requires exists p :: p in presets && p.wage == record.wage.value && p.name == record.wageName.value
    requires event.Some? ==> event.value.presetId != 0
    ensures SaveEditor(OpenEditor(Some(record), event, presets, show), presets).0 == Some(Object(record))
    ensures SaveEditor(OpenEditor(Some(record), event, presets, show), presets).1 ==
      if event.Some? then Some(DayEvent(event.value.presetId, Some(event.value.note.GetOr("")))) else None
  {
    var p :| p in presets && p.wage == record.wage.value && p.name == record.wageName.value;
    var m := FindByWageAndName(presets, record.wage, record.wageName);
    assert m.Some? by {
      var k :| 0 <= k < |presets| && presets[k] == p;
    }
    FindByIdOfMember(presets, m.value);
  }
}
