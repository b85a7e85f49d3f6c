/** The wage preset editor of the settings modals (InputSettingsModal.jsx;
    SettingsModal.jsx carries the same handlers): whole-list updates of the
    local `wagePresets`. */
module WagePresets {
  import opened Common
  import opened Text
  import opened Shifts

  /** The field `handleWagePresetChange` sets; a wage typed into the field
      arrives as `parseInt(text) || 0`. */
  datatype WageEdit = Rename(name: string) | SetWage(wage: int)

  function ApplyWageEdit(p: WagePreset, edit: WageEdit): WagePreset {
    match edit
    case Rename(n) => p.(name := n)
    case SetWage(w) => p.(wage := w)
  }

  /** `handleWagePresetChange`: the presets carrying `id` get the new field
      value; every other preset, the length and the order stay. */
  function ChangeWagePreset(presets: seq<WagePreset>, id: int, edit: WageEdit): (r: seq<WagePreset>)
    ensures |r| == |presets|
    ensures KeysOf(r, PresetId) == KeysOf(presets, PresetId)
    ensures forall i :: 0 <= i < |presets| && presets[i].id != id ==> r[i] == presets[i]
    ensures forall i :: 0 <= i < |presets| && presets[i].id == id ==>
      match edit
      case Rename(n) => r[i] == presets[i].(name := n)
      case SetWage(w) => r[i] == presets[i].(wage := w)
  {
    MapWhere(presets, (p: WagePreset) => p.id == id, (p: WagePreset) => ApplyWageEdit(p, edit))
  }

  /** Every wage is at least 0. */
  predicate NonNegativeWages(presets: seq<WagePreset>) {
    forall i :: 0 <= i < |presets| ==> presets[i].wage >= 0
  }

  /** `Math.max(0, wage + amount)`. */
  function Clamped(wage: int, amount: int): (w: int)
    ensures w >= 0
    ensures wage + amount >= 0 ==> w == wage + amount
  {
    if wage + amount > 0 then wage + amount else 0
  }

  /** `handleWageAmountAdjust`: moves the wage of the presets carrying `id`
      by `amount` (the buttons use -100 and +100), never below 0. */
  function AdjustWage(presets: seq<WagePreset>, id: int, amount: int): (r: seq<WagePreset>)
    ensures |r| == |presets|
    ensures KeysOf(r, PresetId) == KeysOf(presets, PresetId)
    ensures forall i :: 0 <= i < |presets| && presets[i].id != id ==> r[i] == presets[i]
    ensures forall i :: 0 <= i < |presets| && presets[i].id == id ==>
      r[i].name == presets[i].name && r[i].wage >= 0
      && (presets[i].wage + amount >= 0 ==> r[i].wage == presets[i].wage + amount)
      && (presets[i].wage + amount < 0 ==> r[i].wage == 0)
  {
    MapWhere(presets, (p: WagePreset) => p.id == id, (p: WagePreset) => p.(wage := Clamped(p.wage, amount)))
  }

  /** Adjusting keeps every wage non-negative. */
  lemma AdjustKeepsWagesNonNegative(presets: seq<WagePreset>, id: int, amount: int)
    requires NonNegativeWages(presets)
    ensures NonNegativeWages(AdjustWage(presets, id, amount))
  {
  }

  /** `addWagePreset`: appends `{id: max id + 1, name: '追加シフト' + id, wage: 1000}`. */
  function AddWagePreset(presets: seq<WagePreset>): (r: seq<WagePreset>)
    ensures |r| == |presets| + 1 && r[..|presets|] == presets
    ensures forall i :: 0 <= i < |presets| ==> presets[i].id < r[|presets|].id
    ensures r[|presets|].id >= 1
    ensures r[|presets|].name == "追加シフト" + IntToString(r[|presets|].id)
    ensures r[|presets|].wage == 1000
  {
    var id := NextId(KeysOf(presets, PresetId));
    presets + [WagePreset(id, "追加シフト" + IntToString(id), 1000)]
  }

  /** Adding keeps ids unique and wages non-negative. */
  lemma AddKeepsInvariants(presets: seq<WagePreset>)
    requires UniqueKeys(presets, PresetId) && NonNegativeWages(presets)
    ensures UniqueKeys(AddWagePreset(presets), PresetId) && NonNegativeWages(AddWagePreset(presets))
  {
    var r := AddWagePreset(presets);
    assert r == presets + [r[|presets|]];
    AppendUniqueKey(presets, r[|presets|], PresetId);
  }

  /** `removeWagePreset`: refused while at most one preset is left,
      otherwise drops the presets carrying `id`, keeping the others in order. */
  function RemoveWagePreset(presets: seq<WagePreset>, id: int): (r: seq<WagePreset>)
    ensures |presets| <= 1 ==> r == presets
    ensures |presets| > 1 ==> (forall p :: p in r <==> p in presets && p.id != id)
    ensures |presets| > 1 ==> (forall p :: multiset(r)[p] == if p.id != id then multiset(presets)[p] else 0)
    ensures IsSubsequence(r, presets)
  {
    if |presets| <= 1 then
      SubsequenceReflexive(presets);
      presets
    else
      var keep := (p: WagePreset) => p.id != id;
      Filter(presets, keep)
  }

  /** With unique ids the list never becomes empty through removal, and a
      present id takes exactly one preset with it. */
  lemma RemoveKeepsOne(presets: seq<WagePreset>, id: int)
    requires UniqueKeys(presets, PresetId) && |presets| >= 1
    ensures |RemoveWagePreset(presets, id)| >= 1
    ensures UniqueKeys(RemoveWagePreset(presets, id), PresetId)
    ensures |presets| > 1 && id in KeysOf(presets, PresetId) ==> |RemoveWagePreset(presets, id)| == |presets| - 1
    ensures id !in KeysOf(presets, PresetId) ==> RemoveWagePreset(presets, id) == presets
  {
    if |presets| > 1 {
      var keep := (p: WagePreset) => p.id != id;
      FilteredLength(presets, id, keep);
      SubsequenceUniqueKeys(Filter(presets, keep), presets, PresetId);
      if id !in KeysOf(presets, PresetId) {
        FilteredAbsent(presets, id, keep);
      }
    }
  }

  lemma FilteredLength(presets: seq<WagePreset>, id: int, keep: WagePreset -> bool)
    requires UniqueKeys(presets, PresetId)
    requires forall p :: keep(p) <==> p.id != id
    ensures |Filter(presets, keep)| == if id in KeysOf(presets, PresetId) then |presets| - 1 else |presets|
  {
    FilterCount(presets, keep);
    CountOtherKeys(presets, PresetId, id, keep);
  }

  lemma FilteredAbsent(presets: seq<WagePreset>, id: int, keep: WagePreset -> bool)
    requires id !in KeysOf(presets, PresetId)
    requires forall p :: keep(p) <==> p.id != id
    ensures Filter(presets, keep) == presets
  {
    assert forall i :: 0 <= i < |presets| ==> KeysOf(presets, PresetId)[i] == presets[i].id;
    FilterKeepsAll(presets, keep);
  }
}
