/** The event preset editor (EventSettingsModal.jsx): a local copy of the
    event presets, edited by adding, removing and changing one field. */
module Events {
  import opened Common

  /** An event preset `{id, name, color}`; `color` is a ring colour class. */
  datatype EventPreset = EventPreset(id: int, name: string, color: string)

  function EventId(p: EventPreset): int {
    p.id
  }

  /** The open-time reset: `eventPresets || []`. */
  function OpenEventPresets(stored: Option<seq<EventPreset>>): (local: seq<EventPreset>)
    ensures stored.None? ==> local == []
    ensures stored.Some? ==> local == stored.value
  {
    stored.GetOr([])
  }

  /** `handleAddPreset`: appends a preset with a fresh id. */
  function AddEventPreset(presets: seq<EventPreset>): (r: seq<EventPreset>)
    ensures |r| == |presets| + 1 && r[..|presets|] == presets
    ensures r[|presets|].name == "新しい予定" && r[|presets|].color == "ring-blue-300"
    ensures r[|presets|].id >= 1
    ensures forall i :: 0 <= i < |presets| ==> presets[i].id < r[|presets|].id
  {
    presets + [EventPreset(NextId(KeysOf(presets, EventId)), "新しい予定", "ring-blue-300")]
  }

  /** Adding keeps the ids unique. */
  lemma AddKeepsIdsUnique(presets: seq<EventPreset>)
    requires UniqueKeys(presets, EventId)
    ensures UniqueKeys(AddEventPreset(presets), EventId)
  {
    var r := AddEventPreset(presets);
    assert r == presets + [r[|presets|]];
    AppendUniqueKey(presets, r[|presets|], EventId);
  }

  /** `handleRemovePreset`: drops the presets carrying `id`, keeping the
      others in order; there is no minimum length. */
  function RemoveEventPreset(presets: seq<EventPreset>, id: int): (r: seq<EventPreset>)
    ensures forall p :: p in r <==> p in presets && p.id != id
    ensures forall p :: multiset(r)[p] == if p.id != id then multiset(presets)[p] else 0
    ensures IsSubsequence(r, presets)
  {
    var keep := (p: EventPreset) => p.id != id;
    Filter(presets, keep)
  }

  /** Removing keeps the ids unique, and with unique ids removes exactly one
      preset when the id is present; the last preset can be removed. */
  lemma RemoveEvent(presets: seq<EventPreset>, id: int)
    requires UniqueKeys(presets, EventId)
    ensures UniqueKeys(RemoveEventPreset(presets, id), EventId)
    ensures |RemoveEventPreset(presets, id)| == if id in KeysOf(presets, EventId) then |presets| - 1 else |presets|
  {
    var keep := (p: EventPreset) => p.id != id;
    SubsequenceUniqueKeys(Filter(presets, keep), presets, EventId);
    FilterCount(presets, keep);
    CountOtherKeys(presets, EventId, id, keep);
  }

  /** The field `handleChange` sets. */
  datatype EventEdit = SetName(name: string) | SetColor(color: string)

  function ApplyEventEdit(p: EventPreset, edit: EventEdit): EventPreset {
    match edit
    case SetName(n) => p.(name := n)
    case SetColor(c) => p.(color := c)
  }

  /** `handleChange`: updates one field of the presets carrying `id`. */
  function ChangeEventPreset(presets: seq<EventPreset>, id: int, edit: EventEdit): (r: seq<EventPreset>)
    ensures |r| == |presets|
    ensures KeysOf(r, EventId) == KeysOf(presets, EventId)
    ensures forall i :: 0 <= i < |presets| && presets[i].id != id ==> r[i] == presets[i]
    ensures forall i :: 0 <= i < |presets| && presets[i].id == id ==>
      match edit
      case SetName(n) => r[i] == presets[i].(name := n)
      case SetColor(c) => r[i] == presets[i].(color := c)
  {
    MapWhere(presets, (p: EventPreset) => p.id == id, (p: EventPreset) => ApplyEventEdit(p, edit))
  }
}
