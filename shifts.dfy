/** The date-keyed shift map of the app (App.jsx): what its values look
    like, `calculateTotal`, the load-time migration of legacy values and
    `handleSaveShift`. Shared by every component that reads or writes shifts. */
module Shifts {
  import opened Common
  import opened Text
  import opened Sorting
  import opened Calendar

  /** A wage preset `{id, name, wage}`. */
  datatype WagePreset = WagePreset(id: int, name: string, wage: int)

  /** A shift record object; data read back from storage may lack any field. */
  datatype Record = Record(hours: Option<real>, wage: Option<int>, wageName: Option<string>)

  /** A value of the stored shift map: a legacy bare number or string, kept
      as the number `parseFloat` reads from it (None for NaN), or an object.
      A record's `hours` is likewise the number its field reads as; None
      stands for a missing field and for every falsy one, which `|| 0`
      turns into 0. */
  datatype Stored = Legacy(reading: Option<real>) | Object(record: Record)

  type ShiftMap = map<string, Stored>

  /** A complete record, as the app writes one. */
  function FullRecord(hours: real, wage: int, wageName: string): Stored {
    Object(Record(Some(hours), Some(wage), Some(wageName)))
  }

  /** What one value adds in `calculateTotal`:
      `parseFloat(shift?.hours || 0) * parseInt(shift?.wage || 0)`. A bare
      number has no `hours` field, and a missing field counts as 0. */
  function Contribution(v: Stored): (c: real)
    ensures v.Legacy? ==> c == 0.0
    ensures v.Object? && (v.record.hours.None? || v.record.wage.None?) ==> c == 0.0
    ensures v.Object? && v.record.hours.GetOr(0.0) >= 0.0 && v.record.wage.GetOr(0) >= 0 ==> c >= 0.0
  {
    match v
    case Legacy(_) => 0.0
    case Object(r) =>
      var h, w := r.hours.GetOr(0.0), r.wage.GetOr(0) as real;
      assert h >= 0.0 && w >= 0.0 ==> h * w >= 0.0;
      h * w
  }

  /** Every record has non-negative hours and wage. */
  ghost predicate NonNegative(shifts: ShiftMap) {
    forall k :: k in shifts && shifts[k].Object? ==>
      shifts[k].record.hours.GetOr(0.0) >= 0.0 && shifts[k].record.wage.GetOr(0) >= 0
  }

  lemma ContributionNonNegative(shifts: ShiftMap, k: string)
    requires NonNegative(shifts) && k in shifts
    ensures Contribution(shifts[k]) >= 0.0
  {
    if shifts[k].Object? {
      var r := shifts[k].record;
      var h, w := r.hours.GetOr(0.0), r.wage.GetOr(0) as real;
      assert h >= 0.0 && w >= 0.0;
      assert h * w >= 0.0;
    }
  }

  // ---------------------------------------------------------------------
  // Object.keys and calculateTotal

  /** `order` is a listing of the keys of `m` as `Object.keys(m)` gives one:
      every key exactly once, in some order. */
  ghost predicate Lists<V>(order: seq<string>, m: map<string, V>) {
    Distinct(order) && (forall k :: k in order <==> k in m)
  }

  /** `.reduce((acc, key) => acc + contribution, 0)`: a left fold. */
  function SumOf(shifts: ShiftMap, keys: seq<string>): (total: real)
    requires forall k :: k in keys ==> k in shifts
    ensures (forall k :: k in keys ==> Contribution(shifts[k]) >= 0.0) ==> total >= 0.0
    ensures keys == [] ==> total == 0.0
  {
    if keys == [] then 0.0
    else SumOf(shifts, keys[..|keys| - 1]) + Contribution(shifts[keys[|keys| - 1]])
  }

  /** `calculateTotal(accept)`: the keys of `shifts`, listed in `order`,
      filtered by `accept`, their contributions summed. */
  function CalculateTotal(shifts: ShiftMap, order: seq<string>, accept: string -> bool): (total: real)
    requires Lists(order, shifts)
    ensures NonNegative(shifts) ==> total >= 0.0
    ensures (forall k :: k in shifts ==> !accept(k)) ==> total == 0.0
  {
    var kept := Filter(order, accept);
    assert NonNegative(shifts) ==> forall k :: k in kept ==> Contribution(shifts[k]) >= 0.0;
    assert (forall k :: k in shifts ==> !accept(k)) ==> kept == [] by {
      if kept != [] {
        assert kept[0] in kept;
      }
    }
    SumOf(shifts, kept)
  }

  /** The keys a filter accepts. */
  ghost function Accepted(shifts: ShiftMap, accept: string -> bool): set<string> {
    set k | k in shifts && accept(k)
  }

  /** The sum of contributions over a set of keys, in no particular order:
      the reference the fold is checked against. */
  ghost function SetTotal(shifts: ShiftMap, keys: set<string>): real
    requires keys <= shifts.Keys
  {
    if keys == {} then 0.0
    else
      var k :| k in keys;
      Contribution(shifts[k]) + SetTotal(shifts, keys - {k})
  }

  /** Any key can be taken out of a set total first. */
  lemma {:induction false} SetTotalRemove(shifts: ShiftMap, keys: set<string>, k: string)
    requires keys <= shifts.Keys && k in keys
    ensures SetTotal(shifts, keys) == Contribution(shifts[k]) + SetTotal(shifts, keys - {k})
    decreases keys
  {
    var j :| j in keys && SetTotal(shifts, keys) == Contribution(shifts[j]) + SetTotal(shifts, keys - {j});
    if j != k {
      SetTotalRemove(shifts, keys - {j}, k);
      SetTotalRemove(shifts, keys - {k}, j);
      assert keys - {j} - {k} == keys - {k} - {j};
    }
  }

  /** A set total reads only the values of its own keys. */
  lemma {:induction false} SetTotalFrame(m1: ShiftMap, m2: ShiftMap, keys: set<string>)
    requires keys <= m1.Keys && keys <= m2.Keys
    requires forall k :: k in keys ==> m1[k] == m2[k]
    ensures SetTotal(m1, keys) == SetTotal(m2, keys)
    decreases keys
  {
    if keys != {} {
      var k :| k in keys;
      SetTotalRemove(m1, keys, k);
      SetTotalRemove(m2, keys, k);
      SetTotalFrame(m1, m2, keys - {k});
    }
  }

  /** With non-negative records, every set total is non-negative. */
  lemma {:induction false} SetTotalNonNegative(shifts: ShiftMap, keys: set<string>)
    requires keys <= shifts.Keys && NonNegative(shifts)
    ensures SetTotal(shifts, keys) >= 0.0
    decreases keys
  {
    if keys != {} {
      var k :| k in keys;
      SetTotalRemove(shifts, keys, k);
      ContributionNonNegative(shifts, k);
      SetTotalNonNegative(shifts, keys - {k});
    }
  }

  /** With non-negative records, a larger key set never has a smaller total. */
  lemma {:induction false} SetTotalSubset(shifts: ShiftMap, a: set<string>, b: set<string>)
    requires a <= b <= shifts.Keys && NonNegative(shifts)
    ensures SetTotal(shifts, a) <= SetTotal(shifts, b)
    decreases a
  {
    if a == {} {
      SetTotalNonNegative(shifts, b);
    } else {
      var x :| x in a;
      SetTotalRemove(shifts, a, x);
      SetTotalRemove(shifts, b, x);
      SetTotalSubset(shifts, a - {x}, b - {x});
    }
  }

  /** Folding a duplicate-free listing gives the set total of its keys. */
  lemma {:induction false} SumOfIsSetTotal(shifts: ShiftMap, keys: seq<string>)
    requires Distinct(keys) && forall k :: k in keys ==> k in shifts
    ensures SumOf(shifts, keys) == SetTotal(shifts, set k | k in keys)
  {
    if keys != [] {
      var init, last := keys[..|keys| - 1], keys[|keys| - 1];
      assert Distinct(init) by {
        forall i, j | 0 <= i < j < |init| ensures init[i] != init[j] {
          assert keys[i] != keys[j];
        }
      }
      assert last !in init by {
        forall i | 0 <= i < |init| ensures init[i] != last {
          assert keys[i] != keys[|keys| - 1];
        }
      }
      SumOfIsSetTotal(shifts, init);
      var all := set k | k in keys;
      assert all - {last} == set k | k in init by {
        assert keys == init + [last];
      }
      SetTotalRemove(shifts, all, last);
    }
  }

  /** `calculateTotal` sums `hours * wage` over exactly the keys the filter
      accepts, each once, whatever order `Object.keys` lists them in. */
  lemma CalculateTotalIsSetTotal(shifts: ShiftMap, order: seq<string>, accept: string -> bool)
    requires Lists(order, shifts)
    ensures CalculateTotal(shifts, order, accept) == SetTotal(shifts, Accepted(shifts, accept))
  {
    var kept := Filter(order, accept);
    SumOfIsSetTotal(shifts, kept);
    assert (set k | k in kept) == Accepted(shifts, accept);
  }

  /** Iteration order does not affect the total. */
  lemma CalculateTotalOrderIndependent(shifts: ShiftMap, order1: seq<string>, order2: seq<string>, accept: string -> bool)
    requires Lists(order1, shifts) && Lists(order2, shifts)
    ensures CalculateTotal(shifts, order1, accept) == CalculateTotal(shifts, order2, accept)
  {
    CalculateTotalIsSetTotal(shifts, order1, accept);
    CalculateTotalIsSetTotal(shifts, order2, accept);
  }

  /** Deleting a key takes exactly its contribution out of every total that
      counted it, and leaves the other totals alone. */
  lemma TotalAfterDelete(shifts: ShiftMap, key: string, accept: string -> bool)
    ensures SetTotal(shifts - {key}, Accepted(shifts - {key}, accept))
      == SetTotal(shifts, Accepted(shifts, accept))
         - (if key in shifts && accept(key) then Contribution(shifts[key]) else 0.0)
  {
    var before, after := Accepted(shifts, accept), Accepted(shifts - {key}, accept);
    assert after == before - {key};
    SetTotalFrame(shifts - {key}, shifts, after);
    if key in shifts && accept(key) {
      SetTotalRemove(shifts, before, key);
    } else {
      assert after == before;
    }
  }

  /** Writing value `v` at a key replaces that key's contribution, and only
      in the totals that accept the key. */
  lemma TotalAfterWrite(shifts: ShiftMap, key: string, v: Stored, accept: string -> bool)
    ensures SetTotal(shifts[key := v], Accepted(shifts[key := v], accept))
      == SetTotal(shifts - {key}, Accepted(shifts - {key}, accept))
         + (if accept(key) then Contribution(v) else 0.0)
  {
    var m := shifts[key := v];
    var rest := Accepted(shifts - {key}, accept);
    assert m - {key} == shifts - {key};
    SetTotalFrame(m, shifts - {key}, rest);
    if accept(key) {
      assert Accepted(m, accept) - {key} == rest;
      SetTotalRemove(m, Accepted(m, accept), key);
    } else {
      assert Accepted(m, accept) == rest;
    }
  }

  /** With non-negative records, adding a record never lowers a total. */
  lemma TotalMonotone(shifts: ShiftMap, key: string, v: Stored, accept: string -> bool)
    requires key !in shifts && NonNegative(shifts[key := v])
    ensures SetTotal(shifts, Accepted(shifts, accept)) <= SetTotal(shifts[key := v], Accepted(shifts[key := v], accept))
  {
    TotalAfterWrite(shifts, key, v, accept);
    assert shifts - {key} == shifts;
    ContributionNonNegative(shifts[key := v], key);
  }

  // ---------------------------------------------------------------------
  // Presets lookup

  /** A preset's id, as a function value for `KeysOf` and `UniqueKeys`. */
  function PresetId(p: WagePreset): int {
    p.id
  }

  /** `presets.find(p => String(p.id) === String(selectedId))`, where
      `selected` is `String(selectedId)`. */
  function FindById(presets: seq<WagePreset>, selected: string): (r: Option<WagePreset>)
    ensures r.None? <==> forall i :: 0 <= i < |presets| ==> IntToString(presets[i].id) != selected
    ensures r.Some? ==> IntToString(r.value.id) == selected
    ensures r.Some? ==> exists i :: (0 <= i < |presets| && presets[i] == r.value
      && forall j :: 0 <= j < i ==> IntToString(presets[j].id) != selected)
  {
    if presets == [] then None
    else if IntToString(presets[0].id) == selected then Some(presets[0])
    else
      var r := FindById(presets[1..], selected);
      if r.Some? then
        var i :| 0 <= i < |presets[1..]| && presets[1..][i] == r.value
          && forall j :: 0 <= j < i ==> IntToString(presets[1..][j].id) != selected;
        assert presets[i + 1] == r.value;
        r
      else
        assert forall i :: 1 <= i < |presets| ==> presets[i] == presets[1..][i - 1];
        r
  }

  /** Selecting by a rendered id finds the first preset carrying that id. */
  lemma FindByRenderedId(presets: seq<WagePreset>, id: int)
    ensures FindById(presets, IntToString(id)).Some? <==> id in KeysOf(presets, PresetId)
    ensures FindById(presets, IntToString(id)).Some? ==> FindById(presets, IntToString(id)).value.id == id
  {
    forall i | 0 <= i < |presets| ensures IntToString(presets[i].id) == IntToString(id) <==> presets[i].id == id {
      IntToStringInjective(presets[i].id, id);
    }
    var r := FindById(presets, IntToString(id));
    if r.Some? {
      IntToStringInjective(r.value.id, id);
    }
  }

  /** Wage and name of the selected preset, or `0` and `'不明'` (unknown). */
  function WageOf(found: Option<WagePreset>): int {
    if found.Some? then found.value.wage else 0
  }

  function NameOf(found: Option<WagePreset>): string {
    if found.Some? then found.value.name else "不明"
  }

  // ---------------------------------------------------------------------
  // Load-time migration of legacy values

  /** `settings.wagePresets?.[0]?.wage || 1000`: a zero wage counts as missing. */
  function DefaultWage(presets: seq<WagePreset>): (w: int)
    ensures w != 0
    ensures |presets| > 0 && presets[0].wage != 0 ==> w == presets[0].wage
    ensures (|presets| == 0 || presets[0].wage == 0) ==> w == 1000
  {
    if |presets| > 0 && presets[0].wage != 0 then presets[0].wage else 1000
  }

  /** `settings.wagePresets?.[0]?.name || '基本'`: an empty name counts as missing. */
  function DefaultName(presets: seq<WagePreset>): (name: string)
    ensures name != ""
    ensures |presets| > 0 && presets[0].name != "" ==> name == presets[0].name
    ensures (|presets| == 0 || presets[0].name == "") ==> name == "基本"
  {
    if |presets| > 0 && presets[0].name != "" then presets[0].name else "基本"
  }

  /** What migration turns one loaded value into. */
  function Upgrade(v: Stored, wage: int, name: string): (r: Stored)
    ensures r.Object?
  {
    match v
    case Legacy(x) => Object(Record(x, Some(wage), Some(name)))
    case Object(_) => v
  }

  /** The migrated shift map: every legacy value upgraded, objects kept. */
  function Migrated(loaded: ShiftMap, presets: seq<WagePreset>): (m: ShiftMap)
    ensures m.Keys == loaded.Keys
    ensures forall k :: k in m ==> m[k].Object?
    ensures forall k :: k in loaded && loaded[k].Object? ==> m[k] == loaded[k]
    ensures forall k :: k in loaded && loaded[k].Legacy? ==>
      m[k] == Object(Record(loaded[k].reading, Some(DefaultWage(presets)), Some(DefaultName(presets))))
  {
    map k | k in loaded :: Upgrade(loaded[k], DefaultWage(presets), DefaultName(presets))
  }

  /** The shift-state initialiser: walks the loaded keys one by one and
      fills the migrated map. */
  method MigrateShifts(loaded: ShiftMap, presets: seq<WagePreset>) returns (migrated: ShiftMap)
    ensures migrated == Migrated(loaded, presets)
  {
    var wage, name := DefaultWage(presets), DefaultName(presets);
    migrated := map[];
    var todo := loaded.Keys;
    while todo != {}
      invariant todo <= loaded.Keys
      invariant migrated.Keys == loaded.Keys - todo
      invariant forall k :: k in migrated ==> migrated[k] == Upgrade(loaded[k], wage, name)
      decreases todo
    {
      var key :| key in todo;
      match loaded[key] {
      case Legacy(x) =>
        migrated := migrated[key := Object(Record(x, Some(wage), Some(name)))];
      case Object(_) =>
        migrated := migrated[key := loaded[key]];
      }
      todo := todo - {key};
    }
  }

  /** Migrating an already migrated map changes nothing. */
  lemma MigrationIdempotent(loaded: ShiftMap, presets: seq<WagePreset>)
    ensures Migrated(Migrated(loaded, presets), presets) == Migrated(loaded, presets)
  {
  }

  // ---------------------------------------------------------------------
  // handleSaveShift

  /** `inputHours === '' || inputHours === '0'`: the input that clears a day. */
  predicate ClearsDay(input: NumberField) {
    input.text == "" || input.text == "0"
  }

  /** The record a save builds from the hours input and the selected wage
      preset id, or None when the input clears the day. */
  function ShiftFromInput(input: NumberField, selectedWageId: string, presets: seq<WagePreset>): (r: Option<Stored>)
    ensures r.None? <==> ClearsDay(input)
    ensures r.Some? ==> r.value.Object? && r.value.record.hours == Some(input.value)
    ensures r.Some? && FindById(presets, selectedWageId).Some? ==>
      r.value == FullRecord(input.value, FindById(presets, selectedWageId).value.wage, FindById(presets, selectedWageId).value.name)
    ensures r.Some? && FindById(presets, selectedWageId).None? ==> r.value == FullRecord(input.value, 0, "不明")
  {
    if ClearsDay(input) then None
    else
      var preset := FindById(presets, selectedWageId);
      Some(FullRecord(input.value, WageOf(preset), NameOf(preset)))
  }

  /** `handleSaveShift`: copies the map, then deletes the selected day's key
      or writes the record built from the input and the selected preset. */
  method SaveShift(shifts: ShiftMap, selected: Option<Date>, input: NumberField,
                   selectedWageId: string, presets: seq<WagePreset>) returns (newShifts: ShiftMap)
    requires selected.Some? ==> ValidDate(selected.value)
    ensures selected.None? ==> newShifts == shifts
    ensures selected.Some? ==> newShifts - {FormatDate(selected.value)} == shifts - {FormatDate(selected.value)}
    ensures selected.Some? && ClearsDay(input) ==> FormatDate(selected.value) !in newShifts
    ensures selected.Some? && !ClearsDay(input) ==>
      && FormatDate(selected.value) in newShifts
      && Some(newShifts[FormatDate(selected.value)]) == ShiftFromInput(input, selectedWageId, presets)
  {
    newShifts := shifts;
    if selected.Some? {
      var key := FormatDate(selected.value);
      if ClearsDay(input) {
        newShifts := newShifts - {key};
      } else {
        var preset := FindById(presets, selectedWageId);
        newShifts := newShifts[key := FullRecord(input.value, WageOf(preset), NameOf(preset))];
        assert newShifts - {key} == shifts - {key};
      }
    }
  }

  /** Saving a day moves the totals by exactly the difference between the
      day's old and new contribution, in the totals that accept its key. */
  lemma SaveShiftTotal(shifts: ShiftMap, key: string, saved: Option<Stored>, accept: string -> bool)
    ensures var after := if saved.None? then shifts - {key} else shifts[key := saved.value];
      SetTotal(after, Accepted(after, accept))
        == SetTotal(shifts, Accepted(shifts, accept))
           - (if key in shifts && accept(key) then Contribution(shifts[key]) else 0.0)
           + (if saved.Some? && accept(key) then Contribution(saved.value) else 0.0)
  {
    TotalAfterDelete(shifts, key, accept);
    if saved.Some? {
      TotalAfterWrite(shifts, key, saved.value, accept);
    }
  }
}
