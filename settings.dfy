/** The settings object: its load-time migration (App.jsx), the defaults the
    two settings modals apply when they open (InputSettingsModal.jsx and
    SettingsModal.jsx), and the two ways a custom income limit is entered. */
module SettingsState {
  import opened Common
  import opened Shifts
  import opened Events

  /** The stored settings; every field may be absent. `cutoffDay` is only
      kept, never used in a computation. */
  datatype Settings = Settings(
    hourlyWage: Option<int>,
    incomeLimit: Option<real>,
    wagePresets: Option<seq<WagePreset>>,
    timePresets: Option<seq<real>>,
    eventPresets: Option<seq<EventPreset>>,
    cutoffDay: Option<int>)

  const DefaultTimePresets: seq<real> := [3.0, 4.0, 5.0, 6.0, 7.0, 8.0]
  const DefaultIncomeLimit: real := 1230000.0
  const DefaultWageValue: int := 1000
  const FirstPresetName: string := "基本"

  /** `x?.length` is falsy: the list is missing or empty. */
  predicate MissingOrEmpty<T>(list: Option<seq<T>>) {
    list.None? || |list.value| == 0
  }

  /** `hourlyWage || 1000`. */
  function WageOrDefault(hourlyWage: Option<int>): (w: int)
    ensures hourlyWage.Some? && hourlyWage.value != 0 ==> w == hourlyWage.value
    ensures hourlyWage.None? || hourlyWage.value == 0 ==> w == DefaultWageValue
  {
    if hourlyWage.Some? && hourlyWage.value != 0 then hourlyWage.value else DefaultWageValue
  }

  /** `incomeLimit || 1230000`: absent, NaN and 0 all fall back. */
  function LimitOrDefault(limit: Option<real>): (l: Option<real>)
    ensures l.Some? && l.value != 0.0
    ensures limit.Some? && limit.value != 0.0 ==> l == limit
    ensures limit.None? || limit.value == 0.0 ==> l == Some(DefaultIncomeLimit)
  {
    if limit.Some? && limit.value != 0.0 then limit else Some(DefaultIncomeLimit)
  }

  /** A settings value the app can work with: at least one wage preset and
      at least one time preset. */
  predicate Usable(s: Settings) {
    !MissingOrEmpty(s.wagePresets) && !MissingOrEmpty(s.timePresets)
  }

  /** The settings initialiser run on load. */
  function MigrateSettings(loaded: Settings): (m: Settings)
    ensures Usable(m)
    ensures MissingOrEmpty(loaded.wagePresets) ==>
      && m.wagePresets == Some([WagePreset(1, FirstPresetName, WageOrDefault(loaded.hourlyWage))])
      && m.hourlyWage.None?
      && m.incomeLimit == LimitOrDefault(loaded.incomeLimit)
    ensures !MissingOrEmpty(loaded.wagePresets) ==>
      && m.wagePresets == loaded.wagePresets
      && m.hourlyWage == loaded.hourlyWage
      && m.incomeLimit == loaded.incomeLimit
    ensures MissingOrEmpty(loaded.timePresets) ==> m.timePresets == Some(DefaultTimePresets)
    ensures !MissingOrEmpty(loaded.timePresets) ==> m.timePresets == loaded.timePresets
    ensures m.eventPresets == loaded.eventPresets && m.cutoffDay == loaded.cutoffDay
  {
    var withWages :=
      if MissingOrEmpty(loaded.wagePresets) then
        loaded.(hourlyWage := None,
                incomeLimit := LimitOrDefault(loaded.incomeLimit),
                wagePresets := Some([WagePreset(1, FirstPresetName, WageOrDefault(loaded.hourlyWage))]))
      else loaded;
    if MissingOrEmpty(withWages.timePresets) then withWages.(timePresets := Some(DefaultTimePresets))
    else withWages
  }

  /** Migrating is idempotent; in particular a limit left absent because
      wage presets exist stays absent. */
  lemma MigrateSettingsIdempotent(loaded: Settings)
    ensures MigrateSettings(MigrateSettings(loaded)) == MigrateSettings(loaded)
    ensures !MissingOrEmpty(loaded.wagePresets) && loaded.incomeLimit.None? ==>
      MigrateSettings(loaded).incomeLimit.None?
  {
  }

  /** The open-time defaults shared by both settings modals: an empty or
      missing wage list becomes one preset with wage `fallbackWage`; only a
      MISSING time list (`timePresets || [...]`) is replaced, since an empty
      array is truthy. */
  function OpenDefaults(s: Settings, fallbackWage: int): (local: Settings)
    ensures local.wagePresets.Some? && |local.wagePresets.value| >= 1
    ensures MissingOrEmpty(s.wagePresets) ==>
      local.wagePresets == Some([WagePreset(1, FirstPresetName, fallbackWage)])
    ensures !MissingOrEmpty(s.wagePresets) ==> local.wagePresets == s.wagePresets
    ensures local.timePresets == if s.timePresets.None? then Some(DefaultTimePresets) else s.timePresets
    ensures local.hourlyWage == s.hourlyWage && local.incomeLimit == s.incomeLimit
    ensures local.eventPresets == s.eventPresets && local.cutoffDay == s.cutoffDay
  {
    s.(wagePresets := if MissingOrEmpty(s.wagePresets) then Some([WagePreset(1, FirstPresetName, fallbackWage)]) else s.wagePresets,
       timePresets := if s.timePresets.None? then Some(DefaultTimePresets) else s.timePresets)
  }

  /** InputSettingsModal's open-time defaults: the fallback wage is 1000. */
  function OpenInputSettings(s: Settings): (local: Settings)
    ensures MissingOrEmpty(s.wagePresets) ==>
      local.wagePresets == Some([WagePreset(1, FirstPresetName, DefaultWageValue)])
  {
    OpenDefaults(s, DefaultWageValue)
  }

  /** SettingsModal's open-time defaults: the fallback wage is `hourlyWage || 1000`. */
  function OpenSettingsModal(s: Settings): (local: Settings)
    ensures MissingOrEmpty(s.wagePresets) ==>
      local.wagePresets == Some([WagePreset(1, FirstPresetName, WageOrDefault(s.hourlyWage))])
  {
    OpenDefaults(s, WageOrDefault(s.hourlyWage))
  }

  /** After the load-time migration both modals open on the settings as
      they are: their defaults never apply. */
  lemma OpenAfterMigrationChangesNothing(loaded: Settings)
    ensures OpenInputSettings(MigrateSettings(loaded)) == MigrateSettings(loaded)
    ensures OpenSettingsModal(MigrateSettings(loaded)) == MigrateSettings(loaded)
  {
  }

  /** Where the two modals differ: only without wage presets and with a
      non-zero `hourlyWage`. */
  lemma OpenDefaultsDiffer(s: Settings)
    ensures OpenInputSettings(s) != OpenSettingsModal(s) <==>
      MissingOrEmpty(s.wagePresets) && s.hourlyWage.Some? && s.hourlyWage.value != 0 && s.hourlyWage.value != DefaultWageValue
  {
    if OpenInputSettings(s) != OpenSettingsModal(s) {
      assert OpenInputSettings(s).wagePresets != OpenSettingsModal(s).wagePresets;
    }
    if MissingOrEmpty(s.wagePresets) && s.hourlyWage.Some? && s.hourlyWage.value != 0 && s.hourlyWage.value != DefaultWageValue {
      assert OpenInputSettings(s).wagePresets.value[0].wage != OpenSettingsModal(s).wagePresets.value[0].wage;
    }
  }

  /** InputSettingsModal's custom limit: entered in units of 10,000 yen,
      stored as `(parseFloat(text) || 0) * 10000`. */
  function ManYenLimit(field: NumberField): (limit: real)
    ensures field.text == "" ==> limit == 0.0
    ensures field.text != "" ==> limit / 10000.0 == field.value
  {
    FloatOrZero(field) * 10000.0
  }

  /** The field shows `incomeLimit / 10000`; entering what it shows stores
      the same limit again. */
  lemma ManYenRoundTrip(limit: real, text: string)
    requires text != ""
    ensures ManYenLimit(NumberField(text, limit / 10000.0)) == limit
  {
  }

  /** SettingsModal's custom limit: stored as `parseInt(text) || 0`, so always
      an integer, truncated toward zero. */
  function YenLimit(field: NumberField): (limit: int)
    ensures field.text == "" ==> limit == 0
    ensures field.value >= 0.0 && field.text != "" ==> 0 <= limit && limit as real <= field.value < limit as real + 1.0
    ensures field.value < 0.0 && field.text != "" ==> limit as real - 1.0 < field.value <= limit as real <= 0.0
  {
    IntOrZero(field)
  }

  /** The field shows the limit itself; entering an integral limit stores it. */
  lemma YenRoundTrip(limit: int, text: string)
    requires text != ""
    ensures YenLimit(NumberField(text, limit as real)) == limit
  {
    TruncateInteger(limit);
  }
}
