# Part-time shift check: a verified model of its core

The app is a single-page tracker for part-time work. Its state is a shift
map keyed by `YYYY-MM-DD` date strings, whose values are
`{hours, wage, wageName}` records or, in old data, bare numbers. A
settings object holds the wage presets `{id, name, wage}`, the
hour presets, the event presets `{id, name, color}` and the yearly income
limit. From these the app shows:

- the month's and the year's estimated earnings;
- what is left below the income limit, with a progress bar and its colour;
- a calendar grid and a listing of the month's shifts.

It edits the state through:

- a day editor;
- a batch entry that expands a weekday pattern over a period;
- preset editors for wages, hours and events;
- a CSV export.

The model follows the program file by file:

| Dafny file (module) | program |
|---|---|
| `common.dfy` (`Common`) | `x \|\| d` defaults, `Math.max(...ids, 0) + 1`, `filter`, `map` over a list |
| `text.dfy` (`Text`) | `String(n)`, `padStart`, `Number` on digits, `split`/`join`, the default string order of `sort()` |
| `sorting.dfy` (`Sorting`) | `Array.prototype.sort` with a comparator |
| `calendar.dfy` (`Calendar`) | `new Date(y, m, d)`, `getDay()`, `getDaysInMonth`, `getFormattedDate` and the key prefixes |
| `shifts.dfy` (`Shifts`) | the shift map, `calculateTotal`, the load-time shift migration, `handleSaveShift` |
| `earnings.dfy` (`Earnings`) | monthly and annual totals, remaining income, progress percentage and colour |
| `settings.dfy` (`SettingsState`) | the settings migration, the settings modals' open-time defaults, the custom income limit |
| `wage_presets.dfy` (`WagePresets`) | change, adjust, add and remove a wage preset |
| `time_presets.dfy` (`TimePresets`) | add and remove an hour preset |
| `events.dfy` (`Events`) | open, add, remove and change an event preset |
| `shift_edit.dfy` (`ShiftEdit`) | the day editor's initialisation and save |
| `batch.dfy` (`Batch`) | the batch entry's weekday settings and its save loop |
| `shift_list.dfy` (`ShiftList`) | the month listing |
| `csv.dfy` (`Csv`) | the CSV export's text |

The model's conventions:

- Dates are whole days counted from 1970-01-01.
- A JavaScript number that may be NaN or infinite is a datatype (`JsNumber`) or an `Option`.
- A number input is its text together with the number it reads as (`NumberField`).
- `Object.keys(m)` is an explicit listing `order` of the keys of `m`. Every total is proved independent of that order.

Where the code mutates step by step, the model is a method with its loop:

- the shift migration;
- the calendar grid;
- `handleSaveShift`;
- the batch save;
- the CSV normalisation.

Each such method is proved equal to a specification function, and the
properties are proved about that function. Everything else is a function.

The cutoff day for a pay period is stored in the settings, but no
computation in the program uses it. Monthly totals are plain
calendar-month prefix sums. The model does the same: `cutoffDay` is a
field that is kept and never read.

## Model

| member | source | states |
|---|---|---|
| Shifts.Contribution | src/App.jsx:128-131 | a bare number and a record missing hours or wage add 0; a record with non-negative hours and wage adds a non-negative amount |
| Shifts.SumOf | src/App.jsx:125-132 | the left fold over the keys is 0 for no keys and never negative when every listed value adds a non-negative amount |
| Shifts.CalculateTotal | src/App.jsx:124-133 | with non-negative records the total is never negative; a filter that accepts no key gives 0 |
| Shifts.CalculateTotalIsSetTotal | src/App.jsx:124-133 | `calculateTotal` equals the order-free sum of `hours * wage` over exactly the keys the filter accepts, each once; a missing field contributes 0 |
| Shifts.CalculateTotalOrderIndependent | src/App.jsx:124-133 | any two listings of the keys give the same total |
| Shifts.SumOfIsSetTotal | src/App.jsx:125-132 | folding a duplicate-free key list from the left gives the set sum of those keys |
| Shifts.ContributionNonNegative | src/App.jsx:128-131 | a record with non-negative hours and wage adds a non-negative amount |
| Shifts.SetTotalSubset | src/App.jsx:124-133 | with non-negative records, a filter accepting more keys never gives a smaller total |
| Shifts.TotalAfterDelete | src/App.jsx:177-178 | deleting a key lowers every total that accepts it by exactly that key's contribution and leaves the others |
| Shifts.TotalAfterWrite | src/App.jsx:181-185 | writing a key replaces its old contribution by the new one in every total that accepts it |
| Shifts.TotalMonotone | src/App.jsx:181-185 | adding a new non-negative record never lowers a total |
| Shifts.SaveShiftTotal | src/App.jsx:172-190 | a save moves each total by the new contribution minus the old one |
| Shifts.Migrated | src/App.jsx:39-53 | the migrated map has the same keys; every value is a record; records pass unchanged; a legacy value becomes `{hours: its reading, wage: first preset wage or 1000, wageName: first preset name or '基本'}` |
| Shifts.MigrateShifts | src/App.jsx:39-53 | the key-by-key loop builds exactly `Migrated` |
| Shifts.MigrationIdempotent | src/App.jsx:39-53 | migrating twice equals migrating once |
| Shifts.DefaultWage | src/App.jsx:47 | `wagePresets?.[0]?.wage \|\| 1000`: the first preset's wage unless absent or 0, then 1000; never 0 |
| Shifts.DefaultName | src/App.jsx:48 | `wagePresets?.[0]?.name \|\| '基本'`: the first preset's name unless absent or empty, then '基本'; never empty |
| Shifts.Upgrade | src/App.jsx:46-50 | every migrated value is a record object |
| Shifts.FindById | src/App.jsx:180 | the preset found is the first whose `String(id)` equals the selection; none is found exactly when no id renders to it |
| Shifts.FindByRenderedId | src/App.jsx:180 | selecting by a rendered id finds a preset exactly when that id occurs, and finds one carrying it |
| Shifts.ShiftFromInput | src/App.jsx:177-185 | `''` or `'0'` builds nothing; any other input builds a full record with the input's hours and the selected preset's wage and name, or 0 and '不明' when no preset matches |
| Shifts.SaveShift | src/App.jsx:172-190 | with no selected date nothing changes; otherwise every other key is unchanged, and the selected day's key is removed for `''`/`'0'` or holds the built record |
| Earnings.MonthlyAtMostAnnual | src/App.jsx:135-139 | with non-negative records, 0 ≤ monthly estimate ≤ annual estimate of the same year |
| Earnings.PrefixTotal | src/App.jsx:124-139 | `Math.floor(calculateTotal(startsWith(prefix)))` is the order-free sum over exactly the keys with that prefix, rounded down; never negative with non-negative records |
| Earnings.MonthlyTotal | src/App.jsx:135-136 | the month's estimate is the order-free sum over the keys with the month prefix, rounded down |
| Earnings.AnnualTotal | src/App.jsx:138-139 | the year's estimate is the order-free sum over the keys with the year prefix, rounded down |
| Earnings.RemainingIncome | src/App.jsx:141 | `incomeLimit − annual`; NaN exactly when the limit is absent; negative exactly when annual exceeds the limit |
| Earnings.Divide | src/App.jsx:142 | JavaScript division: a finite quotient for a non-zero divisor |
| Earnings.ProgressPercentage | src/App.jsx:142 | never above 100 and never +∞; NaN exactly for an absent limit or 0/0; in [0, 100] for annual ≥ 0 and limit > 0; equals `annual / limit * 100` when annual ≤ limit and 100 when annual ≥ limit |
| Earnings.ProgressColor | src/App.jsx:144-148 | red exactly when annual exceeds the limit; amber exactly when not red and the percentage is at least 80 |
| Earnings.ColorBands | src/App.jsx:144-148 | for a positive limit: red iff annual > limit; amber iff 0.8·limit ≤ annual ≤ limit |
| Calendar.GetDaysInMonth | src/App.jsx:111-118 | `firstDay.getDay()` leading empty cells, then each day 1..last of the month in order, each a valid date; length is weekday of the 1st plus the month's length |
| Calendar.LastDayOfMonth | src/App.jsx:113 | `new Date(y, m + 1, 0)` is the last day of month `m` |
| Calendar.DaysInMonthAt | src/App.jsx:113 | a month has 28 to 31 days |
| Calendar.WeekdayOfDay | src/App.jsx:115 | `getDay()` lies in 0..6 |
| Calendar.DaysInMonth | src/App.jsx:113 | February has 29 days exactly in leap years |
| Calendar.FormatDateSplit | src/App.jsx:192-194 | a formatted key splits on `-` into year, padded month and padded day, which read back as the date's numbers |
| Calendar.MonthPrefixMatchesExactly | src/App.jsx:135-136 | a formatted key starts with the month prefix exactly when its date lies in that year and month |
| Calendar.YearPrefixMatchesExactly | src/App.jsx:138-139 | a formatted key starts with the year prefix exactly when its date lies in that year |
| Calendar.MonthPrefixExtendsYearPrefix | src/App.jsx:135-139 | every key the monthly filter accepts, the annual filter accepts |
| Calendar.JsDateOfParts | src/components/ShiftList.jsx:27 | `new Date(y, m - 1, d)` from a valid date's parts is that date, for years from 100 on |
| Calendar.JsDateDay | src/App.jsx:112-113 | `new Date(y, monthIndex, day)` for an in-range month and day is the day number of that date, with years 0..99 read as 1900..1999 |
| Calendar.FormatDate | src/App.jsx:192-194 | `YYYY-MM-DD` from year, padded month and padded day; what it keeps is stated by `Calendar.FormatDateSplit` and `Calendar.FormatDateHasOwnPrefixes` |
| Calendar.FormatDateHasOwnPrefixes | src/App.jsx:135-139 | a date's key starts with its own month prefix and its own year prefix, so both totals count it |
| Calendar.MonthPrefix | src/App.jsx:135-136 | the month prefix extends the year prefix by exactly two characters |
| Calendar.YearPrefix | src/App.jsx:138-139 | the year prefix is the year's text followed by `-` |
| Text.TwoDigitsRoundTrip | src/App.jsx:193 | a zero-padded number reads back as the number |
| Text.NatToStringRoundTrip | src/App.jsx:193 | `String(n)` reads back as `n` |
| Text.IntToStringInjective | src/App.jsx:180 | two ids render to the same text only when they are equal |
| Text.SplitJoin | src/components/ShiftList.jsx:26 | `split` undoes `join` when no part holds the separator |
| Text.LexLeTotal | src/components/ShiftList.jsx:24 | any two strings are ordered by `sort()`'s default order |
| Text.LexLeTransitive | src/components/ShiftList.jsx:24 | that order is transitive |
| Sorting.Sort | src/components/InputSettingsModal.jsx:57 | sorting returns a permutation of its input in ascending order |
| Sorting.SubsequenceAscending | src/components/InputSettingsModal.jsx:66 | filtering an ascending list leaves it ascending |
| SettingsState.MigrateSettings | src/App.jsx:25-37 | the result always has wage and hour presets. With no wage presets it installs `[{1, '基本', hourlyWage \|\| 1000}]`, drops `hourlyWage` and defaults the limit to 1230000. Otherwise wage presets, `hourlyWage` and limit are kept. Empty hour presets become `[3..8]`; event presets and cutoff day are kept |
| SettingsState.MigrateSettingsIdempotent | src/App.jsx:25-37 | migrating twice equals migrating once; the limit default is applied only in the no-wage-preset branch |
| SettingsState.WageOrDefault | src/App.jsx:31 | `hourlyWage \|\| 1000` |
| SettingsState.LimitOrDefault | src/App.jsx:30 | `incomeLimit \|\| 1230000`: a present non-zero limit is kept; an absent or 0 limit becomes 1230000 |
| SettingsState.OpenDefaults | src/components/InputSettingsModal.jsx:8-16 | on open, an empty or missing wage list becomes one preset, only a missing hour list becomes `[3..8]`, and every other field is kept |
| SettingsState.OpenInputSettings | src/components/InputSettingsModal.jsx:12 | the input settings modal's fallback preset has wage 1000 |
| SettingsState.OpenSettingsModal | src/components/SettingsModal.jsx:9-17 | the settings modal's fallback preset has wage `hourlyWage \|\| 1000` |
| SettingsState.OpenAfterMigrationChangesNothing | src/components/SettingsModal.jsx:9-17 | after the load-time migration neither modal's open-time defaults change anything |
| SettingsState.OpenDefaultsDiffer | src/components/SettingsModal.jsx:13 | the two modals open differently exactly when there are no wage presets and `hourlyWage` is set to something other than 0 and 1000 |
| SettingsState.ManYenLimit | src/components/InputSettingsModal.jsx:217 | the custom limit is the entry in units of 10,000 yen; an empty entry stores 0 |
| SettingsState.ManYenRoundTrip | src/components/InputSettingsModal.jsx:216-217 | in exact arithmetic, a non-empty entry whose number is `limit / 10000` stores `limit` again |
| SettingsState.YenLimit | src/components/SettingsModal.jsx:232 | `parseInt(text) \|\| 0`: an integer truncated toward zero; an empty entry stores 0 |
| SettingsState.YenRoundTrip | src/components/SettingsModal.jsx:231-232 | a non-empty entry whose number is an integer limit stores exactly that limit |
| WagePresets.ChangeWagePreset | src/components/InputSettingsModal.jsx:18-25 | only the presets carrying the id get the new field value; ids, length, order and every other preset are unchanged |
| WagePresets.Clamped | src/components/InputSettingsModal.jsx:31 | `Math.max(0, wage + amount)` is never negative and is the sum when that is not negative |
| WagePresets.AdjustWage | src/components/InputSettingsModal.jsx:27-34 | the matching presets' wage moves by the amount, clamped at 0, and their names stay; other presets and the ids are unchanged |
| WagePresets.AdjustKeepsWagesNonNegative | src/components/InputSettingsModal.jsx:27-34 | adjusting keeps every wage non-negative |
| WagePresets.AddWagePreset | src/components/InputSettingsModal.jsx:36-42 | appends one preset whose id exceeds every existing id, named `追加シフト{id}` with wage 1000 |
| WagePresets.AddKeepsInvariants | src/components/InputSettingsModal.jsx:36-42 | adding keeps ids unique and wages non-negative |
| WagePresets.RemoveWagePreset | src/components/InputSettingsModal.jsx:44-50 | with at most one preset nothing changes; otherwise exactly the presets with other ids remain, each as often as before, in order |
| WagePresets.RemoveKeepsOne | src/components/InputSettingsModal.jsx:44-50 | with unique ids the list never becomes empty, ids stay unique, a present id takes exactly one preset with it, and an absent id changes nothing |
| Common.NextId | src/components/InputSettingsModal.jsx:37 | `Math.max(...ids, 0) + 1` is at least 1 and exceeds every id, so it is fresh |
| Common.MaxOrZero | src/components/InputSettingsModal.jsx:37 | `Math.max(...ids, 0)` bounds every id and is 0 or one of them |
| TimePresets.AddTimePreset | src/components/InputSettingsModal.jsx:52-61 | an accepted value is added once, the list re-sorted ascending and the field cleared; anything else leaves list and field unchanged |
| TimePresets.Accepts | src/components/InputSettingsModal.jsx:52-56 | a value is accepted when the field is non-empty, the value positive and not yet listed; `TimePresets.AddTimePreset` states what acceptance does |
| TimePresets.AddKeepsStrictlyIncreasing | src/components/InputSettingsModal.jsx:52-61 | adding keeps a strictly increasing list strictly increasing, one longer exactly on acceptance |
| TimePresets.StrictlyIncreasingIff | src/components/InputSettingsModal.jsx:57 | strictly increasing means ascending and duplicate-free |
| TimePresets.NumericLeIsTotalPreorder | src/components/InputSettingsModal.jsx:57 | `(a, b) => a - b` orders the numbers totally |
| TimePresets.DefaultsStrictlyIncreasing | src/App.jsx:34 | the default hour presets are strictly increasing |
| TimePresets.RemoveTimePreset | src/components/InputSettingsModal.jsx:63-68 | every occurrence of the value goes, the rest stay as often as before and in their order |
| TimePresets.RemoveKeepsStrictlyIncreasing | src/components/InputSettingsModal.jsx:63-68 | removing keeps the list strictly increasing |
| Events.OpenEventPresets | src/components/EventSettingsModal.jsx:18-22 | opening takes the stored presets, or `[]` when absent |
| Events.AddEventPreset | src/components/EventSettingsModal.jsx:24-27 | appends `{fresh id, '新しい予定', 'ring-blue-300'}` with an id above every existing one |
| Events.AddKeepsIdsUnique | src/components/EventSettingsModal.jsx:24-27 | adding keeps ids unique |
| Events.RemoveEventPreset | src/components/EventSettingsModal.jsx:29-31 | exactly the presets with other ids remain, each as often as before, in order |
| Events.RemoveEvent | src/components/EventSettingsModal.jsx:29-31 | removing keeps ids unique and removes exactly one preset when the id is present, down to the empty list |
| Events.ChangeEventPreset | src/components/EventSettingsModal.jsx:33-37 | only the matching presets get the new field value; ids, length, order and other presets unchanged |
| ShiftEdit.OpenEditor | src/components/ShiftEditModal.jsx:15-41 | the hours are the shift's hours as shown, carried over as missing for a record without hours, or empty with no shift. The wage selection is the first preset matching wage and name, else the first preset's id. Event id and note come from the event, or none and ''. The tab is 'event' exactly when there is an event and no shift |
| ShiftEdit.FindByWageAndName | src/components/ShiftEditModal.jsx:20 | the preset found is the first with the shift's wage and name; none exactly when no preset has both |
| ShiftEdit.SaveEditor | src/components/ShiftEditModal.jsx:43-66 | typed hours build the shift as `handleSaveShift` builds it; carried missing hours never clear the day and are written back missing with the selected preset's wage and name (or 0 and '不明'); the event is absent exactly when no event preset (or 0) is selected, else `{presetId, note}` |
| ShiftEdit.FindByIdOfMember | src/components/ShiftEditModal.jsx:47 | with unique ids, selecting a preset's rendered id finds that preset |
| ShiftEdit.OpenThenSaveKeepsDay | src/components/ShiftEditModal.jsx:15-66 | opening a record matched by a preset and saving untouched writes the same record and event back, whether its hours are set or missing |
| Batch.ToggleDay | src/components/BatchInputModal.jsx:31-35 | only entry `index` changes, and only its `enabled`; the length stays |
| Batch.ChangeHours | src/components/BatchInputModal.jsx:37-41 | only entry `index` changes, and only its hours; the length stays |
| Batch.InitialWageSelection | src/components/BatchInputModal.jsx:23-27 | an empty selection becomes `String(wagePresets[0].id)`, which selects `wagePresets[0]`; a made selection is kept; without presets it stays empty |
| Batch.Emits | src/components/BatchInputModal.jsx:75 | a weekday emits a shift when it is enabled and its hours are non-empty and positive; used by `Batch.ExpansionDays` |
| Batch.Expansion | src/components/BatchInputModal.jsx:67-85 | the emitted shifts of a period; an empty period emits nothing; the rest is `Batch.ExpansionDays` |
| Batch.ExpansionDays | src/components/BatchInputModal.jsx:67-85 | a day gets a shift exactly when it lies in the period and its weekday is enabled with positive hours; that shift has the weekday's hours and the preset's wage and name, and a positive contribution for a positive wage |
| Batch.ExpansionStep | src/components/BatchInputModal.jsx:71-84 | one more day of the walk adds exactly that day's shift when its weekday emits one, and nothing otherwise |
| Batch.ExpansionWeekly | src/components/BatchInputModal.jsx:71-75 | days a week apart inside the period are treated alike |
| Batch.HandleSave | src/components/BatchInputModal.jsx:47-96 | a missing date, start after end and no matching preset are errors that save nothing. Otherwise the day-by-day loop, with its decreasing distance to the end, produces exactly the expansion. An empty expansion is saved only if confirmed |
| ShiftList.KeyDayOfFormattedDate | src/components/ShiftList.jsx:26-27 | a key's `split('-').map(Number)` parts rebuilt by `new Date(y, m - 1, d)` give the date the key was formatted from |
| ShiftList.KeyDay | src/components/ShiftList.jsx:26-27 | the day `new Date(...split('-').map(Number))` names, or an Invalid Date (None) when a part is missing or not a number; its meaning for real keys is `ShiftList.KeyDayOfFormattedDate` |
| ShiftList.SortedKeys | src/components/ShiftList.jsx:24 | `sort()` gives the same keys in ascending string order |
| ShiftList.SortedKeysDistinct | src/components/ShiftList.jsx:22-24 | sorting a duplicate-free listing keeps each key exactly once |
| ShiftList.MonthKeys | src/components/ShiftList.jsx:20-24 | the listed keys are exactly the map's keys with the month prefix, each once, in ascending order |
| ShiftList.MonthlyShifts | src/components/ShiftList.jsx:22-33 | one entry per listed key |
| ShiftList.MonthlyListing | src/components/ShiftList.jsx:20-41 | every entry is a key of the month with its own value and the date its key names; every key of the month is listed; keys ascend strictly; the list is empty (the empty-state branch) exactly when the month has no key |
| ShiftList.MonthlyRowCount | src/components/ShiftList.jsx:22-33 | the number of entries equals the number of keys with the month prefix |
| ShiftList.RowSalary | src/components/ShiftList.jsx:81 | a row's `hours * wage` is a number exactly for a record with both fields, and then it is what `calculateTotal` adds for that key |
| ShiftList.ListedRowsMakeMonthlyTotal | src/components/ShiftList.jsx:22-33 | summing the listed keys in display order gives the month's estimated salary before rounding down |
| ShiftList.KeysChronological | src/components/ShiftList.jsx:24 | within one month, string order of formatted keys is day order |
| ShiftList.TwoDigitsOrder | src/components/ShiftList.jsx:24 | zero-padded numbers below 100 sort as the numbers do |
| Csv.BuildCsv | src/utils/csvHelper.js:3-46 | a missing or empty map gives no CSV; otherwise the text starts with the byte order mark |
| Csv.CsvLines | src/utils/csvHelper.js:10-46 | one header line plus one line per key |
| Csv.SortedListing | src/utils/csvHelper.js:10-12 | the sorted keys list every key of the map exactly once |
| Csv.CsvRow | src/utils/csvHelper.js:10-44 | line `i` is the row of the `i`-th key in ascending key order |
| Csv.CsvLayout | src/utils/csvHelper.js:46 | with no line break inside a field, the text after the byte order mark splits on `\n` into exactly those lines |
| Csv.Normalize | src/utils/csvHelper.js:15-28 | a legacy value gives its reading as hours, wage 0 and name ''; a record gives its hours, wage and name defaulting to 0, 0 and ''; for a record `hours * wage` is `calculateTotal`'s contribution |
| Csv.NormalizeValue | src/utils/csvHelper.js:15-28 | the reassigning branches compute exactly `Normalize` |
| Csv.Salary | src/utils/csvHelper.js:34 | `Math.floor(wage * hours)` is the integer just below or at the product, and NaN exactly when the hours are NaN |
| Csv.SalaryMatchesContribution | src/utils/csvHelper.js:34 | a record's salary column is its `calculateTotal` contribution rounded down; a legacy value earns 0 in both |
| Csv.DayLabel | src/utils/csvHelper.js:30-32 | the weekday label of the key's date, or `undefined` for an Invalid Date |
| Csv.RowFields | src/utils/csvHelper.js:36-43 | a row has as many fields as the header |
| Csv.Quote | src/utils/csvHelper.js:43 | a field wrapped in one `"` on each side, nothing escaped |
| Csv.QuoteAll | src/utils/csvHelper.js:43 | every field is quoted, in place and in order |
| Csv.RowText | src/utils/csvHelper.js:36-44 | a line is the quoted fields joined by `,`; `Csv.RowRoundTrip` states what it keeps |
| Csv.RowRoundTrip | src/utils/csvHelper.js:36-43 | a row whose fields hold no `,` splits into its quoted fields, and unquoting them gives the fields back |
| Csv.RowHasSixFields | src/utils/csvHelper.js:36-43 | when key, name and number renderings hold no `,`, every row splits into exactly six fields, which unquote to the row's values |
| Csv.HeaderLineShape | src/utils/csvHelper.js:8 | the header line splits on `,` into the six headers |

## Left out

- Browser I/O is not modelled: `localStorage` loading and saving, the persistence effects, the theme, and the Blob/anchor download of the CSV. The load result is a parameter.
- Backup import/export, image export and the system settings form (`src/utils/backupHelper.js`, `src/utils/imageHelper.js`, `src/components/SystemSettingsModal.jsx`) are not part of this model.
- `alert` and `confirm`: an alert is an error result, and the batch confirmation is a boolean input.
- Number rendering (`String(x)` for a non-integer, `toLocaleString`) is a parameter `show`, since it is not defined in the program.
- Record hours: the program stores the hours input's text and reads it with `parseFloat` when summing. The model stores the number that text reads as. Hours that are missing, falsy or not a number (NaN, for example from migrating a non-numeric legacy value) are one case (None), which `calculateTotal` and the CSV treat as 0. The listing's `hours * wage` treats a stored 0 or `''` differently from a missing field; the model treats both as missing.
- Numbers are exact reals, not IEEE 754 doubles. `Shifts.Contribution`, `Shifts.SumOf`, `Earnings.PrefixTotal`, `Csv.Salary` and `SettingsState.ManYenLimit` compute exactly. The program rounds every product and sum before `Math.floor`: `Math.floor(100 * 4.35)` is 434 there and 435 here.
- CalculateTotalOrderIndependent: holds for the exact sum only. Double addition is not associative, so the program's total can differ in its last bits with the order `Object.keys` gives, and after `Math.floor` by 1.
- Salary: floors the exact product `wage * hours`, where the program floors the rounded double product; the two differ when the double product falls just below an integer.
- ManYenRoundTrip: holds in exact arithmetic only. The field shows `incomeLimit / 10000` as a double, and multiplying it back by 10000 can miss the original limit by a rounding error.
- `parseInt` and `parseFloat` are modelled on plain decimal text. Exponents, hexadecimal, leading signs and surrounding whitespace are not modelled. `Number` on a key part reads only runs of digits; anything else is NaN (`ShiftList.KeyDay`).
- Batch entry: days are day numbers. Parsing the date inputs as UTC and writing keys with `toISOString` is not modelled, and neither is the time-zone shift between the UTC key and the local `getDay`. The map `handleSave` hands to its caller is keyed by day number.
- `handlePresetClick` in the batch entry and the day editor (setting an hours input to a preset's text) is not modelled, because it is a plain field assignment.
- `handleDateClick` (`src/App.jsx:154-170`) repeats the day editor's initialisation. It is modelled once, as `ShiftEdit.OpenEditor`.
- The settings modal (`src/components/SettingsModal.jsx:19-69`) repeats the wage and hour preset handlers of the input settings modal. They are modelled once, as `WagePresets` and `TimePresets`. Only the open-time defaults and the custom-limit parse differ, and those are modelled separately.
- The income-limit `<select>` stores `parseInt` of an option value. This is a plain assignment of one of three constants and is not modelled.
- JavaScript `Date` is modelled only for its day arithmetic. Its representable range (±8.64·10^15 ms) is not modelled, and neither are time of day or time zones.
- ShiftEdit.OpenEditor: the hours field is rendered with `show`. A stored hours value that is a number, rather than text, is compared with `'0'` by strict equality on save. The model does not capture that a stored numeric 0 therefore does not clear the day. A record without hours is taken to hold `undefined` or NaN, which survive an unedited save. A stored `''` would instead clear the day, and is not represented.
- The default `sort()` order is modelled character by character by code point. JavaScript compares UTF-16 code units, and the two orders differ only for characters above U+FFFF.
- Csv.BuildCsv: embedded `"` are not doubled, so the output departs from section 2 (rule 7) of RFC 4180. The model makes no general parse round trip claim. It proves only the comma-free split of `Csv.RowRoundTrip`.
- ShiftList.MonthlyShifts: the listing's JSX rendering (colours, labels) is not modelled. Only the data it renders is.
