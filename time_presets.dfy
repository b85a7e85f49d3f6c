/** The time preset editor of the settings modals (InputSettingsModal.jsx;
    SettingsModal.jsx carries the same handlers): a list of hour counts kept
    in ascending numeric order, and the text field used to add one. */
module TimePresets {
  import opened Common
  import opened Sorting

  /** The comparator `(a, b) => a - b`, as the order it sorts by. */
  function NumericLe(a: real, b: real): bool {
    a <= b
  }

  function NumericLt(a: real, b: real): bool {
    a < b
  }

  lemma NumericLeIsTotalPreorder()
    ensures IsTotalPreorder(NumericLe)
  {
  }

  /** Ascending with no value twice. */
  predicate StrictlyIncreasing(times: seq<real>) {
    Ascending(times, NumericLt)
  }

  /** The default list `[3, 4, 5, 6, 7, 8]` is strictly increasing. */
  lemma DefaultsStrictlyIncreasing()
    ensures StrictlyIncreasing([3.0, 4.0, 5.0, 6.0, 7.0, 8.0])
  {
  }

  /** `addTimePreset` accepts `parseFloat(text)` when it is a number (the
      empty text reads as NaN), positive, and not yet in the list. */
  predicate Accepts(times: seq<real>, field: NumberField) {
    field.text != "" && field.value > 0.0 && field.value !in times
  }

  /** `addTimePreset`: on acceptance the list gains the value and is
      re-sorted, and the field is cleared; otherwise nothing changes. */
  function AddTimePreset(times: seq<real>, field: NumberField): (r: (seq<real>, NumberField))
    ensures Accepts(times, field) ==>
      && multiset(r.0) == multiset(times) + multiset{field.value}
      && Ascending(r.0, NumericLe)
      && r.1 == EmptyField
    ensures !Accepts(times, field) ==> r == (times, field)
  {
    if Accepts(times, field) then
      NumericLeIsTotalPreorder();
      (Sort(times + [field.value], NumericLe), EmptyField)
    else (times, field)
  }

  /** Sorted and duplicate-free is strictly increasing, and back. */
  lemma StrictlyIncreasingIff(times: seq<real>)
    ensures StrictlyIncreasing(times) <==> Ascending(times, NumericLe) && Distinct(times)
  {
  }

  /** Adding keeps the list strictly increasing, one longer on acceptance. */
  lemma AddKeepsStrictlyIncreasing(times: seq<real>, field: NumberField)
    requires StrictlyIncreasing(times)
    ensures StrictlyIncreasing(AddTimePreset(times, field).0)
    ensures |AddTimePreset(times, field).0| == if Accepts(times, field) then |times| + 1 else |times|
  {
    if Accepts(times, field) {
      var r := AddTimePreset(times, field).0;
      StrictlyIncreasingIff(times);
      DistinctAppend(times, field.value);
      assert multiset(times + [field.value]) == multiset(times) + multiset{field.value};
      PermutationDistinct(times + [field.value], r);
      PermutationLength(times + [field.value], r);
      StrictlyIncreasingIff(r);
    }
  }

  /** `removeTimePreset`: drops every occurrence of the value, keeping the
      others in order. */
  function RemoveTimePreset(times: seq<real>, t: real): (r: seq<real>)
    ensures forall x :: x in r <==> x in times && x != t
    ensures forall x :: multiset(r)[x] == if x != t then multiset(times)[x] else 0
    ensures IsSubsequence(r, times)
  {
    var keep := (x: real) => x != t;
    Filter(times, keep)
  }

  /** Removing keeps the list strictly increasing. */
  lemma RemoveKeepsStrictlyIncreasing(times: seq<real>, t: real)
    requires StrictlyIncreasing(times)
    ensures StrictlyIncreasing(RemoveTimePreset(times, t))
  {
    SubsequenceAscending(RemoveTimePreset(times, t), times, NumericLt);
  }
}
