/** The month listing under the calendar (ShiftList.jsx): the keys of the
    displayed month, sorted, each with the date its key names, its value and
    the salary shown on its row. */
module ShiftList {
  import opened Common
  import opened Text
  import opened Sorting
  import opened Calendar
  import opened Shifts
  import opened Earnings

  /** `const [year, month, day] = key.split('-').map(Number)` followed by
      `new Date(year, month - 1, day)`: the day number, or None for an
      Invalid Date (a part missing or not a run of digits). */
  function KeyDay(key: string): Option<int> {
    var parts := Split(key, '-');
    if |parts| >= 3 && NumberOf(parts[0]).Some? && NumberOf(parts[1]).Some? && NumberOf(parts[2]).Some? then
      Some(JsDateDay(NumberOf(parts[0]).value, NumberOf(parts[1]).value - 1, NumberOf(parts[2]).value))
    else None
  }

  /** A key written by `getFormattedDate` names its own date again, for years
      from 100 on. */
  lemma KeyDayOfFormattedDate(d: Date)
    requires ValidDate(d) && d.year >= 100
    ensures KeyDay(FormatDate(d)) == Some(DayOf(d))
  {
    FormatDateSplit(d);
    JsDateOfParts(d);
  }

  lemma LexLeIsTotalPreorder()
    ensures IsTotalPreorder(LexLe)
  {
    forall a, b ensures LexLe(a, b) || LexLe(b, a) {
      LexLeTotal(a, b);
    }
    forall a, b, c | LexLe(a, b) && LexLe(b, c) ensures LexLe(a, c) {
      LexLeTransitive(a, b, c);
    }
  }

  /** `keys.sort()`: the same keys in ascending code-point order. */
  function SortedKeys(keys: seq<string>): (r: seq<string>)
    ensures multiset(r) == multiset(keys)
    ensures Ascending(r, LexLe)
  {
    LexLeIsTotalPreorder();
    Sort(keys, LexLe)
  }

  /** Sorting a duplicate-free listing keeps exactly its keys, each once. */
  lemma SortedKeysDistinct(keys: seq<string>)
    requires Distinct(keys)
    ensures Distinct(SortedKeys(keys)) && |SortedKeys(keys)| == |keys|
    ensures forall k :: k in SortedKeys(keys) <==> k in keys
  {
    var r := SortedKeys(keys);
    PermutationDistinct(keys, r);
    PermutationLength(keys, r);
    forall k ensures k in r <==> k in keys {
      assert k in r <==> k in multiset(r);
      assert k in keys <==> k in multiset(keys);
    }
  }

  /** The filter the listing applies: `key.startsWith(currentMonthPrefix)`. */
  function InMonth(year: int, month: int): string -> bool
    requires 1 <= month <= 12
  {
    k => MonthPrefix(year, month) <= k
  }

  /** The keys the listing shows, in the order it shows them. */
  function MonthKeys(shifts: ShiftMap, order: seq<string>, year: int, month: int): (keys: seq<string>)
    requires Lists(order, shifts) && 1 <= month <= 12
    ensures Distinct(keys) && |keys| == |Filter(order, InMonth(year, month))|
    ensures forall k :: k in keys <==> k in shifts && MonthPrefix(year, month) <= k
    ensures Ascending(keys, LexLe)
  {
    var matching := Filter(order, InMonth(year, month));
    SortedKeysDistinct(matching);
    SortedKeys(matching)
  }

  /** One entry of `monthlyShifts`: `{date, key, ...shifts[key]}`. */
  datatype ListRow = ListRow(key: string, day: Option<int>, value: Stored)

  /** `monthlyShifts`: `{date, key, ...shifts[key]}` for each listed key. */
  function MonthlyShifts(shifts: ShiftMap, order: seq<string>, year: int, month: int): (rows: seq<ListRow>)
    requires Lists(order, shifts) && 1 <= month <= 12
    ensures |rows| == |MonthKeys(shifts, order, year, month)|
  {
    var keys := MonthKeys(shifts, order, year, month);
    seq(|keys|, i requires 0 <= i < |keys| => ListRow(keys[i], KeyDay(keys[i]), shifts[keys[i]]))
  }

  /** The listing shows one row per key of the displayed month, in ascending
      key order, none twice, each with its own value and the date its key
      names; it is empty exactly when the month has no key, which is when
      the empty state is shown. */
  lemma MonthlyListing(shifts: ShiftMap, order: seq<string>, year: int, month: int, rows: seq<ListRow>)
    requires Lists(order, shifts) && 1 <= month <= 12
    requires rows == MonthlyShifts(shifts, order, year, month)
    ensures forall i :: 0 <= i < |rows| ==>
      && rows[i].key in shifts && MonthPrefix(year, month) <= rows[i].key
      && rows[i].value == shifts[rows[i].key] && rows[i].day == KeyDay(rows[i].key)
    ensures forall k :: k in shifts && MonthPrefix(year, month) <= k ==>
      exists i :: 0 <= i < |rows| && rows[i].key == k
    ensures forall i, j :: 0 <= i < j < |rows| ==> LexLe(rows[i].key, rows[j].key) && rows[i].key != rows[j].key
    ensures rows == [] <==> forall k :: k in shifts ==> !(MonthPrefix(year, month) <= k)
  {
    var keys := MonthKeys(shifts, order, year, month);
    RowsFollowKeys(shifts, order, year, month);
    forall k | k in shifts && MonthPrefix(year, month) <= k
      ensures exists i :: 0 <= i < |rows| && rows[i].key == k
    {
      var i :| 0 <= i < |keys| && keys[i] == k;
      assert rows[i].key == k;
    }
    if rows != [] {
      assert keys[0] in keys;
    }
  }

  lemma RowsFollowKeys(shifts: ShiftMap, order: seq<string>, year: int, month: int)
    requires Lists(order, shifts) && 1 <= month <= 12
    ensures var keys := MonthKeys(shifts, order, year, month);
      var rows := MonthlyShifts(shifts, order, year, month);
      forall i :: 0 <= i < |rows| ==>
        rows[i].key == keys[i] && keys[i] in shifts && rows[i].value == shifts[keys[i]] && rows[i].day == KeyDay(keys[i])
  {
  }

  /** The listing has as many rows as the month has keys. */
  lemma MonthlyRowCount(shifts: ShiftMap, order: seq<string>, year: int, month: int)
    requires Lists(order, shifts) && 1 <= month <= 12
    ensures |MonthlyShifts(shifts, order, year, month)| == |set k | k in shifts && MonthPrefix(year, month) <= k|
  {
    var keys := MonthKeys(shifts, order, year, month);
    DistinctCardinality(keys);
    assert (set k | k in keys) == (set k | k in shifts && MonthPrefix(year, month) <= k);
  }

  /** `shift.hours * shift.wage` on a row; None stands for NaN, which a
      legacy value (it spreads no fields) or a missing field gives. Where it
      is a number it is what `calculateTotal` adds for the same key. */
  function RowSalary(v: Stored): (salary: Option<real>)
    ensures salary.Some? <==> v.Object? && v.record.hours.Some? && v.record.wage.Some?
    ensures salary.Some? ==> salary.value == Contribution(v)
  {
    match v
    case Legacy(_) => None
    case Object(r) =>
      if r.hours.Some? && r.wage.Some? then Some(r.hours.value * r.wage.value as real) else None
  }

  /** The listing and the month's estimated salary cover the same records:
      summing the listed rows in display order gives `calculateTotal` of the
      month, so the header is the floor of that sum. */
  lemma ListedRowsMakeMonthlyTotal(shifts: ShiftMap, order: seq<string>, year: int, month: int)
    requires Lists(order, shifts) && 1 <= month <= 12
    ensures MonthlyTotal(shifts, order, year, month) == SumOf(shifts, MonthKeys(shifts, order, year, month)).Floor
  {
    var keys := MonthKeys(shifts, order, year, month);
    var mp := MonthPrefix(year, month);
    var inMonth: string -> bool := k => mp <= k;
    CalculateTotalIsSetTotal(shifts, order, inMonth);
    SumOfIsSetTotal(shifts, keys);
    assert (set k | k in keys) == Accepted(shifts, inMonth);
  }

  lemma LexLeCons(c: char, x: string, y: string)
    ensures LexLe([c] + x, [c] + y) <==> LexLe(x, y)
  {
    assert ([c] + x)[1..] == x && ([c] + y)[1..] == y;
  }

  /** Two strings that share a beginning compare as their rests do. */
  lemma {:induction false} LexLeCommonPrefix(p: string, x: string, y: string)
    ensures LexLe(p + x, p + y) <==> LexLe(x, y)
  {
    if p != [] {
      assert p + x == [p[0]] + (p[1..] + x);
      assert p + y == [p[0]] + (p[1..] + y);
      LexLeCons(p[0], p[1..] + x, p[1..] + y);
      LexLeCommonPrefix(p[1..], x, y);
    } else {
      assert p + x == x && p + y == y;
    }
  }

  lemma TwoDigitsChars(n: nat)
    requires n < 100
    ensures TwoDigits(n) == [DigitChar(n / 10), DigitChar(n % 10)]
  {
    if n >= 10 {
      assert NatToString(n) == NatToString(n / 10) + [DigitChar(n % 10)];
    }
  }

  /** Two two-character strings compare by their first characters, then
      by their second. */
  lemma LexLePairs(c1: char, c2: char, d1: char, d2: char)
    ensures LexLe([c1, c2], [d1, d2]) <==> c1 < d1 || (c1 == d1 && c2 <= d2)
  {
    assert [c1, c2][1..] == [c2] && [d1, d2][1..] == [d2];
    assert [c2][1..] == [] && [d2][1..] == [];
    assert LexLe([c2], [d2]) <==> c2 <= d2 by {
      assert LexLe([], []);
    }
    assert LexLe([c1, c2], [d1, d2]) <==> c1 < d1 || (c1 == d1 && LexLe([c2], [d2]));
  }

  lemma DecimalOrder(a: nat, b: nat)
    ensures a <= b <==> a / 10 < b / 10 || (a / 10 == b / 10 && a % 10 <= b % 10)
  {
    assert a == 10 * (a / 10) + a % 10 && b == 10 * (b / 10) + b % 10;
    if a / 10 < b / 10 {
      assert 10 * (a / 10) + 10 <= 10 * (b / 10);
    } else if a / 10 > b / 10 {
      assert 10 * (b / 10) + 10 <= 10 * (a / 10);
    }
  }

  /** Zero-padded numbers below 100 sort as the numbers do. */
  lemma TwoDigitsOrder(a: nat, b: nat)
    requires a < 100 && b < 100
    ensures LexLe(TwoDigits(a), TwoDigits(b)) <==> a <= b
  {
    var a1, a2, b1, b2 := DigitChar(a / 10), DigitChar(a % 10), DigitChar(b / 10), DigitChar(b % 10);
    TwoDigitsChars(a);
    TwoDigitsChars(b);
    LexLePairs(a1, a2, b1, b2);
    assert (a1 < b1 <==> a / 10 < b / 10) && (a1 == b1 <==> a / 10 == b / 10) && (a2 <= b2 <==> a % 10 <= b % 10);
    DecimalOrder(a, b);
  }

  /** Within one month the sorted keys are in date order: the listing is
      chronological. */
  lemma KeysChronological(d1: Date, d2: Date)
    requires ValidDate(d1) && ValidDate(d2) && d1.year == d2.year && d1.month == d2.month
    ensures LexLe(FormatDate(d1), FormatDate(d2)) <==> d1.day <= d2.day
  {
    var p := MonthPrefix(d1.year, d1.month);
    KeyAfterMonthPrefix(d1);
    KeyAfterMonthPrefix(d2);
    LexLeCommonPrefix(p, "-" + TwoDigits(d1.day), "-" + TwoDigits(d2.day));
    LexLeCommonPrefix("-", TwoDigits(d1.day), TwoDigits(d2.day));
    TwoDigitsOrder(d1.day, d2.day);
  }

  lemma KeyAfterMonthPrefix(d: Date)
    requires ValidDate(d)
    ensures FormatDate(d) == MonthPrefix(d.year, d.month) + ("-" + TwoDigits(d.day))
  {
  }
}
