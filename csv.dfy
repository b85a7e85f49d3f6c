/** The CSV export (csvHelper.js `downloadCSV`): every shift, in key order,
    normalised to hours, wage and name, serialised as one line of six quoted
    fields under a header line, the whole text led by a byte order mark. */
module Csv {
  import opened Common
  import opened Text
  import opened Sorting
  import opened Calendar
  import opened Shifts
  import opened ShiftList

  const Headers: seq<string> := ["日付", "曜日", "勤務先名", "時間", "時給", "給与"]
  const DayLabels: seq<string> := ["日", "月", "火", "水", "木", "金", "土"]
  const Bom: char := '\U{FEFF}'

  /** The three values a shift is normalised to; `hours` is None for NaN. */
  datatype Normalized = Normalized(hours: Option<real>, wage: int, wageName: string)

  /** A legacy value keeps its reading and gets wage 0 and no name; a record
      takes `parseFloat(hours || 0)`, `parseInt(wage || 0)` and
      `wageName || ''`. */
  function Normalize(v: Stored): (n: Normalized)
    ensures n.hours.None? <==> v.Legacy? && v.reading.None?
    ensures v.Legacy? ==> n.hours == v.reading
    ensures v.Object? ==> n.hours == Some(v.record.hours.GetOr(0.0))
    ensures v.Legacy? ==> n.wage == 0 && n.wageName == ""
    ensures v.Object? ==> n.wage == v.record.wage.GetOr(0) && n.wageName == v.record.wageName.GetOr("")
    ensures v.Object? ==> n.hours.value * n.wage as real == Contribution(v)
  {
    match v
    case Legacy(reading) => Normalized(reading, 0, "")
    case Object(r) => Normalized(Some(r.hours.GetOr(0.0)), r.wage.GetOr(0), r.wageName.GetOr(""))
  }

  /** The normalisation as the source writes it: three locals set to 0, 0
      and '' and then overwritten in the branch the value's type selects. */
  method NormalizeValue(v: Stored) returns (hours: Option<real>, wage: int, wageName: string)
    ensures Normalized(hours, wage, wageName) == Normalize(v)
  {
    hours, wage, wageName := Some(0.0), 0, "";
    match v {
      case Legacy(reading) =>
        hours := reading;
      case Object(r) =>
        hours := Some(r.hours.GetOr(0.0));
        wage := r.wage.GetOr(0);
        wageName := r.wageName.GetOr("");
    }
  }

  /** `Math.floor(wage * hours)`; None for NaN. */
  function Salary(n: Normalized): (s: Option<int>)
    ensures s.None? <==> n.hours.None?
    ensures s.Some? ==> s.value as real <= n.wage as real * n.hours.value < s.value as real + 1.0
  {
    if n.hours.Some? then Some((n.wage as real * n.hours.value).Floor) else None
  }

  /** The salary column of a record is `calculateTotal`'s contribution of
      that record rounded down; a legacy value earns 0 in both, unless its
      reading is NaN. */
  lemma SalaryMatchesContribution(v: Stored)
    ensures v.Object? ==> Salary(Normalize(v)) == Some(Contribution(v).Floor)
    ensures v.Legacy? && v.reading.Some? ==> Salary(Normalize(v)) == Some(0) && Contribution(v) == 0.0
  {
    if v.Object? {
      var n := Normalize(v);
      assert n.wage as real * n.hours.value == n.hours.value * n.wage as real;
    }
  }

  /** `['日', …, '土'][date.getDay()]`, and `undefined` for an Invalid Date. */
  function DayLabel(day: Option<int>): (name: string)
    ensures day.Some? ==> name == DayLabels[WeekdayOfDay(day.value)]
    ensures day.None? ==> name == "undefined"
  {
    if day.Some? then DayLabels[WeekdayOfDay(day.value)] else "undefined"
  }

  /** A template literal's rendering of a possibly-NaN number. */
  function RealText(x: Option<real>, show: real -> string): string {
    if x.Some? then show(x.value) else "NaN"
  }

  function IntText(x: Option<int>): string {
    if x.Some? then IntToString(x.value) else "NaN"
  }

  /** The six fields of a row, before quoting. `show` is JavaScript's
      rendering of a number. */
  function RowFields(key: string, v: Stored, show: real -> string): (fields: seq<string>)
    ensures |fields| == |Headers|
  {
    var n := Normalize(v);
    [key, DayLabel(KeyDay(key)), n.wageName, RealText(n.hours, show), IntToString(n.wage), IntText(Salary(n))]
  }

  /** `` `"${field}"` ``: wrapped in double quotes, nothing escaped. */
  function Quote(field: string): (q: string)
    ensures |q| == |field| + 2 && q[0] == '"' && q[|q| - 1] == '"' && q[1..|q| - 1] == field
  {
    "\"" + field + "\""
  }

  function QuoteAll(fields: seq<string>): (qs: seq<string>)
    ensures |qs| == |fields|
    ensures forall i :: 0 <= i < |fields| ==> qs[i] == Quote(fields[i])
  {
    if fields == [] then [] else [Quote(fields[0])] + QuoteAll(fields[1..])
  }

  /** One CSV line: the quoted fields joined by `,`. */
  function RowText(fields: seq<string>): string {
    Join(QuoteAll(fields), ',')
  }

  /** The header line; the headers themselves are not quoted. */
  function HeaderLine(): string {
    Join(Headers, ',')
  }

  /** The header line holds no line break and splits into the six headers. */
  lemma HeaderLineShape()
    ensures '\n' !in HeaderLine()
    ensures Split(HeaderLine(), ',') == Headers
  {
    NoSeparatorInJoin(Headers, ',', '\n');
    SplitJoin(Headers, ',');
  }

  /** Strips the quotes `Quote` adds; any other text is returned as is. */
  function Unquote(q: string): (field: string)
    ensures forall f :: Quote(f) == q ==> field == f
  {
    if |q| >= 2 && q[0] == '"' && q[|q| - 1] == '"' then q[1..|q| - 1] else q
  }

  function UnquoteAll(qs: seq<string>): (fields: seq<string>)
    ensures |fields| == |qs|
    ensures forall i :: 0 <= i < |qs| ==> fields[i] == Unquote(qs[i])
  {
    if qs == [] then [] else [Unquote(qs[0])] + UnquoteAll(qs[1..])
  }

  /** Sorting a listing of the keys of `shifts` lists each key once. */
  lemma SortedListing(shifts: ShiftMap, order: seq<string>)
    requires Lists(order, shifts)
    ensures Lists(SortedKeys(order), shifts) && |SortedKeys(order)| == |shifts|
  {
    var keys := SortedKeys(order);
    SortedKeysDistinct(order);
    assert (set k | k in keys) == shifts.Keys;
    DistinctCardinality(keys);
  }

  /** The lines of the export: the header line, then the row of each key in
      ascending key order. */
  function CsvLines(shifts: ShiftMap, order: seq<string>, show: real -> string): (lines: seq<string>)
    requires Lists(order, shifts)
    ensures |SortedKeys(order)| == |shifts|
    ensures |lines| == 1 + |shifts| && lines[0] == HeaderLine()
  {
    var keys := SortedKeys(order);
    SortedListing(shifts, order);
    [HeaderLine()] + KeyRows(shifts, keys, show)
  }

  /** Line `i` (counting the header as line 0) is the row of the `i`-th key
      in ascending key order. */
  lemma CsvRow(shifts: ShiftMap, order: seq<string>, show: real -> string, i: int)
    requires Lists(order, shifts) && 1 <= i <= |shifts|
    ensures |SortedKeys(order)| == |shifts|
    ensures SortedKeys(order)[i - 1] in shifts
    ensures CsvLines(shifts, order, show)[i]
      == RowText(RowFields(SortedKeys(order)[i - 1], shifts[SortedKeys(order)[i - 1]], show))
  {
    SortedListing(shifts, order);
  }

  /** The row of each key, in the order given. */
  function KeyRows(shifts: ShiftMap, keys: seq<string>, show: real -> string): (rows: seq<string>)
    requires forall k :: k in keys ==> k in shifts
    ensures |rows| == |keys|
    ensures forall i :: 0 <= i < |keys| ==> rows[i] == RowText(RowFields(keys[i], shifts[keys[i]], show))
  {
    if keys == [] then [] else [RowText(RowFields(keys[0], shifts[keys[0]], show))] + KeyRows(shifts, keys[1..], show)
  }

  /** `downloadCSV`'s text: None (the "no data" alert) for a missing or empty
      map, otherwise the byte order mark and the lines joined by `\n`. */
  function BuildCsv(stored: Option<ShiftMap>, order: seq<string>, show: real -> string): (content: Option<string>)
    requires stored.Some? ==> Lists(order, stored.value)
    ensures content.None? <==> stored.None? || |stored.value| == 0
    ensures content.Some? ==> |content.value| >= 1 && content.value[0] == Bom
  {
    if stored.None? || |stored.value| == 0 then None
    else Some([Bom] + Join(CsvLines(stored.value, order, show), '\n'))
  }

  /** A row splits back into its six fields when none holds a `,`; their
      quotes stripped, the fields come back. A field holding `"` is written
      unescaped, so this is the only round trip the format offers. */
  lemma RowRoundTrip(fields: seq<string>)
    requires |fields| >= 1
    requires forall i :: 0 <= i < |fields| ==> ',' !in fields[i]
    ensures Split(RowText(fields), ',') == QuoteAll(fields)
    ensures UnquoteAll(Split(RowText(fields), ',')) == fields
  {
    SplitRow(fields);
    UnquoteQuoted(fields);
  }

  lemma SplitRow(fields: seq<string>)
    requires |fields| >= 1
    requires forall i :: 0 <= i < |fields| ==> ',' !in fields[i]
    ensures Split(RowText(fields), ',') == QuoteAll(fields)
  {
    var qs := QuoteAll(fields);
    forall i | 0 <= i < |qs| ensures ',' !in qs[i] {
      QuoteKeepsOut(fields[i], ',');
    }
    SplitJoin(qs, ',');
  }

  lemma UnquoteQuoted(fields: seq<string>)
    ensures UnquoteAll(QuoteAll(fields)) == fields
  {
    var back := UnquoteAll(QuoteAll(fields));
    forall i | 0 <= i < |fields| ensures back[i] == fields[i] {
      assert QuoteAll(fields)[i] == Quote(fields[i]);
    }
  }

  /** Quoting adds no character but `"`. */
  lemma QuoteKeepsOut(field: string, c: char)
    requires c != '"' && c !in field
    ensures c !in Quote(field)
  {
    var q := Quote(field);
    forall j | 0 <= j < |q| ensures q[j] != c {
      if 0 < j < |q| - 1 {
        assert q[j] == q[1..|q| - 1][j - 1];
      }
    }
  }

  /** Every row of the export has exactly the header's six fields when no
      key, name or number rendering holds a `,`. */
  lemma RowHasSixFields(key: string, v: Stored, show: real -> string)
    requires ',' !in key && ',' !in Normalize(v).wageName
    requires forall x :: ',' !in show(x)
    ensures |Split(RowText(RowFields(key, v, show)), ',')| == |Headers|
    ensures UnquoteAll(Split(RowText(RowFields(key, v, show)), ',')) == RowFields(key, v, show)
  {
    var fields := RowFields(key, v, show);
    var n := Normalize(v);
    assert ',' !in DayLabel(KeyDay(key));
    assert ',' !in IntToString(n.wage) by {
      assert forall i :: 1 <= i < |IntToString(n.wage)| ==> IsDigit(IntToString(n.wage)[i]);
    }
    assert ',' !in IntText(Salary(n)) by {
      if Salary(n).Some? {
        var t := IntToString(Salary(n).value);
        assert forall i :: 1 <= i < |t| ==> IsDigit(t[i]);
      }
    }
    assert ',' !in RealText(n.hours, show);
    RowRoundTrip(fields);
  }

  /** The export splits back into its lines (the header line, then one
      line per key in ascending key order) when no field holds a line
      break: `1 + |shifts|` lines. */
  lemma CsvLayout(shifts: ShiftMap, order: seq<string>, show: real -> string)
    requires Lists(order, shifts) && |shifts| > 0
    requires forall k :: k in shifts ==> '\n' !in k && '\n' !in Normalize(shifts[k]).wageName
    requires forall x :: '\n' !in show(x)
    ensures Split(BuildCsv(Some(shifts), order, show).value[1..], '\n') == CsvLines(shifts, order, show)
  {
    var lines := CsvLines(shifts, order, show);
    forall i | 0 <= i < |lines| ensures '\n' !in lines[i] {
      if i == 0 {
        HeaderLineShape();
      } else {
        CsvRow(shifts, order, show, i);
        var k := SortedKeys(order)[i - 1];
        NoLineBreakInRow(k, shifts[k], show);
      }
    }
    SplitJoin(lines, '\n');
    assert ([Bom] + Join(lines, '\n'))[1..] == Join(lines, '\n');
  }

  lemma NoLineBreakInRow(key: string, v: Stored, show: real -> string)
    requires '\n' !in key && '\n' !in Normalize(v).wageName
    requires forall x :: '\n' !in show(x)
    ensures '\n' !in RowText(RowFields(key, v, show))
  {
    var fields := RowFields(key, v, show);
    var n := Normalize(v);
    assert '\n' !in IntToString(n.wage) by {
      assert forall i :: 1 <= i < |IntToString(n.wage)| ==> IsDigit(IntToString(n.wage)[i]);
    }
    assert '\n' !in IntText(Salary(n)) by {
      if Salary(n).Some? {
        var t := IntToString(Salary(n).value);
        assert forall i :: 1 <= i < |t| ==> IsDigit(t[i]);
      }
    }
    assert '\n' !in DayLabel(KeyDay(key));
    assert '\n' !in RealText(n.hours, show);
    var qs := QuoteAll(fields);
    forall i | 0 <= i < |qs| ensures '\n' !in qs[i] {
      QuoteKeepsOut(fields[i], '\n');
    }
    NoSeparatorInJoin(qs, ',', '\n');
  }

  /** Joining parts free of a character, with a separator other than it,
      gives text free of it. */
  lemma {:induction false} NoSeparatorInJoin(parts: seq<string>, sep: char, c: char)
    requires sep != c && forall i :: 0 <= i < |parts| ==> c !in parts[i]
    ensures c !in Join(parts, sep)
  {
    if |parts| > 1 {
      NoSeparatorInJoin(parts[1..], sep, c);
    }
  }
}
