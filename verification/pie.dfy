/**
 * The weekly pie view of the dashboard: `get_pie_values` (home.py, lines
 * 152-162) looks a week up in the wide table (one row per week, one column
 * per topic) and lists, in column order, each topic whose share in that
 * week is at least 0.05; the week is the slider's date written as
 * `YYYY-MM-DD` (home.py, line 190).
 *
 * The wide table is modelled after its `week` column has been set apart:
 * the topic column names in header order, and per row the week string and
 * the topic cells aligned with those names.
 */
module PieValues {
  import opened BooleanIndexing

  /** One row of the wide table: its week string and one cell per topic column. */
  datatype Row = Row(week: string, cells: seq<real>)

  /** The wide table: topic column names in header order, and its rows. */
  datatype Table = Table(columns: seq<string>, rows: seq<Row>)

  /** One entry of the pie chart's data, `{"category": ..., "value": ...}`. */
  datatype Slice = Slice(category: string, value: real)

  /**
   * What `get_pie_values` produces: the list of slices, or the index error
   * raised when no row carries the week and there is a column to read.
   */
  datatype PieResult = Values(slices: seq<Slice>) | IndexError

  /** The smallest share the pie shows. */
  const MinShare: real := 0.05

  /** Every row has one cell per topic column, as in any data frame. */
  predicate Aligned(t: Table)
  {
    forall i :: 0 <= i < |t.rows| ==> |t.rows[i].cells| == |t.columns|
  }

  /**
   * The mask `df["week"] == week` as a function value. It is named, rather
   * than written as a lambda at each use, so that every use denotes the same
   * function and the lemmas about `Select` apply to it.
   */
  function WeekIs(week: string): Row -> bool
  {
    (r: Row) => r.week == week
  }

  /** `df[df["week"] == week]`: the rows of the week, in table order. */
  function RowsOfWeek(t: Table, week: string): (r: seq<Row>)
    ensures forall i :: 0 <= i < |r| ==> r[i].week == week && r[i] in t.rows
    ensures forall i :: 0 <= i < |t.rows| && t.rows[i].week == week ==> t.rows[i] in r
  {
    Select(t.rows, WeekIs(week))
  }

  /** A row's cells paired with their column names, in column order. */
  function Pairs(columns: seq<string>, cells: seq<real>): seq<Slice>
    requires |cells| == |columns|
  {
    seq(|columns|, j requires 0 <= j < |columns| => Slice(columns[j], cells[j]))
  }

  /** A slice large enough to be shown. */
  predicate Shown(s: Slice)
  {
    s.value >= MinShare
  }

  /** The slices one row yields: its shown (column, cell) pairs, in column order. */
  function Emitted(columns: seq<string>, cells: seq<real>): (r: seq<Slice>)
    requires |cells| == |columns|
    ensures forall k :: 0 <= k < |r| ==> r[k].value >= MinShare
    ensures forall k :: 0 <= k < |r| ==> exists j :: 0 <= j < |columns| && r[k] == Slice(columns[j], cells[j])
    ensures forall j :: 0 <= j < |columns| && cells[j] >= MinShare ==> Slice(columns[j], cells[j]) in r
  {
    var ps := Pairs(columns, cells);
    var r := Select(ps, Shown);
    assert forall k :: 0 <= k < |r| ==> r[k] in ps;
    assert forall j :: 0 <= j < |columns| ==> ps[j] == Slice(columns[j], cells[j]);
    r
  }

  /**
   * The result of `get_pie_values(df, week)`: the slices of the first row
   * of the week; when no row carries the week, the first read of a cell
   * fails, unless there is no topic column to read.
   */
  function PieValuesOf(t: Table, week: string): (r: PieResult)
    requires Aligned(t)
    ensures r.Values? ==> |r.slices| <= |t.columns|
    ensures r.Values? ==> forall k :: 0 <= k < |r.slices| ==> r.slices[k].value >= MinShare
  {
    var matching := RowsOfWeek(t, week);
    if matching == [] then
      if |t.columns| == 0 then Values([]) else IndexError
    else
      Values(Emitted(t.columns, matching[0].cells))
  }

  /**
   * `get_pie_values`: select the week's rows, then walk the topic columns
   * in order, reading each column's cell in the first selected row and
   * appending a slice when it reaches the threshold.
   */
  method GetPieValues(t: Table, week: string) returns (res: PieResult)
    requires Aligned(t)
    ensures res == PieValuesOf(t, week)
    ensures res == IndexError <==> |t.columns| > 0 && forall i :: 0 <= i < |t.rows| ==> t.rows[i].week != week
    ensures res.Values? ==> forall k :: 0 <= k < |res.slices| ==> res.slices[k].value >= MinShare
  {
    var dfW := RowsOfWeek(t, week);
    var values: seq<Slice> := [];
    for j := 0 to |t.columns|
      invariant j > 0 ==> dfW != []
      invariant dfW == [] ==> values == []
      invariant dfW != [] ==> values == Select(Pairs(t.columns, dfW[0].cells)[..j], Shown)
    {
      if dfW == [] {
        return IndexError;
      }
      var v := dfW[0].cells[j];
      ghost var ps := Pairs(t.columns, dfW[0].cells);
      assert ps[..j + 1] == ps[..j] + [ps[j]];
      SelectSnoc(ps[..j], ps[j], Shown);
      if v >= MinShare {
        values := values + [Slice(t.columns[j], v)];
      }
    }
    if dfW != [] {
      ghost var ps := Pairs(t.columns, dfW[0].cells);
      assert ps[..|t.columns|] == ps;
    }
    res := Values(values);
    PieValuesFailsIff(t, week);
  }

  /**
   * The lookup fails exactly when no row carries the week and the table has
   * a topic column; with no topic column the result is the empty list.
   */
  lemma PieValuesFailsIff(t: Table, week: string)
    requires Aligned(t)
    ensures PieValuesOf(t, week) == IndexError
            <==> |t.columns| > 0 && forall i :: 0 <= i < |t.rows| ==> t.rows[i].week != week
    ensures |t.columns| == 0 ==> PieValuesOf(t, week) == Values([])
  {
    if forall i :: 0 <= i < |t.rows| ==> t.rows[i].week != week {
      SelectKeepsNone(t.rows, WeekIs(week));
    }
  }

  /**
   * The slices come from the first row that carries the week; rows after it
   * with the same week are ignored.
   */
  lemma PieValuesUseFirstRow(t: Table, week: string, i: nat)
    requires Aligned(t)
    requires i < |t.rows| && t.rows[i].week == week
    requires forall k :: 0 <= k < i ==> t.rows[k].week != week
    ensures PieValuesOf(t, week) == Values(Emitted(t.columns, t.rows[i].cells))
  {
    SelectFirst(t.rows, WeekIs(week), i);
  }

  /**
   * The slices of a row follow the column order and take each column at
   * most once: they are a subsequence of the row's (column, cell) pairs,
   * holding each shown pair as often as the row does and no other pair.
   */
  lemma EmittedInColumnOrder(columns: seq<string>, cells: seq<real>)
    requires |cells| == |columns|
    ensures IsSubseq(Emitted(columns, cells), Pairs(columns, cells))
    ensures forall s :: multiset(Emitted(columns, cells))[s]
                        == if s.value >= MinShare then multiset(Pairs(columns, cells))[s] else 0
  {
    var ps := Pairs(columns, cells);
    SelectIsSubseq(ps, Shown);
    forall s
      ensures multiset(Emitted(columns, cells))[s] == if s.value >= MinShare then multiset(ps)[s] else 0
    {
      SelectCounts(ps, Shown, s);
    }
  }

  /** The dropped `week` column is never a category: every category is a topic column name. */
  lemma EmittedNeverWeek(columns: seq<string>, cells: seq<real>)
    requires |cells| == |columns|
    requires "week" !in columns
    ensures forall k :: 0 <= k < |Emitted(columns, cells)| ==> Emitted(columns, cells)[k].category != "week"
  {
  }

  /**
   * A worked case: a week where `vaccine` holds 0.6, `economy` 0.04 and
   * `pemex` 0.36 yields the slices of `vaccine` and `pemex` only.
   */
  lemma BelowThresholdOmitted()
    ensures PieValuesOf(Table(["vaccine", "economy", "pemex"], [Row("2021-01-01", [0.6, 0.04, 0.36])]), "2021-01-01")
            == Values([Slice("vaccine", 0.6), Slice("pemex", 0.36)])
  {
    var t := Table(["vaccine", "economy", "pemex"], [Row("2021-01-01", [0.6, 0.04, 0.36])]);
    PieValuesUseFirstRow(t, "2021-01-01", 0);
    var ps := Pairs(t.columns, t.rows[0].cells);
    assert ps == [Slice("vaccine", 0.6), Slice("economy", 0.04), Slice("pemex", 0.36)];
  }

  function Digit(n: nat): char
    requires n < 10
  {
    ('0' as int + n) as char
  }

  function DigitValue(c: char): int
  {
    c as int - '0' as int
  }

  /**
   * `str(d)` of a calendar date, the key `get_pie_values` is called with:
   * the year in four digits, the month and the day in two, joined by '-'.
   */
  function WeekKey(year: nat, month: nat, day: nat): (k: string)
    requires 1 <= year <= 9999 && 1 <= month <= 12 && 1 <= day <= 31
    ensures |k| == 10 && k[4] == '-' && k[7] == '-'
    ensures forall i :: 0 <= i < 10 && i != 4 && i != 7 ==> '0' <= k[i] <= '9'
  {
    [Digit(year / 1000), Digit(year / 100 % 10), Digit(year / 10 % 10), Digit(year % 10), '-',
     Digit(month / 10), Digit(month % 10), '-',
     Digit(day / 10), Digit(day % 10)]
  }

  /** Reads year, month and day back from a key of the form `YYYY-MM-DD`. */
  function ParseWeekKey(k: string): (int, int, int)
    requires |k| == 10
  {
    (DigitValue(k[0]) * 1000 + DigitValue(k[1]) * 100 + DigitValue(k[2]) * 10 + DigitValue(k[3]),
     DigitValue(k[5]) * 10 + DigitValue(k[6]),
     DigitValue(k[8]) * 10 + DigitValue(k[9]))
  }

  /** A digit character reads back as its value. */
  lemma DigitRoundTrip(n: nat)
    requires n < 10
    ensures DigitValue(Digit(n)) == n
  {
  }

  /** A number below 10000 is the sum of its four decimal digits, each times its place value. */
  lemma FourDigits(n: nat)
    requires n < 10000
    ensures n == n / 1000 * 1000 + n / 100 % 10 * 100 + n / 10 % 10 * 10 + n % 10
  {
    var q1 := n / 10;
    var q2 := q1 / 10;
    var q3 := q2 / 10;
    assert n == q1 * 10 + n % 10;
    assert q1 == q2 * 10 + q1 % 10;
    assert q2 == q3 * 10 + q2 % 10;
    assert n / 100 == q2 by {
      assert n == q2 * 100 + (q1 % 10 * 10 + n % 10);
    }
    assert n / 1000 == q3 by {
      assert n == q3 * 1000 + (q2 % 10 * 100 + q1 % 10 * 10 + n % 10);
    }
  }

  /** A number below 100 is its tens digit times ten plus its units digit. */
  lemma TwoDigits(n: nat)
    requires n < 100
    ensures n == n / 10 * 10 + n % 10
  {
  }

  /** The key of a date reads back as that date. */
  lemma WeekKeyRoundTrip(year: nat, month: nat, day: nat)
    requires 1 <= year <= 9999 && 1 <= month <= 12 && 1 <= day <= 31
    ensures ParseWeekKey(WeekKey(year, month, day)) == (year, month, day)
  {
    var k := WeekKey(year, month, day);
    DigitRoundTrip(year / 1000);
    DigitRoundTrip(year / 100 % 10);
    DigitRoundTrip(year / 10 % 10);
    DigitRoundTrip(year % 10);
    DigitRoundTrip(month / 10);
    DigitRoundTrip(month % 10);
    DigitRoundTrip(day / 10);
    DigitRoundTrip(day % 10);
    FourDigits(year);
    TwoDigits(month);
    TwoDigits(day);
  }

  /**
   * Distinct dates give distinct keys, so the pie of a date is read only
   * from rows whose week string is exactly that date's key.
   */
  lemma WeekKeyInjective(y1: nat, m1: nat, d1: nat, y2: nat, m2: nat, d2: nat)
    requires 1 <= y1 <= 9999 && 1 <= m1 <= 12 && 1 <= d1 <= 31
    requires 1 <= y2 <= 9999 && 1 <= m2 <= 12 && 1 <= d2 <= 31
    requires WeekKey(y1, m1, d1) == WeekKey(y2, m2, d2)
    ensures y1 == y2 && m1 == m2 && d1 == d2
  {
    WeekKeyRoundTrip(y1, m1, d1);
    WeekKeyRoundTrip(y2, m2, d2);
  }
}
