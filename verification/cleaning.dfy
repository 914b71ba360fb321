/** clean_data.py's `basic_clean`: timestamp and numeric coercion, median fill of numeric
    columns, "unknown" fill of text columns, calendar columns and the depth category. The table
    is a value; writing it to CSV is not part of this model. */
module Cleaning {
  import opened Options
  import opened Strings
  import opened Frames
  import opened Sorting
  import opened Stats
  import Calendar

  // ---------------------------------------------------------------------------
  // Per-cell coercions
  // ---------------------------------------------------------------------------

  /** The largest magnitude a `datetime64[ns]` holds (-2^63 itself is NaT). */
  const MaxNanos: int := 9223372036854775807

  predicate InTimestampRange(ms: real) {
    -MaxNanos as real <= ms * 1000000.0 <= MaxNanos as real
  }

  /** `pd.to_numeric(errors="coerce")` on one cell: numbers stay, numerals are read, other text
      becomes missing; a timestamp becomes its nanosecond count. */
  function ToNumber(v: Option<Value>): (r: Option<Value>)
    ensures r.None? || r.value.Num?
    ensures v.Some? && v.value.Num? ==> r == v
    ensures v.None? ==> r.None?
    ensures v.Some? && v.value.Text? ==> (r.Some? <==> ParseNumber(v.value.s).Some?)
    ensures v.Some? && v.value.Text? && r.Some? ==> r.value.x == ParseNumber(v.value.s).value
    ensures v.Some? && v.value.Stamp? ==> r.Some? && r.value.x == v.value.ms * 1000000.0
  {
    match v
    case None => None
    case Some(Num(_)) => v
    case Some(Text(s)) =>
      (match ParseNumber(s)
       case Some(x) => Some(Num(x))
       case None => None)
    case Some(Stamp(ms)) => Some(Num(ms * 1000000.0))
  }

  /** A decimal written out with a whole part and `n` fraction digits coerces to the number it
      denotes. */
  lemma ToNumberOfDecimal(q: nat, r: nat, n: nat)
    requires r < Pow10(n)
    ensures ToNumber(Some(Text(ShowFixed(q, r, n)))) == Some(Num(FixedValue(q, r, n)))
  {
    ParseShowFixed(q, r, n);
  }

  /** `pd.to_datetime(unit="ms", errors="coerce")` on one cell: an epoch-millisecond number (or
      numeral) inside the `datetime64[ns]` range becomes a timestamp, anything else NaT. */
  function ToTimestamp(v: Option<Value>): (r: Option<Value>)
    ensures r.None? || r.value.Stamp?
    ensures v.Some? && v.value.Num? ==> (r.Some? <==> InTimestampRange(v.value.x))
    ensures v.Some? && v.value.Num? && r.Some? ==> r.value.ms == v.value.x
    ensures v.None? ==> r.None?
  {
    match v
    case None => None
    case Some(Num(x)) => if InTimestampRange(x) then Some(Stamp(x)) else None
    case Some(Text(s)) =>
      (match ParseNumber(s)
       case Some(x) => if InTimestampRange(x) then Some(Stamp(x)) else None
       case None => None)
    case Some(Stamp(_)) => v
  }

  // ---------------------------------------------------------------------------
  // Lines 20-22: numeric coercion of the listed columns that exist
  // ---------------------------------------------------------------------------

  function CoerceNumeric(t: Table, cols: seq<string>): (r: Table)
    requires Distinct(cols)
    ensures r.columns == t.columns && |r.rows| == |t.rows|
    ensures WellFormed(t) ==> WellFormed(r)
    ensures forall i, c | 0 <= i < |t.rows| ::
      Cell(r.rows[i], c) == if c in cols && c in t.columns then ToNumber(Cell(t.rows[i], c)) else Cell(t.rows[i], c)
    decreases |cols|
  {
    if |cols| == 0 then t
    else
      var next := if cols[0] in t.columns then MapColumn(t, cols[0], ToNumber) else t;
      var r := CoerceNumeric(next, cols[1..]);
      assert forall i, c | 0 <= i < |t.rows| ::
        Cell(r.rows[i], c) == if c in cols && c in t.columns then ToNumber(Cell(t.rows[i], c)) else Cell(t.rows[i], c)
      by {
        forall i, c | 0 <= i < |t.rows|
          ensures Cell(r.rows[i], c) == if c in cols && c in t.columns then ToNumber(Cell(t.rows[i], c)) else Cell(t.rows[i], c)
        {
          if c == cols[0] {
            assert c !in cols[1..];
          } else {
            assert c in cols <==> c in cols[1..];
          }
        }
      }
      r
  }

  // ---------------------------------------------------------------------------
  // Lines 25-29: median fill
  // ---------------------------------------------------------------------------

  /** `median(skipna=True)` with 0 in place of the NaN that no values give: at most half of the
      values lie strictly below it and at most half strictly above; it is one of the values when
      their number is odd, and 0 when there are none. Otherwise it is exactly the median: the
      mean of the two middle order statistics. */
  function MedianOrZero(xs: seq<real>): (v: real)
    ensures |xs| == 0 ==> v == 0.0
    ensures |xs| > 0 ==> Some(v) == Median(xs)
    ensures |xs| > 0 ==> exists a, b | a in xs && b in xs ::
      && IsOrderStatistic(xs, a, (|xs| - 1) / 2)
      && IsOrderStatistic(xs, b, |xs| / 2)
      && v == (a + b) / 2.0
    ensures CountWhere(xs, Below(v)) <= |xs| / 2
    ensures CountWhere(xs, Above(v)) <= |xs| / 2
    ensures |xs| % 2 == 1 ==> v in xs
  {
    match Median(xs)
    case Some(m) => m
    case None => 0.0
  }

  /** Line 28's fill value for column `c`: `df[c].median()`, or 0 when the column holds no
      number. */
  function FillValue(t: Table, c: string): real {
    MedianOrZero(NumbersIn(t.rows, c))
  }

  /** `df[c] = df[c].fillna(v)`. */
  function FillColumn(t: Table, c: string, v: Value): (r: Table)
    requires c in t.columns
    ensures r.columns == t.columns && |r.rows| == |t.rows|
    ensures WellFormed(t) ==> WellFormed(r)
    ensures forall i, d | 0 <= i < |t.rows| ::
      Cell(r.rows[i], d) == if d == c && Cell(t.rows[i], c).None? then Some(v) else Cell(t.rows[i], d)
  {
    MapColumn(t, c, (cell: Option<Value>) => if cell.None? then Some(v) else cell)
  }

  /** In each column of `cols` the table has, exactly the missing cells of `t` hold that
      column's fill value in `r`; every other cell is as in `t`. */
  ghost predicate FillsWithFillValues(t: Table, r: Table, cols: seq<string>)
    requires |r.rows| == |t.rows|
  {
    forall i, c | 0 <= i < |t.rows| ::
      Cell(r.rows[i], c) ==
        if c in cols && c in t.columns && Cell(t.rows[i], c).None? then Some(Num(FillValue(t, c)))
        else Cell(t.rows[i], c)
  }

  /** The fill loop over `cols`: in each listed column the table has, exactly the missing cells
      change, each to that column's fill value computed before filling; every other cell, the
      column set and the row count stay as they were. */
  function FillNumeric(t: Table, cols: seq<string>): (r: Table)
    requires Distinct(cols)
    ensures r.columns == t.columns && |r.rows| == |t.rows|
    ensures WellFormed(t) ==> WellFormed(r)
    ensures FillsWithFillValues(t, r, cols)
    decreases |cols|
  {
    if |cols| == 0 then t
    else
      var next := FillNumberIn(t, cols[0]);
      var r := FillNumeric(next, cols[1..]);
      FillNumericStep(t, next, r, cols);
      r
  }

  /** One turn of the fill loop: `df[c] = df[c].fillna(df[c].median())` when the table has
      column `c`. Only the missing cells of `c` change, and so no other column's fill value. */
  function FillNumberIn(t: Table, c: string): (r: Table)
    ensures r.columns == t.columns && |r.rows| == |t.rows|
    ensures WellFormed(t) ==> WellFormed(r)
    ensures forall i, d | 0 <= i < |t.rows| ::
      Cell(r.rows[i], d) ==
        if d == c && c in t.columns && Cell(t.rows[i], c).None? then Some(Num(FillValue(t, c)))
        else Cell(t.rows[i], d)
    ensures forall d | d != c :: FillValue(r, d) == FillValue(t, d)
  {
    if c in t.columns then
      var r := FillColumn(t, c, Num(FillValue(t, c)));
      forall d | d != c
        ensures FillValue(r, d) == FillValue(t, d)
      {
        FillValueElsewhere(t, c, Num(FillValue(t, c)), d);
      }
      r
    else t
  }

  /** One turn of the numeric fill loop: filling `cols[0]` and then the rest fills `cols`. */
  lemma FillNumericStep(t: Table, next: Table, r: Table, cols: seq<string>)
    requires Distinct(cols) && |cols| > 0
    requires next.columns == t.columns && |next.rows| == |t.rows| && |r.rows| == |t.rows|
    requires forall i, d {:trigger Cell(next.rows[i], d)} | 0 <= i < |t.rows| ::
      Cell(next.rows[i], d) ==
        if d == cols[0] && d in t.columns && Cell(t.rows[i], d).None? then Some(Num(FillValue(t, d)))
        else Cell(t.rows[i], d)
    requires forall c | c != cols[0] :: FillValue(next, c) == FillValue(t, c)
    requires FillsWithFillValues(next, r, cols[1..])
    ensures FillsWithFillValues(t, r, cols)
  {
    forall i, c | 0 <= i < |t.rows|
      ensures Cell(r.rows[i], c) ==
        if c in cols && c in t.columns && Cell(t.rows[i], c).None? then Some(Num(FillValue(t, c)))
        else Cell(t.rows[i], c)
    {
      var here := Cell(next.rows[i], c);
      var before := Cell(t.rows[i], c);
      assert here == if c == cols[0] && c in t.columns && before.None? then Some(Num(FillValue(t, c))) else before;
      if c in cols[1..] {
        assert c != cols[0] by {
          var k :| 0 <= k < |cols[1..]| && cols[1..][k] == c;
          assert cols[k + 1] == c;
        }
        assert c in cols;
        assert here == before;
      } else {
        assert c in cols <==> c == cols[0];
        assert Cell(r.rows[i], c) == here;
      }
    }
  }

  /** Filling one column leaves every other column's fill value as it was. */
  lemma FillValueElsewhere(t: Table, c0: string, v: Value, c: string)
    requires c0 in t.columns && c != c0
    ensures FillValue(FillColumn(t, c0, v), c) == FillValue(t, c)
  {
    NumbersInSameColumn(FillColumn(t, c0, v).rows, t.rows, c);
  }

  // ---------------------------------------------------------------------------
  // Lines 37-39: "unknown" fill
  // ---------------------------------------------------------------------------

  /** The text fill loop over `cols`: in each listed column the table has, missing cells become
      "unknown" and present cells are kept as they are (no trimming, no case folding). */
  function FillText(t: Table, cols: seq<string>): (r: Table)
    ensures r.columns == t.columns && |r.rows| == |t.rows|
    ensures WellFormed(t) ==> WellFormed(r)
    ensures forall i, c | 0 <= i < |t.rows| ::
      Cell(r.rows[i], c) ==
        if c in cols && c in t.columns && Cell(t.rows[i], c).None? then Some(Text(Unknown))
        else Cell(t.rows[i], c)
    decreases |cols|
  {
    if |cols| == 0 then t
    else
      var next := if cols[0] in t.columns then FillColumn(t, cols[0], Text(Unknown)) else t;
      var r := FillText(next, cols[1..]);
      forall i, c | 0 <= i < |t.rows|
        ensures Cell(r.rows[i], c) ==
          if c in cols && c in t.columns && Cell(t.rows[i], c).None? then Some(Text(Unknown)) else Cell(t.rows[i], c)
      {
        assert c in cols <==> c == cols[0] || c in cols[1..];
      }
      r
  }

  // ---------------------------------------------------------------------------
  // Lines 42-50: derived columns
  // ---------------------------------------------------------------------------

  /** `.dt.year` on one cell: missing for NaT, otherwise the whole number of the year the
      timestamp's day lies in. */
  function YearCell(time: Option<Value>): (c: Option<Value>)
    ensures c.None? <==> !(time.Some? && time.value.Stamp?)
    ensures c.Some? ==> c.value.Num? && c.value.x.Floor as real == c.value.x
    ensures c.Some? ==> Calendar.DayInYear(Calendar.EpochDayOf(time.value.ms), c.value.x.Floor)
  {
    match time
    case Some(Stamp(ms)) => Some(Num(Calendar.YearOf(ms) as real))
    case _ => None
  }

  /** `.dt.month` on one cell: missing for NaT, otherwise the whole number of the month the
      timestamp's day lies in. */
  function MonthCell(time: Option<Value>): (c: Option<Value>)
    ensures c.None? <==> !(time.Some? && time.value.Stamp?)
    ensures c.Some? ==> c.value.Num? && c.value.x.Floor as real == c.value.x
    ensures c.Some? ==> Calendar.DayInMonth(time.value.ms, c.value.x.Floor)
  {
    match time
    case Some(Stamp(ms)) => Some(Num(Calendar.MonthOf(ms) as real))
    case _ => None
  }

  /** `df["year"]` and `df["month"]` from `df["time"]`: the year and month of each row's
      timestamp, both missing exactly when the timestamp is (NaT), the month a number from 1 to
      12 otherwise. */
  function DeriveCalendar(t: Table): (r: Table)
    ensures r.columns == t.columns + {"year", "month"} && |r.rows| == |t.rows|
    ensures WellFormed(t) ==> WellFormed(r)
    ensures forall i | 0 <= i < |t.rows| ::
      && Cell(r.rows[i], "year") == YearCell(Cell(t.rows[i], "time"))
      && Cell(r.rows[i], "month") == MonthCell(Cell(t.rows[i], "time"))
    ensures forall i | 0 <= i < |t.rows| ::
      && (Cell(r.rows[i], "year").None? <==> StampAt(t.rows[i], "time").None?)
      && (Cell(r.rows[i], "month").None? <==> StampAt(t.rows[i], "time").None?)
      && (Cell(r.rows[i], "month").Some? ==>
            NumAt(r.rows[i], "month").Some? && 1.0 <= NumAt(r.rows[i], "month").value <= 12.0)
    ensures forall i, c | 0 <= i < |t.rows| && c != "year" && c != "month" ::
      Cell(r.rows[i], c) == Cell(t.rows[i], c)
  {
    var withYear := SetColumn(t, "year", (row: Row) => YearCell(Cell(row, "time")));
    SetColumn(withYear, "month", (row: Row) => MonthCell(Cell(row, "time")))
  }

  const Shallow: string := "shallow"
  const Intermediate: string := "intermediate"
  const Deep: string := "deep"

  /** The depth bucket of line 45's lambda: each bucket holds exactly the depths its name
      promises, the boundaries 50 and 300 both falling in "intermediate". */
  function DepthCategory(depth: Option<real>): (c: string)
    ensures c == Unknown <==> depth.None?
    ensures c == Shallow <==> depth.Some? && depth.value < 50.0
    ensures c == Intermediate <==> depth.Some? && 50.0 <= depth.value <= 300.0
    ensures c == Deep <==> depth.Some? && depth.value > 300.0
  {
    match depth
    case None => Unknown
    case Some(d) => if d < 50.0 then Shallow else if d <= 300.0 then Intermediate else Deep
  }

  /** `df["depth_category"]` from `df["depth_km"]`. */
  function ClassifyDepth(t: Table): (r: Table)
    ensures r.columns == t.columns + {"depth_category"} && |r.rows| == |t.rows|
    ensures WellFormed(t) ==> WellFormed(r)
    ensures forall i | 0 <= i < |t.rows| ::
      Cell(r.rows[i], "depth_category") == Some(Text(DepthCategory(NumAt(t.rows[i], "depth_km"))))
    ensures forall i, c | 0 <= i < |t.rows| && c != "depth_category" :: Cell(r.rows[i], c) == Cell(t.rows[i], c)
  {
    SetColumn(t, "depth_category", (row: Row) => Some(Text(DepthCategory(NumAt(row, "depth_km")))))
  }

  // ---------------------------------------------------------------------------
  // The whole of basic_clean
  // ---------------------------------------------------------------------------

  lemma NumericColumnsDistinct()
    ensures Distinct(NumericColumns)
  {
  }

  /** Every column of `cols` among `present` holds a number in every row. */
  ghost predicate NumbersFilled(t: Table, cols: seq<string>, present: set<string>) {
    forall i, c | 0 <= i < |t.rows| && c in cols && c in present :: NumAt(t.rows[i], c).Some?
  }

  /** Every column of `cols` among `present` holds a value in every row. */
  ghost predicate ValuesFilled(t: Table, cols: seq<string>, present: set<string>) {
    forall i, c | 0 <= i < |t.rows| && c in cols && c in present :: Cell(t.rows[i], c).Some?
  }

  /** Coercion followed by the median fill leaves a number in every cell of every listed column:
      a cell coercion could not read becomes missing and is then filled. */
  lemma NumericStage(t: Table, cols: seq<string>)
    requires Distinct(cols)
    ensures NumbersFilled(FillNumeric(CoerceNumeric(t, cols), cols), cols, t.columns)
  {
    var n := CoerceNumeric(t, cols);
    var f := FillNumeric(n, cols);
    forall i, c | 0 <= i < |f.rows| && c in cols && c in t.columns
      ensures NumAt(f.rows[i], c).Some?
    {
      assert Cell(n.rows[i], c) == ToNumber(Cell(t.rows[i], c));
      assert Cell(f.rows[i], c) == if Cell(n.rows[i], c).None? then Some(Num(FillValue(n, c))) else Cell(n.rows[i], c);
    }
  }

  /** Lines 20-29: coercion of the listed numeric columns, then their median fill; afterwards
      each of them the table has holds a number in every row. */
  function CoerceAndFill(t: Table): (r: Table)
    ensures r.columns == t.columns && |r.rows| == |t.rows|
    ensures WellFormed(t) ==> WellFormed(r)
    ensures NumbersFilled(r, NumericColumns, t.columns)
    ensures CoercedAndFilled(t, r, NumericColumns)
  {
    NumericColumnsDistinct();
    NumericStage(t, NumericColumns);
    CoerceThenFill(t, NumericColumns);
    FillNumeric(CoerceNumeric(t, NumericColumns), NumericColumns)
  }

  /** The text fill completes its columns and, touching only missing cells, keeps the numbers of
      any other columns in place. */
  lemma TextStage(t: Table, textCols: seq<string>, numCols: seq<string>, present: set<string>)
    requires present <= t.columns
    ensures ValuesFilled(FillText(t, textCols), textCols, present)
    ensures NumbersFilled(t, numCols, present) ==> NumbersFilled(FillText(t, textCols), numCols, present)
  {
    var f := FillText(t, textCols);
    forall i, c | 0 <= i < |f.rows| && c in textCols && c in present
      ensures Cell(f.rows[i], c).Some?
    {
      assert Cell(f.rows[i], c) == if Cell(t.rows[i], c).None? then Some(Text(Unknown)) else Cell(t.rows[i], c);
    }
    if NumbersFilled(t, numCols, present) {
      forall i, c | 0 <= i < |f.rows| && c in numCols && c in present
        ensures NumAt(f.rows[i], c).Some?
      {
        assert NumAt(t.rows[i], c).Some?;
        assert Cell(f.rows[i], c) == Cell(t.rows[i], c);
      }
    }
  }

  /** A table that agrees with `t` on the cells of `cols` keeps them filled. */
  lemma SameCellsFilled(t: Table, r: Table, cols: seq<string>, present: set<string>)
    requires |r.rows| == |t.rows|
    requires forall i, c | 0 <= i < |t.rows| && c in cols :: Cell(r.rows[i], c) == Cell(t.rows[i], c)
    ensures NumbersFilled(t, cols, present) ==> NumbersFilled(r, cols, present)
    ensures ValuesFilled(t, cols, present) ==> ValuesFilled(r, cols, present)
  {
    forall i, c | 0 <= i < |r.rows| && c in cols && c in present
      ensures NumAt(r.rows[i], c) == NumAt(t.rows[i], c) && Cell(r.rows[i], c) == Cell(t.rows[i], c)
    {
      assert Cell(r.rows[i], c) == Cell(t.rows[i], c);
    }
  }

  /** The derived columns leave every other column alone. */
  lemma DeriveStage(t: Table, numCols: seq<string>, textCols: seq<string>, present: set<string>)
    requires NumbersFilled(t, numCols, present) && ValuesFilled(t, textCols, present)
    requires forall c | c in numCols || c in textCols :: c != "year" && c != "month" && c != "depth_category"
    ensures NumbersFilled(ClassifyDepth(DeriveCalendar(t)), numCols, present)
    ensures ValuesFilled(ClassifyDepth(DeriveCalendar(t)), textCols, present)
  {
    var d := DeriveCalendar(t);
    var r := ClassifyDepth(d);
    assert forall i, c | 0 <= i < |t.rows| && (c in numCols || c in textCols) :: Cell(r.rows[i], c) == Cell(t.rows[i], c) by {
      forall i, c | 0 <= i < |t.rows| && (c in numCols || c in textCols)
        ensures Cell(r.rows[i], c) == Cell(t.rows[i], c)
      {
        assert Cell(r.rows[i], c) == Cell(d.rows[i], c);
      }
    }
    SameCellsFilled(t, r, numCols, present);
    SameCellsFilled(t, r, textCols, present);
  }

  /** Once `depth_km` holds a number in every row, no row's depth category is "unknown". */
  lemma DepthNeverUnknown(t: Table, cols: seq<string>, present: set<string>)
    requires NumbersFilled(t, cols, present) && "depth_km" in cols && "depth_km" in present
    ensures forall i | 0 <= i < |t.rows| ::
      Cell(ClassifyDepth(DeriveCalendar(t)).rows[i], "depth_category") in {Some(Text(Shallow)), Some(Text(Intermediate)), Some(Text(Deep))}
  {
    var d := DeriveCalendar(t);
    forall i | 0 <= i < |t.rows|
      ensures Cell(ClassifyDepth(d).rows[i], "depth_category") in {Some(Text(Shallow)), Some(Text(Intermediate)), Some(Text(Deep))}
    {
      assert NumAt(t.rows[i], "depth_km").Some?;
      assert Cell(d.rows[i], "depth_km") == Cell(t.rows[i], "depth_km");
    }
  }

  lemma ListedColumnsApart()
    ensures forall c | c in NumericColumns || c in TextColumns :: c != "year" && c != "month" && c != "depth_category"
    ensures "depth_km" in NumericColumns
  {
  }

  /** No listed column is a timestamp column, and none is listed both as numeric and as text. */
  lemma ListedColumnsDisjoint()
    ensures forall c | c in NumericColumns || c in TextColumns :: c != "time" && c != "updated"
    ensures forall c | c in NumericColumns :: c !in TextColumns
  {
  }

  /** What coercion and the median fill of `cols` leave in cell `c` of row `i`: in a listed
      column the table has, the coerced cell, or the column's fill value computed after coercion
      where coercion leaves it missing; any other cell untouched. */
  ghost function CoercedCell(t: Table, cols: seq<string>, i: nat, c: string): Option<Value>
    requires Distinct(cols) && i < |t.rows|
  {
    var n := ToNumber(Cell(t.rows[i], c));
    if c in cols && c in t.columns then (if n.Some? then n else Some(Num(FillValue(CoerceNumeric(t, cols), c))))
    else Cell(t.rows[i], c)
  }

  ghost predicate CoercedAndFilled(t: Table, r: Table, cols: seq<string>) {
    && Distinct(cols)
    && |r.rows| == |t.rows|
    && forall i, c | 0 <= i < |t.rows| :: Cell(r.rows[i], c) == CoercedCell(t, cols, i, c)
  }

  /** Coercion followed by the median fill of `cols`, cell by cell. */
  lemma CoerceThenFill(t: Table, cols: seq<string>)
    requires Distinct(cols)
    ensures CoercedAndFilled(t, FillNumeric(CoerceNumeric(t, cols), cols), cols)
  {
    var n := CoerceNumeric(t, cols);
    CoercedThenFilled(t, cols, n, FillNumeric(n, cols));
  }

  /** Any table that fills the coerced table with its own fill values is the coerced and
      filled table. */
  lemma CoercedThenFilled(t: Table, cols: seq<string>, n: Table, f: Table)
    requires Distinct(cols) && n.columns == t.columns && |n.rows| == |t.rows| && |f.rows| == |t.rows|
    requires forall i, c | 0 <= i < |t.rows| ::
      Cell(n.rows[i], c) == if c in cols && c in t.columns then ToNumber(Cell(t.rows[i], c)) else Cell(t.rows[i], c)
    requires forall c :: FillValue(n, c) == FillValue(CoerceNumeric(t, cols), c)
    requires FillsWithFillValues(n, f, cols)
    ensures CoercedAndFilled(t, f, cols)
  {
    forall i, c | 0 <= i < |t.rows|
      ensures Cell(f.rows[i], c) == CoercedCell(t, cols, i, c)
    {
    }
  }

  /** The fill value of a column after coercion depends on that column's cells only. */
  lemma CoercedFillSameColumn(a: Table, b: Table, cols: seq<string>, c: string)
    requires Distinct(cols) && a.columns == b.columns && |a.rows| == |b.rows|
    requires forall i | 0 <= i < |a.rows| :: Cell(a.rows[i], c) == Cell(b.rows[i], c)
    ensures FillValue(CoerceNumeric(a, cols), c) == FillValue(CoerceNumeric(b, cols), c)
  {
    var ca := CoerceNumeric(a, cols);
    var cb := CoerceNumeric(b, cols);
    forall i | 0 <= i < |ca.rows|
      ensures Cell(ca.rows[i], c) == Cell(cb.rows[i], c)
    {
      assert Cell(ca.rows[i], c) == if c in cols && c in a.columns then ToNumber(Cell(a.rows[i], c)) else Cell(a.rows[i], c);
      assert Cell(cb.rows[i], c) == if c in cols && c in b.columns then ToNumber(Cell(b.rows[i], c)) else Cell(b.rows[i], c);
    }
    NumbersInSameColumn(ca.rows, cb.rows, c);
  }

  /** What lines 10-39 leave in cell `c` of row `i`, for numeric columns `num` and text columns
      `text`: the two timestamp columns converted; a numeric column coerced and filled as in
      `CoercedCell`; in a text column the input has, the cell as it was, or "unknown" where it
      is missing; any other cell untouched. */
  ghost function NormalCellIn(raw: Table, num: seq<string>, text: seq<string>, i: nat, c: string): Option<Value>
    requires Distinct(num) && i < |raw.rows|
  {
    var v := Cell(raw.rows[i], c);
    if c == "time" || c == "updated" then ToTimestamp(v)
    else if c in num && c in raw.columns then CoercedCell(raw, num, i, c)
    else if c in text && c in raw.columns then (if v.Some? then v else Some(Text(Unknown)))
    else v
  }

  /** `NormalCellIn` for the columns clean_data.py lists. */
  ghost function NormalCell(raw: Table, i: nat, c: string): Option<Value>
    requires i < |raw.rows|
  {
    NumericColumnsDistinct();
    NormalCellIn(raw, NumericColumns, TextColumns, i, c)
  }

  /** Every cell of `r` is what lines 10-39 leave in that cell of `raw`, for numeric columns
      `num` and text columns `text`. */
  ghost predicate NormalizedIn(raw: Table, num: seq<string>, text: seq<string>, r: Table) {
    && Distinct(num)
    && |r.rows| == |raw.rows|
    && forall i, c | 0 <= i < |raw.rows| :: Cell(r.rows[i], c) == NormalCellIn(raw, num, text, i, c)
  }

  /** `NormalizedIn` for the columns clean_data.py lists. */
  ghost predicate NormalizedFrom(raw: Table, r: Table) {
    NormalizedIn(raw, NumericColumns, TextColumns, r)
  }

  /** What `basic_clean` leaves in cell `c` of row `i`: the normalised cell, except that `year`
      and `month` are those of the converted timestamp and `depth_category` is the bucket of the
      filled depth. */
  ghost function CleanedCell(raw: Table, i: nat, c: string): Option<Value>
    requires i < |raw.rows|
  {
    if c == "year" then YearCell(NormalCell(raw, i, "time"))
    else if c == "month" then MonthCell(NormalCell(raw, i, "time"))
    else if c == "depth_category" then
      Some(Text(DepthCategory(match NormalCell(raw, i, "depth_km") case Some(Num(x)) => Some(x) case _ => None)))
    else NormalCell(raw, i, c)
  }

  /** Lines 10-11 cell by cell: the two timestamp columns converted, every other cell kept. */
  ghost predicate TimedFrom(raw: Table, timed: Table) {
    && timed.columns == raw.columns
    && |timed.rows| == |raw.rows|
    && forall i, c | 0 <= i < |raw.rows| ::
         Cell(timed.rows[i], c) == if c == "time" || c == "updated" then ToTimestamp(Cell(raw.rows[i], c)) else Cell(raw.rows[i], c)
  }

  lemma Timed(raw: Table)
    requires "time" in raw.columns && "updated" in raw.columns
    ensures TimedFrom(raw, MapColumn(MapColumn(raw, "time", ToTimestamp), "updated", ToTimestamp))
  {
    var stamped := MapColumn(raw, "time", ToTimestamp);
    var timed := MapColumn(stamped, "updated", ToTimestamp);
    forall i, c | 0 <= i < |raw.rows|
      ensures Cell(timed.rows[i], c) == if c == "time" || c == "updated" then ToTimestamp(Cell(raw.rows[i], c)) else Cell(raw.rows[i], c)
    {
      assert Cell(stamped.rows[i], "updated") == Cell(raw.rows[i], "updated");
    }
  }

  /** Lines 37-39 cell by cell: in each column of `text` the table has, a missing cell becomes
      "unknown"; every other cell is kept. */
  ghost predicate TextFilled(filled: Table, r: Table, text: seq<string>) {
    && |r.rows| == |filled.rows|
    && forall i, c | 0 <= i < |filled.rows| ::
         Cell(r.rows[i], c) ==
           if c in text && c in filled.columns && Cell(filled.rows[i], c).None? then Some(Text(Unknown))
           else Cell(filled.rows[i], c)
  }

  lemma TextFilledBy(filled: Table, text: seq<string>)
    ensures TextFilled(filled, FillText(filled, text), text)
  {
  }

  /** The stages of `Normalize`, each described cell by cell, compose to `NormalCellIn`. */
  lemma NormalizeCells(raw: Table, num: seq<string>, text: seq<string>, timed: Table, filled: Table, r: Table)
    requires forall c | c in num || c in text :: c != "time" && c != "updated"
    requires forall c | c in num :: c !in text
    requires TimedFrom(raw, timed) && CoercedAndFilled(timed, filled, num) && TextFilled(filled, r, text)
    requires filled.columns == raw.columns
    ensures NormalizedIn(raw, num, text, r)
  {
    forall i, c | 0 <= i < |raw.rows|
      ensures Cell(r.rows[i], c) == NormalCellIn(raw, num, text, i, c)
    {
      assert Cell(filled.rows[i], c) == CoercedCell(timed, num, i, c);
      if c in num && c in raw.columns {
        assert c !in text && c != "time" && c != "updated";
        CoercedFillSameColumn(timed, raw, num, c);
      } else if c in text {
        assert c != "time" && c != "updated";
      }
    }
  }

  /** Lines 42-50 cell by cell: `year` and `month` from the row's timestamp, `depth_category`
      from its depth, every other cell kept. */
  ghost predicate DerivedFrom(t: Table, r: Table) {
    && |r.rows| == |t.rows|
    && (forall i | 0 <= i < |t.rows| ::
          && Cell(r.rows[i], "year") == YearCell(Cell(t.rows[i], "time"))
          && Cell(r.rows[i], "month") == MonthCell(Cell(t.rows[i], "time"))
          && Cell(r.rows[i], "depth_category") == Some(Text(DepthCategory(NumAt(t.rows[i], "depth_km")))))
    && forall i, c | 0 <= i < |t.rows| && c != "year" && c != "month" && c != "depth_category" ::
         Cell(r.rows[i], c) == Cell(t.rows[i], c)
  }

  lemma DeriveCells(t: Table)
    ensures DerivedFrom(t, ClassifyDepth(DeriveCalendar(t)))
  {
    var d := DeriveCalendar(t);
    forall i | 0 <= i < |t.rows|
      ensures NumAt(d.rows[i], "depth_km") == NumAt(t.rows[i], "depth_km")
    {
      assert Cell(d.rows[i], "depth_km") == Cell(t.rows[i], "depth_km");
    }
  }

  /** Lines 10-11 plus the coercion and fill loops, before any derived column: every listed
      numeric column the input has ends up holding a number in every row, every listed text
      column a value. */
  function Normalize(raw: Table): (r: Table)
    requires "time" in raw.columns && "updated" in raw.columns
    ensures r.columns == raw.columns && |r.rows| == |raw.rows|
    ensures WellFormed(raw) ==> WellFormed(r)
    ensures NumbersFilled(r, NumericColumns, raw.columns) && ValuesFilled(r, TextColumns, raw.columns)
    ensures NormalizedFrom(raw, r)
  {
    var timed := MapColumn(MapColumn(raw, "time", ToTimestamp), "updated", ToTimestamp);
    var filled := CoerceAndFill(timed);
    TextStage(filled, TextColumns, NumericColumns, raw.columns);
    NormalizedCells(raw);
    FillText(filled, TextColumns)
  }

  /** The body of `Normalize`, cell by cell. */
  lemma NormalizedCells(raw: Table)
    requires "time" in raw.columns && "updated" in raw.columns
    ensures NormalizedFrom(raw, FillText(CoerceAndFill(MapColumn(MapColumn(raw, "time", ToTimestamp), "updated", ToTimestamp)), TextColumns))
  {
    NumericColumnsDistinct();
    ListedColumnsDisjoint();
    NormalizedCellsIn(raw, NumericColumns, TextColumns);
  }

  /** The pipeline of lines 10-39 for numeric columns `num` and text columns `text`, cell by
      cell. */
  lemma NormalizedCellsIn(raw: Table, num: seq<string>, text: seq<string>)
    requires "time" in raw.columns && "updated" in raw.columns && Distinct(num)
    requires forall c | c in num || c in text :: c != "time" && c != "updated"
    requires forall c | c in num :: c !in text
    ensures NormalizedIn(raw, num, text,
      FillText(FillNumeric(CoerceNumeric(MapColumn(MapColumn(raw, "time", ToTimestamp), "updated", ToTimestamp), num), num), text))
  {
    var timed := MapColumn(MapColumn(raw, "time", ToTimestamp), "updated", ToTimestamp);
    Timed(raw);
    CoerceThenFill(timed, num);
    var filled := FillNumeric(CoerceNumeric(timed, num), num);
    TextFilledBy(filled, text);
    NormalizeCells(raw, num, text, timed, filled, FillText(filled, text));
  }

  /** Lines 42-50: `year`, `month` and `depth_category` added to a normalised table, from each
      row's own timestamp and depth, every other cell kept. Every listed column stays filled,
      and once `depth_km` is filled no depth category is "unknown". */
  function Derive(t: Table): (r: Table)
    ensures r.columns == t.columns + {"year", "month", "depth_category"} && |r.rows| == |t.rows|
    ensures WellFormed(t) ==> WellFormed(r)
    ensures forall i | 0 <= i < |t.rows| ::
      && Cell(r.rows[i], "year") == YearCell(Cell(t.rows[i], "time"))
      && Cell(r.rows[i], "month") == MonthCell(Cell(t.rows[i], "time"))
      && Cell(r.rows[i], "depth_category") == Some(Text(DepthCategory(NumAt(t.rows[i], "depth_km"))))
    ensures forall i, c | 0 <= i < |t.rows| && c != "year" && c != "month" && c != "depth_category" ::
      Cell(r.rows[i], c) == Cell(t.rows[i], c)
    ensures NumbersFilled(t, NumericColumns, t.columns) && ValuesFilled(t, TextColumns, t.columns) ==>
      NumbersFilled(r, NumericColumns, t.columns) && ValuesFilled(r, TextColumns, t.columns)
    ensures NumbersFilled(t, NumericColumns, t.columns) && "depth_km" in t.columns ==>
      forall i | 0 <= i < |t.rows| ::
        Cell(r.rows[i], "depth_category") in {Some(Text(Shallow)), Some(Text(Intermediate)), Some(Text(Deep))}
  {
    DeriveFacts(t);
    DeriveCells(t);
    ClassifyDepth(DeriveCalendar(t))
  }

  lemma DeriveFacts(t: Table)
    ensures var r := ClassifyDepth(DeriveCalendar(t));
      && r.columns == t.columns + {"year", "month", "depth_category"}
      && (NumbersFilled(t, NumericColumns, t.columns) && ValuesFilled(t, TextColumns, t.columns) ==>
            NumbersFilled(r, NumericColumns, t.columns) && ValuesFilled(r, TextColumns, t.columns))
      && (NumbersFilled(t, NumericColumns, t.columns) && "depth_km" in t.columns ==>
            forall i | 0 <= i < |t.rows| ::
              Cell(r.rows[i], "depth_category") in {Some(Text(Shallow)), Some(Text(Intermediate)), Some(Text(Deep))})
  {
    assert t.columns + {"year", "month"} + {"depth_category"} == t.columns + {"year", "month", "depth_category"};
    ListedColumnsApart();
    if NumbersFilled(t, NumericColumns, t.columns) && ValuesFilled(t, TextColumns, t.columns) {
      DeriveStage(t, NumericColumns, TextColumns, t.columns);
    }
    if NumbersFilled(t, NumericColumns, t.columns) && "depth_km" in t.columns {
      DepthNeverUnknown(t, NumericColumns, t.columns);
    }
  }

  /** What `basic_clean` promises of its result `t` for the input `raw`: the input's columns
      plus `year`, `month` and `depth_category`, the same number of rows, well-formed rows when
      the input's are, a number in every cell of every listed numeric column the input has, a
      value in every cell of every listed text column it has, and no "unknown" depth category. */
  ghost predicate Cleaned(raw: Table, t: Table) {
    && t.columns == raw.columns + {"year", "month", "depth_category"}
    && |t.rows| == |raw.rows|
    && (WellFormed(raw) ==> WellFormed(t))
    && NumbersFilled(t, NumericColumns, raw.columns)
    && ValuesFilled(t, TextColumns, raw.columns)
    && (forall i | 0 <= i < |t.rows| ::
         Cell(t.rows[i], "depth_category") in {Some(Text(Shallow)), Some(Text(Intermediate)), Some(Text(Deep))})
    && forall i, c | 0 <= i < |t.rows| :: Cell(t.rows[i], c) == CleanedCell(raw, i, c)
  }

  lemma CleanedOf(raw: Table)
    requires "time" in raw.columns && "updated" in raw.columns && "depth_km" in raw.columns
    ensures Cleaned(raw, Derive(Normalize(raw)))
  {
    DerivedIsCleaned(raw, Normalize(raw));
  }

  /** Deriving the three columns from any normalised form of `raw` gives a cleaned table. */
  lemma DerivedIsCleaned(raw: Table, n: Table)
    requires "depth_km" in raw.columns
    requires n.columns == raw.columns && |n.rows| == |raw.rows| && (WellFormed(raw) ==> WellFormed(n))
    requires NumbersFilled(n, NumericColumns, raw.columns) && ValuesFilled(n, TextColumns, raw.columns)
    requires NormalizedFrom(raw, n)
    ensures Cleaned(raw, Derive(n))
  {
    ListedColumnsApart();
    DeriveCells(n);
    DerivedCells(raw, n, Derive(n));
  }

  /** Deriving the three columns from a table holding `NormalCell` in every cell leaves
      `CleanedCell` in every cell. */
  lemma DerivedCells(raw: Table, n: Table, t: Table)
    requires NormalizedFrom(raw, n) && DerivedFrom(n, t)
    ensures forall i, c | 0 <= i < |raw.rows| :: Cell(t.rows[i], c) == CleanedCell(raw, i, c)
  {
    forall i, c | 0 <= i < |raw.rows|
      ensures Cell(t.rows[i], c) == CleanedCell(raw, i, c)
    {
      if c == "year" || c == "month" {
        assert Cell(n.rows[i], "time") == NormalCell(raw, i, "time");
      } else if c == "depth_category" {
        assert Cell(n.rows[i], "depth_km") == NormalCell(raw, i, "depth_km");
      } else {
        assert Cell(t.rows[i], c) == Cell(n.rows[i], c);
      }
    }
  }

  /** The two fill loops of lines 25-39 run once more. */
  function Refill(t: Table): (r: Table)
    ensures r.columns == t.columns && |r.rows| == |t.rows|
  {
    NumericColumnsDistinct();
    FillText(FillNumeric(t, NumericColumns), TextColumns)
  }

  /** Filling again is idempotent: on a cleaned table no listed cell is missing, so running the
      fill loops once more changes no cell. */
  lemma RefillChangesNothing(raw: Table, t: Table)
    requires Cleaned(raw, t)
    ensures forall i, c | 0 <= i < |t.rows| :: Cell(Refill(t).rows[i], c) == Cell(t.rows[i], c)
  {
    NumericColumnsDistinct();
    ListedColumnsApart();
    var listed := NumericColumns + TextColumns;
    assert forall c | c in listed && c in t.columns :: c in raw.columns;
    NoneMissing(t, NumericColumns, TextColumns, raw.columns);
    FillsNothing(t, NumericColumns, TextColumns);
  }

  /** Filled columns among `present`, which hold every listed column of `t`, miss no cell. */
  lemma NoneMissing(t: Table, numCols: seq<string>, textCols: seq<string>, present: set<string>)
    requires NumbersFilled(t, numCols, present) && ValuesFilled(t, textCols, present)
    requires forall c | c in numCols + textCols && c in t.columns :: c in present
    ensures forall i, c | 0 <= i < |t.rows| && (c in numCols || c in textCols) && c in t.columns :: Cell(t.rows[i], c).Some?
  {
    forall i, c | 0 <= i < |t.rows| && (c in numCols || c in textCols) && c in t.columns
      ensures Cell(t.rows[i], c).Some?
    {
      assert c in numCols + textCols;
      if c in numCols {
        assert NumAt(t.rows[i], c).Some?;
      }
    }
  }

  /** With no listed cell missing, both fill loops leave every cell as it was. */
  lemma FillsNothing(t: Table, numCols: seq<string>, textCols: seq<string>)
    requires Distinct(numCols)
    requires forall i, c | 0 <= i < |t.rows| && (c in numCols || c in textCols) && c in t.columns :: Cell(t.rows[i], c).Some?
    ensures forall i, c | 0 <= i < |t.rows| :: Cell(FillText(FillNumeric(t, numCols), textCols).rows[i], c) == Cell(t.rows[i], c)
  {
    var f := FillNumeric(t, numCols);
    NumbersFillNothing(t, numCols);
    TextFillNothing(t, f, textCols);
  }

  lemma NumbersFillNothing(t: Table, cols: seq<string>)
    requires Distinct(cols)
    requires forall i, c | 0 <= i < |t.rows| && c in cols && c in t.columns :: Cell(t.rows[i], c).Some?
    ensures forall i, c | 0 <= i < |t.rows| :: Cell(FillNumeric(t, cols).rows[i], c) == Cell(t.rows[i], c)
  {
    var f := FillNumeric(t, cols);
    forall i, c | 0 <= i < |t.rows|
      ensures Cell(f.rows[i], c) == Cell(t.rows[i], c)
    {
      assert FillsWithFillValues(t, f, cols);
      if c in cols && c in t.columns {
        assert Cell(t.rows[i], c).Some?;
      }
    }
  }

  /** `f` agrees with `t` cell by cell, so filling its text columns changes nothing either. */
  lemma TextFillNothing(t: Table, f: Table, cols: seq<string>)
    requires f.columns == t.columns && |f.rows| == |t.rows|
    requires forall i, c | 0 <= i < |t.rows| :: Cell(f.rows[i], c) == Cell(t.rows[i], c)
    requires forall i, c | 0 <= i < |t.rows| && c in cols && c in t.columns :: Cell(t.rows[i], c).Some?
    ensures forall i, c | 0 <= i < |t.rows| :: Cell(FillText(f, cols).rows[i], c) == Cell(t.rows[i], c)
  {
    var g := FillText(f, cols);
    forall i, c | 0 <= i < |t.rows|
      ensures Cell(g.rows[i], c) == Cell(t.rows[i], c)
    {
      var before := Cell(f.rows[i], c);
      assert before == Cell(t.rows[i], c);
      assert Cell(g.rows[i], c) == if c in cols && c in f.columns && before.None? then Some(Text(Unknown)) else before;
      if c in cols && c in f.columns {
        assert before.Some?;
      }
    }
  }

  /** `basic_clean(df)`: KeyError when `time` or `updated` (lines 10-11) or `depth_km` (line 45)
      is absent; otherwise the input's columns plus `year`, `month` and `depth_category`, the
      same rows, every listed numeric column free of missing cells, every listed text column
      free of missing cells, and a depth category that is never "unknown". */
  function BasicClean(raw: Table): (r: Result<Table, KeyError>)
    ensures r.Err? <==> !("time" in raw.columns && "updated" in raw.columns && "depth_km" in raw.columns)
    ensures r.Ok? ==> Cleaned(raw, r.value)
  {
    if "time" !in raw.columns then Err(KeyError("time"))
    else if "updated" !in raw.columns then Err(KeyError("updated"))
    else if "depth_km" !in raw.columns then Err(KeyError("depth_km"))
    else
      CleanedOf(raw);
      Ok(Derive(Normalize(raw)))
  }
}
