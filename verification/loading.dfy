/** dashboard.py's `load_data`: after the CSV is read with `time` and `updated` parsed as
    timestamps, the numeric columns are coerced again and `country`, `year`, `month` and
    `depth_category` are derived when the file does not already have them. */
module Loading {
  import opened Options
  import opened Strings
  import opened Frames
  import Cleaning

  /** The columns line 17 coerces with `pd.to_numeric(errors="coerce")`, in its order. */
  const LoadNumericColumns: seq<string> := ["mag", "depth_km", "latitude", "longitude", "nst", "rms", "gap", "tsunami", "sig"]

  lemma LoadNumericColumnsDistinct()
    ensures Distinct(LoadNumericColumns)
  {
  }

  /** Line 24 on one cell: `str.extract(r",\s*([^,]+)$")` then `fillna("unknown")`. A missing
      or non-text place, a place without a comma and one ending in a comma all give "unknown";
      otherwise the text after the last comma, leading whitespace skipped where the regex can.
      The result never holds a comma. */
  function CountryOf(place: Option<Value>): (c: string)
    ensures CommaFree(c) && |c| > 0
    ensures place.None? || !place.value.Text? ==> c == Unknown
    ensures place.Some? && place.value.Text? && CommaFree(place.value.s) ==> c == Unknown
    ensures place.Some? && place.value.Text? && !CommaFree(place.value.s) ==>
      var s := place.value.s;
      && (s[|s| - 1] == ',' ==> c == Unknown)
      && (s[|s| - 1] != ',' ==> exists k, j :: FieldMatch(s, k, j) && c == s[j..])
  {
    match place
    case Some(Text(s)) =>
      (match TrailingField(s)
       case Some(field) => field
       case None => Unknown)
    case _ => Unknown
  }

  /** A place written "<where>, <country>" yields its country. */
  lemma CountryOfPlace(where: string, country: string)
    requires |country| > 0 && CommaFree(country) && !IsSpace(country[0])
    ensures CountryOf(Some(Text(where + ", " + country))) == country
  {
    TrailingFieldAfterSeparator(where, country);
  }

  // The steps below act on one row at a time: each of load_data's column assignments computes
  // a cell of a row from cells of the same row, so the table is the rows loaded one by one.

  /** Line 17 on one row: each listed numeric column the file has is coerced. */
  function CoerceRow(row: Row, cols: set<string>): (r: Row)
    ensures r.Keys == row.Keys
  {
    map c | c in row :: if c in LoadNumericColumns && c in cols then Cleaning.ToNumber(row[c]) else row[c]
  }

  /** Lines 21-26 on one row: `country` is added only when absent, from `place` when the file
      has one and "unknown" otherwise. */
  function AddCountryRow(row: Row, cols: set<string>): (r: Row)
    ensures r.Keys == row.Keys + ({"country"} - cols)
  {
    if "country" in cols then row
    else row["country" := Some(Text(if "place" in cols then CountryOf(Cell(row, "place")) else Unknown))]
  }

  /** Lines 28-31 on one row: `year` and `month` from `time`, each only when absent. */
  function AddCalendarRow(row: Row, cols: set<string>): (r: Row)
    ensures r.Keys == row.Keys + ({"year", "month"} - cols)
  {
    var withYear := if "year" in cols then row else row["year" := Cleaning.YearCell(Cell(row, "time"))];
    if "month" in cols then withYear else withYear["month" := Cleaning.MonthCell(Cell(withYear, "time"))]
  }

  /** Lines 32-35 on one row: `depth_category` only when absent and `depth_km` is present, with
      the bands `basic_clean` uses. */
  function AddDepthCategoryRow(row: Row, cols: set<string>): (r: Row)
    ensures r.Keys == row.Keys + (if "depth_category" !in cols && "depth_km" in cols then {"depth_category"} else {})
  {
    if "depth_category" !in cols && "depth_km" in cols
    then row["depth_category" := Some(Text(Cleaning.DepthCategory(NumAt(row, "depth_km"))))]
    else row
  }

  /** Lines 17-35 on one row of a table whose columns are `cols`: the row gains exactly the
      columns `load_data` adds to the table. */
  function LoadRow(row: Row, cols: set<string>): (r: Row)
    ensures r.Keys == row.Keys + (LoadedColumnsOf(cols) - cols)
  {
    assert LoadedColumnsOf(cols) - cols ==
      ({"country"} - cols) + ({"year", "month"} - cols) +
      (if "depth_category" !in cols && "depth_km" in cols then {"depth_category"} else {});
    AddDepthCategoryRow(AddCalendarRow(AddCountryRow(CoerceRow(row, cols), cols), cols), cols)
  }

  /** The column names `load_data` reads or writes are distinct, and only `depth_km` among them
      is coerced. */
  lemma ColumnNames()
    ensures "depth_km" != "country" && "depth_km" != "year" && "depth_km" != "month" && "depth_km" != "depth_category"
    ensures "place" != "country" && "place" != "year" && "place" != "month"
    ensures "time" != "country" && "time" != "year" && "time" != "month" && "time" != "depth_category"
    ensures "country" != "year" && "country" != "month" && "country" != "depth_category"
    ensures "year" != "month" && "year" != "depth_category" && "month" != "depth_category"
    ensures "depth_km" in LoadNumericColumns
    ensures "place" !in LoadNumericColumns && "time" !in LoadNumericColumns && "country" !in LoadNumericColumns
    ensures "year" !in LoadNumericColumns && "month" !in LoadNumericColumns && "depth_category" !in LoadNumericColumns
  {
  }

  /** The columns of the loaded table. */
  function LoadedColumnsOf(cols: set<string>): set<string> {
    var derived := cols + {"country", "year", "month"};
    if "depth_category" !in cols && "depth_km" in cols then derived + {"depth_category"} else derived
  }

  /** `load_data()` on the table `pd.read_csv` produced: reading fails when `time` or `updated`
      is absent (they are named in `parse_dates`); otherwise coercion, then `country`, `year`,
      `month` and `depth_category`, one row out per row in. */
  function LoadData(t: Table): (r: Result<Table, KeyError>)
    ensures r.Err? <==> "time" !in t.columns || "updated" !in t.columns
    ensures r.Err? ==> r.error.column !in t.columns
    ensures r.Ok? ==> |r.value.rows| == |t.rows|
  {
    if "time" !in t.columns then Err(KeyError("time"))
    else if "updated" !in t.columns then Err(KeyError("updated"))
    else Ok(Table(LoadedColumnsOf(t.columns), seq(|t.rows|, i requires 0 <= i < |t.rows| => LoadRow(t.rows[i], t.columns))))
  }

  lemma LoadedRow(t: Table, i: int)
    requires "time" in t.columns && "updated" in t.columns && 0 <= i < |t.rows|
    ensures LoadData(t).value.rows[i] == LoadRow(t.rows[i], t.columns)
  {
  }

  /** The loaded table has the columns read plus `country`, `year` and `month`, plus
      `depth_category` when `depth_km` was read; every row has them all. */
  lemma LoadedShape(t: Table)
    requires "time" in t.columns && "updated" in t.columns
    ensures LoadData(t).value.columns ==
      t.columns + {"country", "year", "month"} + (if "depth_km" in t.columns then {"depth_category"} else {})
    ensures WellFormed(t) ==> WellFormed(LoadData(t).value)
  {
    var r := LoadData(t).value;
    if "depth_km" in t.columns && "depth_category" in t.columns {
      assert t.columns + {"country", "year", "month"} + {"depth_category"} == t.columns + {"country", "year", "month"};
    }
    if WellFormed(t) {
      forall i | 0 <= i < |r.rows|
        ensures r.rows[i].Keys == r.columns
      {
        LoadedRow(t, i);
        var row := t.rows[i];
        assert CoerceRow(row, t.columns).Keys == t.columns;
      }
    }
  }

  /** The loaded `country`: kept when read, otherwise the country of the row's place, or
      "unknown" throughout when there is no `place` column. */
  lemma LoadedCountry(t: Table, i: int)
    requires "time" in t.columns && "updated" in t.columns && 0 <= i < |t.rows|
    ensures Cell(LoadData(t).value.rows[i], "country") ==
      if "country" in t.columns then Cell(t.rows[i], "country")
      else if "place" in t.columns then Some(Text(CountryOf(Cell(t.rows[i], "place"))))
      else Some(Text(Unknown))
  {
    LoadedRow(t, i);
    ColumnNames();
  }

  /** The loaded `year`: kept when read, otherwise the year of the row's timestamp, missing
      for NaT. */
  lemma LoadedYear(t: Table, i: int)
    requires "time" in t.columns && "updated" in t.columns && 0 <= i < |t.rows|
    ensures Cell(LoadData(t).value.rows[i], "year") ==
      if "year" in t.columns then Cell(t.rows[i], "year") else Cleaning.YearCell(Cell(t.rows[i], "time"))
  {
    LoadedRow(t, i);
    ColumnNames();
  }

  /** The loaded `month`: kept when read, otherwise the month of the row's timestamp, missing
      for NaT. */
  lemma LoadedMonth(t: Table, i: int)
    requires "time" in t.columns && "updated" in t.columns && 0 <= i < |t.rows|
    ensures Cell(LoadData(t).value.rows[i], "month") ==
      if "month" in t.columns then Cell(t.rows[i], "month") else Cleaning.MonthCell(Cell(t.rows[i], "time"))
  {
    LoadedRow(t, i);
    ColumnNames();
  }

  /** The loaded `depth_category`: when absent and `depth_km` was read, the band of the row's
      loaded depth with `basic_clean`'s thresholds; otherwise as read. */
  lemma LoadedDepthCategory(t: Table, i: int)
    requires "time" in t.columns && "updated" in t.columns && 0 <= i < |t.rows|
    ensures var row := LoadData(t).value.rows[i];
      Cell(row, "depth_category") ==
        if "depth_category" !in t.columns && "depth_km" in t.columns
        then Some(Text(Cleaning.DepthCategory(NumAt(row, "depth_km"))))
        else Cell(t.rows[i], "depth_category")
  {
    LoadedRow(t, i);
    ColumnNames();
  }

  /** Every other loaded cell: the listed numeric columns coerced, the rest as read. */
  lemma LoadedOther(t: Table, i: int, c: string)
    requires "time" in t.columns && "updated" in t.columns && 0 <= i < |t.rows|
    requires c != "country" && c != "year" && c != "month" && c != "depth_category"
    ensures Cell(LoadData(t).value.rows[i], c) ==
      if c in LoadNumericColumns && c in t.columns then Cleaning.ToNumber(Cell(t.rows[i], c)) else Cell(t.rows[i], c)
  {
    LoadedRow(t, i);
    assert Cleaning.ToNumber(None) == None;
  }

  /** A derived `country` never holds a comma. */
  lemma LoadedCountryCommaFree(t: Table, i: int)
    requires "time" in t.columns && "updated" in t.columns && 0 <= i < |t.rows|
    requires "country" !in t.columns
    ensures var cell := Cell(LoadData(t).value.rows[i], "country");
      cell.Some? && cell.value.Text? && |cell.value.s| > 0 && CommaFree(cell.value.s)
  {
    LoadedCountry(t, i);
    if "place" !in t.columns {
      assert CountryOf(None) == Unknown;
    }
  }

  /** On a table `basic_clean` produced, loading keeps every cell outside the coerced numeric
      and derived columns: the cleaned text cells stay as they were. */
  lemma LoadKeepsCleaned(raw: Table, i: int, c: string)
    requires Cleaning.BasicClean(raw).Ok?
    requires 0 <= i < |raw.rows| && c !in LoadNumericColumns
    requires c != "country" && c != "year" && c != "month" && c != "depth_category"
    ensures var cleaned := Cleaning.BasicClean(raw).value;
      LoadData(cleaned).Ok? && Cell(LoadData(cleaned).value.rows[i], c) == Cell(cleaned.rows[i], c)
  {
    var cleaned := Cleaning.BasicClean(raw).value;
    LoadedOther(cleaned, i, c);
  }
}
