/** The tabular data model shared by the cleaning step and the dashboard: a pandas DataFrame
    seen as a set of column names and a sequence of rows, each row mapping column names to a
    possibly missing cell. */
module Frames {
  import opened Options

  /** A non-missing cell: a number (pandas float64 / int64), a piece of text, or a timestamp
      held as milliseconds since 1970-01-01T00:00:00 UTC. */
  datatype Value = Num(x: real) | Text(s: string) | Stamp(ms: real)

  /** One record; `None` is a missing cell (NaN, NaT or None). */
  type Row = map<string, Option<Value>>

  datatype Table = Table(columns: set<string>, rows: seq<Row>)

  /** pandas' `KeyError` when an operation reads a column the table lacks. */
  datatype KeyError = KeyError(column: string)

  /** Every row has exactly the table's columns, as in a DataFrame. */
  predicate WellFormed(t: Table) {
    forall i | 0 <= i < |t.rows| :: t.rows[i].Keys == t.columns
  }

  /** `row[c]`, reading a column the row does not have as missing. */
  function Cell(r: Row, c: string): Option<Value> {
    if c in r then r[c] else None
  }

  /** The number in column `c`, or None when the cell is missing or not numeric. */
  function NumAt(r: Row, c: string): Option<real> {
    match Cell(r, c)
    case Some(Num(x)) => Some(x)
    case _ => None
  }

  /** The timestamp in column `c` (milliseconds since the epoch), or None when missing (NaT). */
  function StampAt(r: Row, c: string): Option<real> {
    match Cell(r, c)
    case Some(Stamp(ms)) => Some(ms)
    case _ => None
  }

  /** The numeric columns clean_data.py coerces and median-fills, in its order. */
  const NumericColumns: seq<string> := [
    "mag", "tsunami", "sig", "nst", "dmin", "rms", "gap",
    "magError", "depthError", "magNst", "felt", "cdi", "mmi",
    "latitude", "longitude", "depth_km"
  ]

  /** The text columns clean_data.py fills with "unknown", in its order. */
  const TextColumns: seq<string> := [
    "place", "type", "status", "magType", "alert",
    "locationSource", "magSource", "types", "title", "sources", "ids", "net"
  ]

  predicate Distinct<T(==)>(xs: seq<T>) {
    forall i, j | 0 <= i < j < |xs| :: xs[i] != xs[j]
  }

  /** `df[c] = f(df[c])` on a column the table has: every other cell is left alone. */
  function MapColumn(t: Table, c: string, f: Option<Value> -> Option<Value>): (r: Table)
    requires c in t.columns
    ensures r.columns == t.columns && |r.rows| == |t.rows|
    ensures forall i, d | 0 <= i < |t.rows| ::
      Cell(r.rows[i], d) == if d == c then f(Cell(t.rows[i], c)) else Cell(t.rows[i], d)
    ensures WellFormed(t) ==> WellFormed(r)
  {
    Table(t.columns, seq(|t.rows|, i requires 0 <= i < |t.rows| => t.rows[i][c := f(Cell(t.rows[i], c))]))
  }

  /** `df[c] = derive(row)`: creates column `c`, or overwrites it when it already exists. */
  function SetColumn(t: Table, c: string, derive: Row -> Option<Value>): (r: Table)
    ensures r.columns == t.columns + {c} && |r.rows| == |t.rows|
    ensures forall i, d | 0 <= i < |t.rows| ::
      Cell(r.rows[i], d) == if d == c then derive(t.rows[i]) else Cell(t.rows[i], d)
    ensures WellFormed(t) ==> WellFormed(r)
  {
    Table(t.columns + {c}, seq(|t.rows|, i requires 0 <= i < |t.rows| => t.rows[i][c := derive(t.rows[i])]))
  }

  /** `df[[c1, ..., cn]]` on one row: keeps the listed columns only. */
  function Project(r: Row, cols: set<string>): (p: Row)
    ensures p.Keys == r.Keys * cols
    ensures forall c | c in cols :: Cell(p, c) == Cell(r, c)
  {
    map c | c in r.Keys * cols :: r[c]
  }

  /** The projection of every row. */
  function ProjectAll(rows: seq<Row>, cols: set<string>): (ps: seq<Row>)
    ensures |ps| == |rows|
    ensures forall i | 0 <= i < |rows| :: ps[i] == Project(rows[i], cols)
  {
    seq(|rows|, i requires 0 <= i < |rows| => Project(rows[i], cols))
  }

  /** The first of `cols`, in order, that the table lacks: the column pandas' KeyError names. */
  function FirstMissing(t: Table, cols: seq<string>): (r: Option<string>)
    ensures r.None? <==> forall i | 0 <= i < |cols| :: cols[i] in t.columns
    ensures r.Some? ==> r.value !in t.columns && r.value in cols
  {
    if |cols| == 0 then None
    else if cols[0] !in t.columns then Some(cols[0])
    else FirstMissing(t, cols[1..])
  }

  /** The numbers in column `c`, in row order, skipping missing cells. */
  function NumbersIn(rows: seq<Row>, c: string): (xs: seq<real>)
    ensures |xs| <= |rows|
  {
    if |rows| == 0 then []
    else
      var init := NumbersIn(rows[..|rows| - 1], c);
      match NumAt(rows[|rows| - 1], c)
      case Some(x) => init + [x]
      case None => init
  }

  /** The numbers of a column depend on that column's cells only. */
  lemma {:induction false} NumbersInSameColumn(a: seq<Row>, b: seq<Row>, c: string)
    requires |a| == |b| && forall i | 0 <= i < |a| :: Cell(a[i], c) == Cell(b[i], c)
    ensures NumbersIn(a, c) == NumbersIn(b, c)
  {
    if |a| > 0 {
      NumbersInSameColumn(a[..|a| - 1], b[..|b| - 1], c);
    }
  }
}
