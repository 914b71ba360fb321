/** The dashboard's row-selection queries (Q1-Q3, Q18, Q28): each picks input rows, keeps some
    of their columns and orders them, possibly keeping only the first few. */
module Queries {
  import opened Options
  import opened Frames
  import opened Sorting
  import opened Stats

  /** What a query branch leaves on the page: a result table, a `st.warning` about a column the
      branch checks for, the `KeyError` pandas raises when it reads a column the branch did not
      check for, or another error pandas raises, with its message. */
  datatype Outcome<T> = Shown(out: T) | Warned(message: string) | Raised(missing: string) | Failed(error: string)

  function Mag(r: Row): Option<real> {
    NumAt(r, "mag")
  }

  function Depth(r: Row): Option<real> {
    NumAt(r, "depth_km")
  }

  function Nst(r: Row): Option<real> {
    NumAt(r, "nst")
  }

  function AsSet(cols: seq<string>): set<string> {
    set c | c in cols
  }

  /** The columns Q1-Q3 show, in the order the source lists them. */
  const EventColumns: seq<string> := ["id", "time", "place", "country", "mag", "depth_km"]

  /** `out` holds exactly the rows satisfying `p`, each cut down to `cols`, with their
      multiplicities: as many as there are, each the projection of a matching row, and every
      matching row represented. */
  ghost predicate IsSelection(rows: seq<Row>, p: Row -> bool, cols: set<string>, out: seq<Row>) {
    && multiset(out) == multiset(ProjectAll(Filter(rows, p), cols))
    && |out| == CountWhere(rows, p)
    && (forall x | x in out :: exists i | 0 <= i < |rows| :: p(rows[i]) && x == Project(rows[i], cols))
    && (forall i | 0 <= i < |rows| && p(rows[i]) :: Project(rows[i], cols) in out)
  }

  /** Any reordering of the projected matching rows is a selection. */
  lemma SelectionOf(rows: seq<Row>, p: Row -> bool, cols: set<string>, out: seq<Row>)
    requires multiset(out) == multiset(ProjectAll(Filter(rows, p), cols))
    ensures IsSelection(rows, p, cols, out)
  {
    var kept := Filter(rows, p);
    var projected := ProjectAll(kept, cols);
    assert |out| == |projected|;
    forall x | x in out
      ensures exists i | 0 <= i < |rows| :: p(rows[i]) && x == Project(rows[i], cols)
    {
      assert x in multiset(projected);
      var k :| 0 <= k < |projected| && projected[k] == x;
      assert kept[k] in kept;
      var i :| 0 <= i < |rows| && rows[i] == kept[k];
    }
    forall i | 0 <= i < |rows| && p(rows[i])
      ensures Project(rows[i], cols) in out
    {
      assert rows[i] in kept;
      var k :| 0 <= k < |kept| && kept[k] == rows[i];
      assert projected[k] in multiset(out);
    }
  }

  // ---------------------------------------------------------------------------
  // Q1, Q2: the ten strongest and the ten deepest events
  // ---------------------------------------------------------------------------

  /** `df[EventColumns].sort_values(key, ascending=False).head(10)`. */
  function TopEvents(t: Table, key: Row -> Option<real>): (o: Outcome<seq<Row>>)
    ensures !o.Failed?
    ensures !o.Warned?
    ensures o.Raised? <==> exists i | 0 <= i < |EventColumns| :: EventColumns[i] !in t.columns
    ensures o.Raised? ==> o.missing in EventColumns && o.missing !in t.columns
    ensures o.Shown? ==> IsTopK(ProjectAll(t.rows, AsSet(EventColumns)), o.out, key, Descending, 10)
  {
    match FirstMissing(t, EventColumns)
    case Some(c) => Raised(c)
    case None => Shown(TopBy(ProjectAll(t.rows, AsSet(EventColumns)), key, Descending, 10))
  }

  /** Q1: the ten events of largest magnitude, projected rows in non-increasing magnitude. */
  function StrongestEvents(t: Table): (o: Outcome<seq<Row>>)
    ensures !o.Failed?
    ensures o.Raised? <==> exists i | 0 <= i < |EventColumns| :: EventColumns[i] !in t.columns
    ensures o.Shown? ==> IsTopK(ProjectAll(t.rows, AsSet(EventColumns)), o.out, Mag, Descending, 10)
  {
    TopEvents(t, Mag)
  }

  /** Q2: the ten deepest events. */
  function DeepestEvents(t: Table): (o: Outcome<seq<Row>>)
    ensures !o.Failed?
    ensures o.Raised? <==> exists i | 0 <= i < |EventColumns| :: EventColumns[i] !in t.columns
    ensures o.Shown? ==> IsTopK(ProjectAll(t.rows, AsSet(EventColumns)), o.out, Depth, Descending, 10)
  {
    TopEvents(t, Depth)
  }

  /** The top-ten result is never longer than ten rows nor than the table, and every row shown
      is the projection of an input row. */
  lemma TopEventsFromInput(t: Table, key: Row -> Option<real>)
    requires TopEvents(t, key).Shown?
    ensures |TopEvents(t, key).out| == Min(10, |t.rows|)
    ensures forall x | x in TopEvents(t, key).out ::
      exists i | 0 <= i < |t.rows| :: x == Project(t.rows[i], AsSet(EventColumns))
  {
    var out := TopEvents(t, key).out;
    var xs := ProjectAll(t.rows, AsSet(EventColumns));
    forall x | x in out
      ensures exists i | 0 <= i < |t.rows| :: x == Project(t.rows[i], AsSet(EventColumns))
    {
      assert x in multiset(out);
      assert x in multiset(xs);
      var i :| 0 <= i < |xs| && xs[i] == x;
    }
  }

  // ---------------------------------------------------------------------------
  // Q3: shallow and strong
  // ---------------------------------------------------------------------------

  /** `(df["depth_km"] < 50) & (df["mag"] > 7.5)`; a missing value compares false. */
  predicate ShallowStrong(r: Row) {
    Depth(r).Some? && Depth(r).value < 50.0 && Mag(r).Some? && Mag(r).value > 7.5
  }

  /** Q3: every shallow event of magnitude above 7.5, projected, in non-increasing magnitude.
      The mask reads `depth_km` then `mag` before the projection reads its columns. */
  function ShallowStrongEvents(t: Table): (o: Outcome<seq<Row>>)
    ensures !o.Failed?
    ensures !o.Warned?
    ensures o.Raised? <==> exists i | 0 <= i < |EventColumns| :: EventColumns[i] !in t.columns
    ensures o.Raised? ==> o.missing in EventColumns && o.missing !in t.columns
    ensures o.Shown? ==> IsSelection(t.rows, ShallowStrong, AsSet(EventColumns), o.out)
    ensures o.Shown? ==> SortedByKey(o.out, Mag, Descending)
  {
    if "depth_km" !in t.columns then
      assert EventColumns[5] == "depth_km";
      Raised("depth_km")
    else if "mag" !in t.columns then
      assert EventColumns[4] == "mag";
      Raised("mag")
    else match FirstMissing(t, EventColumns)
    case Some(c) => Raised(c)
    case None =>
      var out := SortBy(ProjectAll(Filter(t.rows, ShallowStrong), AsSet(EventColumns)), Mag, Descending);
      SelectionOf(t.rows, ShallowStrong, AsSet(EventColumns), out);
      Shown(out)
  }

  // ---------------------------------------------------------------------------
  // Q18: high station coverage
  // ---------------------------------------------------------------------------

  const CoverageColumns: seq<string> := ["id", "time", "place", "country", "nst"]

  /** `df["nst"] > threshold`. */
  function NstAbove(threshold: real): Row -> bool {
    (r: Row) => Nst(r).Some? && Nst(r).value > threshold
  }

  /** Q18 with the sidebar's threshold as a parameter: the events recorded by more than
      `threshold` stations, projected, in non-increasing station count. The source sorts before
      it projects; both orders give the same rows since `nst` is kept. */
  function HighCoverage(t: Table, threshold: real): (o: Outcome<seq<Row>>)
    ensures !o.Failed?
    ensures o.Warned? <==> "nst" !in t.columns
    ensures o.Raised? <==> "nst" in t.columns && exists i | 0 <= i < |CoverageColumns| :: CoverageColumns[i] !in t.columns
    ensures o.Raised? ==> o.missing in CoverageColumns && o.missing !in t.columns
    ensures o.Shown? ==> IsSelection(t.rows, NstAbove(threshold), AsSet(CoverageColumns), o.out)
    ensures o.Shown? ==> SortedByKey(o.out, Nst, Descending)
  {
    if "nst" !in t.columns then Warned("nst column missing.")
    else
      match FirstMissing(t, CoverageColumns)
      case Some(c) => Raised(c)
      case None =>
        var out := SortBy(ProjectAll(Filter(t.rows, NstAbove(threshold)), AsSet(CoverageColumns)), Nst, Descending);
        SelectionOf(t.rows, NstAbove(threshold), AsSet(CoverageColumns), out);
        Shown(out)
  }

  /** Raising the threshold can only shorten the result. */
  lemma HighCoverageMonotone(t: Table, lo: real, hi: real)
    requires lo <= hi && HighCoverage(t, lo).Shown?
    ensures |HighCoverage(t, hi).out| <= |HighCoverage(t, lo).out|
  {
    CountMonotone(t.rows, NstAbove(hi), NstAbove(lo));
  }

  // ---------------------------------------------------------------------------
  // Q28: lowest data reliability
  // ---------------------------------------------------------------------------

  /** The columns every shown event carries. */
  const IdentityColumns: seq<string> := ["id", "time", "place", "country"]

  const ReliabilityColumns: seq<string> := ["id", "time", "place", "country", "rms", "gap", "error_score"]

  /** `rms.fillna(0) + gap.fillna(0)`. */
  function ErrorScore(r: Row): (s: real)
    ensures NumAt(r, "rms").Some? && NumAt(r, "gap").Some? ==> s == NumAt(r, "rms").value + NumAt(r, "gap").value
    ensures NumAt(r, "rms").None? && NumAt(r, "gap").Some? ==> s == NumAt(r, "gap").value
    ensures NumAt(r, "rms").Some? && NumAt(r, "gap").None? ==> s == NumAt(r, "rms").value
    ensures NumAt(r, "rms").None? && NumAt(r, "gap").None? ==> s == 0.0
  {
    NumAt(r, "rms").GetOr(0.0) + NumAt(r, "gap").GetOr(0.0)
  }

  /** `fillna(0)`: a missing part scores exactly as a part written down as zero would. */
  lemma ErrorScoreMissingIsZero(r: Row, c: string)
    requires c == "rms" || c == "gap"
    requires NumAt(r, c).None?
    ensures ErrorScore(r) == ErrorScore(r[c := Some(Num(0.0))])
  {
  }

  function ErrorScoreKey(r: Row): Option<real> {
    NumAt(r, "error_score")
  }

  /** `df["error_score"] = ...` on one row. */
  function WithErrorScore(r: Row): Row {
    r["error_score" := Some(Num(ErrorScore(r)))]
  }

  function Scored(rows: seq<Row>): (s: seq<Row>)
    ensures |s| == |rows| && forall i | 0 <= i < |rows| :: s[i] == WithErrorScore(rows[i])
  {
    seq(|rows|, i requires 0 <= i < |rows| => WithErrorScore(rows[i]))
  }

  /** Q28: the hundred events of largest `rms + gap` (missing parts counted as 0), with that
      score shown next to the parts it adds up. */
  function LeastReliable(t: Table): (o: Outcome<seq<Row>>)
    ensures !o.Failed?
    ensures o.Warned? <==> "rms" !in t.columns || "gap" !in t.columns
    ensures o.Raised? <==> !o.Warned? && exists i | 0 <= i < |IdentityColumns| :: IdentityColumns[i] !in t.columns
    ensures o.Shown? ==> IsTopK(ProjectAll(Scored(t.rows), AsSet(ReliabilityColumns)), o.out, ErrorScoreKey, Descending, 100)
    ensures o.Shown? ==> forall x | x in o.out ::
      ErrorScoreKey(x) == Some(NumAt(x, "rms").GetOr(0.0) + NumAt(x, "gap").GetOr(0.0))
  {
    if "rms" !in t.columns || "gap" !in t.columns then Warned("rms or gap missing.")
    else
      match FirstMissing(t, IdentityColumns)
      case Some(c) => Raised(c)
      case None =>
        var out := TopBy(ProjectAll(Scored(t.rows), AsSet(ReliabilityColumns)), ErrorScoreKey, Descending, 100);
        ScoredRows(t.rows, out);
        Shown(out)
  }

  /** Rows drawn from the scored, projected rows each carry the sum of their own parts. */
  lemma ScoredRows(rows: seq<Row>, out: seq<Row>)
    requires multiset(out) <= multiset(ProjectAll(Scored(rows), AsSet(ReliabilityColumns)))
    ensures forall x | x in out ::
      ErrorScoreKey(x) == Some(NumAt(x, "rms").GetOr(0.0) + NumAt(x, "gap").GetOr(0.0))
  {
    var xs := ProjectAll(Scored(rows), AsSet(ReliabilityColumns));
    forall x | x in out
      ensures ErrorScoreKey(x) == Some(NumAt(x, "rms").GetOr(0.0) + NumAt(x, "gap").GetOr(0.0))
    {
      assert x in multiset(out);
      assert x in multiset(xs);
      var i :| 0 <= i < |xs| && xs[i] == x;
      assert Scored(rows)[i] == WithErrorScore(rows[i]);
      ScoredCells(rows[i], x);
    }
  }

  /** A scored row, cut down to the shown columns, carries its own parts' sum. */
  lemma ScoredCells(r: Row, x: Row)
    requires x == Project(WithErrorScore(r), AsSet(ReliabilityColumns))
    ensures ErrorScoreKey(x) == Some(NumAt(x, "rms").GetOr(0.0) + NumAt(x, "gap").GetOr(0.0))
  {
    var cols := AsSet(ReliabilityColumns);
    assert "rms" in cols && "gap" in cols && "error_score" in cols;
    assert Cell(x, "rms") == Cell(r, "rms");
    assert Cell(x, "gap") == Cell(r, "gap");
  }
}
