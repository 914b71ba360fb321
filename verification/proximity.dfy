/** Q29: pairs of consecutive earthquakes, in time order, that happened within an hour and
    50 km of each other. Only the most recent `n` events are considered (`n` comes from a
    number input bounded to 500..50000); the distance is the great-circle distance, taken here
    as a parameter. */
module Proximity {
  import opened Options
  import opened Frames
  import opened Sorting
  import opened Queries

  /** Distance in km from the first position (latitude, longitude in degrees) to the second. */
  type Distance = (real, real, real, real) -> real

  const MinutesLimit: real := 60.0
  const DistanceLimit: real := 50.0
  /** Rows shown at most. */
  const PairLimit: nat := 500
  const MsPerMinute: real := 60000.0

  /** One output row: `id`, `prev_time`, `time`, `minutes_diff`, `distance_km` and `place`; the
      id, place and time are those of the later event. */
  datatype Pair = Pair(id: Option<Value>, prevTime: real, time: real, minutes: real, distance: real, place: Option<Value>)

  function TimeKey(r: Row): Option<real> {
    StampAt(r, "time")
  }

  function PairTime(p: Pair): Option<real> {
    Some(p.time)
  }

  /** The pair formed by a row and the row before it, when it is kept: rows whose predecessor
      lacks a latitude, longitude or time are dropped (`dropna`), and a missing time or position
      of the later row makes its difference or distance NaN, which fails both limits. */
  function PairOf(prev: Row, cur: Row, dist: Distance): (r: Option<Pair>)
    ensures r.Some? ==>
      && r.value.minutes <= MinutesLimit && r.value.distance <= DistanceLimit
      && r.value.minutes * MsPerMinute == r.value.time - r.value.prevTime
  {
    match (NumAt(prev, "latitude"), NumAt(prev, "longitude"), StampAt(prev, "time"))
    case (Some(plat), Some(plon), Some(pt)) =>
      (match (NumAt(cur, "latitude"), NumAt(cur, "longitude"), StampAt(cur, "time"))
       case (Some(lat), Some(lon), Some(t)) =>
         var minutes := (t - pt) / MsPerMinute;
         var d := dist(plat, plon, lat, lon);
         if minutes <= MinutesLimit && d <= DistanceLimit
         then Some(Pair(Cell(cur, "id"), pt, t, minutes, d, Cell(cur, "place")))
         else None
       case _ => None)
    case _ => None
  }

  /** Where a kept pair's cells come from: the times of both rows, the later row's id and place,
      and the distance between the two positions. */
  lemma PairOfCells(prev: Row, cur: Row, dist: Distance)
    requires PairOf(prev, cur, dist).Some?
    ensures var p := PairOf(prev, cur, dist).value;
      && StampAt(prev, "time") == Some(p.prevTime) && StampAt(cur, "time") == Some(p.time)
      && p.id == Cell(cur, "id") && p.place == Cell(cur, "place")
      && NumAt(prev, "latitude").Some? && NumAt(prev, "longitude").Some?
      && NumAt(cur, "latitude").Some? && NumAt(cur, "longitude").Some?
      && p.distance == dist(NumAt(prev, "latitude").value, NumAt(prev, "longitude").value,
                            NumAt(cur, "latitude").value, NumAt(cur, "longitude").value)
  {
  }

  /** A pair with all cells present is dropped only for breaking a limit. */
  lemma PairOfDropped(prev: Row, cur: Row, dist: Distance)
    requires StampAt(prev, "time").Some? && StampAt(cur, "time").Some?
    requires NumAt(prev, "latitude").Some? && NumAt(prev, "longitude").Some?
    requires NumAt(cur, "latitude").Some? && NumAt(cur, "longitude").Some?
    ensures PairOf(prev, cur, dist).None? <==>
      StampAt(cur, "time").value - StampAt(prev, "time").value > MinutesLimit * MsPerMinute ||
      dist(NumAt(prev, "latitude").value, NumAt(prev, "longitude").value,
           NumAt(cur, "latitude").value, NumAt(cur, "longitude").value) > DistanceLimit
  {
  }

  /** A kept pair whose rows are in time order is never negative in minutes. */
  lemma PairForward(prev: Row, cur: Row, dist: Distance)
    requires PairOf(prev, cur, dist).Some?
    requires KeyLe(TimeKey(prev), TimeKey(cur), Ascending)
    ensures PairOf(prev, cur, dist).value.minutes >= 0.0 && PairOf(prev, cur, dist).value.prevTime <= PairOf(prev, cur, dist).value.time
  {
  }

  /** The present values, in order. */
  function Present<T>(xs: seq<Option<T>>): (r: seq<T>)
    ensures |r| <= |xs|
    ensures forall k | 0 <= k < |r| :: Some(r[k]) in xs
    ensures forall i | 0 <= i < |xs| && xs[i].Some? :: xs[i].value in r
  {
    if |xs| == 0 then []
    else
      var rest := Present(xs[1..]);
      assert forall i | 1 <= i < |xs| :: xs[i] == xs[1..][i - 1];
      match xs[0]
      case Some(x) => [x] + rest
      case None => rest
  }

  /** Every row after the first with its predecessor (`shift(1)`). */
  function Consecutive(rows: seq<Row>, dist: Distance): (r: seq<Option<Pair>>)
    ensures |r| == if |rows| == 0 then 0 else |rows| - 1
    ensures forall i | 0 <= i < |r| :: r[i] == PairOf(rows[i], rows[i + 1], dist)
  {
    if |rows| == 0 then [] else seq(|rows| - 1, i requires 0 <= i < |rows| - 1 => PairOf(rows[i], rows[i + 1], dist))
  }

  /** Lines 303-310: the kept pairs of consecutive rows, in row order. */
  function ClosePairs(rows: seq<Row>, dist: Distance): (r: seq<Pair>)
    ensures |r| <= |rows|
    ensures forall k | 0 <= k < |r| :: exists i | 0 <= i < |rows| - 1 :: PairOf(rows[i], rows[i + 1], dist) == Some(r[k])
    ensures forall i | 0 <= i < |rows| - 1 && PairOf(rows[i], rows[i + 1], dist).Some? :: PairOf(rows[i], rows[i + 1], dist).value in r
  {
    var c := Consecutive(rows, dist);
    var r := Present(c);
    assert forall k | 0 <= k < |r| :: exists i | 0 <= i < |c| :: c[i] == Some(r[k]);
    r
  }

  /** In a time-ordered table, every kept pair runs forward in time. */
  lemma ClosePairsForward(rows: seq<Row>, dist: Distance)
    requires SortedByKey(rows, TimeKey, Ascending)
    ensures forall p | p in ClosePairs(rows, dist) :: p.minutes >= 0.0 && p.prevTime <= p.time
  {
    forall p | p in ClosePairs(rows, dist)
      ensures p.minutes >= 0.0 && p.prevTime <= p.time
    {
      var k :| 0 <= k < |ClosePairs(rows, dist)| && ClosePairs(rows, dist)[k] == p;
      var i :| 0 <= i < |rows| - 1 && PairOf(rows[i], rows[i + 1], dist) == Some(p);
      PairForward(rows[i], rows[i + 1], dist);
    }
  }

  /** The columns the displayed result reads from the table besides the ones it derives. */
  const PairColumns: seq<string> := ["id", "place"]

  /** The most recent `n` events in time order (`sort_values("time").tail(n)`): no event left
      out is later than one kept, missing times counting as latest. */
  function RecentInOrder(rows: seq<Row>, n: nat): (r: seq<Row>)
    ensures IsLastK(rows, r, TimeKey, Ascending, n)
    ensures |r| == Min(n, |rows|) && multiset(r) <= multiset(rows)
    ensures SortedByKey(r, TimeKey, Ascending)
  {
    var s := SortBy(rows, TimeKey, Ascending);
    TailIsLastK(rows, s, TimeKey, Ascending, n);
    Tail(s, n)
  }

  /** The close pairs among the `n` most recent events, the latest 500 first. */
  function ShownPairs(rows: seq<Row>, n: nat, dist: Distance): (out: seq<Pair>)
    ensures |out| <= PairLimit && SortedByKey(out, PairTime, Descending)
    ensures IsTopK(ClosePairs(RecentInOrder(rows, n), dist), out, PairTime, Descending, PairLimit)
    ensures forall p | p in out :: 0.0 <= p.minutes <= MinutesLimit && p.distance <= DistanceLimit && p.prevTime <= p.time
  {
    var pairs := ClosePairs(RecentInOrder(rows, n), dist);
    var out := TopBy(pairs, PairTime, Descending, PairLimit);
    ShownWithinLimits(RecentInOrder(rows, n), dist, out);
    out
  }

  /** A selection from the close pairs of a time-ordered table keeps within both limits and
      runs forward in time. */
  lemma ShownWithinLimits(recent: seq<Row>, dist: Distance, out: seq<Pair>)
    requires SortedByKey(recent, TimeKey, Ascending)
    requires multiset(out) <= multiset(ClosePairs(recent, dist))
    ensures forall p | p in out :: 0.0 <= p.minutes <= MinutesLimit && p.distance <= DistanceLimit && p.prevTime <= p.time
  {
    var pairs := ClosePairs(recent, dist);
    ClosePairsForward(recent, dist);
    assert forall p | p in out :: p in multiset(pairs);
  }

  /** Every displayed pair comes from two events of the table, the earlier one first, within
      both limits. */
  lemma ShownPairsFromRows(rows: seq<Row>, n: nat, dist: Distance, p: Pair)
    requires p in ShownPairs(rows, n, dist)
    ensures exists a, b | a in rows && b in rows ::
      PairOf(a, b, dist) == Some(p) && KeyLe(TimeKey(a), TimeKey(b), Ascending)
  {
    var recent := RecentInOrder(rows, n);
    var pairs := ClosePairs(recent, dist);
    assert p in pairs by {
      var out := TopBy(pairs, PairTime, Descending, PairLimit);
      assert p in multiset(out);
    }
    PairFromOrdered(recent, rows, dist, p);
  }

  /** A close pair of a time-ordered selection of `rows` comes from two of its rows. */
  lemma PairFromOrdered(recent: seq<Row>, rows: seq<Row>, dist: Distance, p: Pair)
    requires multiset(recent) <= multiset(rows) && SortedByKey(recent, TimeKey, Ascending)
    requires p in ClosePairs(recent, dist)
    ensures exists a, b | a in rows && b in rows ::
      PairOf(a, b, dist) == Some(p) && KeyLe(TimeKey(a), TimeKey(b), Ascending)
  {
    var i := PairIndex(recent, dist, p);
    PairFromStep(recent, rows, dist, p, i);
  }

  lemma PairIndex(rows: seq<Row>, dist: Distance, p: Pair) returns (i: int)
    requires p in ClosePairs(rows, dist)
    ensures 0 <= i < |rows| - 1 && PairOf(rows[i], rows[i + 1], dist) == Some(p)
  {
    var pairs := ClosePairs(rows, dist);
    var k :| 0 <= k < |pairs| && pairs[k] == p;
    i :| 0 <= i < |rows| - 1 && PairOf(rows[i], rows[i + 1], dist) == Some(p);
  }

  lemma PairFromStep(recent: seq<Row>, rows: seq<Row>, dist: Distance, p: Pair, i: int)
    requires multiset(recent) <= multiset(rows) && SortedByKey(recent, TimeKey, Ascending)
    requires 0 <= i < |recent| - 1 && PairOf(recent[i], recent[i + 1], dist) == Some(p)
    ensures exists a, b | a in rows && b in rows ::
      PairOf(a, b, dist) == Some(p) && KeyLe(TimeKey(a), TimeKey(b), Ascending)
  {
    SortedStep(recent, i);
    InRows(recent, rows, i);
    InRows(recent, rows, i + 1);
    PairWitness(rows, recent[i], recent[i + 1], p, dist);
  }

  lemma SortedStep(rows: seq<Row>, i: int)
    requires SortedByKey(rows, TimeKey, Ascending) && 0 <= i < |rows| - 1
    ensures KeyLe(TimeKey(rows[i]), TimeKey(rows[i + 1]), Ascending)
  {
  }

  lemma InRows(sub: seq<Row>, rows: seq<Row>, i: int)
    requires multiset(sub) <= multiset(rows) && 0 <= i < |sub|
    ensures sub[i] in rows
  {
    assert sub[i] in multiset(sub);
  }

  lemma PairWitness(rows: seq<Row>, a: Row, b: Row, p: Pair, dist: Distance)
    requires a in rows && b in rows && PairOf(a, b, dist) == Some(p) && KeyLe(TimeKey(a), TimeKey(b), Ascending)
    ensures exists a, b | a in rows && b in rows :: PairOf(a, b, dist) == Some(p) && KeyLe(TimeKey(a), TimeKey(b), Ascending)
  {
  }

  /** Q29. A table without `latitude` and `longitude` gets a warning; without `time` the sort
      raises, and without `id` or `place` the final column selection does. */
  function NearbyPairs(t: Table, n: nat, dist: Distance): (o: Outcome<seq<Pair>>)
    ensures !o.Failed?
    ensures o.Warned? <==> "latitude" !in t.columns || "longitude" !in t.columns
    ensures o.Warned? ==> o.message == "latitude/longitude not present."
    ensures o.Raised? <==> ("latitude" in t.columns && "longitude" in t.columns &&
      ("time" !in t.columns || "id" !in t.columns || "place" !in t.columns))
    ensures o.Raised? ==> o.missing !in t.columns
    ensures o.Shown? ==> o.out == ShownPairs(t.rows, n, dist)
  {
    if "latitude" !in t.columns || "longitude" !in t.columns then Warned("latitude/longitude not present.")
    else if "time" !in t.columns then Raised("time")
    else
      assert PairColumns[0] == "id" && PairColumns[1] == "place";
      match FirstMissing(t, PairColumns)
      case Some(c) => Raised(c)
      case None => Shown(ShownPairs(t.rows, n, dist))
  }
}
