/** Beacon exclusion zone: each sensor covers the points no farther from it
    (in Manhattan distance) than its closest beacon. On one row the covered
    points form ranges, which are sorted and merged to count the points where
    no beacon can be (silver) or to find the one uncovered point (gold)
    (src/day15.rs). */
module Day15 {
  import opened Prelude
  import Text

  /** An `(isize, isize)` point. */
  datatype Point = Point(x: int, y: int)

  /** A sensor, its closest beacon and the distance between them. */
  datatype Sensor = Sensor(position: Point, beacon: Point, dist: int)

  /** A `RangeInclusive<isize>`. */
  datatype Range = Range(start: int, end: int)

  /** `manhattan`: never negative, and 0 only from a point to itself. */
  function Manhattan(a: Point, b: Point): (d: int)
    ensures d >= 0
    ensures d == 0 <==> a == b
  {
    Abs(a.x - b.x) + Abs(a.y - b.y)
  }

  lemma ManhattanSymmetric(a: Point, b: Point)
    ensures Manhattan(a, b) == Manhattan(b, a)
  {
  }

  lemma ManhattanTriangle(a: Point, b: Point, c: Point)
    ensures Manhattan(a, c) <= Manhattan(a, b) + Manhattan(b, c)
  {
  }

  /** `parse_coord("x=a, y=b")`: the text after each `=` is a number. */
  function ParseCoord(s: string): Option<Point>
  {
    match Text.SplitOnceStr(s, ", ")
    case None => None
    case Some((sx, sy)) =>
      match (Text.SplitOnce(sx, '='), Text.SplitOnce(sy, '='))
      case (Some((_, nx)), Some((_, ny))) =>
        (match (Text.ParseIsize(nx), Text.ParseIsize(ny))
         case (Some(x), Some(y)) => Some(Point(x, y))
         case _ => None)
      case _ => None
  }

  /** `Sensor::from_str`: the distance is the Manhattan distance from the
      sensor to its beacon. */
  function ParseSensor(line: string): (r: Option<Sensor>)
    ensures r.Some? ==> r.value.dist == Manhattan(r.value.position, r.value.beacon)
  {
    match Text.SplitOnceStr(line, ": ")
    case None => None
    case Some((sensor, beacon)) =>
      match (Text.StripPrefix(sensor, "Sensor at "), Text.StripPrefix(beacon, "closest beacon is at "))
      case (Some(s), Some(b)) =>
        (match (ParseCoord(s), ParseCoord(b))
         case (Some(p), Some(q)) => Some(Sensor(p, q, Manhattan(p, q)))
         case _ => None)
      case _ => None
  }

  function CoordText(p: Point): string
  {
    "x=" + Text.IntToString(p.x) + ", y=" + Text.IntToString(p.y)
  }

  /** The puzzle's line for a sensor and its beacon. */
  function SensorLine(p: Point, b: Point): string
  {
    "Sensor at " + CoordText(p) + ": " + "closest beacon is at " + CoordText(b)
  }

  predicate InIsize(p: Point)
  {
    -Text.IsizeLimit <= p.x < Text.IsizeLimit && -Text.IsizeLimit <= p.y < Text.IsizeLimit
  }

  lemma ParseCoordRoundTrip(p: Point)
    requires InIsize(p)
    ensures ParseCoord(CoordText(p)) == Some(p)
    ensures ':' !in CoordText(p)
  {
    var nx, ny := Text.IntToString(p.x), Text.IntToString(p.y);
    assert ',' !in "x=" + nx && ':' !in "x=" + nx by {
      forall c | c in nx ensures c != ',' && c != ':' { Text.IntToStringChars(p.x, c); }
    }
    assert ':' !in "y=" + ny by {
      forall c | c in ny ensures c != ':' { Text.IntToStringChars(p.y, c); }
    }
    assert CoordText(p) == ("x=" + nx) + ", " + ("y=" + ny);
    Text.SplitOnceStrAt("x=" + nx, ", ", "y=" + ny);
    assert "x=" + nx == "x" + ['='] + nx;
    assert "y=" + ny == "y" + ['='] + ny;
    Text.SplitOnceAt("x", '=', nx);
    Text.SplitOnceAt("y", '=', ny);
    Text.ParseSignedRoundTrip(p.x);
    Text.ParseSignedRoundTrip(p.y);
  }

  /** Reading a sensor line back gives the sensor, beacon and their distance. */
  lemma ParseSensorRoundTrip(p: Point, b: Point)
    requires InIsize(p) && InIsize(b)
    ensures ParseSensor(SensorLine(p, b)) == Some(Sensor(p, b, Manhattan(p, b)))
  {
    ParseCoordRoundTrip(p);
    ParseCoordRoundTrip(b);
    var a, rest := "Sensor at " + CoordText(p), "closest beacon is at " + CoordText(b);
    assert ':' !in a;
    assert SensorLine(p, b) == a + ": " + rest;
    Text.SplitOnceStrAt(a, ": ", rest);
  }

  /** All input lines as sensors; `None` once a line does not parse. */
  function ParseAll(lines: seq<string>): (r: Option<seq<Sensor>>)
    ensures r.Some? ==> |r.value| == |lines| &&
                        forall i :: 0 <= i < |lines| ==> Some(r.value[i]) == ParseSensor(lines[i])
  {
    if lines == [] then Some([])
    else
      var init, last := ParseAll(lines[..|lines| - 1]), ParseSensor(lines[|lines| - 1]);
      if init.Some? && last.Some? then
        assert forall i :: 0 <= i < |lines| - 1 ==> lines[i] == lines[..|lines| - 1][i];
        Some(init.value + [last.value])
      else None
  }

  /** Every sensor's distance is the distance to its beacon. */
  ghost predicate Consistent(sensors: seq<Sensor>)
  {
    forall i :: 0 <= i < |sensors| ==> sensors[i].dist == Manhattan(sensors[i].position, sensors[i].beacon)
  }

  lemma ParseAllConsistent(lines: seq<string>)
    requires ParseAll(lines).Some?
    ensures Consistent(ParseAll(lines).value)
  {
  }

  predicate Contains(r: Range, x: int)
  {
    r.start <= x <= r.end
  }

  predicate WellFormed(r: Range)
  {
    r.start <= r.end
  }

  /** The sensors whose distance reaches row `y`. */
  function Reachable(sensors: seq<Sensor>, y: int): (r: seq<Sensor>)
    ensures forall s :: s in r <==> s in sensors && Abs(s.position.y - y) <= s.dist
  {
    if sensors == [] then []
    else
      var rest := Reachable(sensors[..|sensors| - 1], y);
      var s := sensors[|sensors| - 1];
      assert sensors == sensors[..|sensors| - 1] + [s];
      if Abs(s.position.y - y) <= s.dist then rest + [s] else rest
  }

  /** The base of the sensor's diamond on row `y`: centred on the sensor's
      column, `dist - to_y` to either side. */
  function RangeOn(s: Sensor, y: int): Range
  {
    var toY := Abs(s.position.y - y);
    var rem := Abs(toY - s.dist);
    Range(s.position.x - rem, s.position.x + rem)
  }

  /** A sensor that reaches row `y` covers exactly the points of its range on
      that row. */
  lemma RangeOnSpec(s: Sensor, y: int, x: int)
    requires Abs(s.position.y - y) <= s.dist
    ensures WellFormed(RangeOn(s, y))
    ensures Contains(RangeOn(s, y), x) <==> Manhattan(s.position, Point(x, y)) <= s.dist
  {
  }

  /** The row ranges of the sensors that reach row `y`, in input order: the
      `filter` then `map` of `silver`, and equally the `filter_map` of
      `gold`. */
  function RowRanges(sensors: seq<Sensor>, y: int): (r: seq<Range>)
    ensures |r| == |Reachable(sensors, y)|
  {
    var reach := Reachable(sensors, y);
    seq(|reach|, i requires 0 <= i < |reach| => RangeOn(reach[i], y))
  }

  /** The integers of a range; none when it is reversed. */
  ghost function Interval(r: Range): set<int>
  {
    set x | r.start <= x <= r.end && Contains(r, x)
  }

  /** The integers the ranges cover between them. */
  ghost function CoveredBy(rs: seq<Range>): set<int>
  {
    if rs == [] then {} else CoveredBy(rs[..|rs| - 1]) + Interval(rs[|rs| - 1])
  }

  lemma {:induction false} CoveredByMembers(rs: seq<Range>, x: int)
    ensures x in CoveredBy(rs) <==> exists j :: 0 <= j < |rs| && Contains(rs[j], x)
  {
    if rs != [] {
      CoveredByMembers(rs[..|rs| - 1], x);
      if x in CoveredBy(rs[..|rs| - 1]) {
        var j :| 0 <= j < |rs| - 1 && Contains(rs[..|rs| - 1][j], x);
        assert Contains(rs[j], x);
      }
      if exists j :: 0 <= j < |rs| && Contains(rs[j], x) {
        var j :| 0 <= j < |rs| && Contains(rs[j], x);
        if j < |rs| - 1 {
          assert Contains(rs[..|rs| - 1][j], x);
        }
      }
    }
  }

  /** Only the ranges, not their order or repetitions, decide what is
      covered. */
  lemma CoveredBySameRanges(a: seq<Range>, b: seq<Range>)
    requires forall r :: r in a <==> r in b
    ensures CoveredBy(a) == CoveredBy(b)
  {
    forall x
      ensures x in CoveredBy(a) <==> x in CoveredBy(b)
    {
      CoveredByMembers(a, x);
      CoveredByMembers(b, x);
      if x in CoveredBy(a) {
        var j :| 0 <= j < |a| && Contains(a[j], x);
        assert a[j] in b;
        var k :| 0 <= k < |b| && b[k] == a[j];
      }
      if x in CoveredBy(b) {
        var j :| 0 <= j < |b| && Contains(b[j], x);
        assert b[j] in a;
        var k :| 0 <= k < |a| && a[k] == b[j];
      }
    }
  }

  /** The points of row `y` covered by the ranges are exactly those within
      some sensor's distance. */
  lemma RowCoverageSpec(sensors: seq<Sensor>, y: int, x: int)
    ensures x in CoveredBy(RowRanges(sensors, y)) <==>
              exists i :: 0 <= i < |sensors| && Manhattan(sensors[i].position, Point(x, y)) <= sensors[i].dist
  {
    var reach, ranges := Reachable(sensors, y), RowRanges(sensors, y);
    CoveredByMembers(ranges, x);
    if x in CoveredBy(ranges) {
      var j :| 0 <= j < |ranges| && Contains(ranges[j], x);
      RangeOnSpec(reach[j], y, x);
      assert reach[j] in sensors;
      var i :| 0 <= i < |sensors| && sensors[i] == reach[j];
    }
    if exists i :: 0 <= i < |sensors| && Manhattan(sensors[i].position, Point(x, y)) <= sensors[i].dist {
      var i :| 0 <= i < |sensors| && Manhattan(sensors[i].position, Point(x, y)) <= sensors[i].dist;
      var s := sensors[i];
      assert Abs(s.position.y - y) <= s.dist;
      assert s in reach;
      var j :| 0 <= j < |reach| && reach[j] == s;
      RangeOnSpec(s, y, x);
      assert Contains(ranges[j], x);
    }
  }

  predicate SortedByStart(rs: seq<Range>)
  {
    forall i, j :: 0 <= i < j < |rs| ==> rs[i].start <= rs[j].start
  }

  function Insert(r: Range, s: seq<Range>): (t: seq<Range>)
    ensures |t| == |s| + 1
    ensures multiset(t) == multiset(s) + multiset{r}
  {
    if s == [] || r.start <= s[0].start then [r] + s
    else
      assert s == [s[0]] + s[1..];
      [s[0]] + Insert(r, s[1..])
  }

  /** `sort_unstable_by_key(start)`, as an insertion sort; it keeps each
      range. */
  function SortByStart(rs: seq<Range>): (r: seq<Range>)
    ensures |r| == |rs|
    ensures multiset(r) == multiset(rs)
  {
    if rs == [] then []
    else
      assert rs == [rs[0]] + rs[1..];
      Insert(rs[0], SortByStart(rs[1..]))
  }

  lemma {:induction false} InsertSorted(r: Range, s: seq<Range>)
    requires SortedByStart(s)
    ensures SortedByStart(Insert(r, s))
  {
    if s != [] && r.start > s[0].start {
      InsertSorted(r, s[1..]);
      var t := Insert(r, s[1..]);
      forall k | 0 <= k < |t| ensures s[0].start <= t[k].start {
        assert t[k] in multiset(t);
        if t[k] != r {
          assert t[k] in multiset(s[1..]);
          var j :| 0 <= j < |s[1..]| && s[1..][j] == t[k];
          assert s[j + 1] == t[k];
        }
      }
      assert Insert(r, s) == [s[0]] + t;
    }
  }

  /** The sort orders the ranges by start. */
  lemma {:induction false} SortByStartSorted(rs: seq<Range>)
    ensures SortedByStart(SortByStart(rs))
  {
    if rs != [] {
      SortByStartSorted(rs[1..]);
      InsertSorted(rs[0], SortByStart(rs[1..]));
    }
  }

  /** Whether the merge joins `next` onto `latest`: when they overlap, which is
      what the source tests, or (`adjacent`) also when `next` starts right
      after `latest` ends. */
  predicate Joins(latest: Range, next: Range, adjacent: bool)
  {
    latest.end >= next.start || (adjacent && latest.end + 1 == next.start)
  }

  /** One turn of the merge loop: widen the last range over `next`, or append
      `next`. */
  function Absorb(m: seq<Range>, next: Range, adjacent: bool): seq<Range>
    requires m != []
  {
    var latest := m[|m| - 1];
    if Joins(latest, next, adjacent) then m[..|m| - 1] + [Range(latest.start, Max(next.end, latest.end))]
    else m + [next]
  }

  /** The merge loop over the first `k` sorted ranges. */
  function MergeSorted(sorted: seq<Range>, k: nat, adjacent: bool): (m: seq<Range>)
    requires 1 <= k <= |sorted|
    ensures m != []
  {
    if k == 1 then [sorted[0]] else Absorb(MergeSorted(sorted, k - 1, adjacent), sorted[k - 1], adjacent)
  }

  /** Consecutive ranges of `m` are apart: each ends before the next starts,
      with (`adjacent`) at least one point between them. */
  predicate Separated(m: seq<Range>, adjacent: bool)
  {
    forall i :: 0 <= i < |m| - 1 ==> m[i].end + (if adjacent then 1 else 0) < m[i + 1].start
  }

  predicate StartsAscending(m: seq<Range>)
  {
    forall i :: 0 <= i < |m| - 1 ==> m[i].start <= m[i + 1].start
  }

  /** The merge gives no more ranges than it was given, starts at the least
      start, keeps the ranges ordered by start and apart from each other. */
  lemma {:induction false} MergeSortedShape(sorted: seq<Range>, k: nat, adjacent: bool)
    requires 1 <= k <= |sorted| && SortedByStart(sorted)
    ensures var m := MergeSorted(sorted, k, adjacent);
            |m| <= k && m[0].start == sorted[0].start && m[|m| - 1].start <= sorted[k - 1].start &&
            StartsAscending(m) && Separated(m, adjacent)
  {
    if k > 1 {
      MergeSortedShape(sorted, k - 1, adjacent);
      MergeSortedStep(sorted, k, adjacent);
      assert sorted[k - 2].start <= sorted[k - 1].start;
      AbsorbShape(MergeSorted(sorted, k - 1, adjacent), sorted[k - 1], adjacent);
    }
  }

  /** One merge turn keeps the ranges ordered and apart, and its last range
      starts no later than `next`. */
  lemma AbsorbShape(m: seq<Range>, next: Range, adjacent: bool)
    requires m != [] && m[|m| - 1].start <= next.start && StartsAscending(m) && Separated(m, adjacent)
    ensures var a := Absorb(m, next, adjacent);
            |a| <= |m| + 1 && a[0].start == m[0].start && a[|a| - 1].start <= next.start &&
            StartsAscending(a) && Separated(a, adjacent)
  {
  }

  lemma CoveredBySnoc(rs: seq<Range>, r: Range)
    ensures CoveredBy(rs + [r]) == CoveredBy(rs) + Interval(r)
  {
    assert (rs + [r])[..|rs|] == rs;
  }

  /** Widening `latest` over a `next` that it joins, and that starts no
      earlier, covers both. */
  lemma WidenedCovers(latest: Range, next: Range, adjacent: bool)
    requires Joins(latest, next, adjacent) && latest.start <= next.start
    ensures Interval(Range(latest.start, Max(next.end, latest.end))) == Interval(latest) + Interval(next)
  {
    var widened := Range(latest.start, Max(next.end, latest.end));
    forall x ensures Contains(widened, x) <==> Contains(latest, x) || Contains(next, x) {
    }
  }

  /** One merge turn adds what `next` covers, provided `next` starts no
      earlier than the last range. */
  lemma AbsorbCovers(m: seq<Range>, next: Range, adjacent: bool)
    requires m != [] && m[|m| - 1].start <= next.start
    ensures CoveredBy(Absorb(m, next, adjacent)) == CoveredBy(m) + Interval(next)
  {
    var latest := m[|m| - 1];
    if Joins(latest, next, adjacent) {
      var init := m[..|m| - 1];
      assert CoveredBy(m) == CoveredBy(init) + Interval(latest);
      CoveredBySnoc(init, Range(latest.start, Max(next.end, latest.end)));
      WidenedCovers(latest, next, adjacent);
    } else {
      CoveredBySnoc(m, next);
    }
  }

  lemma CoveredByPrefix(rs: seq<Range>, k: nat)
    requires 1 <= k <= |rs|
    ensures CoveredBy(rs[..k]) == CoveredBy(rs[..k - 1]) + Interval(rs[k - 1])
  {
    assert rs[..k][..k - 1] == rs[..k - 1];
  }

  lemma MergeSortedStep(sorted: seq<Range>, k: nat, adjacent: bool)
    requires 2 <= k <= |sorted|
    ensures MergeSorted(sorted, k, adjacent) == Absorb(MergeSorted(sorted, k - 1, adjacent), sorted[k - 1], adjacent)
  {
  }

  /** The merge covers exactly what its input covers. */
  lemma {:induction false} MergeSortedUnion(sorted: seq<Range>, k: nat, adjacent: bool)
    requires 1 <= k <= |sorted| && SortedByStart(sorted)
    ensures CoveredBy(MergeSorted(sorted, k, adjacent)) == CoveredBy(sorted[..k])
  {
    if k == 1 {
      MergeOneUnion(sorted, adjacent);
    } else {
      MergeSortedLastStart(sorted, k - 1, adjacent);
      MergeSortedUnion(sorted, k - 1, adjacent);
      MergeUnionStep(sorted, k, adjacent);
    }
  }

  /** The last merged range starts no later than the last range merged. */
  lemma MergeSortedLastStart(sorted: seq<Range>, k: nat, adjacent: bool)
    requires 1 <= k <= |sorted| && SortedByStart(sorted)
    ensures var m := MergeSorted(sorted, k, adjacent); m[|m| - 1].start <= sorted[k - 1].start
  {
    MergeSortedShape(sorted, k, adjacent);
  }

  lemma MergeOneUnion(sorted: seq<Range>, adjacent: bool)
    requires 1 <= |sorted|
    ensures CoveredBy(MergeSorted(sorted, 1, adjacent)) == CoveredBy(sorted[..1])
  {
    assert MergeSorted(sorted, 1, adjacent) == sorted[..1];
  }

  /** One merge turn keeps the union, given that the turns before did. */
  lemma MergeUnionStep(sorted: seq<Range>, k: nat, adjacent: bool)
    requires 2 <= k <= |sorted| && SortedByStart(sorted)
    requires var m := MergeSorted(sorted, k - 1, adjacent);
             m[|m| - 1].start <= sorted[k - 2].start && CoveredBy(m) == CoveredBy(sorted[..k - 1])
    ensures CoveredBy(MergeSorted(sorted, k, adjacent)) == CoveredBy(sorted[..k])
  {
    var m, next := MergeSorted(sorted, k - 1, adjacent), sorted[k - 1];
    MergeSortedStep(sorted, k, adjacent);
    AbsorbCovers(m, next, adjacent);
    CoveredByPrefix(sorted, k);
    SameUnion(CoveredBy(MergeSorted(sorted, k, adjacent)), CoveredBy(m), CoveredBy(sorted[..k - 1]), Interval(next), CoveredBy(sorted[..k]));
  }

  lemma SameUnion(a: set<int>, c: set<int>, d: set<int>, i: set<int>, b: set<int>)
    requires a == c + i && c == d && b == d + i
    ensures a == b
  {
  }

  /** Merging well-formed ranges gives well-formed ranges. */
  lemma {:induction false} MergeSortedWellFormed(sorted: seq<Range>, k: nat, adjacent: bool)
    requires 1 <= k <= |sorted| && forall i :: 0 <= i < |sorted| ==> WellFormed(sorted[i])
    ensures forall i :: 0 <= i < |MergeSorted(sorted, k, adjacent)| ==> WellFormed(MergeSorted(sorted, k, adjacent)[i])
  {
    if k > 1 {
      MergeSortedWellFormed(sorted, k - 1, adjacent);
    }
  }

  /** `merge_ranges`; `None` on no ranges, where `sorted[0]` panics. */
  method MergeRanges(ranges: seq<Range>) returns (merged: Option<seq<Range>>)
    ensures merged == if ranges == [] then None else Some(MergeSorted(SortByStart(ranges), |ranges|, false))
  {
    var sorted := SortByStart(ranges);
    if |sorted| == 0 {
      return None;
    }
    var result := [sorted[0]];
    for i := 1 to |sorted|
      invariant result == MergeSorted(sorted, i, false)
    {
      var latest := result[|result| - 1];
      var next := sorted[i];
      if latest.end >= next.start {
        result := result[..|result| - 1] + [Range(latest.start, Max(next.end, latest.end))];
      } else {
        result := result + [next];
      }
    }
    return Some(result);
  }

  /** The merged row ranges, joining touching ranges or not. */
  function MergedRow(sensors: seq<Sensor>, y: int, adjacent: bool): Option<seq<Range>>
  {
    var ranges := RowRanges(sensors, y);
    if ranges == [] then None else Some(MergeSorted(SortByStart(ranges), |ranges|, adjacent))
  }

  /** What a merged row says: where it is split, the row has a hole right after
      the first range; `Panic` when no sensor reaches the row. */
  datatype RowVerdict = Hole(x: int) | NoHole | Panic

  function Verdict(merged: Option<seq<Range>>): RowVerdict
  {
    match merged
    case None => Panic
    case Some(m) => if |m| > 1 then Hole(m[0].end + 1) else NoHole
  }

  /** The hole test of `gold` on row `y`, as written: only overlapping ranges
      are merged. */
  function GoldRowAsWritten(sensors: seq<Sensor>, y: int): RowVerdict
  {
    Verdict(MergedRow(sensors, y, false))
  }

  /** The hole test with touching ranges merged too. */
  function GoldRow(sensors: seq<Sensor>, y: int): RowVerdict
  {
    Verdict(MergedRow(sensors, y, true))
  }

  /** Two sensors whose row-0 ranges `-5..=5` and `6..=16` touch. */
  function TouchingSensors(): seq<Sensor>
  {
    [Sensor(Point(0, 0), Point(5, 0), 5), Sensor(Point(11, 0), Point(16, 0), 5)]
  }

  lemma TouchingRowRanges()
    ensures RowRanges(TouchingSensors(), 0) == [Range(-5, 5), Range(6, 16)]
  {
    var sensors := TouchingSensors();
    TouchingReachable();
    assert RangeOn(sensors[0], 0) == Range(-5, 5);
    assert RangeOn(sensors[1], 0) == Range(6, 16);
  }

  /** Both sensors reach row 0. */
  lemma TouchingReachable()
    ensures Reachable(TouchingSensors(), 0) == TouchingSensors()
  {
    var sensors := TouchingSensors();
    var s0 := sensors[0];
    assert sensors[..1] == [s0];
    assert Reachable([s0], 0) == [s0] by {
      assert [s0][..0] == [];
    }
  }

  /** The merge leaves two ranges that touch apart, so the test as written
      reports a hole on a point a sensor covers: point 6 is 5 from the second
      sensor. Joining touching ranges finds no hole. */
  lemma GoldRowAsWrittenReportsCoveredHole()
    ensures GoldRowAsWritten(TouchingSensors(), 0) == Hole(6)
    ensures Manhattan(TouchingSensors()[1].position, Point(6, 0)) <= TouchingSensors()[1].dist
    ensures GoldRow(TouchingSensors(), 0) == NoHole
  {
    TouchingMerged();
  }

  /** The two ranges stay apart when only overlaps merge, and join into one
      when touching ranges merge too. */
  lemma TouchingMerged()
    ensures MergedRow(TouchingSensors(), 0, false) == Some([Range(-5, 5), Range(6, 16)])
    ensures MergedRow(TouchingSensors(), 0, true) == Some([Range(-5, 16)])
  {
    TouchingRowRanges();
    var r0, r1 := Range(-5, 5), Range(6, 16);
    var ranges := [r0, r1];
    TouchingSorted();
    assert MergeSorted(ranges, 1, false) == [r0];
    assert MergeSorted(ranges, 1, true) == [r0];
    assert MergeSorted(ranges, 2, false) == Absorb([r0], r1, false) == ranges;
    assert MergeSorted(ranges, 2, true) == Absorb([r0], r1, true) == [Range(-5, 16)];
  }

  lemma TouchingSorted()
    ensures SortByStart([Range(-5, 5), Range(6, 16)]) == [Range(-5, 5), Range(6, 16)]
  {
    var r0, r1 := Range(-5, 5), Range(6, 16);
    var ranges := [r0, r1];
    assert ranges[1..] == [r1] && [r1][1..] == [];
    assert SortByStart([r1]) == Insert(r1, []) == [r1];
    assert SortByStart(ranges) == Insert(r0, [r1]) == ranges;
  }

  lemma RowRangesWellFormed(sensors: seq<Sensor>, y: int)
    ensures forall i :: 0 <= i < |RowRanges(sensors, y)| ==> WellFormed(RowRanges(sensors, y)[i])
  {
    var reach := Reachable(sensors, y);
    forall i | 0 <= i < |reach| ensures WellFormed(RangeOn(reach[i], y)) {
      assert reach[i] in sensors;
      RangeOnSpec(reach[i], y, 0);
    }
  }

  /** The merged row: its ranges are well-formed, ordered by start, apart from
      each other, and cover what the row ranges cover. */
  lemma MergedRowFacts(sensors: seq<Sensor>, y: int, adjacent: bool)
    requires RowRanges(sensors, y) != []
    ensures var m := MergedRow(sensors, y, adjacent).value;
            StartsAscending(m) && Separated(m, adjacent) &&
            (forall i :: 0 <= i < |m| ==> WellFormed(m[i])) &&
            CoveredBy(m) == CoveredBy(RowRanges(sensors, y))
  {
    var ranges := RowRanges(sensors, y);
    var sorted := SortByStart(ranges);
    SortByStartSorted(ranges);
    forall r ensures r in sorted <==> r in ranges {
      assert r in sorted <==> r in multiset(sorted);
      assert r in ranges <==> r in multiset(ranges);
    }
    RowRangesWellFormed(sensors, y);
    forall i | 0 <= i < |sorted| ensures WellFormed(sorted[i]) {
      assert sorted[i] in ranges;
    }
    MergeSortedShape(sorted, |ranges|, adjacent);
    MergeSortedUnion(sorted, |ranges|, adjacent);
    MergeSortedWellFormed(sorted, |ranges|, adjacent);
    assert sorted[..|sorted|] == sorted;
    CoveredBySameRanges(sorted, ranges);
  }

  /** With touching ranges joined, a reported hole is a point of the row no
      sensor covers, right after a covered one; a row without a hole is
      covered without gaps between its least and greatest covered point. */
  lemma GoldRowSpec(sensors: seq<Sensor>, y: int)
    ensures GoldRow(sensors, y) == Panic <==> RowRanges(sensors, y) == []
    ensures GoldRow(sensors, y).Hole? ==>
              var x := GoldRow(sensors, y).x;
              (forall i :: 0 <= i < |sensors| ==> Manhattan(sensors[i].position, Point(x, y)) > sensors[i].dist) &&
              exists i :: 0 <= i < |sensors| && Manhattan(sensors[i].position, Point(x - 1, y)) <= sensors[i].dist
    ensures GoldRow(sensors, y) == NoHole ==>
              forall a, b, c :: a <= b <= c && a in CoveredBy(RowRanges(sensors, y)) && c in CoveredBy(RowRanges(sensors, y)) ==>
                b in CoveredBy(RowRanges(sensors, y))
  {
    if RowRanges(sensors, y) != [] {
      MergedRowFacts(sensors, y, true);
      if GoldRow(sensors, y).Hole? {
        GoldRowHole(sensors, y);
      } else if GoldRow(sensors, y) == NoHole {
        GoldRowNoHole(sensors, y);
      }
    }
  }

  lemma GoldRowHole(sensors: seq<Sensor>, y: int)
    requires RowRanges(sensors, y) != [] && GoldRow(sensors, y).Hole?
    ensures var x := GoldRow(sensors, y).x;
            (forall i :: 0 <= i < |sensors| ==> Manhattan(sensors[i].position, Point(x, y)) > sensors[i].dist) &&
            exists i :: 0 <= i < |sensors| && Manhattan(sensors[i].position, Point(x - 1, y)) <= sensors[i].dist
  {
    MergedRowFacts(sensors, y, true);
    var m := MergedRow(sensors, y, true).value;
    var x := m[0].end + 1;
    forall j | 0 <= j < |m| ensures !Contains(m[j], x) {
      if j > 0 {
        StartsAscendingFrom(m, 1, j);
      }
    }
    CoveredByMembers(m, x);
    CoveredByMembers(m, x - 1);
    RowCoverageSpec(sensors, y, x);
    RowCoverageSpec(sensors, y, x - 1);
  }

  lemma GoldRowNoHole(sensors: seq<Sensor>, y: int)
    requires RowRanges(sensors, y) != [] && GoldRow(sensors, y) == NoHole
    ensures forall a, b, c :: a <= b <= c && a in CoveredBy(RowRanges(sensors, y)) && c in CoveredBy(RowRanges(sensors, y)) ==>
              b in CoveredBy(RowRanges(sensors, y))
  {
    var ranges := RowRanges(sensors, y);
    MergedRowFacts(sensors, y, true);
    var m := MergedRow(sensors, y, true).value;
    forall a, b, c | a <= b <= c && a in CoveredBy(ranges) && c in CoveredBy(ranges)
      ensures b in CoveredBy(ranges)
    {
      CoveredByMembers(m, a);
      CoveredByMembers(m, b);
      CoveredByMembers(m, c);
    }
  }

  lemma {:induction false} StartsAscendingFrom(m: seq<Range>, i: nat, j: nat)
    requires StartsAscending(m) && i <= j < |m|
    ensures m[i].start <= m[j].start
    decreases j - i
  {
    if i < j {
      StartsAscendingFrom(m, i + 1, j);
    }
  }

  /** The number of points of each range, summed as the fold of `silver`
      does. */
  function SumLengths(m: seq<Range>): int
  {
    if m == [] then 0 else SumLengths(m[..|m| - 1]) + Abs(m[|m| - 1].end - m[|m| - 1].start) + 1
  }

  lemma {:induction false} IntervalSize(r: Range)
    requires WellFormed(r)
    ensures |Interval(r)| == r.end - r.start + 1
    decreases r.end - r.start
  {
    if r.start < r.end {
      var r' := Range(r.start, r.end - 1);
      IntervalSize(r');
      IntervalSnoc(r);
    } else {
      assert Interval(r) == {r.start};
    }
  }

  /** A range is the range one shorter plus its end, which that one lacks. */
  lemma IntervalSnoc(r: Range)
    requires r.start < r.end
    ensures Interval(r) == Interval(Range(r.start, r.end - 1)) + {r.end}
    ensures r.end !in Interval(Range(r.start, r.end - 1))
  {
    var r' := Range(r.start, r.end - 1);
    forall x ensures x in Interval(r) <==> x in Interval(r') || x == r.end {
    }
  }

  /** Ranges that are well-formed and apart cover no point right of the last
      range's end. */
  lemma {:induction false} CoveredByBelowLast(m: seq<Range>, x: int)
    requires m != [] && Separated(m, false) && forall i :: 0 <= i < |m| ==> WellFormed(m[i])
    requires x in CoveredBy(m)
    ensures x <= m[|m| - 1].end
  {
    var init := m[..|m| - 1];
    if x !in Interval(m[|m| - 1]) {
      CoveredByBelowLast(init, x);
      assert init[|init| - 1] == m[|m| - 2];
    }
  }

  /** For well-formed ranges that are apart, the fold counts the covered
      points. */
  lemma {:induction false} SumLengthsCounts(m: seq<Range>)
    requires Separated(m, false) && forall i :: 0 <= i < |m| ==> WellFormed(m[i])
    ensures |CoveredBy(m)| == SumLengths(m)
  {
    if m != [] {
      var init, last := m[..|m| - 1], m[|m| - 1];
      SumLengthsCounts(init);
      IntervalSize(last);
      forall x | x in CoveredBy(init) ensures x !in Interval(last) {
        CoveredByBelowLast(init, x);
        assert init[|init| - 1] == m[|m| - 2];
      }
      assert CoveredBy(init) * Interval(last) == {};
    }
  }

  /** The columns of the beacons on row `y`. */
  ghost function BeaconsOnRow(sensors: seq<Sensor>, y: int): set<int>
  {
    set i | 0 <= i < |sensors| && sensors[i].beacon.y == y :: sensors[i].beacon.x
  }

  /** A beacon lies on a row its sensor reaches, and the sensor covers it. */
  lemma BeaconsCovered(sensors: seq<Sensor>, y: int)
    requires Consistent(sensors)
    ensures BeaconsOnRow(Reachable(sensors, y), y) == BeaconsOnRow(sensors, y)
    ensures BeaconsOnRow(sensors, y) <= CoveredBy(RowRanges(sensors, y))
  {
    var reach := Reachable(sensors, y);
    forall x | x in BeaconsOnRow(sensors, y)
      ensures x in BeaconsOnRow(reach, y) && x in CoveredBy(RowRanges(sensors, y))
    {
      var i :| 0 <= i < |sensors| && sensors[i].beacon.y == y && sensors[i].beacon.x == x;
      var s := sensors[i];
      assert s.beacon == Point(x, y);
      assert s in reach;
      var j :| 0 <= j < |reach| && reach[j] == s;
      RowCoverageSpec(sensors, y, x);
    }
    forall x | x in BeaconsOnRow(reach, y) ensures x in BeaconsOnRow(sensors, y) {
      var j :| 0 <= j < |reach| && reach[j].beacon.y == y && reach[j].beacon.x == x;
      assert reach[j] in sensors;
      var i :| 0 <= i < |sensors| && sensors[i] == reach[j];
    }
  }

  /** `silver` on row `y`: the number of points of the row where no beacon can
      be, that is the points some sensor covers less the beacons already there;
      `None` where a line does not parse or no sensor reaches the row. */
  method Silver(lines: seq<string>, y: int) returns (answer: Option<int>)
    ensures ParseAll(lines).None? ==> answer.None?
    ensures ParseAll(lines).Some? ==>
              var sensors := ParseAll(lines).value;
              (answer.None? <==> RowRanges(sensors, y) == []) &&
              (answer.Some? ==> answer.value == |CoveredBy(RowRanges(sensors, y)) - BeaconsOnRow(sensors, y)|)
  {
    var parsed := ParseAll(lines);
    if parsed.None? {
      return None;
    }
    ParseAllConsistent(lines);
    answer := SilverRow(parsed.value, y);
  }

  /** The count of `silver` for sensors that are already parsed. */
  method SilverRow(sensors: seq<Sensor>, y: int) returns (answer: Option<int>)
    requires Consistent(sensors)
    ensures answer.None? <==> RowRanges(sensors, y) == []
    ensures answer.Some? ==> answer.value == |CoveredBy(RowRanges(sensors, y)) - BeaconsOnRow(sensors, y)|
  {
    var reachable := Reachable(sensors, y);
    var count := |set i | 0 <= i < |reachable| && reachable[i].beacon.y == y :: reachable[i].beacon.x|;
    var ranges := RowRanges(sensors, y);
    var merged := MergeRanges(ranges);
    if merged.None? {
      return None;
    }
    var total := SumLengths(merged.value);
    assert count == |BeaconsOnRow(reachable, y)|;
    SilverCount(sensors, y);
    answer := Some(total - count);
  }

  /** The outcome of `gold`'s scan over rows `0..=last`. */
  datatype Search = Found(x: int, y: int) | NotFound | Panicked(y: int)

  /** The tuning frequency `gold` prints for a hole. */
  function TuningFrequency(x: int, y: int): int
  {
    x * 4_000_000 + y
  }

  /** `gold`: scan rows `0..=last` (the source has `last` = 4,000,000) for
      the first with a hole; `Panicked` where a row no sensor reaches comes
      first, as `merge_ranges` of no ranges panics. The hole test is the one
      that joins touching ranges. */
  method Gold(sensors: seq<Sensor>, last: nat) returns (r: Search)
    ensures r.Found? ==> 0 <= r.y <= last && GoldRow(sensors, r.y) == Hole(r.x)
    ensures r.Panicked? ==> 0 <= r.y <= last && GoldRow(sensors, r.y) == Panic
    ensures var upto := if r.NotFound? then last + 1 else r.y;
            forall y :: 0 <= y < upto ==> GoldRow(sensors, y) == NoHole
  {
    for y := 0 to last + 1
      invariant forall y' :: 0 <= y' < y ==> GoldRow(sensors, y') == NoHole
    {
      var verdict := GoldRow(sensors, y);
      if verdict.Panic? {
        return Panicked(y);
      }
      if verdict.Hole? {
        return Found(verdict.x, y);
      }
    }
    return NotFound;
  }

  /** The fold over the merged row ranges less the beacons of the reaching
      sensors counts the covered points of the row that hold no beacon. */
  lemma SilverCount(sensors: seq<Sensor>, y: int)
    requires Consistent(sensors) && RowRanges(sensors, y) != []
    ensures SumLengths(MergedRow(sensors, y, false).value) - |BeaconsOnRow(Reachable(sensors, y), y)| ==
            |CoveredBy(RowRanges(sensors, y)) - BeaconsOnRow(sensors, y)|
  {
    MergedRowFacts(sensors, y, false);
    SumLengthsCounts(MergedRow(sensors, y, false).value);
    BeaconsCovered(sensors, y);
    var covered, beacons := CoveredBy(RowRanges(sensors, y)), BeaconsOnRow(sensors, y);
    assert covered == (covered - beacons) + beacons;
    assert |covered| == |covered - beacons| + |beacons|;
  }
}
