/** Regolith reservoir: grains of sand fall from (500, 0) into a cave of rock
    paths and come to rest, until one falls into the abyss below the lowest
    rock (silver) or, over a floor two below it, until one rests at the
    source (gold) (src/day14.rs). */
module Day14 {
  import opened Prelude

  /** An `(x, y)` pair of `usize`s; `y` grows downward. */
  datatype Point = Point(x: nat, y: nat)

  /** `Abyss(height)`: no floor, below the lowest rock at `height`;
      `Infinite(level)`: a floor on row `level`. */
  datatype Floor = Abyss(height: nat) | Infinite(level: nat)

  /** The cave: its rocks (and resting sand), the source, the least and
      greatest rock `x`, and the floor. */
  datatype Cave = Cave(rocks: set<Point>, source: Point, bounds: (nat, nat), floor: Floor)

  const Source := Point(500, 0)

  /** `generic_range_inclusive(a, b)`: from `a` to `b`, both included,
      counting up or down. */
  function RangeInclusive(a: nat, b: nat): (r: seq<nat>)
    ensures |r| == Max(a, b) - Min(a, b) + 1 && r[0] == a && r[|r| - 1] == b
  {
    if a < b then seq(b - a + 1, i requires 0 <= i <= b - a => a + i)
    else seq(a - b + 1, i requires 0 <= i <= a - b => a - i)
  }

  /** The range holds exactly the numbers between its ends, each once. */
  lemma RangeInclusiveSpec(a: nat, b: nat)
    ensures forall v :: v in RangeInclusive(a, b) <==> Min(a, b) <= v <= Max(a, b)
    ensures forall i, j :: 0 <= i < j < |RangeInclusive(a, b)| ==> RangeInclusive(a, b)[i] != RangeInclusive(a, b)[j]
  {
    var r := RangeInclusive(a, b);
    forall v | Min(a, b) <= v <= Max(a, b)
      ensures v in r
    {
      if a < b { assert r[v - a] == v; } else { assert r[a - v] == v; }
    }
  }

  /** The points `(x, y)` with `x` in `xs` and `y` in `ys`. */
  ghost function Grid(xs: seq<nat>, ys: seq<nat>): set<Point>
  {
    set x, y | x in xs && y in ys :: Point(x, y)
  }

  /** The points the nested range loops insert for one segment: the rectangle
      with corners `a` and `b`, which for the axis-parallel segments of the
      puzzle is the segment itself. */
  ghost function SegmentRocks(a: Point, b: Point): set<Point>
  {
    set x: nat, y: nat | Min(a.x, b.x) <= x <= Max(a.x, b.x) && Min(a.y, b.y) <= y <= Max(a.y, b.y) :: Point(x, y)
  }

  /** The rocks of the segments between consecutive vertices `0 .. k` of a
      path. */
  ghost function PathRocks(path: seq<Point>, k: nat): set<Point>
    requires k <= |path|
  {
    if k < 2 then {} else PathRocks(path, k - 1) + SegmentRocks(path[k - 2], path[k - 1])
  }

  /** The rocks of the first `k` paths. */
  ghost function AllRocks(paths: seq<seq<Point>>, k: nat): set<Point>
    requires k <= |paths|
  {
    if k == 0 then {} else AllRocks(paths, k - 1) + PathRocks(paths[k - 1], |paths[k - 1]|)
  }

  /** A vertical segment puts a rock on every point of the column between its
      ends and nowhere else. */
  lemma VerticalSegment(x: nat, y0: nat, y1: nat, p: Point)
    ensures p in SegmentRocks(Point(x, y0), Point(x, y1)) <==> p.x == x && Min(y0, y1) <= p.y <= Max(y0, y1)
  {
  }

  /** The two range loops of one segment. */
  method FillSegment(rocks: set<Point>, a: Point, b: Point) returns (r: set<Point>)
    ensures r == rocks + SegmentRocks(a, b)
  {
    var xs, ys := RangeInclusive(a.x, b.x), RangeInclusive(a.y, b.y);
    r := rocks;
    for i := 0 to |xs|
      invariant r == rocks + Grid(xs[..i], ys)
    {
      r := FillColumn(r, xs[i], ys);
      assert Grid(xs[..i + 1], ys) == Grid(xs[..i], ys) + Grid([xs[i]], ys) by {
        assert xs[..i + 1] == xs[..i] + [xs[i]];
      }
    }
    assert xs[..|xs|] == xs;
    RangeInclusiveSpec(a.x, b.x);
    RangeInclusiveSpec(a.y, b.y);
    assert Grid(xs, ys) == SegmentRocks(a, b);
  }

  /** The inner range loop of one segment: the rocks at `x` for every `y` of
      `ys`. */
  method FillColumn(rocks: set<Point>, x: nat, ys: seq<nat>) returns (r: set<Point>)
    ensures r == rocks + Grid([x], ys)
  {
    r := rocks;
    for j := 0 to |ys|
      invariant r == rocks + Grid([x], ys[..j])
    {
      r := r + {Point(x, ys[j])};
      assert Grid([x], ys[..j + 1]) == Grid([x], ys[..j]) + {Point(x, ys[j])} by {
        assert ys[..j + 1] == ys[..j] + [ys[j]];
      }
    }
    assert ys[..|ys|] == ys;
  }

  /** The path loops of `Cave::from_str`, over the already parsed vertices:
      every pair of consecutive vertices of a path fills its segment. */
  method FillPaths(paths: seq<seq<Point>>) returns (rocks: set<Point>)
    ensures rocks == AllRocks(paths, |paths|)
  {
    rocks := {};
    for k := 0 to |paths|
      invariant rocks == AllRocks(paths, k)
    {
      var path := paths[k];
      ghost var before := rocks;
      if |path| >= 1 {
        for i := 1 to |path|
          invariant rocks == before + PathRocks(path, i)
        {
          rocks := FillSegment(rocks, path[i - 1], path[i]);
        }
      }
    }
  }

  /** `x` is the least (`least`) or greatest `x` of the rocks. */
  ghost predicate IsExtremeX(rocks: set<Point>, x: nat, least: bool)
  {
    (exists r :: r in rocks && r.x == x) &&
    forall r :: r in rocks ==> if least then x <= r.x else r.x <= x
  }

  ghost predicate IsLowestY(rocks: set<Point>, y: nat)
  {
    (exists r :: r in rocks && r.y == y) && forall r :: r in rocks ==> r.y <= y
  }

  /** `Cave::new`: the bounds are the least and greatest rock `x` and the floor
      is the abyss below the lowest rock; `None` for fewer than two rocks, where
      `minmax_by_key` gives no `MinMax` and the source reaches `unreachable!`. */
  method NewCave(rocks: set<Point>) returns (cave: Option<Cave>)
    ensures cave.None? <==> |rocks| < 2
    ensures cave.Some? ==>
              cave.value.rocks == rocks && cave.value.source == Source && cave.value.floor.Abyss? &&
              IsExtremeX(rocks, cave.value.bounds.0, true) && IsExtremeX(rocks, cave.value.bounds.1, false) &&
              IsLowestY(rocks, cave.value.floor.height)
  {
    if |rocks| < 2 {
      return None;
    }
    var first :| first in rocks;
    var lo, hi, low := first.x, first.x, first.y;
    var rest := rocks - {first};
    while rest != {}
      invariant rest <= rocks && first in rocks - rest
      invariant IsExtremeX(rocks - rest, lo, true) && IsExtremeX(rocks - rest, hi, false)
      invariant IsLowestY(rocks - rest, low)
      decreases |rest|
    {
      var r :| r in rest;
      if r.x < lo { lo := r.x; }
      if r.x > hi { hi := r.x; }
      if r.y > low { low := r.y; }
      rest := rest - {r};
    }
    assert rocks - rest == rocks;
    return Some(Cave(rocks, Source, (lo, hi), Abyss(low)));
  }

  /** The lowest rock row. */
  ghost function LowestY(rocks: set<Point>): (y: nat)
    requires rocks != {}
    ensures IsLowestY(rocks, y)
  {
    var r :| r in rocks;
    if rocks == {r} then r.y
    else
      var m := LowestY(rocks - {r});
      if r.y <= m then m else r.y
  }

  lemma LowestYUnique(rocks: set<Point>, a: nat, b: nat)
    requires IsLowestY(rocks, a) && IsLowestY(rocks, b)
    ensures a == b
  {
  }

  /** `Cave::from_str` over the parsed paths. */
  method FromPaths(paths: seq<seq<Point>>) returns (cave: Option<Cave>)
    ensures cave.None? <==> |AllRocks(paths, |paths|)| < 2
    ensures cave.Some? ==>
              var rocks := AllRocks(paths, |paths|);
              cave.value.rocks == rocks && cave.value.source == Source &&
              cave.value.floor == Abyss(LowestY(rocks)) &&
              IsExtremeX(rocks, cave.value.bounds.0, true) && IsExtremeX(rocks, cave.value.bounds.1, false)
  {
    var rocks := FillPaths(paths);
    cave := NewCave(rocks);
    if cave.Some? {
      LowestYUnique(rocks, cave.value.floor.height, LowestY(rocks));
    }
  }

  /** What one `simulate` call reports: the grain moved, it rests, or
      `pos.0 - 1` underflowed (a panic). */
  datatype Outcome = Moved | Resting | Underflow

  /** One time step of a grain at `p`: a grain on the row above an infinite
      floor rests; otherwise it falls down, else down-left, else down-right,
      to the first of these that is not a rock, and rests when none is free. */
  function Tick(rocks: set<Point>, floor: Floor, p: Point): (Outcome, Point)
  {
    if floor.Infinite? && p.y + 1 >= floor.level then (Resting, p)
    else if Point(p.x, p.y + 1) !in rocks then (Moved, Point(p.x, p.y + 1))
    else if p.x == 0 then (Underflow, p)
    else if Point(p.x - 1, p.y + 1) !in rocks then (Moved, Point(p.x - 1, p.y + 1))
    else if Point(p.x + 1, p.y + 1) !in rocks then (Moved, Point(p.x + 1, p.y + 1))
    else (Resting, p)
  }

  /** A grain that moves goes one row down and at most one column aside, to a
      point that is no rock, preferring straight down, then left, then right,
      and never onto or through an infinite floor; a resting grain stays. */
  lemma TickSpec(rocks: set<Point>, floor: Floor, p: Point)
    ensures var (o, q) := Tick(rocks, floor, p);
            (o == Moved ==>
               q.y == p.y + 1 && q !in rocks &&
               (q.x == p.x || q.x + 1 == p.x || q.x == p.x + 1) &&
               (q.x != p.x ==> Point(p.x, p.y + 1) in rocks) &&
               (q.x == p.x + 1 ==> Point(p.x - 1, p.y + 1) in rocks) &&
               (floor.Infinite? ==> q.y < floor.level)) &&
            (o != Moved ==> q == p) &&
            (o == Resting <==>
               (floor.Infinite? && p.y + 1 >= floor.level) ||
               (p.x > 0 && Point(p.x, p.y + 1) in rocks && Point(p.x - 1, p.y + 1) in rocks &&
                Point(p.x + 1, p.y + 1) in rocks))
  {
  }

  /** `Sand`: the position of one grain. */
  class Sand {
    var pos: Point

    constructor (p: Point)
      ensures pos == p
    {
      pos := p;
    }

    /** `simulate`: the step `Tick` takes; the grain moves only when it
        reports `Moved`. */
    method Simulate(cave: Cave) returns (o: Outcome)
      modifies this
      ensures (o, pos) == Tick(cave.rocks, cave.floor, old(pos))
    {
      var rocks := cave.rocks;
      if cave.floor.Infinite? && pos.y + 1 >= cave.floor.level {
        return Resting;
      }
      if Point(pos.x, pos.y + 1) !in rocks {
        pos := Point(pos.x, pos.y + 1);
        return Moved;
      }
      if pos.x == 0 {
        return Underflow;
      }
      if Point(pos.x - 1, pos.y + 1) !in rocks {
        pos := Point(pos.x - 1, pos.y + 1);
        return Moved;
      }
      if Point(pos.x + 1, pos.y + 1) !in rocks {
        pos := Point(pos.x + 1, pos.y + 1);
        return Moved;
      }
      return Resting;
    }
  }

  /** How a grain's fall ends. */
  datatype Fall = Rest(at: Point) | IntoAbyss | Crash

  /** The rows left above the abyss check or the floor. */
  function Room(floor: Floor, p: Point): nat
  {
    match floor
    case Abyss(h) => if p.y <= h then h + 1 - p.y else 0
    case Infinite(f) => if p.y < f then f - p.y else 0
  }

  /** How the fall goes on after a step that reported `o` and left the grain
      at `q`: past the lowest rock it is in the abyss. */
  function After(rocks: set<Point>, floor: Floor, o: Outcome, q: Point): Fall
  {
    match o
    case Underflow => Crash
    case Resting => Rest(q)
    case Moved => if floor.Abyss? && q.y > floor.height then IntoAbyss else FallFrom(rocks, floor, q)
  }

  /** The `while sand.simulate(&cave)` loop from `p`. */
  function FallFrom(rocks: set<Point>, floor: Floor, p: Point): Fall
    decreases Room(floor, p)
  {
    var (o, q) := Tick(rocks, floor, p);
    match o
    case Underflow => Crash
    case Resting => Rest(q)
    case Moved =>
      if floor.Abyss? && q.y > floor.height then IntoAbyss
      else
        assert Room(floor, q) < Room(floor, p) by {
          TickSpec(rocks, floor, p);
        }
        FallFrom(rocks, floor, q)
  }

  /** The triangle under the source that sand can reach above floor `f`. */
  ghost function Cone(f: nat): set<Point>
  {
    set x: nat, y: nat | y < f && 500 <= x + y && x <= 500 + y :: Point(x, y)
  }

  /** Over an infinite floor a grain that starts in the cone rests in the cone,
      and on a point that is no rock unless it never moved. */
  lemma {:induction false} FallStaysInCone(rocks: set<Point>, f: nat, p: Point)
    requires p in Cone(f)
    ensures FallFrom(rocks, Infinite(f), p).Rest? ==>
              var r := FallFrom(rocks, Infinite(f), p).at; r in Cone(f) && (r == p || r !in rocks)
    decreases Room(Infinite(f), p)
  {
    var (o, q) := Tick(rocks, Infinite(f), p);
    TickSpec(rocks, Infinite(f), p);
    if o == Moved {
      assert q in Cone(f);
      FallStaysInCone(rocks, f, q);
    }
  }

  /** The grain count a run reports, or how it ends without one. */
  datatype Run = Done(steps: nat) | Crashed | OutOfFuel

  /** The `'outer` loop of `silver` for at most `fuel` grains: each grain that
      rests is counted and becomes rock; the first grain to fall into the abyss
      ends the loop. */
  function SilverRun(rocks: set<Point>, h: nat, fuel: nat): Run
    decreases fuel
  {
    if fuel == 0 then OutOfFuel
    else
      match FallFrom(rocks, Abyss(h), Source)
      case Crash => Crashed
      case IntoAbyss => Done(0)
      case Rest(r) => Steps(SilverRun(rocks + {r}, h, fuel - 1), 1)
  }

  /** Once a grain rests at the source the silver loop never ends: the source
      is added again and again and the next grain rests there too. */
  lemma SilverSpinsAtBlockedSource(rocks: set<Point>, h: nat, fuel: nat)
    requires FallFrom(rocks, Abyss(h), Source) == Rest(Source) && Source in rocks
    ensures SilverRun(rocks, h, fuel) == OutOfFuel
  {
    if fuel > 0 {
      assert rocks + {Source} == rocks;
      SilverSpinsAtBlockedSource(rocks, h, fuel - 1);
    }
  }

  /** The `'outer` loop of `gold`: grains rest over the floor until one rests
      at the source, which is counted too. It ends because every other resting
      grain fills a new point of the cone. */
  ghost function GoldRun(rocks: set<Point>, f: nat): Option<nat>
    requires f >= 1
    decreases |Cone(f) - rocks|
  {
    assert Source in Cone(f);
    match FallFrom(rocks, Infinite(f), Source)
    case Crash => None
    case IntoAbyss => None
    case Rest(r) =>
      if r == Source then Some(1)
      else
        FallStaysInCone(rocks, f, Source);
        assert Cone(f) - (rocks + {r}) == (Cone(f) - rocks) - {r};
        match GoldRun(rocks + {r}, f)
        case Some(n) => Some(n + 1)
        case None => None
  }

  /** One grain of `silver` or `gold`: from the source until it rests,
      crashes, or (with an abyss) falls past the lowest rock. */
  method DropGrain(cave: Cave) returns (fall: Fall)
    ensures fall == FallFrom(cave.rocks, cave.floor, cave.source)
  {
    var sand := new Sand(cave.source);
    var o := sand.Simulate(cave);
    while o == Moved
      invariant After(cave.rocks, cave.floor, o, sand.pos) == FallFrom(cave.rocks, cave.floor, cave.source)
      decreases Room(cave.floor, sand.pos) + (if o == Moved then 1 else 0)
    {
      if cave.floor.Abyss? && sand.pos.y > cave.floor.height {
        return IntoAbyss;
      }
      ghost var p := sand.pos;
      o := sand.Simulate(cave);
      TickSpec(cave.rocks, cave.floor, p);
    }
    if o == Underflow {
      return Crash;
    }
    return Rest(sand.pos);
  }

  /** `silver`, stopped after `fuel` grains. */
  method Silver(paths: seq<seq<Point>>, fuel: nat) returns (r: Run)
    ensures var rocks := AllRocks(paths, |paths|);
            r == if |rocks| < 2 then Crashed else SilverRun(rocks, LowestY(rocks), fuel)
  {
    var c := FromPaths(paths);
    if c.None? {
      return Crashed;
    }
    r := SilverLoop(c.value, fuel);
  }

  /** The `'outer` loop of `silver` over a cave with an abyss. */
  method SilverLoop(start: Cave, fuel: nat) returns (r: Run)
    requires start.source == Source && start.floor.Abyss?
    ensures r == SilverRun(start.rocks, start.floor.height, fuel)
  {
    var cave := start;
    var steps := 0;
    ghost var h := cave.floor.height;
    StepsZero(SilverRun(cave.rocks, h, fuel));
    for g := 0 to fuel
      invariant cave.source == Source && cave.floor == Abyss(h)
      invariant SilverRun(start.rocks, h, fuel) == Steps(SilverRun(cave.rocks, h, fuel - g), steps)
    {
      var fall := DropGrain(cave);
      SilverRunStep(cave.rocks, h, fuel - g, steps);
      if fall.Crash? {
        return Crashed;
      }
      if fall.IntoAbyss? {
        return Done(steps);
      }
      steps := steps + 1;
      cave := cave.(rocks := cave.rocks + {fall.at});
    }
    return OutOfFuel;
  }

  lemma StepsZero(r: Run)
    ensures Steps(r, 0) == r
  {
  }

  /** One turn of the silver loop, as `SilverRun` takes it, with `steps`
      grains already counted. */
  lemma SilverRunStep(rocks: set<Point>, h: nat, fuel: nat, steps: nat)
    requires fuel > 0
    ensures var fall := FallFrom(rocks, Abyss(h), Source);
            var r := Steps(SilverRun(rocks, h, fuel), steps);
            (fall.Crash? ==> r == Crashed) &&
            (fall.IntoAbyss? ==> r == Done(steps)) &&
            (fall.Rest? ==> r == Steps(SilverRun(rocks + {fall.at}, h, fuel - 1), steps + 1))
  {
  }

  /** `r` with `n` more grains counted. */
  function Steps(r: Run, n: nat): Run
  {
    if r.Done? then Done(r.steps + n) else r
  }

  /** `o` with `n` more grains counted. */
  function PlusSteps(o: Option<nat>, n: nat): Option<nat>
  {
    if o.Some? then Some(o.value + n) else None
  }

  lemma PlusStepsAdd(o: Option<nat>, m: nat, n: nat)
    ensures PlusSteps(PlusSteps(o, m), n) == PlusSteps(o, m + n)
  {
  }

  /** One turn of the gold loop, as `GoldRun` takes it. */
  lemma GoldRunStep(rocks: set<Point>, f: nat)
    requires f >= 1
    ensures var fall := FallFrom(rocks, Infinite(f), Source);
            (!fall.Rest? ==> GoldRun(rocks, f).None?) &&
            (fall == Rest(Source) ==> GoldRun(rocks, f) == Some(1)) &&
            (fall.Rest? && fall.at != Source ==>
               GoldRun(rocks, f) == PlusSteps(GoldRun(rocks + {fall.at}, f), 1) &&
               |Cone(f) - (rocks + {fall.at})| < |Cone(f) - rocks|)
  {
    var fall := FallFrom(rocks, Infinite(f), Source);
    if fall.Rest? && fall.at != Source {
      assert Source in Cone(f);
      FallStaysInCone(rocks, f, Source);
      assert Cone(f) - (rocks + {fall.at}) == (Cone(f) - rocks) - {fall.at};
    }
  }

  /** The grain loop of `gold` over a cave with an infinite floor. */
  method GoldLoop(cave0: Cave, f: nat) returns (r: Option<nat>)
    requires cave0.source == Source && cave0.floor == Infinite(f) && f >= 1
    ensures r == GoldRun(cave0.rocks, f)
  {
    var cave := cave0;
    var steps := 0;
    while true
      invariant cave.source == Source && cave.floor == Infinite(f)
      invariant GoldRun(cave0.rocks, f) == PlusSteps(GoldRun(cave.rocks, f), steps)
      decreases |Cone(f) - cave.rocks|
    {
      var fall := DropGrain(cave);
      GoldRunStep(cave.rocks, f);
      if !fall.Rest? {
        return None;
      }
      var rest := fall.at;
      if rest == cave.source {
        return Some(steps + 1);
      }
      PlusStepsAdd(GoldRun(cave.rocks + {rest}, f), 1, steps);
      steps := steps + 1;
      cave := cave.(rocks := cave.rocks + {rest});
    }
  }

  /** `gold`: the floor two rows below the lowest rock. */
  method Gold(paths: seq<seq<Point>>) returns (r: Option<nat>)
    ensures var rocks := AllRocks(paths, |paths|);
            r == if |rocks| < 2 then None else GoldRun(rocks, LowestY(rocks) + 2)
  {
    var c := FromPaths(paths);
    if c.None? {
      return None;
    }
    var cave := c.value;
    cave := cave.(floor := Infinite(cave.floor.height + 2));
    r := GoldLoop(cave, cave.floor.level);
  }
}
