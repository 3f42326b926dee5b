/** Boiling boulders: the surface of a droplet made of unit cubes. Silver
    counts the faces not touching another cube; gold counts only those from
    which a flood fill of air gets out of the droplet's bounding box
    (src/day18.rs). */
module Day18 {
  import opened Prelude
  import Text

  /** A cube, or a cell of air, at integer coordinates. */
  datatype Point = Point(x: int, y: int, z: int)

  /** The six face directions, in the order the source lists them. */
  const Nearby: seq<Point> := [Point(-1, 0, 0), Point(1, 0, 0), Point(0, -1, 0), Point(0, 1, 0), Point(0, 0, -1), Point(0, 0, 1)]

  function Add(a: Point, d: Point): Point
  {
    Point(a.x + d.x, a.y + d.y, a.z + d.z)
  }

  /** `b` shares a face with `a`. */
  ghost predicate Adjacent(a: Point, b: Point)
  {
    exists i :: 0 <= i < 6 && b == Add(a, Nearby[i])
  }

  const I8Min: int := -128
  const I8Max: int := 127

  /** `i8::from_str`. */
  function ParseI8(s: string): (r: Option<int>)
    ensures r.Some? ==> I8Min <= r.value <= I8Max
  {
    match Text.ParseSigned(s)
    case Some(v) => if I8Min <= v <= I8Max then Some(v) else None
    case None => None
  }

  /** A line `x,y,z`: `collect_tuple` wants exactly three numbers. */
  function ParseCube(line: string): Option<Point>
  {
    match Text.SplitOnce(line, ',')
    case None => None
    case Some((sx, rest)) =>
      match Text.SplitOnce(rest, ',')
      case None => None
      case Some((sy, sz)) =>
        if ',' in sz then None
        else
          match (ParseI8(sx), ParseI8(sy), ParseI8(sz))
          case (Some(x), Some(y), Some(z)) => Some(Point(x, y, z))
          case _ => None
  }

  function CubeLine(p: Point): string
  {
    Text.IntToString(p.x) + "," + Text.IntToString(p.y) + "," + Text.IntToString(p.z)
  }

  predicate InI8(p: Point)
  {
    I8Min <= p.x <= I8Max && I8Min <= p.y <= I8Max && I8Min <= p.z <= I8Max
  }

  lemma NoCommaInNumber(n: int)
    ensures ',' !in Text.IntToString(n)
  {
    if ',' in Text.IntToString(n) {
      Text.IntToStringChars(n, ',');
    }
  }

  /** Reading a cube's line back gives the cube. */
  lemma ParseCubeRoundTrip(p: Point)
    requires InI8(p)
    ensures ParseCube(CubeLine(p)) == Some(p)
  {
    var sx, sy, sz := Text.IntToString(p.x), Text.IntToString(p.y), Text.IntToString(p.z);
    NoCommaInNumber(p.x);
    NoCommaInNumber(p.y);
    NoCommaInNumber(p.z);
    assert CubeLine(p) == sx + [','] + (sy + [','] + sz);
    Text.SplitOnceAt(sx, ',', sy + [','] + sz);
    Text.SplitOnceAt(sy, ',', sz);
    Text.ParseSignedRoundTrip(p.x);
    Text.ParseSignedRoundTrip(p.y);
    Text.ParseSignedRoundTrip(p.z);
  }

  /** The set of cubes of the input: exactly the cubes the lines name, and
      `None` exactly when some line does not parse. */
  function Cubes(lines: seq<string>): (r: Option<set<Point>>)
    ensures r.Some? <==> forall i :: 0 <= i < |lines| ==> ParseCube(lines[i]).Some?
    ensures r.Some? ==> forall i :: 0 <= i < |lines| ==> ParseCube(lines[i]).value in r.value
    ensures r.Some? ==> forall p :: p in r.value ==> exists i :: 0 <= i < |lines| && ParseCube(lines[i]) == Some(p)
  {
    if lines == [] then Some({})
    else
      var init := lines[..|lines| - 1];
      assert forall i :: 0 <= i < |init| ==> init[i] == lines[i];
      match (Cubes(init), ParseCube(lines[|lines| - 1]))
      case (Some(s), Some(p)) => Some(s + {p})
      case _ => None
  }

  /** How many of the first `k` face directions of `c` lead to no cube. */
  function CountFree(grid: set<Point>, c: Point, k: nat): (n: nat)
    requires k <= 6
    ensures n <= k
  {
    if k == 0 then 0 else CountFree(grid, c, k - 1) + (if Add(c, Nearby[k - 1]) !in grid then 1 else 0)
  }

  /** The faces of `c` that touch no other cube. */
  function FreeFaces(grid: set<Point>, c: Point): (n: nat)
    ensures n <= 6
  {
    CountFree(grid, c, 6)
  }

  ghost function FreeFacesOf(grid: set<Point>): Point -> int
  {
    c => FreeFaces(grid, c)
  }

  /** `silver`: the free faces summed over the cubes, in whatever order the
      set yields them; at most six per cube. */
  method Silver(grid: set<Point>) returns (total: int)
    ensures total == SetSum(grid, FreeFacesOf(grid))
    ensures 0 <= total <= 6 * |grid|
  {
    total := 0;
    var rest := grid;
    while rest != {}
      invariant rest <= grid
      invariant total + SetSum(rest, FreeFacesOf(grid)) == SetSum(grid, FreeFacesOf(grid))
      decreases |rest|
    {
      var cube :| cube in rest;
      SetSumRemove(rest, FreeFacesOf(grid), cube);
      var free := FreeFaces(grid, cube);
      total := total + free;
      rest := rest - {cube};
    }
    SetSumBounds(grid, FreeFacesOf(grid), 0, 6);
  }

  /** Per-axis inclusive `(min, max)` pairs. */
  datatype Bounds = Bounds(xs: (int, int), ys: (int, int), zs: (int, int))

  /** `in_bounds`. */
  function InBounds(p: Point, b: Bounds): bool
  {
    if p.x < b.xs.0 || p.x > b.xs.1 then false
    else if p.y < b.ys.0 || p.y > b.ys.1 then false
    else if p.z < b.zs.0 || p.z > b.zs.1 then false
    else true
  }

  /** A point is in bounds exactly when each coordinate lies in its axis's
      range. */
  lemma InBoundsSpec(p: Point, b: Bounds)
    ensures InBounds(p, b) <==>
              b.xs.0 <= p.x <= b.xs.1 && b.ys.0 <= p.y <= b.ys.1 && b.zs.0 <= p.z <= b.zs.1
  {
  }

  /** The bounds are the least and greatest coordinate of the cubes on each
      axis. */
  ghost predicate IsBounds(grid: set<Point>, b: Bounds)
  {
    (forall p :: p in grid ==> InBounds(p, b)) &&
    (exists p :: p in grid && p.x == b.xs.0) && (exists p :: p in grid && p.x == b.xs.1) &&
    (exists p :: p in grid && p.y == b.ys.0) && (exists p :: p in grid && p.y == b.ys.1) &&
    (exists p :: p in grid && p.z == b.zs.0) && (exists p :: p in grid && p.z == b.zs.1)
  }

  /** The coordinate of `p` on axis 0 (x), 1 (y) or 2 (z). */
  function Coord(p: Point, axis: nat): int
    requires axis < 3
  {
    if axis == 0 then p.x else if axis == 1 then p.y else p.z
  }

  /** `minmax_by_key` on one axis: the least and greatest coordinate of the
      cubes on that axis, each reached by some cube. */
  method MinMaxBy(grid: set<Point>, axis: nat) returns (lo: int, hi: int)
    requires grid != {} && axis < 3
    ensures forall p :: p in grid ==> lo <= Coord(p, axis) <= hi
    ensures exists p :: p in grid && Coord(p, axis) == lo
    ensures exists p :: p in grid && Coord(p, axis) == hi
  {
    var first :| first in grid;
    lo, hi := Coord(first, axis), Coord(first, axis);
    ghost var wlo, whi := first, first;
    var rest := grid - {first};
    while rest != {}
      invariant rest <= grid
      invariant forall p :: p in grid - rest ==> lo <= Coord(p, axis) <= hi
      invariant wlo in grid && Coord(wlo, axis) == lo && whi in grid && Coord(whi, axis) == hi
      decreases |rest|
    {
      var p :| p in rest;
      if Coord(p, axis) < lo { lo, wlo := Coord(p, axis), p; }
      if Coord(p, axis) > hi { hi, whi := Coord(p, axis), p; }
      rest := rest - {p};
    }
  }

  /** Every cube lies in the bounds, and each bound is reached by a cube. */
  method ComputeBounds(grid: set<Point>) returns (b: Bounds)
    requires grid != {}
    ensures IsBounds(grid, b)
  {
    var x0, x1 := MinMaxBy(grid, 0);
    var y0, y1 := MinMaxBy(grid, 1);
    var z0, z1 := MinMaxBy(grid, 2);
    b := Bounds((x0, x1), (y0, y1), (z0, z1));
    forall p | p in grid
      ensures InBounds(p, b)
    {
      assert Coord(p, 0) == p.x && Coord(p, 1) == p.y && Coord(p, 2) == p.z;
    }
  }

  /** The cells inside the bounds. */
  ghost function Box(b: Bounds): set<Point>
  {
    set x, y, z | b.xs.0 <= x <= b.xs.1 && b.ys.0 <= y <= b.ys.1 && b.zs.0 <= z <= b.zs.1 :: Point(x, y, z)
  }

  lemma InBox(p: Point, b: Bounds)
    ensures p in Box(b) <==> InBounds(p, b)
  {
    if InBounds(p, b) {
      assert p == Point(p.x, p.y, p.z);
    }
  }

  /** A walk through air from `from` to `to`, face to face. */
  ghost predicate AirPath(grid: set<Point>, path: seq<Point>, from: Point, to: Point)
  {
    |path| >= 1 && path[0] == from && path[|path| - 1] == to &&
    (forall j :: 0 <= j < |path| ==> path[j] !in grid) &&
    (forall j :: 0 <= j < |path| - 1 ==> Adjacent(path[j], path[j + 1]))
  }

  /** Air at `p` connects to a cell outside the bounds. */
  ghost predicate Exterior(grid: set<Point>, b: Bounds, p: Point)
  {
    exists path, q :: AirPath(grid, path, p, q) && !InBounds(q, b)
  }

  lemma AirPathExtend(grid: set<Point>, path: seq<Point>, from: Point, v: Point, i: nat)
    requires AirPath(grid, path, from, v) && i < 6 && Add(v, Nearby[i]) !in grid
    ensures AirPath(grid, path + [Add(v, Nearby[i])], from, Add(v, Nearby[i]))
  {
    var q := Add(v, Nearby[i]);
    var path' := path + [q];
    forall j | 0 <= j < |path'| - 1 ensures Adjacent(path'[j], path'[j + 1]) {
      if j == |path| - 1 {
        assert path'[j] == v && path'[j + 1] == q;
      } else {
        assert path'[j] == path[j] && path'[j + 1] == path[j + 1];
      }
    }
  }

  /** Every air neighbour of a point of `seen` is in `seen`. */
  ghost predicate Closed(grid: set<Point>, seen: set<Point>)
  {
    forall v, i :: v in seen && 0 <= i < 6 ==> Add(v, Nearby[i]) in grid || Add(v, Nearby[i]) in seen
  }

  /** An air walk from a closed set of cells stays in it. */
  lemma {:induction false} ClosedKeepsPath(grid: set<Point>, seen: set<Point>, path: seq<Point>, from: Point, to: Point, k: nat)
    requires Closed(grid, seen) && from in seen && AirPath(grid, path, from, to) && k < |path|
    ensures path[k] in seen
  {
    if k > 0 {
      ClosedKeepsPath(grid, seen, path, from, to, k - 1);
      var i :| 0 <= i < 6 && path[k] == Add(path[k - 1], Nearby[i]);
    }
  }

  /** Every cell with a recorded walk is reached from `from` through air. */
  ghost predicate PathsFrom(grid: set<Point>, paths: map<Point, seq<Point>>, from: Point)
  {
    forall q :: q in paths ==> AirPath(grid, paths[q], from, q)
  }

  /** Every air neighbour of a seen cell is seen or waiting on the stack. */
  ghost predicate Frontier(grid: set<Point>, seen: set<Point>, stack: seq<Point>)
  {
    forall v, i :: v in seen && 0 <= i < 6 ==>
      Add(v, Nearby[i]) in grid || Add(v, Nearby[i]) in seen || Add(v, Nearby[i]) in stack
  }

  /** Popping a cell that is already seen keeps the frontier. */
  lemma FrontierPopSeen(grid: set<Point>, seen: set<Point>, stack: seq<Point>, v: Point)
    requires Frontier(grid, seen, stack + [v]) && v in seen
    ensures Frontier(grid, seen, stack)
  {
    forall u, i | u in seen && 0 <= i < 6
      ensures Add(u, Nearby[i]) in grid || Add(u, Nearby[i]) in seen || Add(u, Nearby[i]) in stack
    {
      var w := Add(u, Nearby[i]);
      if w in stack + [v] && w != v {
        assert w in stack;
      }
    }
  }

  /** A cell on a stack is the popped top or stays below it. */
  lemma PopKeeps(stack: seq<Point>, q: Point)
    requires stack != []
    ensures q in stack ==> q == stack[|stack| - 1] || q in stack[..|stack| - 1]
  {
    if q in stack && q != stack[|stack| - 1] {
      var j :| 0 <= j < |stack| && stack[j] == q;
      assert stack[..|stack| - 1][j] == q;
    }
  }

  /** Expanding a popped cell, by pushing its air neighbours, keeps the
      frontier. */
  lemma FrontierExpand(grid: set<Point>, seen: set<Point>, stack: seq<Point>, v: Point, pushed: seq<Point>)
    requires Frontier(grid, seen, stack + [v])
    requires forall i :: 0 <= i < 6 ==> Add(v, Nearby[i]) in grid || Add(v, Nearby[i]) in pushed
    ensures Frontier(grid, seen + {v}, stack + pushed)
  {
    forall u, i | u in seen + {v} && 0 <= i < 6
      ensures Add(u, Nearby[i]) in grid || Add(u, Nearby[i]) in seen + {v} || Add(u, Nearby[i]) in stack + pushed
    {
      var w := Add(u, Nearby[i]);
      if u == v {
        assert w in grid || w in pushed;
      } else if w in stack + [v] && w != v {
        assert w in stack;
      }
    }
  }

  lemma BoxComplete(b: Bounds)
    ensures forall q :: InBounds(q, b) ==> q in Box(b)
  {
    forall q | InBounds(q, b) ensures q in Box(b) {
      InBox(q, b);
    }
  }

  /** The depth-first search of `gold` from an air cell: whether air connects
      it to a cell outside the bounds. Out of bounds is reported as soon as it
      is popped; the search expands each in-bounds cell once and pushes only
      air. */
  method Escapes(grid: set<Point>, b: Bounds, p: Point) returns (escaped: bool)
    requires p !in grid
    ensures escaped <==> Exterior(grid, b, p)
  {
    var stack := [p];
    var seen: set<Point> := {};
    ghost var paths: map<Point, seq<Point>> := map[p := [p]];
    ghost var unseen := Box(b);
    BoxComplete(b);
    while stack != []
      invariant forall j :: 0 <= j < |stack| ==> stack[j] in paths
      invariant forall q :: q in seen ==> q in paths && InBounds(q, b)
      invariant PathsFrom(grid, paths, p)
      invariant p in seen || p in stack
      invariant Frontier(grid, seen, stack)
      invariant forall q :: InBounds(q, b) && q !in seen ==> q in unseen
      decreases |unseen|, |stack|
    {
      var v := stack[|stack| - 1];
      PopKeeps(stack, p);
      stack := stack[..|stack| - 1];
      if !InBounds(v, b) {
        EscapedThrough(grid, b, paths, p, v);
        return true;
      }
      if v !in seen {
        unseen := unseen - {v};
        stack, paths := Expand(grid, b, p, stack, seen, paths, v);
        seen := seen + {v};
      } else {
        FrontierPopSeen(grid, seen, stack, v);
      }
    }
    Enclosed(grid, b, seen, p);
    return false;
  }

  /** Expanding a popped in-bounds cell `v` not seen before: its air
      neighbours go on the stack, and the search invariants hold with `v`
      counted as seen. */
  method Expand(grid: set<Point>, b: Bounds, p: Point, stack: seq<Point>, seen: set<Point>,
                ghost paths: map<Point, seq<Point>>, v: Point)
    returns (stack': seq<Point>, ghost paths': map<Point, seq<Point>>)
    requires InBounds(v, b) && v in paths && PathsFrom(grid, paths, p)
    requires forall j :: 0 <= j < |stack| ==> stack[j] in paths
    requires forall q :: q in seen ==> q in paths && InBounds(q, b)
    requires Frontier(grid, seen, stack + [v])
    ensures |stack| <= |stack'| && stack'[..|stack|] == stack
    ensures forall j :: 0 <= j < |stack'| ==> stack'[j] in paths'
    ensures forall q :: q in seen + {v} ==> q in paths' && InBounds(q, b)
    ensures PathsFrom(grid, paths', p)
    ensures Frontier(grid, seen + {v}, stack')
  {
    var pushed;
    pushed, paths' := PushAir(grid, v, paths, p);
    FrontierExpand(grid, seen, stack, v, pushed);
    stack' := stack + pushed;
    assert stack'[..|stack|] == stack;
  }

  /** A recorded walk to a cell outside the bounds shows air escapes. */
  lemma EscapedThrough(grid: set<Point>, b: Bounds, paths: map<Point, seq<Point>>, p: Point, v: Point)
    requires PathsFrom(grid, paths, p) && v in paths && !InBounds(v, b)
    ensures Exterior(grid, b, p)
  {
    assert AirPath(grid, paths[v], p, v);
  }

  /** A search that ran out of cells, all of them inside the bounds, shows
      that air from `p` cannot escape. */
  lemma Enclosed(grid: set<Point>, b: Bounds, seen: set<Point>, p: Point)
    requires Frontier(grid, seen, []) && p in seen
    requires forall q :: q in seen ==> InBounds(q, b)
    ensures !Exterior(grid, b, p)
  {
    assert Closed(grid, seen);
    forall path, q | AirPath(grid, path, p, q) ensures InBounds(q, b) {
      ClosedKeepsPath(grid, seen, path, p, q, |path| - 1);
    }
  }

  /** The `filter_map` over the six directions: the neighbours of `v` that
      are air, in direction order; each gets a walk one step longer than
      `v`'s. */
  method PushAir(grid: set<Point>, v: Point, ghost paths: map<Point, seq<Point>>, ghost from: Point)
    returns (pushed: seq<Point>, ghost paths': map<Point, seq<Point>>)
    requires PathsFrom(grid, paths, from) && v in paths
    ensures PathsFrom(grid, paths', from) && paths.Keys <= paths'.Keys
    ensures forall q :: q in pushed ==> q in paths'
    ensures forall i :: 0 <= i < 6 ==> Add(v, Nearby[i]) in grid || Add(v, Nearby[i]) in pushed
    ensures forall q :: q in pushed ==> q !in grid && exists i :: 0 <= i < 6 && q == Add(v, Nearby[i])
  {
    pushed := [];
    paths' := paths;
    for i := 0 to 6
      invariant PathsFrom(grid, paths', from) && paths.Keys <= paths'.Keys
      invariant paths'[v] == paths[v]
      invariant forall q :: q in pushed ==> q in paths'
      invariant forall k :: 0 <= k < i ==> Add(v, Nearby[k]) in grid || Add(v, Nearby[k]) in pushed
      invariant forall q :: q in pushed ==> q !in grid && exists k :: 0 <= k < i && q == Add(v, Nearby[k])
    {
      var q := Add(v, Nearby[i]);
      if q !in grid {
        AirPathExtend(grid, paths[v], from, v, i);
        assert q != v;
        paths' := paths'[q := paths[v] + [q]];
        pushed := pushed + [q];
      }
    }
  }

  /** How many of the first `k` face directions of `c` lead to air that
      escapes the bounds. */
  ghost function CountExterior(grid: set<Point>, b: Bounds, c: Point, k: nat): (n: nat)
    requires k <= 6
    ensures n <= CountFree(grid, c, k)
  {
    if k == 0 then 0
    else
      var q := Add(c, Nearby[k - 1]);
      CountExterior(grid, b, c, k - 1) + (if q !in grid && Exterior(grid, b, q) then 1 else 0)
  }

  ghost function ExteriorFacesOf(grid: set<Point>, b: Bounds): Point -> int
  {
    c => CountExterior(grid, b, c, 6)
  }

  /** The faces of `cube` counted by `gold`: a face touching a cube never
      counts; one touching air counts when that air escapes. */
  method ExteriorFaces(grid: set<Point>, b: Bounds, cube: Point) returns (free: nat)
    ensures free == CountExterior(grid, b, cube, 6)
  {
    free := 0;
    for i := 0 to 6
      invariant free == CountExterior(grid, b, cube, i)
    {
      var p := Add(cube, Nearby[i]);
      if p !in grid {
        var escaped := Escapes(grid, b, p);
        if escaped {
          free := free + 1;
        }
      }
    }
  }

  /** `gold`: the bounds of the cubes, and the faces through which air
      escapes them summed over the cubes; `None` for fewer than two cubes,
      where `minmax_by_key` gives no `MinMax`. */
  method Gold(grid: set<Point>) returns (bounds: Option<Bounds>, total: int)
    ensures bounds.None? <==> |grid| < 2
    ensures bounds.Some? ==> IsBounds(grid, bounds.value) && total == SetSum(grid, ExteriorFacesOf(grid, bounds.value))
  {
    if |grid| < 2 {
      return None, 0;
    }
    var b := ComputeBounds(grid);
    total := 0;
    var rest := grid;
    while rest != {}
      invariant rest <= grid
      invariant total + SetSum(rest, ExteriorFacesOf(grid, b)) == SetSum(grid, ExteriorFacesOf(grid, b))
      decreases |rest|
    {
      var cube :| cube in rest;
      SetSumRemove(rest, ExteriorFacesOf(grid, b), cube);
      var free := ExteriorFaces(grid, b, cube);
      total := total + free;
      rest := rest - {cube};
    }
    return Some(b), total;
  }

  /** Gold never counts more faces than silver. */
  lemma GoldAtMostSilver(grid: set<Point>, b: Bounds)
    ensures SetSum(grid, ExteriorFacesOf(grid, b)) <= SetSum(grid, FreeFacesOf(grid))
  {
    SetSumMonotone(grid, ExteriorFacesOf(grid, b), FreeFacesOf(grid));
  }
}
