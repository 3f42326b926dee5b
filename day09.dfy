/** Rope bridge: a rope of knots whose head follows the motions of the input
    and whose other knots each follow the knot before them; the answer is the
    number of distinct places the last knot visits (src/day09.rs). */
module Day09 {
  import opened Prelude
  import Text

  datatype Pos = Pos(x: int, y: int)

  const Origin := Pos(0, 0)

  function Add(p: Pos, d: Pos): Pos
  {
    Pos(p.x + d.x, p.y + d.y)
  }

  /** The Chebyshev distance between two knots. */
  function Chebyshev(a: Pos, b: Pos): nat
  {
    Max(Abs(a.x - b.x), Abs(a.y - b.y))
  }

  /** Every knot touches the next one (overlapping or diagonally adjacent). */
  ghost predicate Taut(k: seq<Pos>)
  {
    forall j :: 0 <= j < |k| - 1 ==> Chebyshev(k[j], k[j + 1]) <= 1
  }

  /** A step of the head in one of the four directions. */
  predicate IsUnit(d: Pos)
  {
    d in {Pos(1, 0), Pos(-1, 0), Pos(0, 1), Pos(0, -1)}
  }

  /** Where knot `p` goes after its leader moved to `lead`: nowhere while they
      still touch, otherwise one step toward the leader along each axis on which
      they differ. */
  function Follow(lead: Pos, p: Pos): (q: Pos)
    ensures Chebyshev(p, q) <= 1
    ensures Chebyshev(lead, p) <= 1 ==> q == p
    ensures Chebyshev(lead, p) <= 2 ==> Chebyshev(lead, q) <= 1
  {
    var dx, dy := lead.x - p.x, lead.y - p.y;
    if Max(Abs(dx), Abs(dy)) > 1 then Add(p, Pos(Sign(dx), Sign(dy))) else p
  }

  /** Knots `i + 1, i + 2, ...` follow their leaders in turn. */
  function FollowFrom(k: seq<Pos>, i: nat): (r: seq<Pos>)
    requires i < |k|
    ensures |r| == |k|
    decreases |k| - i
  {
    if i + 1 >= |k| then k else FollowFrom(k[i + 1 := Follow(k[i], k[i + 1])], i + 1)
  }

  /** One step of the rope: the head moves by `dir`, then the knots follow. The
      head only moves inside the loop over the followers, so a rope of a single
      knot never moves. */
  function StepRope(k: seq<Pos>, dir: Pos): (r: seq<Pos>)
    ensures |r| == |k|
  {
    if |k| >= 2 then FollowFrom(k[0 := Add(k[0], dir)], 0) else k
  }

  lemma {:induction false} FollowFromShape(k: seq<Pos>, i: nat)
    requires i < |k|
    ensures |FollowFrom(k, i)| == |k|
    ensures forall j :: 0 <= j <= i ==> FollowFrom(k, i)[j] == k[j]
    decreases |k| - i
  {
    if i + 1 < |k| {
      FollowFromShape(k[i + 1 := Follow(k[i], k[i + 1])], i + 1);
    }
  }

  /** The followers close up behind a leader that moved at most one step per
      axis: if knots `..= i` touch, knot `i` is within distance 2 of knot
      `i + 1`, and knots `i + 1 ..` touch, the whole rope ends up taut. */
  lemma {:induction false} FollowFromTaut(k: seq<Pos>, i: nat)
    requires i < |k|
    requires forall j :: 0 <= j < i ==> Chebyshev(k[j], k[j + 1]) <= 1
    requires i + 1 < |k| ==> Chebyshev(k[i], k[i + 1]) <= 2
    requires forall j :: i + 1 <= j < |k| - 1 ==> Chebyshev(k[j], k[j + 1]) <= 1
    ensures Taut(FollowFrom(k, i))
    decreases |k| - i
  {
    if i + 1 < |k| {
      var q := Follow(k[i], k[i + 1]);
      var k' := k[i + 1 := q];
      if i + 2 < |k| {
        assert Chebyshev(q, k[i + 2]) <= 2;
      }
      FollowFromTaut(k', i + 1);
    }
  }

  /** A step moves the head by exactly `dir` and keeps a taut rope taut. */
  lemma StepKeepsTaut(k: seq<Pos>, dir: Pos)
    requires Taut(k) && IsUnit(dir)
    ensures |StepRope(k, dir)| == |k|
    ensures |k| >= 2 ==> StepRope(k, dir)[0] == Add(k[0], dir)
    ensures Taut(StepRope(k, dir))
  {
    if |k| >= 2 {
      var k' := k[0 := Add(k[0], dir)];
      assert Chebyshev(k'[0], k'[1]) <= 2;
      assert forall j :: 1 <= j < |k'| ==> k'[j] == k[j];
      FollowFromTaut(k', 0);
      FollowFromShape(k', 0);
    }
  }

  /** A single knot never moves: its loop over followers is empty. */
  lemma OneKnotStaysPut(p: Pos, dir: Pos)
    ensures StepRope([p], dir) == [p]
  {
  }

  /** `Rope<N>`: the knots, head first, in a fixed-size array. */
  class Rope {
    const knots: array<Pos>

    /** `Rope::default()`: every knot at the origin. */
    constructor (n: nat)
      ensures knots.Length == n && fresh(knots)
      ensures forall j :: 0 <= j < n ==> knots[j] == Origin
    {
      knots := new Pos[n](_ => Origin);
    }

    /** `move_abs`: knot `i` is put at `c`; no other knot moves. */
    method MoveAbs(i: nat, c: Pos)
      requires i < knots.Length
      modifies knots
      ensures knots[..] == old(knots[..])[i := c]
    {
      knots[i] := c;
    }

    /** `move_delta`: knot `i` is shifted by `d`. */
    method MoveDelta(i: nat, d: Pos)
      requires i < knots.Length
      modifies knots
      ensures knots[..] == old(knots[..])[i := Add(old(knots[i]), d)]
    {
      var pos := knots[i];
      MoveAbs(i, Add(pos, d));
    }

    /** One step of the motion loop: the head moves on the first turn of the
        loop over knot pairs, and each follower catches up when it no longer
        touches its leader. */
    method Step(dir: Pos)
      modifies knots
      ensures knots[..] == StepRope(old(knots[..]), dir)
    {
      ghost var start := knots[..];
      if knots.Length < 2 {
        return;
      }
      for i := 0 to knots.Length - 1
        invariant i == 0 ==> knots[..] == start
        invariant i > 0 ==> FollowFrom(knots[..], i) == StepRope(start, dir)
      {
        if i == 0 {
          MoveDelta(0, dir);
        }
        ghost var before := knots[..];
        assert FollowFrom(before, i) == StepRope(start, dir);
        var dx, dy := knots[i].x - knots[i + 1].x, knots[i].y - knots[i + 1].y;
        if Max(Abs(dx), Abs(dy)) > 1 {
          MoveDelta(i + 1, Pos(Sign(dx), Sign(dy)));
        }
        assert knots[..] == before[i + 1 := Follow(before[i], before[i + 1])];
      }
    }
  }

  /** One motion line `D n`: the direction and the step count. */
  function ParseMotion(line: string): Option<(Pos, int)>
  {
    match Text.SplitOnce(line, ' ')
    case None => None
    case Some((d, n)) =>
      match Text.ParseIsize(n)
      case None => None
      case Some(steps) =>
        if d == "R" then Some((Pos(1, 0), steps))
        else if d == "L" then Some((Pos(-1, 0), steps))
        else if d == "U" then Some((Pos(0, 1), steps))
        else if d == "D" then Some((Pos(0, -1), steps))
        else None
  }

  /** The letters map to the four unit steps, and no other text parses. */
  lemma ParseMotionDirections(line: string)
    requires ParseMotion(line).Some?
    ensures IsUnit(ParseMotion(line).value.0)
    ensures Text.SplitOnce(line, ' ').Some? && Text.SplitOnce(line, ' ').value.0 in {"R", "L", "U", "D"}
  {
  }

  lemma ParseMotionRoundTrip(n: nat)
    requires n < 0x8000_0000_0000_0000
    ensures ParseMotion("R " + Text.NatToString(n)) == Some((Pos(1, 0), n))
    ensures ParseMotion("D " + Text.NatToString(n)) == Some((Pos(0, -1), n))
  {
    Text.SplitOnceAt("R", ' ', Text.NatToString(n));
    Text.SplitOnceAt("D", ' ', Text.NatToString(n));
    assert "R " + Text.NatToString(n) == "R" + [' '] + Text.NatToString(n);
    assert "D " + Text.NatToString(n) == "D" + [' '] + Text.NatToString(n);
    Text.ParseUnsignedRoundTrip(n);
    assert Text.NatToString(n)[0] != '-' by {
      assert Text.IsDigit(Text.NatToString(n)[0]);
    }
  }

  /** The rope and the places its last knot visited after `s` steps in
      direction `dir`. */
  function Walk(k: seq<Pos>, visited: set<Pos>, dir: Pos, s: nat): (r: (seq<Pos>, set<Pos>))
    requires k != []
    ensures |r.0| == |k|
  {
    if s == 0 then (k, visited)
    else
      var (k', v') := Walk(k, visited, dir, s - 1);
      var k'' := StepRope(k', dir);
      (k'', v' + {k''[|k''| - 1]})
  }

  lemma {:induction false} WalkShape(k: seq<Pos>, visited: set<Pos>, dir: Pos, s: nat)
    requires k != [] && Taut(k) && IsUnit(dir)
    ensures |Walk(k, visited, dir, s).0| == |k| && Taut(Walk(k, visited, dir, s).0)
    ensures visited <= Walk(k, visited, dir, s).1
    ensures Walk(k, visited, dir, s).0[|k| - 1] in Walk(k, visited, dir, s).1 || s == 0
  {
    if s > 0 {
      WalkShape(k, visited, dir, s - 1);
      StepKeepsTaut(Walk(k, visited, dir, s - 1).0, dir);
    }
  }

  /** The rope and visited places after the first `j` lines, starting from `n`
      knots at the origin and the origin visited; `None` once a line does not
      parse. */
  function Simulate(n: nat, lines: seq<string>, j: nat): (r: Option<(seq<Pos>, set<Pos>)>)
    requires n >= 1 && j <= |lines|
    ensures r.Some? ==> |r.value.0| == n
  {
    if j == 0 then Some((seq(n, _ => Origin), {Origin}))
    else
      match Simulate(n, lines, j - 1)
      case None => None
      case Some((k, v)) =>
        match ParseMotion(lines[j - 1])
        case None => None
        case Some((dir, steps)) =>
          Some(Walk(k, v, dir, if steps < 0 then 0 else steps))
  }

  /** Throughout the simulation the rope keeps its `n` knots, stays taut, and
      the origin stays among the visited places. */
  lemma {:induction false} SimulateShape(n: nat, lines: seq<string>, j: nat)
    requires n >= 1 && j <= |lines|
    ensures Simulate(n, lines, j).Some? ==>
              var (k, v) := Simulate(n, lines, j).value;
              |k| == n && Taut(k) && Origin in v && k[n - 1] in v
  {
    if j > 0 {
      SimulateShape(n, lines, j - 1);
      match Simulate(n, lines, j - 1)
      case None =>
      case Some((k, v)) =>
        match ParseMotion(lines[j - 1])
        case None =>
        case Some((dir, steps)) =>
          var s := if steps < 0 then 0 else steps;
          ParseMotionDirections(lines[j - 1]);
          WalkShape(k, v, dir, s);
          var w := Walk(k, v, dir, s);
          assert Simulate(n, lines, j) == Some(w);
          if s == 0 {
            assert w == (k, v);
          }
    } else {
      var k := seq(n, _ => Origin);
      assert forall i :: 0 <= i < n ==> k[i] == Origin;
    }
  }

  /** The number of places the last knot visited; `None` where the source
      panics. */
  function Visits(n: nat, lines: seq<string>): Option<nat>
    requires n >= 1
  {
    match Simulate(n, lines, |lines|)
    case None => None
    case Some((_, v)) => Some(|v|)
  }

  lemma {:induction false} SimulateFailurePersists(n: nat, lines: seq<string>, j: nat)
    requires n >= 1 && j <= |lines| && Simulate(n, lines, j).None?
    ensures Simulate(n, lines, |lines|).None?
    decreases |lines| - j
  {
    if j < |lines| {
      SimulateFailurePersists(n, lines, j + 1);
    }
  }

  /** A line that parses moves the simulation on by its walk. */
  lemma SimulateStep(n: nat, lines: seq<string>, j: nat, k: seq<Pos>, v: set<Pos>, dir: Pos, steps: int)
    requires n >= 1 && j < |lines| && Simulate(n, lines, j) == Some((k, v))
    requires ParseMotion(lines[j]) == Some((dir, steps))
    ensures k != [] && Simulate(n, lines, j + 1) == Some(Walk(k, v, dir, if steps < 0 then 0 else steps))
  {
  }

  /** A line that does not parse ends the simulation. */
  lemma SimulatePanic(n: nat, lines: seq<string>, j: nat)
    requires n >= 1 && j < |lines| && Simulate(n, lines, j).Some? && ParseMotion(lines[j]).None?
    ensures Simulate(n, lines, |lines|).None?
  {
    SimulateFailurePersists(n, lines, j + 1);
  }

  /** The step loop of one motion line: `steps` steps (none for a negative
      count), the last knot's place added to `visited` after each. */
  method Travel(rope: Rope, visited: set<Pos>, dir: Pos, steps: int) returns (visited': set<Pos>)
    requires rope.knots.Length >= 1
    modifies rope.knots
    ensures (rope.knots[..], visited') == Walk(old(rope.knots[..]), visited, dir, if steps < 0 then 0 else steps)
  {
    ghost var k0 := rope.knots[..];
    visited' := visited;
    var s := 0;
    while s < steps
      invariant s == 0 || 0 < s <= steps
      invariant Walk(k0, visited, dir, s) == (rope.knots[..], visited')
    {
      rope.Step(dir);
      visited' := visited' + {rope.knots[rope.knots.Length - 1]};
      s := s + 1;
    }
  }

  /** `silver_and_gold::<N>`: `N` is 2 for silver and 10 for gold. */
  method SilverAndGold(n: nat, lines: seq<string>) returns (count: Option<nat>)
    requires n >= 1
    ensures count == Visits(n, lines)
  {
    var rope := new Rope(n);
    var visited: set<Pos> := {Origin};
    assert rope.knots[..] == seq(n, _ => Origin);
    for j := 0 to |lines|
      invariant Simulate(n, lines, j) == Some((rope.knots[..], visited))
    {
      var motion := ParseMotion(lines[j]);
      if motion.None? {
        SimulatePanic(n, lines, j);
        return None;
      }
      var (dir, steps) := motion.value;
      SimulateStep(n, lines, j, rope.knots[..], visited, dir, steps);
      visited := Travel(rope, visited, dir, steps);
    }
    return Some(|visited|);
  }
}
