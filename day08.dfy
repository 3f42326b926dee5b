/** Treetop tree house: a square grid of tree heights, the trees visible from
    outside it (silver) and the best scenic score (gold) (src/day08.rs). */
module Day08 {
  import opened Prelude
  import Text

  /** One cell of `Grid::trees`: its height and whether a sweep marked it. */
  datatype Tree = Tree(height: int, visible: bool)

  /** The edge a silver sweep starts from, which is also the direction a gold
      ray looks in. */
  datatype Dir = North | South | West | East

  // ---------------------------------------------------------------------------
  // Row-major indexing

  /** The index of the first cell of row `row`: `row * size`, by repeated
      addition. */
  function RowStart(size: nat, row: nat): nat
  {
    if row == 0 then 0 else RowStart(size, row - 1) + size
  }

  lemma {:induction false} RowStartIsProduct(size: nat, row: nat)
    ensures RowStart(size, row) == row * size
  {
    if row > 0 {
      RowStartIsProduct(size, row - 1);
      assert row * size == (row - 1) * size + size;
    }
  }

  /** `row * size + col`, the index `Grid::n` and `Grid::mark` use. */
  function Index(size: nat, col: nat, row: nat): nat { RowStart(size, row) + col }

  lemma IndexFacts(size: nat, col: nat, row: nat)
    requires col < size && row < size
    ensures Index(size, col, row) < size * size
    ensures Index(size, col, row) % size == col && Index(size, col, row) / size == row
  {
    RowStartIsProduct(size, row);
    DivModUnique(row * size + col, size, row, col);
    MulAtLeast(size - row, size);
    assert (size - row) * size == size * size - row * size;
  }

  lemma IndexBound(size: nat, col: nat, row: nat)
    requires col < size && row < size
    ensures Index(size, col, row) < size * size
  {
    IndexFacts(size, col, row);
  }

  /** Distinct cells have distinct indices, so marking one touches no other. */
  lemma IndexInjective(size: nat, c1: nat, r1: nat, c2: nat, r2: nat)
    requires c1 < size && r1 < size && c2 < size && r2 < size
    requires Index(size, c1, r1) == Index(size, c2, r2)
    ensures c1 == c2 && r1 == r2
  {
    IndexFacts(size, c1, r1);
    IndexFacts(size, c2, r2);
  }

  /** `col = tree.rem_euclid(size)`, `row = tree.div_euclid(size)` recover the
      cell of every index of the grid. */
  lemma FlatFacts(size: nat, i: nat)
    requires i < size * size
    ensures i % size < size && i / size < size && Index(size, i % size, i / size) == i
  {
    var q := i / size;
    assert i == q * size + i % size;
    if q >= size {
      MulAtLeast(q - size + 1, size);
    }
    RowStartIsProduct(size, q);
  }

  // ---------------------------------------------------------------------------
  // Heights, sweeps and visibility, over the heights in row-major order

  predicate Square(hs: seq<int>, size: nat) { |hs| == size * size }

  function H(hs: seq<int>, size: nat, col: nat, row: nat): int
    requires Square(hs, size) && col < size && row < size
  {
    IndexBound(size, col, row);
    hs[Index(size, col, row)]
  }

  /** The `k`-th cell, counted from edge `d`, of lane `lane` (a column for
      North and South, a row for West and East). */
  function Cell(size: nat, d: Dir, lane: nat, k: nat): (cr: (nat, nat))
    requires lane < size && k < size
    ensures cr.0 < size && cr.1 < size
  {
    match d
    case North => (lane, k)
    case South => (lane, size - 1 - k)
    case West => (k, lane)
    case East => (size - 1 - k, lane)
  }

  /** The lane of direction `d` that holds cell `(col, row)`. */
  function LaneOf(d: Dir, col: nat, row: nat): nat
  {
    if d == North || d == South then col else row
  }

  /** How far cell `(col, row)` lies from edge `d`. */
  function StepOf(size: nat, d: Dir, col: nat, row: nat): nat
    requires col < size && row < size
  {
    match d
    case North => row
    case South => size - 1 - row
    case West => col
    case East => size - 1 - col
  }

  lemma CellCoordinates(size: nat, d: Dir, col: nat, row: nat)
    requires col < size && row < size
    ensures Cell(size, d, LaneOf(d, col, row), StepOf(size, d, col, row)) == (col, row)
  {
  }

  /** The height of the `k`-th cell of a lane, counted from edge `d`. */
  function LaneHeight(hs: seq<int>, size: nat, d: Dir, lane: nat, k: nat): int
    requires Square(hs, size) && lane < size && k < size
  {
    var cr := Cell(size, d, lane, k);
    H(hs, size, cr.0, cr.1)
  }

  /** Seen from edge `d`, the `k`-th tree of the lane is taller than every tree
      in front of it. */
  ghost predicate VisibleAt(hs: seq<int>, size: nat, d: Dir, lane: nat, k: nat)
    requires Square(hs, size) && lane < size && k < size
  {
    forall j :: 0 <= j < k ==> LaneHeight(hs, size, d, lane, j) < LaneHeight(hs, size, d, lane, k)
  }

  ghost predicate VisibleFrom(hs: seq<int>, size: nat, d: Dir, col: nat, row: nat)
    requires Square(hs, size) && col < size && row < size
  {
    CellCoordinates(size, d, col, row);
    VisibleAt(hs, size, d, LaneOf(d, col, row), StepOf(size, d, col, row))
  }

  /** The puzzle's visibility: from at least one edge. Trees on an edge are
      visible from it, as nothing stands in front of them. */
  ghost predicate Visible(hs: seq<int>, size: nat, col: nat, row: nat)
    requires Square(hs, size) && col < size && row < size
  {
    VisibleFrom(hs, size, North, col, row) || VisibleFrom(hs, size, South, col, row) ||
    VisibleFrom(hs, size, West, col, row) || VisibleFrom(hs, size, East, col, row)
  }

  /** The cells a sweep from `d` looks at: the first one, which it marks
      unconditionally, and those strictly before the far edge. */
  function SweepLength(size: nat): nat { if size >= 2 then size - 1 else 1 }

  /** Cell `(col, row)` is marked by the sweep from `d` along its lane. */
  ghost predicate Swept(hs: seq<int>, size: nat, d: Dir, col: nat, row: nat)
    requires Square(hs, size) && col < size && row < size
  {
    StepOf(size, d, col, row) < SweepLength(size) && VisibleFrom(hs, size, d, col, row)
  }

  /** The four sweeps together mark exactly the visible trees: a tree that only
      the far end of a sweep would have found lies on the opposite edge, where
      the opposite sweep marks it first thing. */
  lemma {:induction false} SweepsMarkVisible(hs: seq<int>, size: nat, col: nat, row: nat)
    requires Square(hs, size) && col < size && row < size
    ensures Visible(hs, size, col, row) <==>
              Swept(hs, size, North, col, row) || Swept(hs, size, South, col, row) ||
              Swept(hs, size, West, col, row) || Swept(hs, size, East, col, row)
  {
    CellCoordinates(size, North, col, row);
    CellCoordinates(size, South, col, row);
    CellCoordinates(size, West, col, row);
    CellCoordinates(size, East, col, row);
    if Visible(hs, size, col, row) {
      if row == size - 1 {
        assert VisibleAt(hs, size, South, col, 0);
      }
      if row == 0 {
        assert VisibleAt(hs, size, North, col, 0);
      }
      if col == size - 1 {
        assert VisibleAt(hs, size, East, row, 0);
      }
      if col == 0 {
        assert VisibleAt(hs, size, West, row, 0);
      }
    }
  }

  /** `highest` before the sweep looks at its `k`-th cell. */
  function MaxBefore(hs: seq<int>, size: nat, d: Dir, lane: nat, k: nat): int
    requires Square(hs, size) && lane < size && 1 <= k <= size
  {
    if k == 1 then LaneHeight(hs, size, d, lane, 0)
    else Max(MaxBefore(hs, size, d, lane, k - 1), LaneHeight(hs, size, d, lane, k - 1))
  }

  /** `highest` is the running maximum, so `now > highest` is the visibility
      test. */
  lemma {:induction false} RunningMax(hs: seq<int>, size: nat, d: Dir, lane: nat, k: nat)
    requires Square(hs, size) && lane < size && 1 <= k < size
    ensures forall j :: 0 <= j < k ==> LaneHeight(hs, size, d, lane, j) <= MaxBefore(hs, size, d, lane, k)
    ensures exists j :: 0 <= j < k && LaneHeight(hs, size, d, lane, j) == MaxBefore(hs, size, d, lane, k)
    ensures VisibleAt(hs, size, d, lane, k) <==> LaneHeight(hs, size, d, lane, k) > MaxBefore(hs, size, d, lane, k)
  {
    if k == 1 {
      assert LaneHeight(hs, size, d, lane, 0) == MaxBefore(hs, size, d, lane, k);
    } else {
      RunningMax(hs, size, d, lane, k - 1);
      var j :| 0 <= j < k - 1 && LaneHeight(hs, size, d, lane, j) == MaxBefore(hs, size, d, lane, k - 1);
      if MaxBefore(hs, size, d, lane, k) == LaneHeight(hs, size, d, lane, k - 1) {
        assert LaneHeight(hs, size, d, lane, k - 1) == MaxBefore(hs, size, d, lane, k);
      } else {
        assert LaneHeight(hs, size, d, lane, j) == MaxBefore(hs, size, d, lane, k);
      }
    }
  }

  /** Heights are single digits. */
  ghost predicate Digits(hs: seq<int>)
  {
    forall i :: 0 <= i < |hs| ==> 0 <= hs[i] <= 9
  }

  /** Nothing behind a tree of height 9 is visible, so the sweep's early `break`
      leaves no tree unmarked. */
  lemma NothingVisibleBehindNine(hs: seq<int>, size: nat, d: Dir, lane: nat, i: nat, k: nat)
    requires Square(hs, size) && Digits(hs) && lane < size && i < k < size
    requires LaneHeight(hs, size, d, lane, i) == 9
    ensures !VisibleAt(hs, size, d, lane, k)
  {
    var cr := Cell(size, d, lane, k);
    IndexBound(size, cr.0, cr.1);
  }

  // ---------------------------------------------------------------------------
  // Parsing

  /** `s.lines().nth(0)`: the text before the first line break, without a
      trailing carriage return; nothing for empty input. */
  function FirstLine(s: string): Option<string>
  {
    if s == [] then None
    else
      var line := match Text.SplitOnce(s, '\n') case None => s case Some((a, _)) => a;
      Some(if line != [] && line[|line| - 1] == '\r' then line[..|line| - 1] else line)
  }

  /** The ASCII digits of `s`, in order, as heights; every other byte is dropped. */
  function DigitHeights(s: string): (hs: seq<int>)
    ensures Digits(hs) && |hs| <= |s|
  {
    if s == [] then []
    else
      var rest := DigitHeights(s[1..]);
      if Text.IsDigit(s[0]) then [Text.DigitValue(s[0]) as int] + rest else rest
  }

  /** Text whose digits fill a square as wide as its first line. */
  predicate IsGridText(s: string)
  {
    FirstLine(s).Some? && Square(DigitHeights(s), |FirstLine(s).value|)
  }

  function HeightsOf(ts: seq<Tree>): (hs: seq<int>)
    ensures |hs| == |ts| && forall i :: 0 <= i < |ts| ==> hs[i] == ts[i].height
  {
    seq(|ts|, i requires 0 <= i < |ts| => ts[i].height)
  }

  function Unmarked(hs: seq<int>): (ts: seq<Tree>)
    ensures |ts| == |hs| && forall i :: 0 <= i < |hs| ==> ts[i] == Tree(hs[i], false)
  {
    seq(|hs|, i requires 0 <= i < |hs| => Tree(hs[i], false))
  }

  // ---------------------------------------------------------------------------
  // The grid

  ghost function FlagOf(ts: seq<Tree>, size: nat, col: nat, row: nat): bool
    requires |ts| == size * size && col < size && row < size
  {
    IndexBound(size, col, row);
    ts[Index(size, col, row)].visible
  }

  class Grid {
    const size: nat
    var trees: seq<Tree>

    ghost predicate Valid()
      reads this
    {
      |trees| == size * size && Digits(HeightsOf(trees))
    }

    /** `Grid::from_str`: as wide as the first line, every digit a tree, no
        tree marked yet. Empty text, where `nth(0).unwrap()` panics, and text
        that is not square are not grids. */
    constructor FromStr(s: string)
      requires IsGridText(s)
      ensures Valid() && size == |FirstLine(s).value|
      ensures HeightsOf(trees) == DigitHeights(s)
      ensures forall i :: 0 <= i < |trees| ==> !trees[i].visible
    {
      size := |FirstLine(s).value|;
      trees := Unmarked(DigitHeights(s));
    }

    ghost function Heights(): seq<int>
      reads this
    {
      HeightsOf(trees)
    }

    /** Whether cell `(col, row)` has been marked. */
    ghost function Flag(col: nat, row: nat): bool
      reads this
      requires |trees| == size * size && col < size && row < size
    {
      FlagOf(trees, size, col, row)
    }

    /** `Grid::n`: the height at `(col, row)`. */
    function N(col: nat, row: nat): (h: int)
      reads this
      requires Valid() && col < size && row < size
      ensures h == H(Heights(), size, col, row) && 0 <= h <= 9
    {
      IndexBound(size, col, row);
      trees[Index(size, col, row)].height
    }

    /** The height of the `k`-th cell of a lane, counted from edge `d`. */
    function LaneN(d: Dir, lane: nat, k: nat): (h: int)
      reads this
      requires Valid() && lane < size && k < size
      ensures h == LaneHeight(Heights(), size, d, lane, k)
    {
      var cr := Cell(size, d, lane, k);
      N(cr.0, cr.1)
    }

    /** `Grid::mark`: flags `(col, row)` and nothing else. */
    method Mark(col: nat, row: nat)
      modifies this
      requires Valid() && col < size && row < size
      ensures Valid() && Heights() == old(Heights())
      ensures forall c: nat, r: nat :: c < size && r < size ==>
                Flag(c, r) == (old(Flag(c, r)) || (c == col && r == row))
    {
      IndexBound(size, col, row);
      var i := Index(size, col, row);
      trees := trees[i := Tree(trees[i].height, true)];
      assert HeightsOf(trees) == old(HeightsOf(trees));
      forall c: nat, r: nat | c < size && r < size
        ensures Flag(c, r) == (old(Flag(c, r)) || (c == col && r == row))
      {
        IndexBound(size, c, r);
        if Index(size, c, r) == i {
          IndexInjective(size, c, r, col, row);
        }
      }
    }

    /** Compared with the flags `before`, the sweep from `d` along `lane` has
        marked exactly the visible trees of its first `i` cells. */
    ghost predicate SweptUpTo(before: seq<Tree>, hs: seq<int>, d: Dir, lane: nat, i: nat)
      reads this
      requires |trees| == size * size && |before| == size * size && Square(hs, size)
    {
      forall c: nat, r: nat :: c < size && r < size ==>
        Flag(c, r) == (FlagOf(before, size, c, r) ||
                       (LaneOf(d, c, r) == lane && StepOf(size, d, c, r) < i && VisibleFrom(hs, size, d, c, r)))
    }

    /** The sweep's look at its `i`-th cell: marks it when it is visible. */
    method SweepCell(ghost before: seq<Tree>, ghost hs: seq<int>, d: Dir, lane: nat, i: nat, visible: bool)
      modifies this
      requires Valid() && Heights() == hs && |before| == size * size && lane < size && i < size
      requires SweptUpTo(before, hs, d, lane, i)
      requires visible == VisibleAt(hs, size, d, lane, i)
      ensures Valid() && Heights() == hs
      ensures SweptUpTo(before, hs, d, lane, i + 1)
    {
      var cell := Cell(size, d, lane, i);
      if visible {
        Mark(cell.0, cell.1);
      }
      forall c: nat, r: nat | c < size && r < size
        ensures LaneOf(d, c, r) == lane && StepOf(size, d, c, r) == i <==> (c, r) == cell
      {
        CellCoordinates(size, d, c, r);
      }
    }

    /** One of silver's four sweeps: from edge `d` along lane `lane`, marking
        the first tree and then every tree taller than all before it, up to
        but not including the far edge. */
    method Sweep(d: Dir, lane: nat)
      modifies this
      requires Valid() && lane < size
      ensures Valid() && Heights() == old(Heights())
      ensures forall c: nat, r: nat :: c < size && r < size ==>
                Flag(c, r) == (old(Flag(c, r)) || (LaneOf(d, c, r) == lane && Swept(Heights(), size, d, c, r)))
    {
      ghost var hs, before := Heights(), trees;
      assert SweptUpTo(before, hs, d, lane, 0);
      var first := Cell(size, d, lane, 0);
      var highest := N(first.0, first.1);
      SweepCell(before, hs, d, lane, 0, true);
      var i := 1;
      var stop := false;
      while i < size - 1 && !stop
        invariant Valid() && Heights() == hs && 1 <= i <= SweepLength(size)
        invariant !stop ==> highest == MaxBefore(hs, size, d, lane, i) && SweptUpTo(before, hs, d, lane, i)
        invariant stop ==> SweptUpTo(before, hs, d, lane, SweepLength(size))
      {
        highest, stop := SweepNext(before, hs, d, lane, i, highest);
        i := i + 1;
      }
      SweptAll(before, hs, d, lane);
    }

    /** One turn of the sweep loop at its `i`-th cell: mark it when it beats
        `highest`, and stop after a tree of height 9. */
    method SweepNext(ghost before: seq<Tree>, ghost hs: seq<int>, d: Dir, lane: nat, i: nat, highest: int)
      returns (highest': int, stop: bool)
      modifies this
      requires Valid() && Heights() == hs && |before| == size * size && lane < size && 1 <= i < size - 1
      requires highest == MaxBefore(hs, size, d, lane, i) && SweptUpTo(before, hs, d, lane, i)
      ensures Valid() && Heights() == hs
      ensures stop ==> SweptUpTo(before, hs, d, lane, SweepLength(size))
      ensures !stop ==> highest' == MaxBefore(hs, size, d, lane, i + 1) && SweptUpTo(before, hs, d, lane, i + 1)
    {
      var cell := Cell(size, d, lane, i);
      var now := N(cell.0, cell.1);
      RunningMax(hs, size, d, lane, i);
      highest', stop := highest, false;
      if now > highest {
        highest' := now;
        SweepCell(before, hs, d, lane, i, true);
        if now == 9 {
          NothingVisibleAfterNine(before, hs, d, lane, i + 1);
          stop := true;
        }
      } else {
        SweepCell(before, hs, d, lane, i, false);
      }
    }

    /** Once every cell of the sweep is looked at, the flags are the old ones
        and the trees the sweep finds visible. */
    lemma SweptAll(before: seq<Tree>, hs: seq<int>, d: Dir, lane: nat)
      requires |trees| == size * size && |before| == size * size && Square(hs, size)
      requires SweptUpTo(before, hs, d, lane, SweepLength(size))
      ensures forall c: nat, r: nat :: c < size && r < size ==>
                Flag(c, r) == (FlagOf(before, size, c, r) || (LaneOf(d, c, r) == lane && Swept(hs, size, d, c, r)))
    {
    }

    /** After a tree of height 9 the sweep may stop: nothing behind it is
        visible, so it has marked all it would have. */
    lemma NothingVisibleAfterNine(before: seq<Tree>, hs: seq<int>, d: Dir, lane: nat, i: nat)
      requires Valid() && Heights() == hs && |before| == size * size && lane < size && 1 <= i < size
      requires LaneHeight(hs, size, d, lane, i - 1) == 9
      requires SweptUpTo(before, hs, d, lane, i)
      ensures SweptUpTo(before, hs, d, lane, SweepLength(size))
    {
      forall c: nat, r: nat | c < size && r < size && LaneOf(d, c, r) == lane && i <= StepOf(size, d, c, r)
        ensures !VisibleFrom(hs, size, d, c, r)
      {
        NothingVisibleBehindNine(hs, size, d, lane, i - 1, StepOf(size, d, c, r));
      }
    }

    /** The flags after the column pass has covered the first `col` columns. */
    ghost predicate ColumnsSwept(hs: seq<int>, col: nat)
      reads this
      requires |trees| == size * size && Square(hs, size)
    {
      forall c: nat, r: nat :: c < size && r < size ==>
        Flag(c, r) == (c < col && (Swept(hs, size, North, c, r) || Swept(hs, size, South, c, r)))
    }

    /** The flags after the row pass has covered the first `row` rows. */
    ghost predicate RowsSwept(hs: seq<int>, row: nat)
      reads this
      requires |trees| == size * size && Square(hs, size)
    {
      forall c: nat, r: nat :: c < size && r < size ==>
        Flag(c, r) == (Swept(hs, size, North, c, r) || Swept(hs, size, South, c, r) ||
                       (r < row && (Swept(hs, size, West, c, r) || Swept(hs, size, East, c, r))))
    }

    lemma NothingSwept(hs: seq<int>)
      requires |trees| == size * size && Square(hs, size)
      requires forall i :: 0 <= i < |trees| ==> !trees[i].visible
      ensures ColumnsSwept(hs, 0)
    {
      forall c: nat, r: nat | c < size && r < size
        ensures !Flag(c, r)
      {
        IndexBound(size, c, r);
      }
    }

    lemma ColumnsThenRows(hs: seq<int>)
      requires |trees| == size * size && Square(hs, size) && ColumnsSwept(hs, size)
      ensures RowsSwept(hs, 0)
    {
    }

    method SweepColumn(ghost hs: seq<int>, col: nat)
      modifies this
      requires Valid() && Heights() == hs && col < size && ColumnsSwept(hs, col)
      ensures Valid() && Heights() == hs && ColumnsSwept(hs, col + 1)
    {
      Sweep(North, col);
      Sweep(South, col);
    }

    method SweepRow(ghost hs: seq<int>, row: nat)
      modifies this
      requires Valid() && Heights() == hs && row < size && RowsSwept(hs, row)
      ensures Valid() && Heights() == hs && RowsSwept(hs, row + 1)
    {
      Sweep(West, row);
      Sweep(East, row);
    }

    /** `trees.iter().filter(|it| it.1).count()`. */
    method CountMarked() returns (count: nat)
      requires Valid()
      ensures count == |set i | 0 <= i < |trees| && trees[i].visible|
    {
      count := 0;
      for i := 0 to |trees|
        invariant count == |set j | 0 <= j < i && trees[j].visible|
      {
        if trees[i].visible {
          assert (set j | 0 <= j < i + 1 && trees[j].visible) == (set j | 0 <= j < i && trees[j].visible) + {i};
          count := count + 1;
        } else {
          assert (set j | 0 <= j < i + 1 && trees[j].visible) == (set j | 0 <= j < i && trees[j].visible);
        }
      }
    }
  }

  lemma FlagAtIndex(ts: seq<Tree>, size: nat, i: nat)
    requires |ts| == size * size && i < size * size
    ensures i % size < size && i / size < size
    ensures FlagOf(ts, size, i % size, i / size) == ts[i].visible
  {
    FlatFacts(size, i);
  }

  /** The puzzle's silver answer: how many trees are visible from outside. */
  ghost function VisibleCount(hs: seq<int>, size: nat): nat
    requires Square(hs, size)
  {
    |set i | 0 <= i < size * size && VisibleIndex(hs, size, i)|
  }

  ghost predicate VisibleIndex(hs: seq<int>, size: nat, i: nat)
    requires Square(hs, size)
  {
    i < size * size && (FlatFacts(size, i); Visible(hs, size, i % size, i / size))
  }

  /** Silver's two passes: north and south down every column, then west and
      east along every row. Afterwards exactly the visible trees are marked. */
  method SweepAll(g: Grid)
    modifies g
    requires g.Valid() && forall i :: 0 <= i < |g.trees| ==> !g.trees[i].visible
    ensures g.Valid() && g.Heights() == old(g.Heights())
    ensures forall c: nat, r: nat :: c < g.size && r < g.size ==> g.Flag(c, r) == Visible(g.Heights(), g.size, c, r)
  {
    ghost var hs := g.Heights();
    g.NothingSwept(hs);
    for col := 0 to g.size
      invariant g.Valid() && g.Heights() == hs
      invariant g.ColumnsSwept(hs, col)
    {
      g.SweepColumn(hs, col);
    }
    g.ColumnsThenRows(hs);
    for row := 0 to g.size
      invariant g.Valid() && g.Heights() == hs
      invariant g.RowsSwept(hs, row)
    {
      g.SweepRow(hs, row);
    }
    forall c: nat, r: nat | c < g.size && r < g.size
      ensures g.Flag(c, r) == Visible(hs, g.size, c, r)
    {
      SweepsMarkVisible(hs, g.size, c, r);
    }
  }

  /** `silver`: the four sweeps over every lane, then the count of marked
      trees, which is the number of visible trees. */
  method Silver(s: string) returns (count: nat)
    requires IsGridText(s)
    ensures count == VisibleCount(DigitHeights(s), |FirstLine(s).value|)
  {
    var g := new Grid.FromStr(s);
    SweepAll(g);
    count := g.CountMarked();
    ghost var hs := g.Heights();
    forall i | 0 <= i < |g.trees|
      ensures g.trees[i].visible == VisibleIndex(hs, g.size, i)
    {
      FlagAtIndex(g.trees, g.size, i);
    }
    assert (set i | 0 <= i < |g.trees| && g.trees[i].visible) ==
           (set i | 0 <= i < g.size * g.size && VisibleIndex(hs, g.size, i));
  }

  // ---------------------------------------------------------------------------
  // Gold: scenic scores

  /** The heights met looking from the `k`-th cell of a lane back towards
      edge `d`, nearest first. */
  function Ray(hs: seq<int>, size: nat, d: Dir, lane: nat, k: nat): (ray: seq<int>)
    requires Square(hs, size) && lane < size && k < size
    ensures |ray| == k
  {
    seq(k, j requires 0 <= j < k => LaneHeight(hs, size, d, lane, k - 1 - j))
  }

  /** How many trees a tree of height `h` sees along `ray`: every shorter tree
      up to and including the first one at least as tall, or up to the edge. */
  function ViewingDistance(ray: seq<int>, h: int): (n: nat)
    ensures n <= |ray|
  {
    if ray == [] then 0 else if ray[0] < h then 1 + ViewingDistance(ray[1..], h) else 1
  }

  /** The trees counted are all shorter except perhaps the last, which is
      either the first one at least as tall or the last before the edge. */
  lemma {:induction false} ViewingDistanceSpec(ray: seq<int>, h: int)
    ensures var n := ViewingDistance(ray, h);
            (ray != [] ==> n >= 1) &&
            (forall j :: 0 <= j < n - 1 ==> ray[j] < h) &&
            (0 < n < |ray| ==> ray[n - 1] >= h)
  {
    if ray != [] && ray[0] < h {
      ViewingDistanceSpec(ray[1..], h);
    }
  }

  /** Those facts pin the viewing distance down. */
  lemma ViewingDistanceUnique(ray: seq<int>, h: int, n: nat)
    requires n <= |ray| && (ray != [] ==> n >= 1)
    requires forall j :: 0 <= j < n - 1 ==> ray[j] < h
    requires 0 < n < |ray| ==> ray[n - 1] >= h
    ensures ViewingDistance(ray, h) == n
  {
    ViewingDistanceSpec(ray, h);
  }

  /** The ray from `(col, row)` towards edge `d`. */
  function RayFrom(hs: seq<int>, size: nat, d: Dir, col: nat, row: nat): seq<int>
    requires Square(hs, size) && col < size && row < size
  {
    Ray(hs, size, d, LaneOf(d, col, row), StepOf(size, d, col, row))
  }

  /** The scenic score: the product of the four viewing distances. */
  ghost function Score(hs: seq<int>, size: nat, col: nat, row: nat): int
    requires Square(hs, size) && col < size && row < size
  {
    var h := H(hs, size, col, row);
    ViewingDistance(RayFrom(hs, size, North, col, row), h) *
    ViewingDistance(RayFrom(hs, size, South, col, row), h) *
    ViewingDistance(RayFrom(hs, size, West, col, row), h) *
    ViewingDistance(RayFrom(hs, size, East, col, row), h)
  }

  /** A tree on the edge sees nothing in one direction, so it scores 0. This is
      why skipping row 0 and column 0 loses nothing, and why the last row and
      column, which the skip test lets through, never win. */
  lemma EdgeScoresZero(hs: seq<int>, size: nat, col: nat, row: nat)
    requires Square(hs, size) && col < size && row < size
    requires col == 0 || row == 0 || col == size - 1 || row == size - 1
    ensures Score(hs, size, col, row) == 0
  {
  }

  /** A tree sees to the edge, over only shorter trees, exactly when it is
      visible from that edge: the link between the two halves of the puzzle. */
  lemma {:induction false} SeesEdgeIffVisible(hs: seq<int>, size: nat, d: Dir, col: nat, row: nat)
    requires Square(hs, size) && col < size && row < size
    ensures (forall j :: 0 <= j < |RayFrom(hs, size, d, col, row)| ==>
               RayFrom(hs, size, d, col, row)[j] < H(hs, size, col, row)) <==>
            VisibleFrom(hs, size, d, col, row)
  {
    var lane, k := LaneOf(d, col, row), StepOf(size, d, col, row);
    CellCoordinates(size, d, col, row);
    var ray := RayFrom(hs, size, d, col, row);
    assert H(hs, size, col, row) == LaneHeight(hs, size, d, lane, k);
    if VisibleFrom(hs, size, d, col, row) {
      forall j | 0 <= j < |ray|
        ensures ray[j] < H(hs, size, col, row)
      {
        assert ray[j] == LaneHeight(hs, size, d, lane, k - 1 - j);
      }
    } else {
      var j :| 0 <= j < k && LaneHeight(hs, size, d, lane, j) >= LaneHeight(hs, size, d, lane, k);
      assert ray[k - 1 - j] == LaneHeight(hs, size, d, lane, j);
    }
  }

  /** Index `i` is `start` plus a multiple of `stride`. */
  predicate OnStride(start: nat, stride: nat, i: nat)
    requires stride >= 1
  {
    start <= i && (i - start) % stride == 0
  }

  /** `(start..n).step_by(stride)`. */
  function StepBy(start: nat, stride: nat, n: nat): set<nat>
    requires stride >= 1
  {
    set i: nat | i < n && OnStride(start, stride, i)
  }

  /** The threads' index sets partition `[1, n)`: index `i` is visited by the
      thread `t == (i - 1) % stride` and by no other. */
  lemma StepByPartition(stride: nat, n: nat, t: nat, i: nat)
    requires stride >= 1 && t < stride && 1 <= i < n
    ensures i in StepBy(t + 1, stride, n) <==> (i - 1) % stride == t
  {
    var q := (i - 1) / stride;
    assert i - 1 == q * stride + (i - 1) % stride;
    if (i - 1) % stride == t {
      DivModUnique(i - t - 1, stride, q, 0);
    }
    if i in StepBy(t + 1, stride, n) {
      var q' := (i - t - 1) / stride;
      assert i - t - 1 == q' * stride;
      DivModUnique(i - 1, stride, q', t);
    }
  }

  /** Two indices with the same residue less than `stride` apart are equal. */
  lemma SameResidue(x: nat, y: nat, stride: nat)
    requires stride >= 1 && x % stride == y % stride && y <= x < y + stride
    ensures x == y
  {
    var qx, qy := x / stride, y / stride;
    assert x == qx * stride + x % stride && y == qy * stride + y % stride;
    assert x - y == (qx - qy) * stride by {
      assert qx * stride - qy * stride == (qx - qy) * stride;
    }
    if qx - qy >= 1 {
      MulAtLeast(qx - qy, stride);
    } else if qy - qx >= 1 {
      MulAtLeast(qy - qx, stride);
    }
  }

  /** One of gold's four arenas: from `(col, row)` towards edge `d`, the
      shorter trees taken while they last (`peeking_take_while`), then the
      next tree if there is one. */
  method ViewAlong(g: Grid, d: Dir, col: nat, row: nat) returns (arena: seq<int>)
    requires g.Valid() && col < g.size && row < g.size
    ensures var ray := RayFrom(g.Heights(), g.size, d, col, row);
            arena == ray[..ViewingDistance(ray, H(g.Heights(), g.size, col, row))]
  {
    ghost var hs := g.Heights();
    ghost var ray := RayFrom(hs, g.size, d, col, row);
    var lane, k := LaneOf(d, col, row), StepOf(g.size, d, col, row);
    var height := g.N(col, row);
    arena := [];
    var j := k;
    while j > 0 && g.LaneN(d, lane, j - 1) < height
      invariant 0 <= j <= k && arena == ray[..k - j]
      invariant forall m :: 0 <= m < k - j ==> ray[m] < height
    {
      assert ray[k - j] == LaneHeight(hs, g.size, d, lane, j - 1);
      arena := arena + [g.LaneN(d, lane, j - 1)];
      j := j - 1;
    }
    if j > 0 {
      assert ray[k - j] == LaneHeight(hs, g.size, d, lane, j - 1);
      arena := arena + [g.LaneN(d, lane, j - 1)];
    }
    ArenaIsView(ray, height, arena, j);
  }

  /** What the loop of `ViewAlong` leaves behind is the viewing distance's
      prefix of the ray: the shorter trees, then the blocking one if the
      loop stopped before the edge. */
  lemma ArenaIsView(ray: seq<int>, h: int, arena: seq<int>, j: nat)
    requires j <= |ray|
    requires forall m :: 0 <= m < |ray| - j ==> ray[m] < h
    requires j > 0 ==> ray[|ray| - j] >= h && arena == ray[..|ray| - j] + [ray[|ray| - j]]
    requires j == 0 ==> arena == ray[..|ray|]
    ensures arena == ray[..ViewingDistance(ray, h)]
  {
    if j > 0 {
      assert arena == ray[..|ray| - j + 1];
      ViewingDistanceUnique(ray, h, |ray| - j + 1);
    } else {
      ViewingDistanceUnique(ray, h, |ray|);
    }
  }

  /** The body of gold's loop for one cell: the product of the four arena
      lengths. */
  method ScoreCell(g: Grid, col: nat, row: nat) returns (total: int)
    requires g.Valid() && col < g.size && row < g.size
    ensures total == Score(g.Heights(), g.size, col, row)
  {
    var north := ViewAlong(g, North, col, row);
    var south := ViewAlong(g, South, col, row);
    var west := ViewAlong(g, West, col, row);
    var east := ViewAlong(g, East, col, row);
    total := |north| * |south| * |west| * |east|;
  }

  /** The best scenic score of the grid. */
  ghost predicate IsBestScore(hs: seq<int>, size: nat, m: int)
    requires Square(hs, size)
  {
    (forall c: nat, r: nat :: c < size && r < size ==> Score(hs, size, c, r) <= m) &&
    (size >= 1 ==> exists c: nat, r: nat :: c < size && r < size && Score(hs, size, c, r) == m) &&
    (size == 0 ==> m == 0)
  }

  /** Thread `t` has handled index `i` once it has passed it, and every thread
      before `t` has handled all of its indices. */
  predicate Handled(stride: nat, t: nat, i: nat, tree: nat)
    requires stride >= 1
  {
    1 <= i && ((i - 1) % stride < t || ((i - 1) % stride == t && i < tree))
  }

  /** The score of the cell with row-major index `i`. */
  ghost function IndexScore(hs: seq<int>, size: nat, i: nat): int
    requires Square(hs, size) && i < size * size
  {
    FlatFacts(size, i);
    Score(hs, size, i % size, i / size)
  }

  /** Every cell's score, in row-major order. */
  ghost function AllScores(hs: seq<int>, size: nat): (scores: seq<int>)
    requires Square(hs, size)
    ensures |scores| == size * size
  {
    seq(size * size, i requires 0 <= i < size * size => IndexScore(hs, size, i))
  }

  /** Index `tree` is one of thread `t`'s: `t + 1`, `t + 1 + stride`, ... */
  predicate OnThread(stride: nat, t: nat, tree: nat)
    requires stride >= 1
  {
    tree >= 1 && (tree - 1) % stride == t
  }

  /** Stepping by `stride` stays on the same thread. */
  lemma OnThreadNext(stride: nat, t: nat, tree: nat, next: nat)
    requires stride >= 1 && OnThread(stride, t, tree) && next == tree + stride
    ensures OnThread(stride, t, next)
  {
    ResidueAfterStride(tree - 1, stride);
  }

  /** No index handled so far scores more than `m`. */
  ghost predicate ScoresBelow(scores: seq<int>, stride: nat, t: nat, tree: nat, m: int)
    requires stride >= 1
  {
    forall i :: 0 <= i < |scores| && Handled(stride, t, i, tree) ==> scores[i] <= m
  }

  /** `m` is the score at index `best`, or there are no cells. */
  ghost predicate Attained(scores: seq<int>, best: nat, m: int)
  {
    scores != [] ==> best < |scores| && scores[best] == m
  }

  /** After a thread has handled index `tree` it moves on by `stride`, past no
      other index of its own. */
  lemma ScoresBelowNext(scores: seq<int>, stride: nat, t: nat, tree: nat, m0: int, m: int)
    requires stride >= 1 && t < stride && 1 <= tree < |scores|
    requires (tree - 1) % stride == t && m0 <= m
    requires ScoresBelow(scores, stride, t, tree, m0) && scores[tree] <= m
    ensures ScoresBelow(scores, stride, t, tree + stride, m)
    ensures (tree + stride - 1) % stride == t
  {
    forall i | 0 <= i < |scores| && Handled(stride, t, i, tree + stride)
      ensures scores[i] <= m
    {
      if !Handled(stride, t, i, tree) {
        SameResidue(i - 1, tree - 1, stride);
      }
    }
    ResidueAfterStride(tree - 1, stride);
  }

  /** A thread starts at `t + 1`, and no index before it is its own. */
  lemma ThreadStart(scores: seq<int>, stride: nat, t: nat, m: int)
    requires stride >= 1 && t < stride && ScoresBelow(scores, stride, t, 0, m)
    ensures t % stride == t && ScoresBelow(scores, stride, t, t + 1, m)
  {
    DivModUnique(t, stride, 0, t);
    forall i | 0 <= i < |scores| && Handled(stride, t, i, t + 1)
      ensures Handled(stride, t, i, 0)
    {
      if i <= t {
        DivModUnique(i - 1, stride, 0, i - 1);
      }
    }
  }

  lemma ResidueAfterStride(x: nat, stride: nat)
    requires stride >= 1
    ensures (x + stride) % stride == x % stride
  {
    var q := x / stride;
    assert x == q * stride + x % stride;
    assert (q + 1) * stride == q * stride + stride;
    DivModUnique(x + stride, stride, q + 1, x % stride);
  }

  /** Cell `(0, 0)`, which no thread visits, scores 0. */
  lemma CornerScoresZero(hs: seq<int>, size: nat)
    requires Square(hs, size)
    ensures Attained(AllScores(hs, size), 0, 0)
  {
    if size >= 1 {
      EdgeScoresZero(hs, size, 0, 0);
      IndexFacts(size, 0, 0);
      assert AllScores(hs, size)[0] == IndexScore(hs, size, 0);
    }
  }

  /** Once all threads are done every index but 0 has been handled, and cell
      `(0, 0)` scores 0: the maximum is the best score of the grid. */
  lemma AllHandled(hs: seq<int>, size: nat, scores: seq<int>, stride: nat, m: int, best: nat)
    requires Square(hs, size) && scores == AllScores(hs, size) && stride >= 1 && m >= 0
    requires ScoresBelow(scores, stride, stride, 0, m) && Attained(scores, best, m)
    requires scores == [] ==> m == 0
    ensures IsBestScore(hs, size, m)
  {
    forall c: nat, r: nat | c < size && r < size
      ensures Score(hs, size, c, r) <= m
    {
      IndexFacts(size, c, r);
      if Index(size, c, r) == 0 {
        EdgeScoresZero(hs, size, c, r);
      } else {
        assert Handled(stride, stride, Index(size, c, r), 0);
        assert scores[Index(size, c, r)] == IndexScore(hs, size, Index(size, c, r));
      }
    }
    if size >= 1 {
      FlatFacts(size, best);
      assert scores[best] == Score(hs, size, best % size, best / size);
    }
  }

  /** The score at flat index `i` is the score of the cell at column `i % size`
      and row `i / size`. */
  lemma ScoreOfIndex(hs: seq<int>, size: nat, scores: seq<int>, i: nat)
    requires Square(hs, size) && scores == AllScores(hs, size) && i < |scores|
    ensures i % size < size && i / size < size
    ensures scores[i] == Score(hs, size, i % size, i / size)
  {
    FlatFacts(size, i);
  }

  /** The body of a thread's loop for index `tree`: border cells are skipped,
      the others scored, and `m` raised when the score beats it. */
  method VisitCell(g: Grid, ghost scores: seq<int>, stride: nat, t: nat, tree: nat, m0: int, ghost best0: nat)
    returns (m: int, ghost best: nat)
    requires g.Valid() && scores == AllScores(g.Heights(), g.size) && tree < |scores|
    requires stride >= 1 && t < stride && OnThread(stride, t, tree)
    requires m0 >= 0 && ScoresBelow(scores, stride, t, tree, m0) && Attained(scores, best0, m0)
    ensures m0 <= m && Attained(scores, best, m) && scores[tree] <= m
    ensures ScoresBelow(scores, stride, t, tree + stride, m)
  {
    m, best := m0, best0;
    ScoreOfIndex(g.Heights(), g.size, scores, tree);
    var c := tree % g.size;
    var r := tree / g.size;
    if c == 0 || r == 0 || c == g.size || r == g.size {
      EdgeScoresZero(g.Heights(), g.size, c, r);
    } else {
      var total := ScoreCell(g, c, r);
      if total > m {
        m, best := total, tree;
      }
    }
    ScoresBelowNext(scores, stride, t, tree, m0, m);
  }

  /** The loop of thread `t`: indices `t + 1, t + 1 + stride, ...` of the
      grid. */
  method Thread(g: Grid, ghost scores: seq<int>, stride: nat, t: nat, m0: int, ghost best0: nat)
    returns (m: int, ghost best: nat)
    requires g.Valid() && scores == AllScores(g.Heights(), g.size) && stride >= 1 && t < stride
    requires m0 >= 0 && ScoresBelow(scores, stride, t, 0, m0) && Attained(scores, best0, m0)
    ensures m >= 0 && ScoresBelow(scores, stride, t + 1, 0, m) && Attained(scores, best, m)
    ensures scores == [] ==> m == m0
  {
    m, best := m0, best0;
    var tree, cells := t + 1, g.size * g.size;
    ThreadStart(scores, stride, t, m);
    while tree < cells
      invariant OnThread(stride, t, tree)
      invariant m >= 0 && ScoresBelow(scores, stride, t, tree, m) && Attained(scores, best, m)
      invariant cells == 0 ==> m == m0
    {
      m, best := VisitCell(g, scores, stride, t, tree, m, best);
      ghost var prev := tree;
      tree := tree + stride;
      OnThreadNext(stride, t, prev, tree);
    }
  }

  /** `gold`, with the threads run one after the other: thread `t` scores the
      cells `t + 1, t + 1 + stride, ...`, skipping row 0 and column 0, and the
      shared maximum is raised whenever a score beats it. */
  method Gold(s: string, stride: nat) returns (m: int)
    requires IsGridText(s) && stride >= 1
    ensures IsBestScore(DigitHeights(s), |FirstLine(s).value|, m)
  {
    var g := new Grid.FromStr(s);
    m := BestScore(g, stride);
  }

  /** The threads of `gold` over a parsed grid, sharing the maximum. */
  method BestScore(g: Grid, stride: nat) returns (m: int)
    requires g.Valid() && stride >= 1
    ensures IsBestScore(g.Heights(), g.size, m)
  {
    ghost var hs, size := g.Heights(), g.size;
    ghost var scores := AllScores(hs, size);
    m := 0;
    ghost var best: nat := 0;
    CornerScoresZero(hs, size);
    for t := 0 to stride
      invariant m >= 0 && ScoresBelow(scores, stride, t, 0, m) && Attained(scores, best, m)
      invariant scores == [] ==> m == 0
    {
      m, best := Thread(g, scores, stride, t, m, best);
    }
    AllHandled(hs, size, scores, stride, m, best);
  }
}
