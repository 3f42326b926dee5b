/** Hill climbing: a height map read into a flat grid, the walkable
    neighbours of a square, and a breadth-first search that builds a tree of
    parents (src/day12.rs). */
module Day12 {
  import opened Prelude

  /** The height map: one height 0..25 per square, row by row, and the
      indices of the start `S` and the best signal `E`. */
  datatype Grid = Grid(vertices: seq<nat>, width: nat, height: nat, start: nat, end: nat)

  /** `c.is_ascii_alphabetic()`. */
  predicate IsLetter(c: char)
  {
    'a' <= c <= 'z' || 'A' <= c <= 'Z'
  }

  /** The letters of the input, in order: the squares. */
  function Letters(s: string): (r: string)
    ensures |r| <= |s|
    ensures forall c :: c in r ==> IsLetter(c)
  {
    if s == [] then []
    else Letters(s[..|s| - 1]) + (if IsLetter(s[|s| - 1]) then [s[|s| - 1]] else [])
  }

  /** A square's height: `S` is as low as `a`, `E` as high as `z`. */
  function HeightOf(c: char): (h: int)
    ensures IsLetter(c) && !Underflows(c) ==> 0 <= h <= 25
  {
    if c == 'S' then 0 else if c == 'E' then 25 else c as int - 'a' as int
  }

  /** A letter whose `c - b'a'` underflows a `u8`: an upper-case letter other
      than `S` and `E`. */
  predicate Underflows(c: char)
  {
    IsLetter(c) && c != 'S' && c != 'E' && c < 'a'
  }

  /** The last index in `letters[..k]` holding `c`; 0 (the default) if none
      does. */
  function LastIndex(letters: string, c: char, k: nat): (i: nat)
    requires k <= |letters|
    ensures i == 0 || (i < k && letters[i] == c)
    ensures forall j :: i < j < k ==> letters[j] != c
  {
    if k == 0 then 0 else if letters[k - 1] == c then k - 1 else LastIndex(letters, c, k - 1)
  }

  /** `Grid::new`: `None` where a letter's height underflows. Otherwise every
      letter becomes a height 0..25, and `start` and `end` are the last `S`
      and `E`. */
  method NewGrid(s: string, width: nat, height: nat) returns (g: Option<Grid>)
    ensures g.None? <==> exists c :: c in s && Underflows(c)
    ensures g.Some? ==>
              var letters := Letters(s);
              g.value.width == width && g.value.height == height &&
              |g.value.vertices| == |letters| &&
              (forall i :: 0 <= i < |letters| ==> g.value.vertices[i] == HeightOf(letters[i]) <= 25) &&
              g.value.start == LastIndex(letters, 'S', |letters|) &&
              g.value.end == LastIndex(letters, 'E', |letters|)
  {
    var vertices: seq<nat> := [];
    var start, end := 0, 0;
    ghost var letters: string := [];
    for j := 0 to |s|
      invariant letters == Letters(s[..j])
      invariant forall i :: 0 <= i < |letters| ==> !Underflows(letters[i])
      invariant |vertices| == |letters|
      invariant forall i :: 0 <= i < |letters| ==> vertices[i] == HeightOf(letters[i]) <= 25
      invariant start == LastIndex(letters, 'S', |vertices|)
      invariant end == LastIndex(letters, 'E', |vertices|)
    {
      var c := s[j];
      if IsLetter(c) {
        if Underflows(c) {
          assert c in s;
          return None;
        }
        LettersSnoc(s, j);
        vertices, start, end := AddSquare(c, vertices, start, end, letters);
        letters := letters + [c];
      } else {
        LettersSnoc(s, j);
      }
    }
    assert s[..|s|] == s;
    NoUnderflow(s);
    return Some(Grid(vertices, width, height, start, end));
  }

  /** One letter of the input becoming the next square: its height is
      appended, and it becomes the start or end if it is `S` or `E`. */
  method AddSquare(c: char, vertices: seq<nat>, start: nat, end: nat, ghost letters: string)
    returns (vertices': seq<nat>, start': nat, end': nat)
    requires IsLetter(c) && !Underflows(c) && |vertices| == |letters|
    requires forall i :: 0 <= i < |letters| ==> vertices[i] == HeightOf(letters[i]) <= 25
    requires start == LastIndex(letters, 'S', |letters|) && end == LastIndex(letters, 'E', |letters|)
    ensures |vertices'| == |letters| + 1
    ensures forall i :: 0 <= i < |letters| + 1 ==> vertices'[i] == HeightOf((letters + [c])[i]) <= 25
    ensures start' == LastIndex(letters + [c], 'S', |letters| + 1)
    ensures end' == LastIndex(letters + [c], 'E', |letters| + 1)
  {
    LastIndexSnoc(letters, c, 'S');
    LastIndexSnoc(letters, c, 'E');
    start', end' := start, end;
    if c == 'S' {
      start' := |vertices|;
    } else if c == 'E' {
      end' := |vertices|;
    }
    vertices' := vertices + [HeightOf(c)];
  }

  /** Every letter of the input is a square. */
  lemma {:induction false} LettersComplete(s: string)
    ensures forall c :: c in s && IsLetter(c) ==> c in Letters(s)
  {
    if s != [] {
      var init := s[..|s| - 1];
      LettersComplete(init);
      assert s == init + [s[|s| - 1]];
    }
  }

  /** A letter that underflows would have been kept among the squares. */
  lemma NoUnderflow(s: string)
    requires forall i :: 0 <= i < |Letters(s)| ==> !Underflows(Letters(s)[i])
    ensures !exists c :: c in s && Underflows(c)
  {
    LettersComplete(s);
  }

  lemma LettersSnoc(s: string, j: nat)
    requires j < |s|
    ensures Letters(s[..j + 1]) == Letters(s[..j]) + (if IsLetter(s[j]) then [s[j]] else [])
  {
    assert s[..j + 1][..j] == s[..j];
  }

  lemma LastIndexSnoc(letters: string, c: char, d: char)
    ensures LastIndex(letters + [c], d, |letters| + 1) == if c == d then |letters| else LastIndex(letters, d, |letters|)
  {
    var k := |letters|;
    assert (letters + [c])[k] == c;
    LastIndexPrefix(letters + [c], letters, d, k);
  }

  lemma {:induction false} LastIndexPrefix(a: string, b: string, d: char, k: nat)
    requires k <= |a| && k <= |b| && a[..k] == b[..k]
    ensures LastIndex(a, d, k) == LastIndex(b, d, k)
  {
    if k > 0 {
      assert a[k - 1] == a[..k][k - 1] == b[..k][k - 1] == b[k - 1];
      assert a[..k - 1] == a[..k][..k - 1] == b[..k][..k - 1] == b[..k - 1];
      LastIndexPrefix(a, b, d, k - 1);
    }
  }

  /** A grid with as many squares as its dimensions say. */
  predicate Valid(g: Grid)
  {
    g.width >= 1 && g.height >= 1 && |g.vertices| == g.width * g.height
  }

  /** The flat index of `(col, row)`. */
  function Idx(width: nat, col: nat, row: nat): nat
  {
    row * width + col
  }

  /** Flat indices and coordinates correspond one to one. */
  lemma IdxFacts(width: nat, height: nat, col: nat, row: nat)
    requires col < width && row < height
    ensures Idx(width, col, row) < width * height
    ensures Idx(width, col, row) / width == row && Idx(width, col, row) % width == col
  {
    assert row * width + col < (row + 1) * width;
    assert (row + 1) * width <= height * width by {
      if row + 1 < height {
        MulAtLeast(height - (row + 1), width);
        assert height * width == (row + 1) * width + (height - (row + 1)) * width;
      }
    }
    DivModUnique(Idx(width, col, row), width, row, col);
  }

  lemma CoordsOfIdx(width: nat, height: nat, v: nat)
    requires width >= 1 && v < width * height
    ensures v % width < width && v / width < height
    ensures Idx(width, v % width, v / width) == v
  {
    var q, r := v / width, v % width;
    assert v == q * width + r;
    MulMonotone(height, q, width);
  }

  /** `get`. */
  function Get(g: Grid, col: nat, row: nat): nat
    requires Valid(g) && col < g.width && row < g.height
  {
    IdxFacts(g.width, g.height, col, row);
    g.vertices[Idx(g.width, col, row)]
  }

  /** `get_i`: the square at a flat index. */
  function GetI(g: Grid, v: nat): (h: nat)
    requires Valid(g) && v < |g.vertices|
    ensures h == g.vertices[v]
  {
    CoordsOfIdx(g.width, g.height, v);
    Get(g, v % g.width, v / g.width)
  }

  /** `walkable_gold`: a step may go down any distance but up at most one;
      the rule holds for climbing down from the summit. */
  predicate Walkable(current: nat, target: nat)
  {
    current <= target + 1
  }

  /** `walkable_silver`, defined beside it but never used: the mirror rule. */
  predicate WalkableSilver(current: nat, target: nat)
  {
    target <= current + 1
  }

  lemma WalkableMirror(a: nat, b: nat)
    ensures Walkable(a, b) <==> WalkableSilver(b, a)
  {
  }

  datatype Neighbours = Neighbours(up: Option<nat>, left: Option<nat>, right: Option<nat>, down: Option<nat>)

  /** `neighbours`: the squares next to `(col, row)` that can be walked to. */
  function NeighboursAt(g: Grid, col: nat, row: nat): (n: Neighbours)
    requires Valid(g) && col < g.width && row < g.height
    ensures forall t :: Some(t) in [n.up, n.left, n.right, n.down] ==> t < |g.vertices|
  {
    var w := g.width;
    var cur := Get(g, col, row);
    var up :=
      if row >= 1 then
        IdxFacts(w, g.height, col, row - 1);
        var t := Idx(w, col, row - 1);
        if Walkable(cur, g.vertices[t]) then Some(t) else None
      else None;
    var left :=
      if col >= 1 then
        IdxFacts(w, g.height, col - 1, row);
        var t := Idx(w, col - 1, row);
        if Walkable(cur, g.vertices[t]) then Some(t) else None
      else None;
    var right :=
      if col + 1 <= w - 1 then
        IdxFacts(w, g.height, col + 1, row);
        var t := Idx(w, col + 1, row);
        if Walkable(cur, g.vertices[t]) then Some(t) else None
      else None;
    var down :=
      if row + 1 <= g.height - 1 then
        IdxFacts(w, g.height, col, row + 1);
        var t := Idx(w, col, row + 1);
        if Walkable(cur, g.vertices[t]) then Some(t) else None
      else None;
    Neighbours(up, left, right, down)
  }

  /** `t` is the square above, left of, right of or below `(col, row)`, inside
      the grid. */
  predicate Adjacent(g: Grid, col: nat, row: nat, t: nat)
  {
    (row >= 1 && t == Idx(g.width, col, row - 1)) ||
    (col >= 1 && t == Idx(g.width, col - 1, row)) ||
    (col + 1 < g.width && t == Idx(g.width, col + 1, row)) ||
    (row + 1 < g.height && t == Idx(g.width, col, row + 1))
  }

  /** `as_vec`: the present neighbours, in the order up, left, down,
      right. */
  function AsVec(n: Neighbours): (r: seq<nat>)
    ensures |r| <= 4
    ensures forall t :: t in r <==> Some(t) in [n.up, n.left, n.down, n.right]
  {
    (if n.up.Some? then [n.up.value] else []) +
    (if n.left.Some? then [n.left.value] else []) +
    (if n.down.Some? then [n.down.value] else []) +
    (if n.right.Some? then [n.right.value] else [])
  }

  /** The walkable neighbours are exactly the adjacent squares inside the grid
      that the walkability rule allows. */
  lemma NeighboursSpec(g: Grid, col: nat, row: nat, t: nat)
    requires Valid(g) && col < g.width && row < g.height
    ensures t in AsVec(NeighboursAt(g, col, row)) <==>
              Adjacent(g, col, row, t) && t < |g.vertices| && Walkable(Get(g, col, row), g.vertices[t])
  {
    if Adjacent(g, col, row, t) {
      if row >= 1 && t == Idx(g.width, col, row - 1) {
        IdxFacts(g.width, g.height, col, row - 1);
      }
      if col >= 1 && t == Idx(g.width, col - 1, row) {
        IdxFacts(g.width, g.height, col - 1, row);
      }
      if col + 1 < g.width && t == Idx(g.width, col + 1, row) {
        IdxFacts(g.width, g.height, col + 1, row);
      }
      if row + 1 < g.height && t == Idx(g.width, col, row + 1) {
        IdxFacts(g.width, g.height, col, row + 1);
      }
    }
  }

  /** `neighbours_i`: the neighbours of a flat index. Its local names swap
      column and row, but the call passes them back in the right places, so
      it is `neighbours(v % width, v / width)`. */
  function NeighboursI(g: Grid, v: nat): Neighbours
    requires Valid(g) && v < |g.vertices|
  {
    CoordsOfIdx(g.width, g.height, v);
    var col := v / g.width;
    var row := v % g.width;
    NeighboursAt(g, row, col)
  }

  lemma NeighboursIInRange(g: Grid, v: nat)
    requires Valid(g) && v < |g.vertices|
    ensures forall t :: t in AsVec(NeighboursI(g, v)) ==> t < |g.vertices|
  {
  }

  /** The number of squares not yet discovered. */
  function CountFalse(s: seq<bool>): nat
  {
    if s == [] then 0 else CountFalse(s[..|s| - 1]) + (if s[|s| - 1] then 0 else 1)
  }

  lemma {:induction false} CountFalseSet(s: seq<bool>, y: nat)
    requires y < |s| && !s[y]
    ensures CountFalse(s[y := true]) == CountFalse(s) - 1
  {
    var n := |s|;
    if y < n - 1 {
      assert s[y := true][..n - 1] == s[..n - 1][y := true];
      CountFalseSet(s[..n - 1], y);
    } else {
      assert s[y := true][..n - 1] == s[..n - 1];
    }
  }

  /** `y` hangs off its parent by a walkable step, one level deeper. */
  ghost predicate ParentEdge(g: Grid, parents: seq<Option<nat>>, depth: seq<nat>, y: nat)
    requires Valid(g) && y < |parents| == |depth| == |g.vertices| && parents[y].Some?
  {
    var v := parents[y].value;
    v < |g.vertices| && y in AsVec(NeighboursI(g, v)) && depth[y] == depth[v] + 1
  }

  /** The search's bookkeeping so far: the root discovered with no parent
      at level 0, and every parent edge a discovered step one level deeper. */
  ghost predicate Tree(g: Grid, root: nat, discovered: seq<bool>, parents: seq<Option<nat>>, depth: seq<nat>)
    requires Valid(g)
  {
    var n := |g.vertices|;
    |discovered| == |parents| == |depth| == n && root < n &&
    discovered[root] && parents[root] == None && depth[root] == 0 &&
    forall y :: 0 <= y < n && parents[y].Some? ==>
      discovered[y] && parents[y].value < n && discovered[parents[y].value] && ParentEdge(g, parents, depth, y)
  }

  /** Every square waiting in the queue is in range and discovered. */
  predicate Queued(queue: seq<nat>, discovered: seq<bool>)
  {
    forall i :: 0 <= i < |queue| ==> queue[i] < |discovered| && discovered[queue[i]]
  }

  /** Discovering one neighbour `y` of `v` keeps the tree and the queue. */
  lemma DiscoverOne(g: Grid, root: nat, v: nat, y: nat, discovered: seq<bool>, parents: seq<Option<nat>>, depth: seq<nat>, queue: seq<nat>)
    requires Valid(g) && Tree(g, root, discovered, parents, depth) && Queued(queue, discovered)
    requires v < |g.vertices| && discovered[v]
    requires y < |g.vertices| && !discovered[y] && y in AsVec(NeighboursI(g, v))
    ensures Tree(g, root, discovered[y := true], parents[y := Some(v)], depth[y := depth[v] + 1])
    ensures Queued(queue + [y], discovered[y := true])
  {
    DiscoverTree(g, root, v, y, discovered, parents, depth);
    DiscoverQueued(queue, discovered, y);
  }

  lemma DiscoverTree(g: Grid, root: nat, v: nat, y: nat, discovered: seq<bool>, parents: seq<Option<nat>>, depth: seq<nat>)
    requires Valid(g) && Tree(g, root, discovered, parents, depth)
    requires v < |g.vertices| && discovered[v]
    requires y < |g.vertices| && !discovered[y] && y in AsVec(NeighboursI(g, v))
    ensures Tree(g, root, discovered[y := true], parents[y := Some(v)], depth[y := depth[v] + 1])
  {
    var n := |g.vertices|;
    var discovered', parents', depth' := discovered[y := true], parents[y := Some(v)], depth[y := depth[v] + 1];
    assert v != y;
    forall z | 0 <= z < n && parents'[z].Some?
      ensures discovered'[z] && parents'[z].value < n && discovered'[parents'[z].value]
      ensures ParentEdge(g, parents', depth', z)
    {
      if z != y {
        var u := parents[z].value;
        assert parents'[z] == parents[z];
        assert ParentEdge(g, parents, depth, z) && discovered[u];
        assert u != y;
        assert depth'[u] == depth[u] && depth'[z] == depth[z];
      } else {
        assert depth'[v] == depth[v];
      }
    }
  }

  lemma DiscoverQueued(queue: seq<nat>, discovered: seq<bool>, y: nat)
    requires Queued(queue, discovered) && y < |discovered|
    ensures Queued(queue + [y], discovered[y := true])
  {
    var discovered' := discovered[y := true];
    forall i | 0 <= i < |queue + [y]|
      ensures (queue + [y])[i] < |discovered'| && discovered'[(queue + [y])[i]]
    {
      if i < |queue| {
        assert (queue + [y])[i] == queue[i];
      }
    }
  }

  /** A square is discovered exactly when it is the root or has a parent. */
  predicate Reached(root: nat, discovered: seq<bool>, parents: seq<Option<nat>>)
  {
    |discovered| == |parents| &&
    forall x :: 0 <= x < |discovered| ==> (discovered[x] <==> x == root || parents[x].Some?)
  }

  /** From `discovered` to `discovered'` the search forgets nothing, and
      every square it newly discovers waits at the back of the queue. */
  predicate Grows(discovered: seq<bool>, queue: seq<nat>, discovered': seq<bool>, queue': seq<nat>)
  {
    |discovered| == |discovered'| && queue <= queue' &&
    (forall x :: 0 <= x < |discovered| && discovered[x] ==> discovered'[x]) &&
    (forall x :: 0 <= x < |discovered| && discovered'[x] && !discovered[x] ==> x in queue')
  }

  /** Discovering `y` and queueing it keeps the bookkeeping. */
  lemma {:induction false} DiscoverGrows(root: nat, v: nat, y: nat, discovered: seq<bool>, queue: seq<nat>,
                                         discovered': seq<bool>, parents': seq<Option<nat>>, queue': seq<nat>)
    requires Grows(discovered, queue, discovered', queue') && Reached(root, discovered', parents')
    requires y < |discovered'| && !discovered'[y]
    ensures Grows(discovered, queue, discovered'[y := true], queue' + [y])
    ensures Reached(root, discovered'[y := true], parents'[y := Some(v)])
  {
    var d, p, q := discovered'[y := true], parents'[y := Some(v)], queue' + [y];
    forall x | 0 <= x < |discovered| && d[x] && !discovered[x]
      ensures x in q
    {
      if x != y {
        assert discovered'[x];
        assert x in queue';
      } else {
        assert q[|queue'|] == y;
      }
    }
    forall x | 0 <= x < |d|
      ensures d[x] <==> x == root || p[x].Some?
    {
      if x != y {
        assert d[x] == discovered'[x] && p[x] == parents'[x];
      }
    }
  }

  /** Every walkable neighbour of square `v` is discovered. */
  ghost predicate Expanded(g: Grid, discovered: seq<bool>, v: nat)
    requires Valid(g) && v < |g.vertices|
  {
    forall t :: t in AsVec(NeighboursI(g, v)) ==> t < |discovered| && discovered[t]
  }

  /** One turn of the neighbour loop: `y`, if not yet discovered, is
      discovered with parent `v` and queued. */
  method DiscoverNeighbour(g: Grid, root: nat, v: nat, y: nat, ghost discovered0: seq<bool>, ghost queue0: seq<nat>,
                           discovered: seq<bool>, parents: seq<Option<nat>>, ghost depth: seq<nat>, queue: seq<nat>)
    returns (discovered': seq<bool>, parents': seq<Option<nat>>, ghost depth': seq<nat>, queue': seq<nat>)
    requires Valid(g) && Tree(g, root, discovered, parents, depth) && Queued(queue, discovered)
    requires Reached(root, discovered, parents) && Grows(discovered0, queue0, discovered, queue)
    requires v < |g.vertices| && discovered[v] && y in AsVec(NeighboursI(g, v)) && y < |g.vertices|
    ensures Tree(g, root, discovered', parents', depth') && Queued(queue', discovered')
    ensures Reached(root, discovered', parents') && Grows(discovered0, queue0, discovered', queue')
    ensures |discovered'| == |discovered| && discovered'[y]
    ensures forall x :: 0 <= x < |discovered| && discovered[x] ==> discovered'[x]
    ensures CountFalse(discovered') + |queue'| == CountFalse(discovered) + |queue|
  {
    discovered', parents', depth', queue' := discovered, parents, depth, queue;
    if !discovered[y] {
      CountFalseSet(discovered, y);
      DiscoverOne(g, root, v, y, discovered, parents, depth, queue);
      DiscoverGrows(root, v, y, discovered0, queue0, discovered, parents, queue);
      queue' := queue + [y];
      discovered' := discovered[y := true];
      parents' := parents[y := Some(v)];
      depth' := depth[y := depth[v] + 1];
    }
  }

  /** A square discovered before a turn stays discovered after it. */
  lemma {:induction false} MarkedPrefix(neigh: seq<nat>, k: nat, d: seq<bool>, d': seq<bool>)
    requires k < |neigh| && |d| == |d'|
    requires forall j :: 0 <= j < k ==> neigh[j] < |d| && d[neigh[j]]
    requires forall x :: 0 <= x < |d| && d[x] ==> d'[x]
    requires neigh[k] < |d'| && d'[neigh[k]]
    ensures forall j :: 0 <= j < k + 1 ==> neigh[j] < |d'| && d'[neigh[j]]
  {
    forall j | 0 <= j < k + 1
      ensures neigh[j] < |d'| && d'[neigh[j]]
    {
      if j < k {
        assert d[neigh[j]];
      }
    }
  }

  /** The loop over the neighbours of a popped square `v`: each one not yet
      discovered is discovered, gets `v` as its parent and joins the queue.
      Afterwards all neighbours of `v` are discovered, nothing is forgotten,
      and every newly discovered square waits at the back of the queue. */
  method Discover(g: Grid, root: nat, v: nat, discovered: seq<bool>, parents: seq<Option<nat>>, ghost depth: seq<nat>, queue: seq<nat>)
    returns (discovered': seq<bool>, parents': seq<Option<nat>>, ghost depth': seq<nat>, queue': seq<nat>)
    requires Valid(g) && Tree(g, root, discovered, parents, depth) && Queued(queue, discovered)
    requires Reached(root, discovered, parents)
    requires v < |g.vertices| && discovered[v]
    ensures Tree(g, root, discovered', parents', depth') && Queued(queue', discovered')
    ensures Reached(root, discovered', parents')
    ensures Expanded(g, discovered', v)
    ensures Grows(discovered, queue, discovered', queue')
    ensures CountFalse(discovered') + |queue'| == CountFalse(discovered) + |queue|
  {
    var n := |g.vertices|;
    var neigh := AsVec(NeighboursI(g, v));
    NeighboursIInRange(g, v);
    assert forall j :: 0 <= j < |neigh| ==> neigh[j] in neigh;
    discovered', parents', depth', queue' := discovered, parents, depth, queue;
    for k := 0 to |neigh|
      invariant Tree(g, root, discovered', parents', depth') && Queued(queue', discovered')
      invariant Reached(root, discovered', parents')
      invariant |discovered'| == n && discovered'[v]
      invariant forall j :: 0 <= j < k ==> neigh[j] < n && discovered'[neigh[j]]
      invariant Grows(discovered, queue, discovered', queue')
      invariant CountFalse(discovered') + |queue'| == CountFalse(discovered) + |queue|
    {
      ghost var before := discovered';
      discovered', parents', depth', queue' :=
        DiscoverNeighbour(g, root, v, neigh[k], discovered, queue, discovered', parents', depth', queue');
      MarkedPrefix(neigh, k, before, discovered');
    }
    forall t | t in neigh
      ensures t < |discovered'| && discovered'[t]
    {
      var j :| 0 <= j < |neigh| && neigh[j] == t;
    }
  }

  /** After `v` is popped and its neighbours discovered, every processed
      square still has all its neighbours discovered, and every discovered
      square is processed or still queued. */
  lemma {:induction false} ProcessedKeeps(g: Grid, v: nat, processed: seq<bool>, discovered: seq<bool>, queue: seq<nat>,
                                          discovered': seq<bool>, queue': seq<nat>)
    requires Valid(g) && |processed| == |discovered| == |g.vertices| && queue != [] && queue[0] == v
    requires v < |g.vertices| && Expanded(g, discovered', v)
    requires Grows(discovered, queue[1..], discovered', queue')
    requires forall x :: 0 <= x < |g.vertices| && processed[x] ==> Expanded(g, discovered, x)
    requires forall x :: 0 <= x < |g.vertices| && discovered[x] ==> processed[x] || x in queue
    ensures forall x :: 0 <= x < |g.vertices| && processed[v := true][x] ==> Expanded(g, discovered', x)
    ensures forall x :: 0 <= x < |g.vertices| && discovered'[x] ==> processed[v := true][x] || x in queue'
  {
    var n := |g.vertices|;
    forall x | 0 <= x < n && processed[v := true][x]
      ensures Expanded(g, discovered', x)
    {
      if x != v {
        assert Expanded(g, discovered, x);
      }
    }
    forall x | 0 <= x < n && discovered'[x]
      ensures processed[v := true][x] || x in queue'
    {
      if discovered[x] && x != v && !processed[x] {
        assert x in queue;
        var i :| 0 <= i < |queue| && queue[i] == x;
        assert queue[1..][i - 1] == x;
        assert x in queue[1..];
        assert queue[1..] <= queue';
        assert queue'[i - 1] == x;
      }
    }
  }

  /** `breadth_first_search` from `root`: the parent tree it builds. The
      root has no parent; every parent edge is a walkable step; and levels
      rise by one along each edge, so following parents never cycles. When
      it dequeues a square of height 0 it stops there (`found`), with that
      square reached; otherwise the queue ran dry and the reached squares are
      closed under walkable steps, so every square reachable from the root
      has a parent. */
  method BreadthFirstSearch(g: Grid, root: nat) returns (parents: seq<Option<nat>>, ghost depth: seq<nat>, ghost found: Option<nat>)
    requires Valid(g) && root < |g.vertices|
    ensures |parents| == |g.vertices| && |depth| == |g.vertices|
    ensures parents[root] == None && depth[root] == 0
    ensures forall y :: 0 <= y < |parents| && parents[y].Some? ==> ParentEdge(g, parents, depth, y)
    ensures found.Some? ==>
              found.value < |g.vertices| && GetI(g, found.value) == 0 &&
              (found.value == root || parents[found.value].Some?)
    ensures found.None? ==>
              forall v :: 0 <= v < |g.vertices| && (v == root || parents[v].Some?) ==>
                forall w :: w in AsVec(NeighboursI(g, v)) ==> w == root || parents[w].Some?
  {
    var n := |g.vertices|;
    var discovered := seq(n, _ => false);
    var processed := seq(n, _ => false);
    parents := seq(n, _ => None);
    depth := seq(n, _ => 0);
    found := None;
    var queue: seq<nat> := [root];
    discovered := discovered[root := true];
    while queue != []
      invariant Tree(g, root, discovered, parents, depth) && Queued(queue, discovered)
      invariant Reached(root, discovered, parents)
      invariant |processed| == n
      invariant forall x :: 0 <= x < n && processed[x] ==> Expanded(g, discovered, x)
      invariant forall x :: 0 <= x < n && discovered[x] ==> processed[x] || x in queue
      decreases CountFalse(discovered) + |queue|
    {
      var v := queue[0];
      ghost var old_queue := queue;
      queue := queue[1..];
      if GetI(g, v) == 0 {
        found := Some(v);
        return;
      }
      ghost var old_discovered, old_processed := discovered, processed;
      processed := processed[v := true];
      discovered, parents, depth, queue := Discover(g, root, v, discovered, parents, depth, queue);
      ProcessedKeeps(g, v, old_processed, old_discovered, old_queue, discovered, queue);
    }
    forall v | 0 <= v < n && (v == root || parents[v].Some?)
      ensures forall w :: w in AsVec(NeighboursI(g, v)) ==> w == root || parents[w].Some?
    {
      assert Expanded(g, discovered, v);
    }
  }
}
