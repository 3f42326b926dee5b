/** Calorie counting: groups of number lines separated by blank lines
    (src/day01.rs). */
module Day01 {
  import opened Prelude
  import Text

  /** What the line loop knows after `lines`: the sums of the groups closed by a
      blank line, in order, and the running sum of the group still open.
      `None` once a line is neither blank nor a number (the source panics). */
  function Scan(lines: seq<string>): Option<(seq<int>, int)>
  {
    if lines == [] then Some(([], 0))
    else
      match Scan(lines[..|lines| - 1])
      case None => None
      case Some(st) =>
        var line := lines[|lines| - 1];
        if line == [] then Some((st.0 + [st.1], 0))
        else
          match Text.ParseI32(line)
          case None => None
          case Some(v) => Some((st.0, st.1 + v))
  }

  /** Once a line panics, the whole input does. */
  lemma {:induction false} ScanFailurePersists(lines: seq<string>, i: nat)
    requires i <= |lines| && Scan(lines[..i]).None?
    ensures Scan(lines).None?
    decreases |lines| - i
  {
    if i < |lines| {
      assert lines[..i + 1][..i] == lines[..i];
      ScanFailurePersists(lines, i + 1);
    } else {
      assert lines[..i] == lines;
    }
  }

  /** `m` is what `max_sum` ends with: the largest closed group, or 0. */
  ghost predicate IsMaxOrZero(m: int, groups: seq<int>)
  {
    m >= 0 && (forall g :: g in groups ==> g <= m) && (m == 0 || m in groups)
  }

  /** The silver loop: the largest sum among the groups closed by a blank line. */
  method Silver(lines: seq<string>) returns (answer: Option<int>)
    ensures answer.None? <==> Scan(lines).None?
    ensures answer.Some? ==> IsMaxOrZero(answer.value, Scan(lines).value.0)
  {
    var currentSum := 0;
    var maxSum := 0;
    ghost var closed: seq<int> := [];
    var i := 0;
    while i < |lines|
      invariant 0 <= i <= |lines|
      invariant Scan(lines[..i]) == Some((closed, currentSum))
      invariant IsMaxOrZero(maxSum, closed)
    {
      assert lines[..i + 1][..i] == lines[..i];
      var line := lines[i];
      if line == [] {
        if currentSum > maxSum {
          maxSum := currentSum;
        }
        closed := closed + [currentSum];
        currentSum := 0;
      } else {
        match Text.ParseI32(line)
        case None =>
          ScanFailurePersists(lines, i + 1);
          return None;
        case Some(calories) =>
          currentSum := currentSum + calories;
      }
      i := i + 1;
    }
    assert lines[..i] == lines;
    return Some(maxSum);
  }

  /** `a >= b >= c` are three members of `all` and nothing else in `all` beats `c`. */
  ghost predicate TopThree(all: multiset<int>, a: int, b: int, c: int)
  {
    multiset{a, b, c} <= all && a >= b >= c && forall y :: y in all - multiset{a, b, c} ==> y <= c
  }

  /** `s` is the sum of three top members of `all`. */
  ghost predicate IsTopThreeSum(all: multiset<int>, s: int)
  {
    exists a, b, c :: TopThree(all, a, b, c) && s == a + b + c
  }

  lemma {:induction false} MultisetHasMax(m: multiset<int>)
    requires m != multiset{}
    ensures exists x :: x in m && forall y :: y in m ==> y <= x
    decreases |m|
  {
    assert (forall y :: y !in m) ==> m == multiset{};
    var x :| x in m;
    var rest := m - multiset{x};
    if rest == multiset{} {
      assert m == multiset{x};
    } else {
      MultisetHasMax(rest);
      var z :| z in rest && forall y :: y in rest ==> y <= z;
      MaxAfterAdding(m, x, rest, z);
    }
  }

  lemma MaxAfterAdding(m: multiset<int>, x: int, rest: multiset<int>, z: int)
    requires x in m && rest == m - multiset{x} && z in rest
    requires forall y :: y in rest ==> y <= z
    ensures Max(x, z) in m && forall y :: y in m ==> y <= Max(x, z)
  {
    forall y | y in m ensures y <= Max(x, z) {
      if y != x { assert rest[y] == m[y]; }
    }
  }

  /** No member of `m` is above `x`. */
  ghost predicate Bounds(m: multiset<int>, x: int)
  {
    forall y :: y in m ==> y <= x
  }

  /** `top` is a largest member of `heap` and `rest` is what is left. */
  ghost predicate Popped(heap: multiset<int>, top: int, rest: multiset<int>)
  {
    top in heap && Bounds(heap, top) && rest == heap - multiset{top}
  }

  /** `BinaryHeap::pop`: the largest element, or `None` on an empty heap. */
  method PopMax(heap: multiset<int>) returns (top: Option<int>, rest: multiset<int>)
    ensures top.None? <==> heap == multiset{}
    ensures top.None? ==> rest == heap
    ensures top.Some? ==> Popped(heap, top.value, rest)
  {
    if heap == multiset{} {
      return None, heap;
    }
    MultisetHasMax(heap);
    var x :| x in heap && forall y :: y in heap ==> y <= x;
    return Some(x), heap - multiset{x};
  }

  /** The gold loop: push every closed group's sum, then pop three and add them. */
  method Gold(lines: seq<string>) returns (answer: Option<int>)
    ensures Scan(lines).None? ==> answer.None?
    ensures Scan(lines).Some? ==> (answer.Some? <==> |Scan(lines).value.0| >= 3)
    ensures answer.Some? ==> IsTopThreeSum(multiset(Scan(lines).value.0), answer.value)
  {
    var currentSum := 0;
    var allCalories: multiset<int> := multiset{};
    ghost var closed: seq<int> := [];
    var i := 0;
    while i < |lines|
      invariant 0 <= i <= |lines|
      invariant Scan(lines[..i]) == Some((closed, currentSum))
      invariant allCalories == multiset(closed)
    {
      assert lines[..i + 1][..i] == lines[..i];
      var line := lines[i];
      if line == [] {
        allCalories := allCalories + multiset{currentSum};
        closed := closed + [currentSum];
        currentSum := 0;
      } else {
        match Text.ParseI32(line)
        case None =>
          ScanFailurePersists(lines, i + 1);
          return None;
        case Some(calories) =>
          currentSum := currentSum + calories;
      }
      i := i + 1;
    }
    assert lines[..i] == lines;
    answer := SumTopThree(allCalories);
  }

  /** The three `pop().unwrap()` calls of gold, added up. */
  method SumTopThree(heap: multiset<int>) returns (answer: Option<int>)
    ensures answer.Some? <==> |heap| >= 3
    ensures answer.Some? ==> IsTopThreeSum(heap, answer.value)
  {
    var a, r1 := PopMax(heap);
    if a.None? { return None; }
    PoppedSize(heap, a.value, r1);
    var b, r2 := PopMax(r1);
    if b.None? { return None; }
    PoppedSize(r1, b.value, r2);
    var c, r3 := PopMax(r2);
    if c.None? { return None; }
    var x, y, z := a.value, b.value, c.value;
    ThreePopsAreTopThree(heap, x, r1, y, r2, z, r3);
    answer := Some(x + y + z);
  }

  /** A pop takes one member out. */
  lemma PoppedSize(heap: multiset<int>, top: int, rest: multiset<int>)
    requires Popped(heap, top, rest)
    ensures |rest| == |heap| - 1
  {
  }

  lemma ThreePopsAreTopThree(heap: multiset<int>, a: int, r1: multiset<int>, b: int, r2: multiset<int>, c: int, r3: multiset<int>)
    requires Popped(heap, a, r1) && Popped(r1, b, r2) && Popped(r2, c, r3)
    ensures TopThree(heap, a, b, c)
    ensures IsTopThreeSum(heap, a + b + c)
  {
    PopThree(heap, a, r1, b, r2, c);
  }

  /** Taking `a`, then `b`, then `c` out of `heap` takes out `{a, b, c}`. */
  lemma PopThree(heap: multiset<int>, a: int, r1: multiset<int>, b: int, r2: multiset<int>, c: int)
    requires a in heap && r1 == heap - multiset{a}
    requires b in r1 && r2 == r1 - multiset{b}
    requires c in r2
    ensures b in heap && c in r1
    ensures multiset{a, b, c} <= heap && heap - multiset{a, b, c} == r2 - multiset{c}
  {
    var r3 := r2 - multiset{c};
    AddBack(heap, a);
    AddBack(r1, b);
    AddBack(r2, c);
    UnionOfThree(r3, a, b, c);
    AddSub(r3, multiset{a, b, c});
  }

  lemma AddBack(m: multiset<int>, x: int)
    requires x in m
    ensures m == (m - multiset{x}) + multiset{x}
  {
  }

  lemma UnionOfThree(m: multiset<int>, a: int, b: int, c: int)
    ensures m + multiset{c} + multiset{b} + multiset{a} == m + multiset{a, b, c}
  {
    assert multiset{a, b, c} == multiset{c} + multiset{b} + multiset{a};
  }

  lemma AddSub(m: multiset<int>, n: multiset<int>)
    ensures n <= m + n && (m + n) - n == m
  {
  }
}
