/** Distress signal: packets are nested lists of numbers, ordered by a
    recursive three-valued comparison (src/day13.rs). */
module Day13 {
  import opened Prelude

  /** A packet value: the JSON numbers and arrays the input holds. */
  datatype Packet = Num(n: nat) | List(items: seq<Packet>)

  function Size(p: Packet): (s: nat)
    ensures s >= 1
  {
    match p
    case Num(_) => 1
    case List(xs) => 1 + SumSizes(xs)
  }

  function SumSizes(xs: seq<Packet>): (s: nat)
    ensures forall i :: 0 <= i < |xs| ==> Size(xs[i]) <= s
  {
    if xs == [] then 0 else Size(xs[0]) + SumSizes(xs[1..])
  }

  lemma SizeWrapped(p: Packet)
    ensures Size(List([p])) == 1 + Size(p)
  {
    assert [p][1..] == [];
    assert SumSizes([p]) == Size(p) + SumSizes([]);
  }

  /** 1 when exactly one side is a number: the case that wraps the number. */
  function Mixed(a: Packet, b: Packet): nat
  {
    if a.Num? != b.Num? then 1 else 0
  }

  /** Whether lists of these lengths are in order once every zipped pair
      ties: the shorter left list is in order. */
  function LengthOrder(l: nat, r: nat): Option<bool>
  {
    if l > r then Some(false) else if l < r then Some(true) else None
  }

  /** The order of two packets: `Some(true)` in order, `Some(false)` out of
      order, `None` undecided. A number compared with a list is wrapped in a
      one-element list. */
  function Order(a: Packet, b: Packet): Option<bool>
    decreases Size(a) + Size(b) + Mixed(a, b), 1 + Mixed(a, b)
  {
    match (a, b)
    case (Num(l), Num(r)) => if l < r then Some(true) else if l > r then Some(false) else None
    case (List(ls), List(rs)) => OrderLists(ls, rs)
    case (List(_), Num(_)) => SizeWrapped(b); Order(a, List([b]))
    case (Num(_), List(_)) => SizeWrapped(a); Order(List([a]), b)
  }

  /** Two lists decided by their first decided pair, else by length. */
  function OrderLists(ls: seq<Packet>, rs: seq<Packet>): Option<bool>
    decreases SumSizes(ls) + SumSizes(rs) + 1, 3
  {
    if ls == [] || rs == [] then LengthOrder(|ls|, |rs|)
    else
      match Order(ls[0], rs[0])
      case Some(d) => Some(d)
      case None => OrderLists(ls[1..], rs[1..])
  }

  function Flip(o: Option<bool>): Option<bool>
  {
    match o
    case Some(d) => Some(!d)
    case None => None
  }

  /** `compare_recursive`, with its loop over the zipped lists. */
  method CompareRecursive(left: Packet, right: Packet) returns (res: Option<bool>)
    ensures res == Order(left, right)
    decreases Size(left) + Size(right) + Mixed(left, right), 1 + Mixed(left, right)
  {
    match (left, right)
    case (Num(l), Num(r)) =>
      if l < r {
        return Some(true);
      } else if l > r {
        return Some(false);
      } else {
        return None;
      }
    case (List(l), List(r)) =>
      var n := if |l| < |r| then |l| else |r|;
      for i := 0 to n
        invariant OrderLists(l, r) == OrderLists(l[i..], r[i..])
      {
        res := CompareRecursive(l[i], r[i]);
        if res.Some? {
          return res;
        }
        assert l[i..][1..] == l[i + 1..] && r[i..][1..] == r[i + 1..];
      }
      if |l| > |r| {
        return Some(false);
      } else if |l| < |r| {
        return Some(true);
      } else {
        return None;
      }
    case (List(_), Num(r)) =>
      SizeWrapped(right);
      res := CompareRecursive(left, List([Num(r)]));
    case (Num(l), List(_)) =>
      SizeWrapped(left);
      res := CompareRecursive(List([Num(l)]), right);
  }

  /** A list comparison is settled by the first zipped pair that is decided;
      when none is, by the lengths. */
  lemma {:induction false} OrderListsFirstDecided(ls: seq<Packet>, rs: seq<Packet>, k: nat)
    requires k <= |ls| && k <= |rs|
    requires forall j :: 0 <= j < k ==> Order(ls[j], rs[j]).None?
    ensures k < |ls| && k < |rs| && Order(ls[k], rs[k]).Some? ==> OrderLists(ls, rs) == Order(ls[k], rs[k])
    ensures k == |ls| || k == |rs| ==> OrderLists(ls, rs) == LengthOrder(|ls|, |rs|)
  {
    if k > 0 {
      assert Order(ls[0], rs[0]).None?;
      OrderListsFirstDecided(ls[1..], rs[1..], k - 1);
    }
  }

  /** No packet is ordered against itself. */
  lemma {:induction false} OrderReflexive(a: Packet)
    ensures Order(a, a).None?
    decreases Size(a) + Size(a), 1
  {
    if a.List? {
      OrderListsReflexive(a.items);
    }
  }

  lemma {:induction false} OrderListsReflexive(xs: seq<Packet>)
    ensures OrderLists(xs, xs).None?
    decreases SumSizes(xs) + SumSizes(xs) + 1, 3
  {
    if xs != [] {
      OrderReflexive(xs[0]);
      OrderListsReflexive(xs[1..]);
    }
  }

  /** Swapping the packets swaps in order and out of order, and keeps an
      undecided pair undecided. */
  lemma {:induction false} OrderAntisymmetric(a: Packet, b: Packet)
    ensures Order(b, a) == Flip(Order(a, b))
    decreases Size(a) + Size(b) + Mixed(a, b), 1 + Mixed(a, b)
  {
    match (a, b)
    case (Num(_), Num(_)) =>
    case (List(ls), List(rs)) => OrderListsAntisymmetric(ls, rs);
    case (List(_), Num(_)) => SizeWrapped(b); OrderAntisymmetric(a, List([b]));
    case (Num(_), List(_)) => SizeWrapped(a); OrderAntisymmetric(List([a]), b);
  }

  lemma {:induction false} OrderListsAntisymmetric(ls: seq<Packet>, rs: seq<Packet>)
    ensures OrderLists(rs, ls) == Flip(OrderLists(ls, rs))
    decreases SumSizes(ls) + SumSizes(rs) + 1, 3
  {
    if ls != [] && rs != [] {
      OrderAntisymmetric(ls[0], rs[0]);
      OrderListsAntisymmetric(ls[1..], rs[1..]);
    }
  }

  datatype Ordering = Less | Equal | Greater

  /** The comparator handed to the sort in `gold`. */
  function Comparator(a: Packet, b: Packet): (o: Ordering)
    ensures o == Less <==> Order(a, b) == Some(true)
    ensures o == Greater <==> Order(a, b) == Some(false)
  {
    match Order(a, b)
    case Some(false) => Greater
    case Some(true) => Less
    case None => Equal
  }

  function Reversed(o: Ordering): Ordering
  {
    match o
    case Less => Greater
    case Equal => Equal
    case Greater => Less
  }

  /** The comparator is antisymmetric and calls every packet equal to itself,
      as a sort comparator must. */
  lemma ComparatorAntisymmetric(a: Packet, b: Packet)
    ensures Comparator(b, a) == Reversed(Comparator(a, b))
    ensures Comparator(a, a) == Equal
  {
    OrderAntisymmetric(a, b);
    OrderReflexive(a);
  }

  /** The 1-based indices of the pairs with `pick`'s verdict, summed. */
  function IndexSum(pairs: seq<(Packet, Packet)>, pick: Option<bool>): nat
  {
    if pairs == [] then 0
    else IndexSum(pairs[..|pairs| - 1], pick) + (if Order(pairs[|pairs| - 1].0, pairs[|pairs| - 1].1) == pick then |pairs| else 0)
  }

  /** `silver`: the sum of the 1-based indices of the pairs in order. */
  method Silver(pairs: seq<(Packet, Packet)>) returns (count: nat)
    ensures count == IndexSum(pairs, Some(true))
  {
    count := 0;
    var pairIndex := 0;
    for i := 0 to |pairs|
      invariant pairIndex == i
      invariant count == IndexSum(pairs[..i], Some(true))
    {
      pairIndex := pairIndex + 1;
      assert pairs[..i + 1][..i] == pairs[..i];
      var inOrder := CompareRecursive(pairs[i].0, pairs[i].1);
      if inOrder == Some(true) {
        count := count + pairIndex;
      }
    }
    assert pairs[..|pairs|] == pairs;
  }

  function Swapped(pairs: seq<(Packet, Packet)>): (r: seq<(Packet, Packet)>)
    ensures |r| == |pairs|
    ensures forall i :: 0 <= i < |pairs| ==> r[i] == (pairs[i].1, pairs[i].0)
  {
    seq(|pairs|, i requires 0 <= i < |pairs| => (pairs[i].1, pairs[i].0))
  }

  /** Each index is in order one way round, out of order the other way round,
      or undecided both ways: the silver sums of the pairs and of the swapped
      pairs add up, with the undecided ones, to `1 + 2 + … + n`. */
  lemma {:induction false} SilverSwapped(pairs: seq<(Packet, Packet)>)
    ensures IndexSum(pairs, Some(true)) + IndexSum(Swapped(pairs), Some(true)) + IndexSum(pairs, None)
            == |pairs| * (|pairs| + 1) / 2
  {
    if pairs != [] {
      var n := |pairs|;
      var init := pairs[..n - 1];
      SilverSwapped(init);
      var sw := Swapped(pairs);
      assert sw[..n - 1] == Swapped(init);
      assert sw[n - 1] == (pairs[n - 1].1, pairs[n - 1].0);
      OrderAntisymmetric(pairs[n - 1].0, pairs[n - 1].1);
      assert IndexSum(sw, Some(true)) == IndexSum(Swapped(init), Some(true)) +
        (if Order(pairs[n - 1].1, pairs[n - 1].0) == Some(true) then n else 0);
      Triangle(n);
    }
  }

  lemma Triangle(n: nat)
    requires n >= 1
    ensures n * (n + 1) / 2 == (n - 1) * n / 2 + n
  {
    assert n * (n + 1) == (n - 1) * n + 2 * n;
  }

  /** The divider packets `[[2]]` and `[[6]]`. */
  function Divider(k: nat): Packet
  {
    List([List([Num(k)])])
  }

  /** Where a sort by the comparator puts `d`: 1 plus the number of packets
      that order strictly before it. */
  function Rank(packets: seq<Packet>, d: Packet): (r: nat)
    ensures 1 <= r <= |packets| + 1
  {
    if packets == [] then 1
    else Rank(packets[..|packets| - 1], d) + (if Order(packets[|packets| - 1], d) == Some(true) then 1 else 0)
  }

  /** `gold`: the product of the positions of the two dividers once they are
      added to the packets and all are sorted. */
  function Gold(packets: seq<Packet>): (key: nat)
    ensures key >= 2
  {
    var all := packets + [Divider(2), Divider(6)];
    DividersInOrder();
    RankCounts(all, Divider(6), |packets|);
    Rank(all, Divider(2)) * Rank(all, Divider(6))
  }

  /** `[[2]]` sorts before `[[6]]`. */
  lemma DividersInOrder()
    ensures Order(Divider(2), Divider(6)) == Some(true)
    ensures Order(Divider(6), Divider(2)) == Some(false)
  {
    var l2, l6 := List([Num(2)]), List([Num(6)]);
    assert [l2][1..] == [] && [l6][1..] == [];
    assert [Num(2)][1..] == [] && [Num(6)][1..] == [];
    assert Order(l2, l6) == OrderLists([Num(2)], [Num(6)]) == Some(true);
    assert Order(l6, l2) == OrderLists([Num(6)], [Num(2)]) == Some(false);
  }

  /** A packet in order before `d` raises `d`'s rank. */
  lemma {:induction false} RankCounts(packets: seq<Packet>, d: Packet, i: nat)
    requires i < |packets| && Order(packets[i], d) == Some(true)
    ensures Rank(packets, d) >= 2
  {
    var n := |packets|;
    if i < n - 1 {
      RankCounts(packets[..n - 1], d, i);
    }
  }
}
