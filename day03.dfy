/** Rucksack reorganisation: item priorities and the items two halves, or a group
    of rucksacks, have in common (src/day03.rs). Bytes are modelled as `char`,
    which agrees with the source on ASCII text. */
module Day03 {
  import opened Prelude

  /** `priority`: a..z are 1..26, A..Z are 27..52; any other byte panics (`None`). */
  function Priority(c: char): (p: Option<nat>)
    ensures 'a' <= c <= 'z' ==> p.Some? && 1 <= p.value <= 26
    ensures 'A' <= c <= 'Z' ==> p.Some? && 27 <= p.value <= 52
    ensures p.None? <==> !('a' <= c <= 'z' || 'A' <= c <= 'Z')
  {
    if 'A' <= c <= 'Z' then Some((c as int) - ('A' as int - 1) + 26)
    else if 'a' <= c <= 'z' then Some((c as int) - ('a' as int - 1))
    else None
  }

  /** The item of a priority: the inverse of `Priority`. */
  function ItemOf(p: nat): (c: char)
    requires 1 <= p <= 52
  {
    if p <= 26 then (('a' as int) + p - 1) as char else (('A' as int) + p - 27) as char
  }

  /** Priorities name items one to one: `Priority` and `ItemOf` are inverse. */
  lemma PriorityRoundTrip(c: char, p: nat)
    ensures Priority(c) == Some(p) <==> 1 <= p <= 52 && ItemOf(p) == c
  {
  }

  predicate IsItem(c: char) { 'a' <= c <= 'z' || 'A' <= c <= 'Z' }

  /** The priority of a letter, 0 for the bytes on which `priority` panics. */
  function PriorityOr0(c: char): (p: int)
    ensures 0 <= p <= 52
  {
    match Priority(c) case Some(p) => p case None => 0
  }

  function CharsOf(s: string): set<char> { set i | 0 <= i < |s| :: s[i] }

  /** What silver adds for one line: the priorities of the distinct items the two
      halves share, `None` when one of them is not a letter. */
  ghost function LineScore(line: string): Option<nat>
  {
    var common := CharsOf(line[..|line| / 2]) * CharsOf(line[|line| / 2..]);
    if forall c :: c in common ==> IsItem(c) then
      SetSumBounds(common, PriorityOr0, 0, 52);
      Some(SetSum(common, PriorityOr0) as nat)
    else None
  }

  ghost function SilverTotal(lines: seq<string>): Option<nat>
  {
    if lines == [] then Some(0)
    else
      match (SilverTotal(lines[..|lines| - 1]), LineScore(lines[|lines| - 1]))
      case (Some(t), Some(s)) => Some(t + s)
      case _ => None
  }

  lemma {:induction false} SilverTotalFailurePersists(lines: seq<string>, i: nat)
    requires i <= |lines| && SilverTotal(lines[..i]).None?
    ensures SilverTotal(lines).None?
    decreases |lines| - i
  {
    if i < |lines| {
      assert lines[..i + 1][..i] == lines[..i];
      SilverTotalFailurePersists(lines, i + 1);
    } else {
      assert lines[..i] == lines;
    }
  }

  /** `for_each(|c| set.insert(*c))` over a byte slice. */
  method InsertAll(s: string) returns (items: set<char>)
    ensures items == CharsOf(s)
  {
    items := {};
    for i := 0 to |s|
      invariant items == CharsOf(s[..i])
    {
      assert CharsOf(s[..i + 1]) == CharsOf(s[..i]) + {s[i]} by {
        assert s[..i + 1] == s[..i] + [s[i]];
      }
      items := items + {s[i]};
    }
    assert s[..|s|] == s;
  }

  /** The fold of `priority` over an intersection, in the set's order. */
  method SumPriorities(common: set<char>) returns (sum: Option<nat>)
    ensures sum.Some? <==> forall c :: c in common ==> IsItem(c)
    ensures sum.Some? ==> sum.value == SetSum(common, PriorityOr0)
  {
    var total := 0;
    var rest := common;
    while rest != {}
      invariant rest <= common
      invariant forall c :: c in common - rest ==> IsItem(c)
      invariant total + SetSum(rest, PriorityOr0) == SetSum(common, PriorityOr0)
      decreases rest
    {
      var c :| c in rest;
      SetSumRemove(rest, PriorityOr0, c);
      match Priority(c)
      case None => return None;
      case Some(p) =>
        assert PriorityOr0(c) == p;
        total := total + p;
        rest := rest - {c};
    }
    return Some(total);
  }

  /** The silver loop: split each line in halves, add up the shared items. */
  method Silver(lines: seq<string>) returns (total: Option<nat>)
    ensures total == SilverTotal(lines)
  {
    var totalSum := 0;
    for i := 0 to |lines|
      invariant SilverTotal(lines[..i]) == Some(totalSum)
    {
      assert lines[..i + 1][..i] == lines[..i];
      var line := lines[i];
      var len := |line|;
      var firstSet := InsertAll(line[..len / 2]);
      var secondSet := InsertAll(line[len / 2..]);
      var s := SumPriorities(firstSet * secondSet);
      if s.None? {
        SilverTotalFailurePersists(lines, i + 1);
        return None;
      }
      totalSum := totalSum + s.value;
    }
    assert lines[..|lines|] == lines;
    return Some(totalSum);
  }

  /** The items every one of the `n` rucksacks of a group holds; a group shorter
      than `n` (the last chunk of `chunks(n)`) leaves the missing sets empty. */
  function Common(group: seq<string>, n: nat): set<char>
    requires n >= 1
  {
    if |group| < n then {}
    else set c | c in CharsOf(group[0]) && forall i :: 0 <= i < n ==> c in CharsOf(group[i])
  }

  /** The badge of a group: the smallest common byte (a `BTreeSet` iterates in
      order), or `None` when nothing is common (the source's `unwrap` panics). */
  ghost predicate IsBadge(group: seq<string>, n: nat, b: char)
    requires n >= 1
  {
    b in Common(group, n) && forall c :: c in Common(group, n) ==> b <= c
  }

  /** One chunk of gold: fill `sets[i]` from line `i`, intersect them all, take
      the first element, then clear the sets. */
  method GroupBadge(sets: array<set<char>>, group: seq<string>) returns (badge: Option<char>)
    requires sets.Length >= 1 && |group| <= sets.Length
    requires forall i :: 0 <= i < sets.Length ==> sets[i] == {}
    modifies sets
    ensures forall i :: 0 <= i < sets.Length ==> sets[i] == {}
    ensures badge.None? <==> Common(group, sets.Length) == {}
    ensures badge.Some? ==> IsBadge(group, sets.Length, badge.value)
  {
    var n := sets.Length;
    for i := 0 to |group|
      invariant forall j :: 0 <= j < i ==> sets[j] == CharsOf(group[j])
      invariant forall j :: i <= j < n ==> sets[j] == {}
    {
      var s := InsertAll(group[i]);
      sets[i] := s;
    }
    var acc := sets[0];
    for i := 1 to n
      invariant acc == set c | c in sets[0] && forall j :: 0 <= j < i ==> c in sets[j]
    {
      acc := acc * sets[i];
    }
    if |group| < n {
      assert sets[n - 1] == {};
      assert acc == {};
    } else {
      assert acc == Common(group, n);
    }
    if acc == {} {
      badge := None;
    } else {
      var b := SmallestOf(acc);
      badge := Some(b);
    }
    for i := 0 to n
      invariant forall j :: 0 <= j < i ==> sets[j] == {}
    {
      sets[i] := {};
    }
  }

  /** The least element of a non-empty set of bytes. */
  ghost function Least(s: set<char>): (m: char)
    requires s != {}
    ensures m in s && forall c :: c in s ==> m <= c
    decreases s
  {
    var x := Pick(s);
    if s == {x} then x
    else
      var m := Least(s - {x});
      assert forall c :: c in s ==> c == x || c in s - {x};
      if x < m then x else m
  }

  /** `badge.iter().next()`: the least element of a non-empty set. */
  method SmallestOf(s: set<char>) returns (m: char)
    requires s != {}
    ensures m in s && forall c :: c in s ==> m <= c
  {
    m :| m in s;
    var rest := s - {m};
    while rest != {}
      invariant rest <= s && m in s
      invariant forall c :: c in s && c !in rest ==> m <= c
      decreases rest
    {
      var c :| c in rest;
      if c < m {
        m := c;
      }
      rest := rest - {c};
    }
  }

  /** What one chunk adds in gold: the priority of its badge; `None` when it has
      no badge or the badge is not a letter (both panic). */
  ghost function BadgePriority(chunk: seq<string>, n: nat): Option<nat>
    requires n >= 1
  {
    var common := Common(chunk, n);
    if common == {} then None else Priority(Least(common))
  }

  /** The gold total over the chunks of `n` lines from line `start` on; `None`
      when a chunk panics. */
  ghost function GoldTotal(lines: seq<string>, n: nat, start: nat): Option<nat>
    requires n >= 1 && start <= |lines|
    decreases |lines| - start
  {
    if start == |lines| then Some(0)
    else
      var end := if |lines| - start < n then |lines| else start + n;
      match (BadgePriority(lines[start..end], n), GoldTotal(lines, n, end))
      case (Some(p), Some(t)) => Some(p + t)
      case _ => None
  }

  function AddTo(t: nat, rest: Option<nat>): Option<nat>
  {
    match rest case Some(r) => Some(t + r) case None => None
  }

  /** The body of the gold loop for one chunk: its badge's priority. */
  method ChunkPriority(sets: array<set<char>>, chunk: seq<string>) returns (p: Option<nat>)
    requires sets.Length >= 1 && |chunk| <= sets.Length
    requires forall i :: 0 <= i < sets.Length ==> sets[i] == {}
    modifies sets
    ensures forall i :: 0 <= i < sets.Length ==> sets[i] == {}
    ensures p == BadgePriority(chunk, sets.Length)
  {
    var badge := GroupBadge(sets, chunk);
    p := if badge.None? then None else Priority(badge.value);
    if badge.Some? {
      assert badge.value == Least(Common(chunk, sets.Length));
    }
  }

  /** The gold loop: one `sets` array of `n` sets, filled and cleared per chunk. */
  method Gold(lines: seq<string>, n: nat) returns (total: Option<nat>)
    requires n >= 1
    ensures total == GoldTotal(lines, n, 0)
  {
    var sets := new set<char>[n](_ => {});
    var totalSum: nat := 0;
    var start := 0;
    while start < |lines|
      invariant 0 <= start <= |lines| && sets.Length == n
      invariant forall i :: 0 <= i < n ==> sets[i] == {}
      invariant AddTo(totalSum, GoldTotal(lines, n, start)) == GoldTotal(lines, n, 0)
      decreases |lines| - start
    {
      var end := if |lines| - start < n then |lines| else start + n;
      var p := ChunkPriority(sets, lines[start..end]);
      if p.None? {
        return None;
      }
      totalSum := totalSum + p.value;
      start := end;
    }
    return Some(totalSum);
  }
}
