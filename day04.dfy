/** Camp cleanup: pairs of section ranges, counted when one contains the other
    (silver) or when they share a section (gold) (src/day04.rs). */
module Day04 {
  import opened Prelude
  import Text

  /** A `Range<i32>` whose `end` the puzzle reads as inclusive. */
  datatype Range = Range(start: int, end: int)

  predicate Contains(r: Range, x: int) { r.start <= x <= r.end }

  /** A range as the puzzle writes it, first section no later than the last. */
  predicate WellFormed(r: Range) { r.start <= r.end }

  /** `is_disjoint`: one range ends before the other starts. For well-formed
      ranges this holds exactly when no section lies in both. */
  function IsDisjoint(a: Range, b: Range): (r: bool)
    ensures WellFormed(a) && WellFormed(b) ==>
              (r <==> forall x :: !(Contains(a, x) && Contains(b, x)))
  {
    var r := if a.end < b.start then true else if b.end < a.start then true else false;
    assert WellFormed(a) && WellFormed(b) && !r ==> Contains(a, Max(a.start, b.start)) && Contains(b, Max(a.start, b.start));
    r
  }

  /** `overlaps_fully`: one range lies inside the other. For well-formed ranges
      this holds exactly when every section of one is a section of the other. */
  function OverlapsFully(a: Range, b: Range): (r: bool)
    ensures WellFormed(a) && WellFormed(b) ==>
              (r <==> (forall x :: Contains(b, x) ==> Contains(a, x)) ||
                      (forall x :: Contains(a, x) ==> Contains(b, x)))
  {
    var r := if b.start >= a.start && b.end <= a.end then true
             else if a.start >= b.start && a.end <= b.end then true
             else false;
    assert WellFormed(a) && WellFormed(b) && !r ==>
             (!Contains(a, b.start) || !Contains(a, b.end)) &&
             (!Contains(b, a.start) || !Contains(b, a.end));
    r
  }

  lemma IsDisjointSymmetric(a: Range, b: Range)
    ensures IsDisjoint(a, b) == IsDisjoint(b, a)
  {
  }

  lemma OverlapsFullySymmetric(a: Range, b: Range)
    ensures OverlapsFully(a, b) == OverlapsFully(b, a)
  {
  }

  /** A range that holds the other shares its sections with it, for well-formed
      ranges only: `5-3` fully overlaps `4-4` yet is disjoint from it. */
  lemma OverlapsFullyNotDisjoint(a: Range, b: Range)
    requires WellFormed(a) && WellFormed(b) && OverlapsFully(a, b)
    ensures !IsDisjoint(a, b)
  {
    if (forall x :: Contains(b, x) ==> Contains(a, x)) {
      assert Contains(a, b.start) && Contains(b, b.start);
    } else {
      assert Contains(a, a.start) && Contains(b, a.start);
    }
  }

  lemma IllFormedOverlapsAndIsDisjoint()
    ensures OverlapsFully(Range(5, 3), Range(4, 4)) && IsDisjoint(Range(5, 3), Range(4, 4))
  {
  }

  /** `into_range("a-b")`: the range from `a` to `b`; `None` where the source's
      `unwrap`s panic. */
  function IntoRange(s: string): Option<Range>
  {
    match Text.SplitOnce(s, '-')
    case None => None
    case Some((a, b)) =>
      match (Text.ParseI32(a), Text.ParseI32(b))
      case (Some(x), Some(y)) => Some(Range(x, y))
      case _ => None
  }

  /** Printing a range as `a-b` and reading it back gives the same range, when
      `a` is not negative (a leading `-` would be taken as the separator). */
  lemma IntoRangeRoundTrip(a: int, b: int)
    requires 0 <= a < 0x8000_0000 && -0x8000_0000 <= b < 0x8000_0000
    ensures IntoRange(Text.IntToString(a) + "-" + Text.IntToString(b)) == Some(Range(a, b))
  {
    var sa, sb := Text.IntToString(a), Text.IntToString(b);
    assert '-' !in sa by {
      assert Text.AllDigits(sa);
    }
    Text.SplitOnceAt(sa, '-', sb);
    Text.ParseSignedRoundTrip(a);
    Text.ParseSignedRoundTrip(b);
  }

  /** A leading minus sign on the first bound makes the line fail to parse. */
  lemma NegativeStartDoesNotParse(b: string)
    ensures IntoRange("-1-" + b).None?
  {
    Text.SplitOnceAt([], '-', "1-" + b);
    assert "-1-" + b == [] + ['-'] + ("1-" + b);
  }

  /** One input line `a-b,c-d` as a pair of ranges. */
  function ParsePair(line: string): Option<(Range, Range)>
  {
    match Text.SplitOnce(line, ',')
    case None => None
    case Some((l, r)) =>
      match (IntoRange(l), IntoRange(r))
      case (Some(a), Some(b)) => Some((a, b))
      case _ => None
  }

  /** The count over the first `k` lines of the pairs that satisfy `test`;
      `None` once one of those lines does not parse. */
  function CountPairs(lines: seq<string>, test: (Range, Range) -> bool, k: nat): Option<nat>
    requires k <= |lines|
  {
    if k == 0 then Some(0)
    else Tally(CountPairs(lines, test, k - 1), ParsePair(lines[k - 1]), test)
  }

  /** One more line on top of the count so far: one more for a pair passing
      `test`; `None` once a line fails to parse. */
  function Tally(count: Option<nat>, pair: Option<(Range, Range)>, test: (Range, Range) -> bool): Option<nat>
  {
    match (count, pair)
    case (Some(n), Some(p)) => Some(if test(p.0, p.1) then n + 1 else n)
    case _ => None
  }

  function FullyOverlapping(a: Range, b: Range): bool { OverlapsFully(a, b) }

  function Overlapping(a: Range, b: Range): bool { !IsDisjoint(a, b) }

  /** Every range on every line is well-formed. */
  predicate AllWellFormed(lines: seq<string>)
  {
    forall i :: 0 <= i < |lines| && ParsePair(lines[i]).Some? ==>
      WellFormed(ParsePair(lines[i]).value.0) && WellFormed(ParsePair(lines[i]).value.1)
  }

  /** On well-formed input, gold counts at least as many pairs as silver. */
  lemma {:induction false} GoldCountsAtLeastSilver(lines: seq<string>, k: nat)
    requires k <= |lines| && AllWellFormed(lines)
    ensures CountPairs(lines, FullyOverlapping, k).Some? <==> CountPairs(lines, Overlapping, k).Some?
    ensures CountPairs(lines, FullyOverlapping, k).Some? ==>
              CountPairs(lines, FullyOverlapping, k).value <= CountPairs(lines, Overlapping, k).value
  {
    if k > 0 {
      GoldCountsAtLeastSilver(lines, k - 1);
      var p := ParsePair(lines[k - 1]);
      if p.Some? && OverlapsFully(p.value.0, p.value.1) {
        OverlapsFullyNotDisjoint(p.value.0, p.value.1);
      }
    }
  }

  /** The counting loop shared by `silver` and `gold`, which differ only in the
      test applied to each pair. */
  method Count(lines: seq<string>, test: (Range, Range) -> bool) returns (count: Option<nat>)
    ensures count == CountPairs(lines, test, |lines|)
  {
    var n: nat := 0;
    for i := 0 to |lines|
      invariant CountPairs(lines, test, i) == Some(n)
    {
      var pair := ParsePair(lines[i]);
      CountStep(lines, test, i + 1);
      if pair.None? {
        CountFailurePersists(lines, test, i + 1);
        return None;
      }
      var p := pair.value;
      assert CountPairs(lines, test, i + 1) == Some(if test(p.0, p.1) then n + 1 else n);
      if test(p.0, p.1) {
        n := n + 1;
      }
    }
    return Some(n);
  }

  /** The count moves on by one line: by one for a pair passing `test`. */
  lemma CountStep(lines: seq<string>, test: (Range, Range) -> bool, k: nat)
    requires 0 < k <= |lines|
    ensures CountPairs(lines, test, k) == Tally(CountPairs(lines, test, k - 1), ParsePair(lines[k - 1]), test)
  {
  }

  lemma {:induction false} CountFailurePersists(lines: seq<string>, test: (Range, Range) -> bool, i: nat)
    requires i <= |lines| && CountPairs(lines, test, i).None?
    ensures CountPairs(lines, test, |lines|).None?
    decreases |lines| - i
  {
    if i < |lines| {
      CountFailurePersists(lines, test, i + 1);
    }
  }

  method Silver(lines: seq<string>) returns (count: Option<nat>)
    ensures count == CountPairs(lines, FullyOverlapping, |lines|)
  {
    count := Count(lines, FullyOverlapping);
  }

  method Gold(lines: seq<string>) returns (count: Option<nat>)
    ensures count == CountPairs(lines, Overlapping, |lines|)
  {
    count := Count(lines, Overlapping);
  }
}
