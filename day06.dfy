/** Tuning trouble: the end of the first window of `n` pairwise distinct bytes
    (src/day06.rs). */
module Day06 {
  import opened Prelude

  type Byte = b: int | 0 <= b < 256

  /** No byte occurs twice in `w`. */
  predicate Distinct(w: seq<Byte>)
  {
    forall j, k :: 0 <= j < k < |w| ==> w[j] != w[k]
  }

  /** The set of bytes of `w`, as `extend` fills the `HashSet`. */
  function Elems(w: seq<Byte>): set<Byte>
  {
    if w == [] then {} else Elems(w[..|w| - 1]) + {w[|w| - 1]}
  }

  lemma {:induction false} ElemsMembers(w: seq<Byte>, b: Byte)
    ensures b in Elems(w) <==> b in w
  {
    if w != [] {
      ElemsMembers(w[..|w| - 1], b);
      assert w == w[..|w| - 1] + [w[|w| - 1]];
    }
  }

  /** Distinctness grows one byte at a time. */
  lemma DistinctSnoc(w: seq<Byte>)
    requires w != []
    ensures Distinct(w) <==> Distinct(w[..|w| - 1]) && w[|w| - 1] !in w[..|w| - 1]
  {
    var init, last := w[..|w| - 1], w[|w| - 1];
    if last in init {
      var j :| 0 <= j < |init| && init[j] == last;
      assert w[j] == w[|w| - 1];
    }
    if !Distinct(init) {
      var j, k :| 0 <= j < k < |init| && init[j] == init[k];
      assert w[j] == w[k];
    }
  }

  /** The set test of the source, `set.len() == N`, is the distinctness test. */
  lemma {:induction false} ElemsCardinality(w: seq<Byte>)
    ensures |Elems(w)| <= |w|
    ensures |Elems(w)| == |w| <==> Distinct(w)
  {
    if w != [] {
      var init, last := w[..|w| - 1], w[|w| - 1];
      ElemsCardinality(init);
      DistinctSnoc(w);
      if last in init {
        ElemsMembers(init, last);
        assert Elems(w) == Elems(init);
      } else {
        ElemsMembers(init, last);
      }
    }
  }

  /** The window that starts at `i`. */
  function Window(input: seq<Byte>, i: nat, n: nat): seq<Byte>
    requires i + n <= |input|
  {
    input[i..i + n]
  }

  /** `HashSet::extend` with the bytes of `w`. */
  method Extend(s: set<Byte>, w: seq<Byte>) returns (t: set<Byte>)
    ensures t == s + Elems(w)
  {
    t := s;
    for j := 0 to |w|
      invariant t == s + Elems(w[..j])
    {
      assert w[..j + 1][..j] == w[..j];
      t := t + {w[j]};
    }
    assert w[..|w|] == w;
  }

  /** The loop over `windows(n)`: the end `i + n` of the first window of `n`
      pairwise distinct bytes, or nothing when there is none (also when the input
      is shorter than `n`). `n` is a non-zero const generic; `windows(0)` panics. */
  method FirstMarker(input: seq<Byte>, n: nat) returns (r: Option<nat>)
    requires n >= 1
    ensures r.Some? ==>
              n <= r.value <= |input| && Distinct(Window(input, r.value - n, n)) &&
              forall i :: 0 <= i < r.value - n ==> !Distinct(Window(input, i, n))
    ensures r.None? ==> forall i :: 0 <= i && i + n <= |input| ==> !Distinct(Window(input, i, n))
  {
    var seen: set<Byte> := {};
    var i := 0;
    while i + n <= |input|
      invariant forall k :: 0 <= k < i && k + n <= |input| ==> !Distinct(Window(input, k, n))
      invariant seen == {}
      decreases |input| - i
    {
      var wind := Window(input, i, n);
      seen := Extend(seen, wind);
      ElemsCardinality(wind);
      if |seen| == n {
        return Some(i + n);
      }
      seen := {};
      i := i + 1;
    }
    return None;
  }
}
