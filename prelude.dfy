/** Small vocabulary shared by every day: an optional value (Rust's Option, and a
    panic modelled as an absent result), integer helpers, and sums over finite sets. */
module Prelude {

  datatype Option<T> = None | Some(value: T)

  function Abs(x: int): (r: nat)
    ensures r == x || r == -x
  {
    if x < 0 then -x else x
  }

  /** Rust's `i64::signum`. */
  function Sign(x: int): (r: int)
    ensures -1 <= r <= 1
    ensures r * x == Abs(x)
  {
    if x < 0 then -1 else if x > 0 then 1 else 0
  }

  function Max(a: int, b: int): int { if a < b then b else a }

  function Min(a: int, b: int): int { if a < b then a else b }

  /** Some element of a non-empty set, always the same one for the same set. */
  ghost function Pick<T>(s: set<T>): (x: T)
    requires s != {}
    ensures x in s
  {
    var x :| x in s; x
  }

  /** The sum of `f` over a finite set: the value a loop that adds `f(x)` for every
      element, in any order, ends with. */
  ghost function SetSum<T>(s: set<T>, f: T -> int): int
    decreases s
  {
    if s == {} then 0 else var x := Pick(s); f(x) + SetSum(s - {x}, f)
  }

  /** The order in which a loop visits the elements does not matter. */
  lemma {:induction false} SetSumRemove<T>(s: set<T>, f: T -> int, y: T)
    requires y in s
    ensures SetSum(s, f) == f(y) + SetSum(s - {y}, f)
    decreases s
  {
    var x := Pick(s);
    if y != x {
      SetSumRemove(s - {x}, f, y);
      SetSumRemove(s - {y}, f, x);
      assert s - {x} - {y} == s - {y} - {x};
    }
  }

  lemma {:induction false} SetSumBounds<T>(s: set<T>, f: T -> int, lo: int, hi: int)
    requires forall x :: x in s ==> lo <= f(x) <= hi
    ensures lo * |s| <= SetSum(s, f) <= hi * |s|
    decreases s
  {
    if s != {} {
      var x := Pick(s);
      var n := |s - {x}|;
      SetSumBounds(s - {x}, f, lo, hi);
      assert SetSum(s, f) == f(x) + SetSum(s - {x}, f);
      assert |s| == n + 1;
      MulSucc(lo, n);
      MulSucc(hi, n);
    }
  }

  lemma MulSucc(a: int, n: nat)
    ensures a * (n + 1) == a * n + a
  {
  }

  /** A sum over a set grows with its summand. */
  lemma {:induction false} SetSumMonotone<T>(s: set<T>, f: T -> int, g: T -> int)
    requires forall x :: x in s ==> f(x) <= g(x)
    ensures SetSum(s, f) <= SetSum(s, g)
    decreases s
  {
    if s != {} {
      var x := Pick(s);
      SetSumMonotone(s - {x}, f, g);
    }
  }

  lemma {:induction false} MulAtLeast(a: int, d: nat)
    requires a >= 1
    ensures a * d >= d
    decreases a
  {
    if a > 1 {
      MulAtLeast(a - 1, d);
      assert a * d == (a - 1) * d + d;
    }
  }

  /** Multiplying by a natural keeps the order. */
  lemma MulMonotone(a: int, b: int, w: nat)
    ensures a <= b ==> a * w <= b * w
  {
    if a < b {
      MulAtLeast(b - a, w);
      assert b * w == a * w + (b - a) * w;
    }
  }

  /** Euclidean division is determined by its quotient and remainder. */
  lemma DivModUnique(x: int, d: nat, q: int, r: int)
    requires d > 0 && 0 <= r < d && x == q * d + r
    ensures x / d == q && x % d == r
  {
    var q', r' := x / d, x % d;
    assert x == q' * d + r' && 0 <= r' < d;
    assert (q - q') * d == r' - r by {
      assert q * d - q' * d == (q - q') * d;
    }
    if q - q' >= 1 {
      MulAtLeast(q - q', d);
    } else if q' - q >= 1 {
      MulAtLeast(q' - q, d);
    }
  }
}
