/** The handful of Rust `str` operations the solvers lean on: `split_once`,
    and `parse` for unsigned and signed decimal integers. Integer widths are
    not modelled: a parsed value is an unbounded integer. */
module Text {
  import opened Prelude

  predicate IsDigit(c: char) { '0' <= c <= '9' }

  predicate AllDigits(s: string) { forall i :: 0 <= i < |s| ==> IsDigit(s[i]) }

  function DigitValue(c: char): (d: nat)
    requires IsDigit(c)
    ensures d < 10
  {
    (c as int) - ('0' as int)
  }

  function DigitChar(d: nat): (c: char)
    requires d < 10
    ensures IsDigit(c) && DigitValue(c) == d
  {
    ((d + ('0' as int)) as char)
  }

  /** Value of a string of decimal digits, most significant first. */
  function DigitsValue(s: string): nat
    requires AllDigits(s)
  {
    if s == [] then 0 else DigitsValue(s[..|s| - 1]) * 10 + DigitValue(s[|s| - 1])
  }

  /** `str::parse::<usize>()`: an optional `+`, then at least one digit. */
  function ParseUnsigned(s: string): (r: Option<nat>)
    ensures r.Some? <==> (s != [] && ((s[0] == '+' && |s| > 1 && AllDigits(s[1..])) || AllDigits(s)))
  {
    if s != [] && s[0] == '+' then
      (if |s| > 1 && AllDigits(s[1..]) then Some(DigitsValue(s[1..])) else None)
    else if s != [] && AllDigits(s) then Some(DigitsValue(s))
    else None
  }

  /** `str::parse::<i64>()`: an optional sign, then at least one digit. */
  function ParseSigned(s: string): Option<int>
  {
    if s != [] && s[0] == '-' then
      (if |s| > 1 && AllDigits(s[1..]) then Some(0 - DigitsValue(s[1..]) as int) else None)
    else
      match ParseUnsigned(s)
      case None => None
      case Some(n) => Some(n)
  }

  const UsizeLimit: nat := 0x1_0000_0000_0000_0000

  /** `usize::from_str` on a 64-bit target. */
  function ParseUsize(s: string): (r: Option<nat>)
    ensures r.Some? ==> r.value < UsizeLimit && ParseUnsigned(s) == r
  {
    match ParseUnsigned(s)
    case Some(v) => if v < UsizeLimit then Some(v) else None
    case None => None
  }

  const IsizeLimit: int := 0x8000_0000_0000_0000

  /** `isize::from_str` on a 64-bit target, which is also `i64::from_str`. */
  function ParseIsize(s: string): (r: Option<int>)
    ensures r.Some? ==> -IsizeLimit <= r.value < IsizeLimit
  {
    match ParseSigned(s)
    case Some(v) => if -IsizeLimit <= v < IsizeLimit then Some(v) else None
    case None => None
  }

  /** `i32::from_str`: a signed decimal that fits in 32 bits. */
  function ParseI32(s: string): (r: Option<int>)
    ensures r.Some? ==> -0x8000_0000 <= r.value < 0x8000_0000
    ensures r.Some? ==> ParseSigned(s) == r
  {
    match ParseSigned(s)
    case Some(v) => if -0x8000_0000 <= v < 0x8000_0000 then Some(v) else None
    case None => None
  }

  /** The decimal text of `n`, as Rust's `Display` writes it. */
  function NatToString(n: nat): (s: string)
    ensures s != [] && AllDigits(s)
  {
    if n < 10 then [DigitChar(n)] else NatToString(n / 10) + [DigitChar(n % 10)]
  }

  function IntToString(n: int): (s: string)
  {
    if n < 0 then "-" + NatToString(-n) else NatToString(n)
  }

  lemma {:induction false} DigitsValueOfNatToString(n: nat)
    ensures DigitsValue(NatToString(n)) == n
  {
    var s := NatToString(n);
    if n >= 10 {
      var t := NatToString(n / 10);
      assert s[..|s| - 1] == t;
      DigitsValueOfNatToString(n / 10);
    }
  }

  /** Parsing inverts printing, for every unsigned and signed value. */
  lemma {:induction false} ParseUnsignedRoundTrip(n: nat)
    ensures ParseUnsigned(NatToString(n)) == Some(n)
  {
    DigitsValueOfNatToString(n);
  }

  lemma ParseUsizeRoundTrip(n: nat)
    requires n < UsizeLimit
    ensures ParseUsize(NatToString(n)) == Some(n)
  {
    ParseUnsignedRoundTrip(n);
  }

  lemma {:induction false} ParseSignedRoundTrip(n: int)
    ensures ParseSigned(IntToString(n)) == Some(n)
  {
    if n < 0 {
      ParseNegative(-n);
    } else {
      assert IsDigit(IntToString(n)[0]);
      ParseUnsignedRoundTrip(n);
    }
  }

  lemma ParseNegative(n: nat)
    requires n > 0
    ensures ParseSigned("-" + NatToString(n)) == Some(-(n as int))
  {
    var t := NatToString(n);
    var s := "-" + t;
    assert s[0] == '-' && s[1..] == t;
    DigitsValueOfNatToString(n);
  }

  /** `str::split_once(sep)`: the text before and after the first `sep`. */
  function SplitOnce(s: string, sep: char): Option<(string, string)>
  {
    if s == [] then None
    else if s[0] == sep then Some(([], s[1..]))
    else
      match SplitOnce(s[1..], sep)
      case None => None
      case Some(parts) => Some(([s[0]] + parts.0, parts.1))
  }

  /** `split_once` fails exactly when there is no separator, and otherwise cuts
      the text around its first separator. */
  lemma {:induction false} SplitOnceSpec(s: string, sep: char)
    ensures SplitOnce(s, sep).None? <==> sep !in s
    ensures SplitOnce(s, sep).Some? ==>
              var (a, b) := SplitOnce(s, sep).value; s == a + [sep] + b && sep !in a
  {
    if s != [] && s[0] != sep {
      SplitOnceSpec(s[1..], sep);
      assert s == [s[0]] + s[1..];
    }
  }

  /** `split_once` cuts at the first separator and nowhere else. */
  lemma {:induction false} SplitOnceAt(a: string, sep: char, b: string)
    requires sep !in a
    ensures SplitOnce(a + [sep] + b, sep) == Some((a, b))
  {
    var s := a + [sep] + b;
    if a != [] {
      assert s[0] == a[0] && s[1..] == a[1..] + [sep] + b;
      SplitOnceAt(a[1..], sep, b);
      assert [a[0]] + a[1..] == a;
    }
  }
  /** `char::is_ascii_whitespace`. */
  predicate IsAsciiSpace(c: char)
  {
    c == ' ' || c == '\t' || c == '\n' || c == '\r' || c == '\U{000C}'
  }

  /** A non-empty run of characters none of which is ASCII whitespace. */
  predicate IsWord(w: string)
  {
    w != [] && forall i :: 0 <= i < |w| ==> !IsAsciiSpace(w[i])
  }

  /** The length of the word that starts `s`. */
  function WordLength(s: string): (n: nat)
    ensures n <= |s|
  {
    if s == [] || IsAsciiSpace(s[0]) then 0 else 1 + WordLength(s[1..])
  }

  /** `str::split_ascii_whitespace`: the words of `s`, in order. */
  function Words(s: string): seq<string>
    decreases |s|
  {
    if s == [] then []
    else if IsAsciiSpace(s[0]) then Words(s[1..])
    else
      var n := WordLength(s);
      [s[..n]] + Words(s[n..])
  }

  lemma {:induction false} WordLengthOf(w: string, rest: string)
    requires IsWord(w) && (rest == [] || IsAsciiSpace(rest[0]))
    ensures WordLength(w + rest) == |w|
  {
    if |w| > 1 {
      assert (w + rest)[1..] == w[1..] + rest;
      WordLengthOf(w[1..], rest);
    } else {
      assert (w + rest)[1..] == rest;
    }
  }

  /** A word followed by a space and more text splits off as the first word. */
  lemma WordsCons(w: string, rest: string)
    requires IsWord(w)
    ensures Words(w + " " + rest) == [w] + Words(rest)
  {
    var s := w + " " + rest;
    WordLengthOf(w, " " + rest);
    assert s == w + (" " + rest);
    assert s[0] == w[0] && !IsAsciiSpace(s[0]);
    assert s[..|w|] == w;
    assert s[|w|..] == " " + rest;
    assert Words(s) == [w] + Words(s[|w|..]);
    assert s[|w|..][1..] == rest;
  }

  /** A single word splits into itself. */
  lemma WordsSingle(w: string)
    requires IsWord(w)
    ensures Words(w) == [w]
  {
    WordLengthOf(w, []);
    assert w + [] == w;
  }

  lemma NatToStringIsWord(n: nat)
    ensures IsWord(NatToString(n))
  {
    var s := NatToString(n);
    forall i | 0 <= i < |s| ensures !IsAsciiSpace(s[i]) {
      assert IsDigit(s[i]);
    }
  }
  /** Words joined by single spaces. */
  function Join(ws: seq<string>): string
  {
    if ws == [] then [] else if |ws| == 1 then ws[0] else ws[0] + " " + Join(ws[1..])
  }

  /** Splitting at whitespace undoes joining with spaces. */
  lemma {:induction false} WordsJoin(ws: seq<string>)
    requires forall i :: 0 <= i < |ws| ==> IsWord(ws[i])
    ensures Words(Join(ws)) == ws
  {
    if |ws| == 1 {
      WordsSingle(ws[0]);
    } else if |ws| > 1 {
      WordsJoin(ws[1..]);
      WordsCons(ws[0], Join(ws[1..]));
      assert ws == [ws[0]] + ws[1..];
    }
  }
  predicate StartsWith(s: string, prefix: string)
  {
    |prefix| <= |s| && s[..|prefix|] == prefix
  }

  /** `str::strip_prefix`. */
  function StripPrefix(s: string, prefix: string): (r: Option<string>)
    ensures r.Some? <==> StartsWith(s, prefix)
    ensures r.Some? ==> s == prefix + r.value
  {
    if StartsWith(s, prefix) then Some(s[|prefix|..]) else None
  }

  /** `str::split_once` with a separator of several characters: the text
      before and after its first occurrence. */
  function SplitOnceStr(s: string, sep: string): Option<(string, string)>
    requires sep != []
  {
    if |s| < |sep| then None
    else if s[..|sep|] == sep then Some(([], s[|sep|..]))
    else
      match SplitOnceStr(s[1..], sep)
      case None => None
      case Some(parts) => Some(([s[0]] + parts.0, parts.1))
  }

  /** The separator is found where it occurs first: after a text that does not
      even hold its first character. */
  lemma {:induction false} SplitOnceStrAt(a: string, sep: string, b: string)
    requires sep != [] && sep[0] !in a
    ensures SplitOnceStr(a + sep + b, sep) == Some((a, b))
  {
    var s := a + sep + b;
    if a == [] {
      assert s[..|sep|] == sep && s[|sep|..] == b;
    } else {
      assert s[0] == a[0] != sep[0];
      assert s[..|sep|] != sep;
      assert s[1..] == a[1..] + sep + b;
      SplitOnceStrAt(a[1..], sep, b);
      assert [a[0]] + a[1..] == a;
    }
  }

  /** A decimal holds only digits and possibly a leading minus sign. */
  lemma IntToStringChars(n: int, c: char)
    requires c in IntToString(n)
    ensures IsDigit(c) || c == '-'
  {
    if n < 0 {
      assert IntToString(n) == "-" + NatToString(-n);
      assert AllDigits(NatToString(-n));
    } else {
      assert AllDigits(NatToString(n));
    }
  }
}
