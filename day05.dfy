/** Supply stacks: a drawing of crate stacks followed by moves, carried out by a
    crane that lifts one crate at a time (silver, the CrateMover 9000) or a
    whole block at once (gold, the CrateMover 9001) (src/day05.rs). */
module Day05 {
  import opened Prelude
  import Text

  /** The `Vec<VecDeque<char>>` of stacks, each listed from bottom (front) to
      top (back). */
  type Stacks = seq<seq<char>>

  /** Whether the line loop is still reading the drawing or already the moves. */
  datatype Phase = Building | Moving

  /** The crane: `silver` moves crates one by one, `gold` as a block. */
  datatype Mover = CrateMover9000 | CrateMover9001

  /** A move with 0-based stack indices, as the source keeps it after
      subtracting 1 from the numbers on the line. */
  datatype Move = Move(count: nat, from: nat, to: nat)

  /** The quick parser of a `move N from A to B` line: words 1, 3 and 5 are
      the numbers, the others are skipped unread. `None` where an `unwrap`
      panics or `A - 1`, `B - 1` underflow. */
  function ParseMove(line: string): Option<Move>
  {
    var w := Text.Words(line);
    if |w| < 6 then None
    else
      match (Text.ParseUsize(w[1]), Text.ParseUsize(w[3]), Text.ParseUsize(w[5]))
      case (Some(c), Some(f), Some(t)) =>
        if f == 0 || t == 0 then None else Some(Move(c, f - 1, t - 1))
      case _ => None
  }

  /** The puzzle's text for a move, with 1-based stack numbers. */
  function MoveLine(m: Move): string
  {
    Text.Join(["move", Text.NatToString(m.count), "from", Text.NatToString(m.from + 1),
               "to", Text.NatToString(m.to + 1)])
  }

  /** Reading a move line back gives the move, stack numbers converted to
      0-based indices. */
  lemma ParseMoveRoundTrip(m: Move)
    requires m.count < Text.UsizeLimit && m.from + 1 < Text.UsizeLimit && m.to + 1 < Text.UsizeLimit
    ensures ParseMove(MoveLine(m)) == Some(m)
  {
    var c, f, t := Text.NatToString(m.count), Text.NatToString(m.from + 1), Text.NatToString(m.to + 1);
    var ws := ["move", c, "from", f, "to", t];
    assert Text.Words(MoveLine(m)) == ws by {
      Text.NatToStringIsWord(m.count);
      Text.NatToStringIsWord(m.from + 1);
      Text.NatToStringIsWord(m.to + 1);
      assert Text.IsWord("move") && Text.IsWord("from") && Text.IsWord("to");
      Text.WordsJoin(ws);
    }
    Text.ParseUsizeRoundTrip(m.count);
    Text.ParseUsizeRoundTrip(m.from + 1);
    Text.ParseUsizeRoundTrip(m.to + 1);
  }

  /** A stack number 0 makes the move line fail, as `0 - 1` underflows. */
  lemma StackZeroDoesNotParse()
    ensures ParseMove(Text.Join(["move", "1", "from", "0", "to", "1"])).None?
  {
    var ws := ["move", "1", "from", "0", "to", "1"];
    assert Text.Words(Text.Join(ws)) == ws by {
      assert Text.IsWord("move") && Text.IsWord("from") && Text.IsWord("to");
      assert Text.IsWord("0") && Text.IsWord("1");
      Text.WordsJoin(ws);
    }
    assert Text.NatToString(0) == "0";
    Text.ParseUsizeRoundTrip(0);
  }

  /** The 4-byte chunks of a drawing line, the last possibly shorter. */
  function NumChunks(line: string): nat
  {
    (|line| + 3) / 4
  }

  function Chunk(line: string, i: nat): string
    requires i < NumChunks(line)
  {
    line[4 * i .. Min(4 * i + 4, |line|)]
  }

  /** The characters `trim_matches` strips from a chunk. */
  predicate IsPadding(c: char)
  {
    c == ' ' || c == '[' || c == ']'
  }

  function TrimStart(s: string): string
  {
    if s != [] && IsPadding(s[0]) then TrimStart(s[1..]) else s
  }

  function TrimEnd(s: string): string
  {
    if s != [] && IsPadding(s[|s| - 1]) then TrimEnd(s[..|s| - 1]) else s
  }

  /** The crate a chunk names: the first character left after trimming, or
      nothing for a chunk of padding only. */
  function CrateOf(chunk: string): Option<char>
  {
    var t := TrimEnd(TrimStart(chunk));
    if t == [] then None else Some(t[0])
  }

  lemma {:induction false} TrimStartSpec(s: string)
    ensures var t := TrimStart(s);
            |t| <= |s| && t == s[|s| - |t|..] && (t != [] ==> !IsPadding(t[0])) &&
            forall j :: 0 <= j < |s| - |t| ==> IsPadding(s[j])
  {
    if s != [] && IsPadding(s[0]) {
      TrimStartSpec(s[1..]);
      var t := TrimStart(s[1..]);
      assert s[1..][|s| - 1 - |t|..] == s[|s| - |t|..];
      forall j | 0 <= j < |s| - |t| ensures IsPadding(s[j]) {
        if j > 0 { assert s[j] == s[1..][j - 1]; }
      }
    }
  }

  lemma {:induction false} TrimEndSpec(s: string)
    ensures var t := TrimEnd(s);
            |t| <= |s| && t == s[..|t|] && (t != [] ==> !IsPadding(t[|t| - 1])) &&
            forall j :: |t| <= j < |s| ==> IsPadding(s[j])
  {
    if s != [] && IsPadding(s[|s| - 1]) {
      TrimEndSpec(s[..|s| - 1]);
    }
  }

  /** The crate of a chunk is its first character that is not padding; a chunk
      of padding only names no crate. */
  lemma CrateOfSpec(chunk: string)
    ensures CrateOf(chunk).None? <==> forall j :: 0 <= j < |chunk| ==> IsPadding(chunk[j])
    ensures CrateOf(chunk).Some? ==>
              exists k :: 0 <= k < |chunk| && chunk[k] == CrateOf(chunk).value &&
                          !IsPadding(chunk[k]) && forall j :: 0 <= j < k ==> IsPadding(chunk[j])
  {
    TrimStartSpec(chunk);
    var s := TrimStart(chunk);
    TrimEndSpec(s);
    var k := |chunk| - |s|;
    if s != [] {
      assert TrimEnd(s) != [] by {
        assert !IsPadding(s[0]);
      }
      assert chunk[k] == s[0] == TrimEnd(s)[0];
    } else {
      assert |chunk| == k;
    }
  }

  /** `[X] ` names crate `X`; four spaces name none. */
  lemma CrateOfDrawing(c: char)
    requires !IsPadding(c)
    ensures CrateOf(['[', c, ']', ' ']) == Some(c)
    ensures CrateOf("    ").None?
  {
    assert TrimStart(['[', c, ']', ' ']) == [c, ']', ' '];
    assert [c, ']', ' '][..2] == [c, ']'] && [c, ']'][..1] == [c];
    assert TrimEnd([c, ']', ' ']) == TrimEnd([c, ']']) == TrimEnd([c]) == [c];
  }

  /** The stacks after the first `k` chunks of a drawing line were placed,
      each crate `push_front`ed onto the stack its chunk's position names;
      `None` once that stack does not exist. */
  function LoadRow(s: Stacks, line: string, k: nat): Option<Stacks>
    requires k <= NumChunks(line)
  {
    if k == 0 then Some(s)
    else
      match LoadRow(s, line, k - 1)
      case None => None
      case Some(t) =>
        match CrateOf(Chunk(line, k - 1))
        case None => Some(t)
        case Some(c) => if k - 1 < |t| then Some(t[k - 1 := [c] + t[k - 1]]) else None
  }

  /** Placing a drawing line puts the crate of chunk `i` at the bottom of stack
      `i`, and of no other stack; it fails exactly when some crate has no
      stack. */
  lemma {:induction false} LoadRowEffect(s: Stacks, line: string, k: nat)
    requires k <= NumChunks(line)
    ensures LoadRow(s, line, k).Some? <==>
              forall i :: 0 <= i < k && CrateOf(Chunk(line, i)).Some? ==> i < |s|
    ensures LoadRow(s, line, k).Some? ==>
              var t := LoadRow(s, line, k).value;
              |t| == |s| &&
              forall i :: 0 <= i < |s| ==>
                t[i] == (if i < k && CrateOf(Chunk(line, i)).Some? then [CrateOf(Chunk(line, i)).value] else []) + s[i]
  {
    if k > 0 {
      LoadRowEffect(s, line, k - 1);
    }
  }

  lemma {:induction false} LoadRowFailurePersists(s: Stacks, line: string, k: nat)
    requires k <= NumChunks(line) && LoadRow(s, line, k).None?
    ensures LoadRow(s, line, NumChunks(line)).None?
    decreases NumChunks(line) - k
  {
    if k < NumChunks(line) {
      LoadRowFailurePersists(s, line, k + 1);
    }
  }

  /** The chunk loop of the drawing phase. */
  method PlaceRow(s: Stacks, line: string) returns (r: Option<Stacks>)
    ensures r == LoadRow(s, line, NumChunks(line))
  {
    var t := s;
    for i := 0 to NumChunks(line)
      invariant LoadRow(s, line, i) == Some(t)
    {
      var crate := CrateOf(Chunk(line, i));
      if crate.Some? {
        if i >= |t| {
          LoadRowFailurePersists(s, line, i + 1);
          return None;
        }
        t := t[i := [crate.value] + t[i]];
      }
    }
    return Some(t);
  }

  /** One crate lifted by the CrateMover 9000: `pop_back` from `from`, then
      `push_back` onto `to`; `None` where indexing or `unwrap` panics. */
  function PopPush(s: Stacks, from: nat, to: nat): Option<Stacks>
  {
    if from >= |s| || s[from] == [] then None
    else
      var crate := s[from][|s[from]| - 1];
      var t := s[from := s[from][..|s[from]| - 1]];
      if to >= |t| then None else Some(t[to := t[to] + [crate]])
  }

  /** `k` crates lifted one after the other. */
  function MoveSingly(s: Stacks, from: nat, to: nat, k: nat): Option<Stacks>
  {
    if k == 0 then Some(s)
    else
      match MoveSingly(s, from, to, k - 1)
      case None => None
      case Some(t) => PopPush(t, from, to)
  }

  function Reverse<T>(s: seq<T>): (r: seq<T>)
    ensures |r| == |s| && forall i :: 0 <= i < |s| ==> r[i] == s[|s| - 1 - i]
  {
    if s == [] then [] else Reverse(s[1..]) + [s[0]]
  }

  /** Between two different stacks the CrateMover 9000 takes the top `k` crates
      of `from` and leaves them on `to` in reverse order; no other stack
      changes, and it fails exactly when `from` holds fewer than `k` crates. */
  lemma {:induction false} MoveSinglyEffect(s: Stacks, from: nat, to: nat, k: nat)
    requires from < |s| && to < |s| && from != to
    ensures MoveSingly(s, from, to, k).Some? <==> k <= |s[from]|
    ensures MoveSingly(s, from, to, k).Some? ==>
              var t, n := MoveSingly(s, from, to, k).value, |s[from]|;
              |t| == |s| && t[from] == s[from][..n - k] && t[to] == s[to] + Reverse(s[from][n - k..]) &&
              forall i :: 0 <= i < |s| && i != from && i != to ==> t[i] == s[i]
  {
    if k > 0 {
      MoveSinglyEffect(s, from, to, k - 1);
      var n := |s[from]|;
      if k - 1 <= n {
        var t := MoveSingly(s, from, to, k - 1).value;
        PopPushEffect(t, from, to);
        if k <= n {
          var moved := s[from][n - k..];
          assert t[from] == s[from][..n - k] + [moved[0]] by {
            assert s[from][..n - (k - 1)] == s[from][..n - k] + [s[from][n - k]];
          }
          assert t[from][..|t[from]| - 1] == s[from][..n - k];
          assert Reverse(moved) == Reverse(moved[1..]) + [moved[0]];
          assert moved[1..] == s[from][n - (k - 1)..];
        }
      }
    }
  }

  /** One lift between two different stacks moves the top of `from` onto
      `to`, and fails exactly when `from` is empty. */
  lemma PopPushEffect(s: Stacks, from: nat, to: nat)
    requires from < |s| && to < |s| && from != to
    ensures PopPush(s, from, to).Some? <==> s[from] != []
    ensures PopPush(s, from, to).Some? ==>
              var t, n := PopPush(s, from, to).value, |s[from]|;
              |t| == |s| && t[from] == s[from][..n - 1] && t[to] == s[to] + [s[from][n - 1]] &&
              forall i :: 0 <= i < |s| && i != from && i != to ==> t[i] == s[i]
  {
  }

  /** Lifting crates from a stack onto itself changes nothing, and fails only
      when that stack is empty. */
  lemma {:induction false} MoveSinglySameStack(s: Stacks, from: nat, k: nat)
    requires from < |s|
    ensures MoveSingly(s, from, from, k) == if k == 0 || s[from] != [] then Some(s) else None
  {
    if k > 0 {
      MoveSinglySameStack(s, from, k - 1);
      if s[from] != [] {
        var n := |s[from]|;
        assert s[from][..n - 1] + [s[from][n - 1]] == s[from];
        assert s[from := s[from][..n - 1]][from := s[from][..n - 1] + [s[from][n - 1]]] == s;
      }
    }
  }

  /** The move loop of `silver`. */
  method LiftOneByOne(s: Stacks, m: Move) returns (r: Option<Stacks>)
    ensures r == MoveSingly(s, m.from, m.to, m.count)
  {
    var t := s;
    for i := 0 to m.count
      invariant MoveSingly(s, m.from, m.to, i) == Some(t)
    {
      if m.from >= |t| || t[m.from] == [] {
        MoveSinglyFailurePersists(s, m.from, m.to, i + 1, m.count);
        return None;
      }
      var crate := t[m.from][|t[m.from]| - 1];
      t := t[m.from := t[m.from][..|t[m.from]| - 1]];
      if m.to >= |t| {
        MoveSinglyFailurePersists(s, m.from, m.to, i + 1, m.count);
        return None;
      }
      t := t[m.to := t[m.to] + [crate]];
    }
    return Some(t);
  }

  lemma {:induction false} MoveSinglyFailurePersists(s: Stacks, from: nat, to: nat, k: nat, n: nat)
    requires k <= n && MoveSingly(s, from, to, k).None?
    ensures MoveSingly(s, from, to, n).None?
    decreases n - k
  {
    if k < n {
      MoveSinglyFailurePersists(s, from, to, k + 1, n);
    }
  }

  /** The CrateMover 9001 move of `gold`: `split_off(len - count)` on `from`,
      then `append` onto `to`; `None` where indexing panics or `len - count`
      underflows. */
  function MoveBlock(s: Stacks, m: Move): Option<Stacks>
  {
    if m.from >= |s| || m.count > |s[m.from]| then None
    else
      var n := |s[m.from]|;
      var block := s[m.from][n - m.count..];
      var t := s[m.from := s[m.from][..n - m.count]];
      if m.to >= |t| then None else Some(t[m.to := t[m.to] + block])
  }

  /** A block moved onto its own stack leaves it as it was. */
  lemma MoveBlockSameStack(s: Stacks, m: Move)
    requires m.from == m.to < |s| && m.count <= |s[m.from]|
    ensures MoveBlock(s, m) == Some(s)
  {
    var n := |s[m.from]|;
    var prefix := s[m.from][..n - m.count];
    assert prefix + s[m.from][n - m.count..] == s[m.from];
    assert s[m.from := prefix][m.from := prefix + s[m.from][n - m.count..]] == s;
  }

  /** For a single crate the two cranes do the same. */
  lemma {:induction false} MoversAgreeOnOneCrate(s: Stacks, m: Move)
    requires m.from < |s| && m.to < |s| && m.count <= 1
    ensures MoveBlock(s, m) == MoveSingly(s, m.from, m.to, m.count)
  {
    if m.count == 1 {
      assert MoveSingly(s, m.from, m.to, 1) == PopPush(s, m.from, m.to);
      if s[m.from] != [] {
        assert s[m.from][|s[m.from]| - 1..] == [s[m.from][|s[m.from]| - 1]];
      }
    } else {
      var n := |s[m.from]|;
      assert s[m.from][..n] == s[m.from] && s[m.from][n..] == [];
      assert s[m.from := s[m.from]] == s;
      assert s[m.to] + [] == s[m.to];
      assert s[m.to := s[m.to]] == s;
    }
  }

  /** All crates of all stacks, with repetitions. */
  function AllCrates(s: Stacks): multiset<char>
  {
    if s == [] then multiset{} else AllCrates(s[..|s| - 1]) + multiset(s[|s| - 1])
  }

  lemma {:induction false} AllCratesUpdate(s: Stacks, i: nat, x: seq<char>)
    requires i < |s|
    ensures AllCrates(s[i := x]) + multiset(s[i]) == AllCrates(s) + multiset(x)
  {
    var u := s[i := x];
    assert AllCrates(u) == AllCrates(u[..|u| - 1]) + multiset(u[|u| - 1]);
    assert AllCrates(s) == AllCrates(s[..|s| - 1]) + multiset(s[|s| - 1]);
    if i < |s| - 1 {
      assert u[..|u| - 1] == s[..|s| - 1][i := x];
      assert s[..|s| - 1][i] == s[i] && u[|u| - 1] == s[|s| - 1];
      AllCratesUpdate(s[..|s| - 1], i, x);
      forall o
        ensures (AllCrates(u) + multiset(s[i]))[o] == (AllCrates(s) + multiset(x))[o]
      {
        assert (AllCrates(u[..|u| - 1]) + multiset(s[i]))[o] == (AllCrates(s[..|s| - 1]) + multiset(x))[o];
      }
    } else {
      assert u[..|u| - 1] == s[..|s| - 1];
    }
  }

  lemma PopPushKeepsCrates(s: Stacks, from: nat, to: nat)
    requires PopPush(s, from, to).Some?
    ensures AllCrates(PopPush(s, from, to).value) == AllCrates(s)
  {
    var n := |s[from]|;
    var rest, crate := s[from][..n - 1], s[from][n - 1];
    var t := s[from := rest];
    var u := PopPush(s, from, to).value;
    AllCratesUpdate(s, from, rest);
    AllCratesUpdate(t, to, t[to] + [crate]);
    assert s[from] == rest + [crate];
    forall o
      ensures AllCrates(u)[o] == AllCrates(s)[o]
    {
      assert (AllCrates(u) + multiset(t[to]))[o] == (AllCrates(t) + multiset(t[to] + [crate]))[o];
      assert (AllCrates(t) + multiset(s[from]))[o] == (AllCrates(s) + multiset(rest))[o];
    }
  }

  /** Neither crane loses or creates a crate. */
  lemma {:induction false} MoveSinglyKeepsCrates(s: Stacks, from: nat, to: nat, k: nat)
    requires MoveSingly(s, from, to, k).Some?
    ensures AllCrates(MoveSingly(s, from, to, k).value) == AllCrates(s)
  {
    if k > 0 {
      MoveSinglyKeepsCrates(s, from, to, k - 1);
      PopPushKeepsCrates(MoveSingly(s, from, to, k - 1).value, from, to);
    }
  }

  lemma MoveBlockKeepsCrates(s: Stacks, m: Move)
    requires MoveBlock(s, m).Some?
    ensures AllCrates(MoveBlock(s, m).value) == AllCrates(s)
  {
    var n := |s[m.from]|;
    var rest, block := s[m.from][..n - m.count], s[m.from][n - m.count..];
    var t := s[m.from := rest];
    var u := MoveBlock(s, m).value;
    AllCratesUpdate(s, m.from, rest);
    AllCratesUpdate(t, m.to, t[m.to] + block);
    assert s[m.from] == rest + block;
    forall o
      ensures AllCrates(u)[o] == AllCrates(s)[o]
    {
      assert (AllCrates(u) + multiset(t[m.to]))[o] == (AllCrates(t) + multiset(t[m.to] + block))[o];
      assert (AllCrates(t) + multiset(s[m.from]))[o] == (AllCrates(s) + multiset(rest))[o];
    }
  }

  /** The move the crane of each part carries out. */
  function ApplyMove(mover: Mover, s: Stacks, m: Move): Option<Stacks>
  {
    match mover
    case CrateMover9000 => MoveSingly(s, m.from, m.to, m.count)
    case CrateMover9001 => MoveBlock(s, m)
  }

  /** One turn of the line loop: the stack-number line is skipped, the empty
      line switches to the moves, and every other line is a drawing row or a
      move according to the phase. */
  function Step(mover: Mover, phase: Phase, s: Stacks, line: string): Option<(Phase, Stacks)>
  {
    if Text.StartsWith(line, " 1") then Some((phase, s))
    else if line == [] then Some((Moving, s))
    else
      match phase
      case Building =>
        (match LoadRow(s, line, NumChunks(line))
         case Some(t) => Some((Building, t))
         case None => None)
      case Moving =>
        match ParseMove(line)
        case None => None
        case Some(m) =>
          match ApplyMove(mover, s, m)
          case Some(t) => Some((Moving, t))
          case None => None
  }

  /** `first_line.len() / 4 + 1` empty stacks. */
  function InitialStacks(lines: seq<string>): Stacks
    requires lines != []
  {
    seq(|lines[0]| / 4 + 1, _ => [])
  }

  /** The phase and stacks after the first `k` lines. */
  function Process(mover: Mover, lines: seq<string>, k: nat): Option<(Phase, Stacks)>
    requires lines != [] && k <= |lines|
  {
    if k == 0 then Some((Building, InitialStacks(lines)))
    else
      match Process(mover, lines, k - 1)
      case None => None
      case Some((phase, s)) => Step(mover, phase, s, lines[k - 1])
  }

  /** The top crate of every stack, in stack order; `None` when a stack is
      empty, where `back().unwrap()` panics. */
  function TopsOf(s: Stacks): Option<string>
  {
    if s == [] then Some([])
    else if s[0] == [] then None
    else
      match TopsOf(s[1..])
      case None => None
      case Some(r) => Some([s[0][|s[0]| - 1]] + r)
  }

  lemma {:induction false} TopsOfSpec(s: Stacks)
    ensures TopsOf(s).Some? <==> forall i :: 0 <= i < |s| ==> s[i] != []
    ensures TopsOf(s).Some? ==>
              |TopsOf(s).value| == |s| && forall i :: 0 <= i < |s| ==> TopsOf(s).value[i] == s[i][|s[i]| - 1]
  {
    if s != [] {
      TopsOfSpec(s[1..]);
      assert forall i :: 1 <= i < |s| ==> s[i] == s[1..][i - 1];
    }
  }

  /** The printed answer; `None` on an empty input, where `peek().unwrap()`
      panics. */
  function Answer(mover: Mover, lines: seq<string>): Option<string>
  {
    if lines == [] then None
    else
      match Process(mover, lines, |lines|)
      case None => None
      case Some((_, s)) => TopsOf(s)
  }

  /** Moves never change how many stacks there are, nor the crates on them. */
  lemma ApplyMoveKeeps(mover: Mover, s: Stacks, m: Move)
    requires ApplyMove(mover, s, m).Some?
    ensures |ApplyMove(mover, s, m).value| == |s|
    ensures AllCrates(ApplyMove(mover, s, m).value) == AllCrates(s)
  {
    match mover
    case CrateMover9000 =>
      MoveSinglyKeepsCrates(s, m.from, m.to, m.count);
      MoveSinglyLength(s, m.from, m.to, m.count);
    case CrateMover9001 =>
      MoveBlockKeepsCrates(s, m);
  }

  lemma {:induction false} MoveSinglyLength(s: Stacks, from: nat, to: nat, k: nat)
    requires MoveSingly(s, from, to, k).Some?
    ensures |MoveSingly(s, from, to, k).value| == |s|
  {
    if k > 0 {
      MoveSinglyLength(s, from, to, k - 1);
    }
  }

  /** Once the moves have begun, the crates only change places: a line in the
      moving phase keeps the number of stacks and the crates on them. */
  lemma StepMovingKeepsCrates(mover: Mover, s: Stacks, line: string)
    requires Step(mover, Moving, s, line).Some?
    ensures Step(mover, Moving, s, line).value.0 == Moving
    ensures |Step(mover, Moving, s, line).value.1| == |s|
    ensures AllCrates(Step(mover, Moving, s, line).value.1) == AllCrates(s)
  {
    if !Text.StartsWith(line, " 1") && line != [] {
      ApplyMoveKeeps(mover, s, ParseMove(line).value);
    }
  }

  lemma {:induction false} ProcessFailurePersists(mover: Mover, lines: seq<string>, k: nat)
    requires lines != [] && k <= |lines| && Process(mover, lines, k).None?
    ensures Process(mover, lines, |lines|).None?
    decreases |lines| - k
  {
    if k < |lines| {
      ProcessFailurePersists(mover, lines, k + 1);
    }
  }

  lemma ProcessStep(mover: Mover, lines: seq<string>, k: nat)
    requires lines != [] && 1 <= k <= |lines| && Process(mover, lines, k - 1).Some?
    ensures Process(mover, lines, k) ==
              Step(mover, Process(mover, lines, k - 1).value.0, Process(mover, lines, k - 1).value.1, lines[k - 1])
  {
  }

  /** One turn of the line loop. */
  method Turn(mover: Mover, phase: Phase, stacks: Stacks, line: string) returns (r: Option<(Phase, Stacks)>)
    ensures r == Step(mover, phase, stacks, line)
  {
    if Text.StartsWith(line, " 1") {
      return Some((phase, stacks));
    }
    if line == [] {
      return Some((Moving, stacks));
    }
    var next: Option<Stacks>;
    if phase == Building {
      next := PlaceRow(stacks, line);
    } else {
      var m := ParseMove(line);
      if m.None? {
        return None;
      }
      if mover == CrateMover9000 {
        next := LiftOneByOne(stacks, m.value);
      } else {
        next := MoveBlock(stacks, m.value);
      }
    }
    if next.None? {
      return None;
    }
    return Some((phase, next.value));
  }

  /** The line loop shared by `silver` and `gold`, which differ only in the
      crane. */
  method Rearrange(lines: seq<string>, mover: Mover) returns (answer: Option<string>)
    ensures answer == Answer(mover, lines)
  {
    if lines == [] {
      return None;
    }
    var stacks := InitialStacks(lines);
    var phase := Building;
    for i := 0 to |lines|
      invariant Process(mover, lines, i) == Some((phase, stacks))
    {
      var next := Turn(mover, phase, stacks, lines[i]);
      ProcessStep(mover, lines, i + 1);
      if next.None? {
        ProcessFailurePersists(mover, lines, i + 1);
        return None;
      }
      phase, stacks := next.value.0, next.value.1;
    }
    answer := TopsOf(stacks);
  }

  method Silver(lines: seq<string>) returns (answer: Option<string>)
    ensures answer == Answer(CrateMover9000, lines)
  {
    answer := Rearrange(lines, CrateMover9000);
  }

  method Gold(lines: seq<string>) returns (answer: Option<string>)
    ensures answer == Answer(CrateMover9001, lines)
  {
    answer := Rearrange(lines, CrateMover9001);
  }
}
