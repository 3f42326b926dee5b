/** Cathode-ray tube: a CPU with one register X runs `noop` and `addx`,
    signal strengths are sampled at six cycles, and a sprite at X lights
    the pixel being drawn (src/day10.rs). */
module Day10 {
  import opened Prelude
  import Text

  /** The CPU: the cycle under way and the X register. */
  class Machine {
    var cycle: nat
    var x: int

    /** `Machine::default`: cycle 1, X = 1. */
    constructor ()
      ensures cycle == 1 && x == 1
    {
      cycle := 1;
      x := 1;
    }
  }

  datatype Instruction = Noop | Addx(v: int)

  /** `Instruction::from_str`: a line with a space is an `addx` whatever its
      first word, its argument an `i64`; any other line is a `noop`. `None`
      where the argument's `unwrap` panics. */
  function ParseInstruction(line: string): Option<Instruction>
  {
    match Text.SplitOnce(line, ' ')
    case None => Some(Noop)
    case Some((_, arg)) =>
      match Text.ParseIsize(arg)
      case None => None
      case Some(v) => Some(Addx(v))
  }

  function InstructionLine(i: Instruction): string
  {
    match i
    case Noop => "noop"
    case Addx(v) => "addx " + Text.IntToString(v)
  }

  /** Both instructions read back from their text. */
  lemma ParseInstructionRoundTrip(i: Instruction)
    requires i.Addx? ==> -Text.IsizeLimit <= i.v < Text.IsizeLimit
    ensures ParseInstruction(InstructionLine(i)) == Some(i)
  {
    match i
    case Noop =>
      Text.SplitOnceSpec("noop", ' ');
    case Addx(v) =>
      assert "addx " + Text.IntToString(v) == "addx" + [' '] + Text.IntToString(v);
      Text.SplitOnceAt("addx", ' ', Text.IntToString(v));
      Text.ParseSignedRoundTrip(v);
  }

  /** Only the space matters: any line without one is a `noop`, and the
      first word of a line with one is never read. */
  lemma ParseIgnoresWords(line: string, w1: string, w2: string, arg: string)
    requires ' ' !in w1 && ' ' !in w2
    ensures ' ' !in line ==> ParseInstruction(line) == Some(Noop)
    ensures ParseInstruction(w1 + [' '] + arg) == ParseInstruction(w2 + [' '] + arg)
  {
    Text.SplitOnceSpec(line, ' ');
    Text.SplitOnceAt(w1, ' ', arg);
    Text.SplitOnceAt(w2, ' ', arg);
  }

  /** The program: every line parsed; `None` if any line panics. */
  function ParseAll(lines: seq<string>): (r: Option<seq<Instruction>>)
    ensures r.Some? ==> |r.value| == |lines|
  {
    if lines == [] then Some([])
    else
      match (ParseAll(lines[..|lines| - 1]), ParseInstruction(lines[|lines| - 1]))
      case (Some(init), Some(i)) => Some(init + [i])
      case _ => None
  }

  /** X during each cycle, cycle 1 first: a `noop` lasts one cycle, an
      `addx` two, and X changes only once the `addx` has finished. */
  function Timeline(program: seq<Instruction>): (t: seq<int>)
    ensures |t| >= 1
  {
    if program == [] then [1]
    else
      var t := Timeline(program[..|program| - 1]);
      t + Ticks(t[|t| - 1], program[|program| - 1])
  }

  /** The cycles a program takes. */
  function CycleCount(program: seq<Instruction>): nat
  {
    if program == [] then 0
    else CycleCount(program[..|program| - 1]) + (if program[|program| - 1].Noop? then 1 else 2)
  }

  /** The `addx` arguments of a program, summed. */
  function AddSum(program: seq<Instruction>): int
  {
    if program == [] then 0
    else
      AddSum(program[..|program| - 1]) +
      match program[|program| - 1]
      case Noop => 0
      case Addx(v) => v
  }

  lemma {:induction false} TimelineEnd(program: seq<Instruction>)
    ensures |Timeline(program)| == 1 + CycleCount(program)
    ensures Timeline(program)[|Timeline(program)| - 1] == 1 + AddSum(program)
  {
    if program != [] {
      TimelineEnd(program[..|program| - 1]);
    }
  }

  /** The timeline of a program begins with the timeline of its first
      instructions. */
  lemma {:induction false} TimelinePrefix(program: seq<Instruction>, k: nat)
    requires k <= |program|
    ensures Timeline(program[..k]) <= Timeline(program)
    decreases |program| - k
  {
    if k < |program| {
      TimelinePrefix(program, k + 1);
      assert program[..k + 1][..k] == program[..k];
    } else {
      assert program[..k] == program;
    }
  }

  /** Once the first `k` instructions have run, X is 1 plus their `addx`
      arguments; and an `addx` that comes next still sees that value during
      its second cycle. */
  lemma TimelineAfter(program: seq<Instruction>, k: nat)
    requires k <= |program|
    ensures |Timeline(program)| == 1 + CycleCount(program)
    ensures CycleCount(program[..k]) < |Timeline(program)|
    ensures Timeline(program)[CycleCount(program[..k])] == 1 + AddSum(program[..k])
    ensures k < |program| && program[k].Addx? ==>
              CycleCount(program[..k]) + 1 < |Timeline(program)| &&
              Timeline(program)[CycleCount(program[..k]) + 1] == 1 + AddSum(program[..k])
  {
    TimelineEnd(program);
    TimelinePrefix(program, k);
    TimelineEnd(program[..k]);
    if k < |program| && program[k].Addx? {
      AddxSecondCycle(program, k);
    }
  }

  /** The second cycle of the `k`th instruction, an `addx`, still sees the
      value X had before it. */
  lemma AddxSecondCycle(program: seq<Instruction>, k: nat)
    requires k < |program| && program[k].Addx?
    ensures CycleCount(program[..k]) + 1 < |Timeline(program)|
    ensures Timeline(program)[CycleCount(program[..k]) + 1] == 1 + AddSum(program[..k])
  {
    var pre, next := program[..k], program[..k + 1];
    assert pre + [program[k]] == next;
    TimelineEnd(pre);
    TimelineSnoc(pre, program[k]);
    var tp := Timeline(pre);
    var x := tp[|tp| - 1];
    assert Timeline(next) == tp + [x, x + program[k].v];
    assert Timeline(next)[|tp|] == x;
    TimelinePrefix(program, k + 1);
  }

  /** The cycles at which `check` samples, in ascending order. */
  const Points: seq<nat> := [20, 60, 100, 140, 180, 220]

  /** `check`: the strength `cycle * X` if the cycle is one of the points,
      else nothing. */
  function Check(cycle: nat, x: int): (out: seq<int>)
    ensures |out| <= 1
    ensures out != [] <==> cycle in Points
    ensures out != [] ==> out[0] == cycle * x
  {
    if cycle in Points then [cycle * x] else []
  }

  predicate Ascending(ps: seq<nat>)
  {
    (forall i :: 0 <= i < |ps| ==> ps[i] > 0) &&
    (forall i, j :: 0 <= i < j < |ps| ==> ps[i] < ps[j])
  }

  /** The strengths at the points of `ps` the timeline reaches, in order. */
  function StrengthsAt(t: seq<int>, ps: seq<nat>): seq<int>
  {
    if ps == [] then []
    else
      (if 1 <= ps[0] <= |t| then [ps[0] * t[ps[0] - 1]] else []) + StrengthsAt(t, ps[1..])
  }

  function Strengths(t: seq<int>): seq<int>
  {
    StrengthsAt(t, Points)
  }

  lemma {:induction false} StrengthsAtBeyond(t: seq<int>, ps: seq<nat>)
    requires forall i :: 0 <= i < |ps| ==> ps[i] > |t|
    ensures StrengthsAt(t, ps) == []
  {
    if ps != [] {
      StrengthsAtBeyond(t, ps[1..]);
    }
  }

  /** One more cycle adds the strength `check` samples at it, and nothing
      else. */
  lemma {:induction false} StrengthsAtSnoc(t: seq<int>, a: int, ps: seq<nat>)
    requires Ascending(ps)
    ensures StrengthsAt(t + [a], ps) ==
              StrengthsAt(t, ps) + (if |t| + 1 in ps then [(|t| + 1) * a] else [])
  {
    if ps != [] {
      var n := |t| + 1;
      var rest := ps[1..];
      assert Ascending(rest);
      assert forall i :: 0 <= i < |rest| ==> ps[0] < rest[i];
      if ps[0] <= |t| {
        var head := if 1 <= ps[0] then [ps[0] * t[ps[0] - 1]] else [];
        var extra := if n in rest then [n * a] else [];
        assert (t + [a])[ps[0] - 1] == t[ps[0] - 1];
        assert StrengthsAt(t + [a], ps) == head + StrengthsAt(t + [a], rest);
        assert StrengthsAt(t, ps) == head + StrengthsAt(t, rest);
        StrengthsAtSnoc(t, a, rest);
        assert n in ps <==> n in rest;
        assert head + (StrengthsAt(t, rest) + extra) == (head + StrengthsAt(t, rest)) + extra;
      } else if ps[0] == n {
        StrengthsAtBeyond(t + [a], rest);
        StrengthsAtBeyond(t, rest);
        assert (t + [a])[n - 1] == a;
      } else {
        StrengthsAtBeyond(t + [a], ps);
        StrengthsAtBeyond(t, ps);
        assert n !in ps;
      }
    }
  }

  lemma StrengthsSnoc(t: seq<int>, a: int)
    ensures Strengths(t + [a]) == Strengths(t) + Check(|t| + 1, a)
  {
    StrengthsAtSnoc(t, a, Points);
  }

  /** `draw`'s test: the sprite, three pixels wide and centred on X, covers
      the column of the cycle's pixel. */
  predicate Lit(cycle: nat, x: int)
    requires cycle >= 1
  {
    Abs((cycle - 1) % 40 - x) < 2
  }

  /** A pixel is lit exactly when its column is X - 1, X or X + 1. */
  lemma LitSprite(cycle: nat, x: int)
    requires cycle >= 1
    ensures Lit(cycle, x) <==> (cycle - 1) % 40 in {x - 1, x, x + 1}
  {
  }

  /** The pixels drawn, cycle 1 first. */
  function Screen(t: seq<int>): (s: seq<bool>)
    ensures |s| == |t|
    ensures forall i :: 0 <= i < |t| ==> s[i] == Lit(i + 1, t[i])
  {
    seq(|t|, i requires 0 <= i < |t| => Lit(i + 1, t[i]))
  }

  function Sum(s: seq<int>): int
  {
    if s == [] then 0 else Sum(s[..|s| - 1]) + s[|s| - 1]
  }

  /** X during the cycles of one instruction, started with X = `x`. */
  function Ticks(x: int, inst: Instruction): seq<int>
  {
    match inst
    case Noop => [x]
    case Addx(v) => [x, x + v]
  }

  /** One more instruction runs one or two more cycles from the last X. */
  lemma TimelineSnoc(program: seq<Instruction>, inst: Instruction)
    ensures var t := Timeline(program);
            Timeline(program + [inst]) == t + Ticks(t[|t| - 1], inst)
  {
    var program' := program + [inst];
    assert program'[..|program'| - 1] == program;
  }

  lemma ScreenSnoc(t: seq<int>, a: int)
    ensures Screen(t + [a]) == Screen(t) + [Lit(|t| + 1, a)]
  {
  }

  lemma ParseAllSnoc(lines: seq<string>, i: nat, program: seq<Instruction>, inst: Instruction)
    requires i < |lines| && ParseAll(lines[..i]) == Some(program)
    requires ParseInstruction(lines[i]) == Some(inst)
    ensures ParseAll(lines[..i + 1]) == Some(program + [inst])
  {
    assert lines[..i + 1][..i] == lines[..i];
  }

  /** The body of the line loop for one instruction: a tick drawing a pixel,
      for an `addx` a `check`, a second tick and the update of X, then the
      closing `check`. It extends what the machine has shown for the
      timeline `t` by the instruction's cycles. */
  method Execute(machine: Machine, inst: Instruction, ghost t: seq<int>, strengths: seq<int>, pixels: seq<bool>)
    returns (strengths': seq<int>, pixels': seq<bool>)
    modifies machine
    requires |t| >= 1 && machine.cycle == |t| && machine.x == t[|t| - 1]
    requires strengths == Strengths(t) && pixels == Screen(t)
    ensures var t' := t + Ticks(t[|t| - 1], inst);
            machine.cycle == |t'| && machine.x == t'[|t'| - 1] &&
            strengths' == Strengths(t') && pixels' == Screen(t')
  {
    ghost var x0 := machine.x;
    machine.cycle := machine.cycle + 1;
    ScreenSnoc(t, machine.x);
    pixels' := pixels + [Lit(machine.cycle, machine.x)];
    StrengthsSnoc(t, machine.x);
    strengths' := strengths;
    ghost var t' := t + [machine.x];
    match inst {
      case Noop =>
      case Addx(val) =>
        strengths' := strengths' + Check(machine.cycle, machine.x);
        machine.cycle := machine.cycle + 1;
        machine.x := machine.x + val;
        ScreenSnoc(t', machine.x);
        pixels' := pixels' + [Lit(machine.cycle, machine.x)];
        StrengthsSnoc(t', machine.x);
        t' := t' + [machine.x];
    }
    assert t' == t + Ticks(x0, inst);
    strengths' := strengths' + Check(machine.cycle, machine.x);
  }

  /** Before the loop: no instruction has run, cycle 1 is under way with its
      pixel lit, and nothing has been sampled. */
  lemma Start(lines: seq<string>)
    ensures ParseAll(lines[..0]) == Some([]) && Timeline([]) == [1]
    ensures Screen([1]) == [true] && Strengths([1]) == []
  {
    assert lines[..0] == [];
    assert Lit(1, 1);
  }

  /** `silver_and_gold`: the summed strengths and the pixels drawn, the first
      one lit before the loop; `None` where a line panics. */
  method SilverAndGold(lines: seq<string>) returns (answer: Option<(int, seq<bool>)>)
    ensures answer.Some? <==> ParseAll(lines).Some?
    ensures answer.Some? ==>
              var t := Timeline(ParseAll(lines).value);
              answer.value.0 == Sum(Strengths(t)) && answer.value.1 == Screen(t)
  {
    var machine := new Machine();
    var strengths: seq<int> := [];
    var pixels := [true];
    ghost var program: seq<Instruction> := [];
    Start(lines);
    ghost var t: seq<int> := [1];
    for i := 0 to |lines|
      invariant ParseAll(lines[..i]) == Some(program) && t == Timeline(program)
      invariant |t| >= 1 && machine.cycle == |t| && machine.x == t[|t| - 1]
      invariant strengths == Strengths(t) && pixels == Screen(t)
    {
      var out;
      out, program, t := Line(machine, lines, i, program, t, strengths, pixels);
      if out.None? {
        return None;
      }
      strengths, pixels := out.value.0, out.value.1;
    }
    assert lines[..|lines|] == lines;
    answer := Some((Sum(strengths), pixels));
  }

  /** One round of the line loop: parse line `i` and execute it; `None`
      where the line panics. */
  method Line(machine: Machine, lines: seq<string>, i: nat, ghost program: seq<Instruction>, ghost t: seq<int>,
              strengths: seq<int>, pixels: seq<bool>)
    returns (out: Option<(seq<int>, seq<bool>)>, ghost program': seq<Instruction>, ghost t': seq<int>)
    modifies machine
    requires i < |lines| && ParseAll(lines[..i]) == Some(program) && t == Timeline(program)
    requires |t| >= 1 && machine.cycle == |t| && machine.x == t[|t| - 1]
    requires strengths == Strengths(t) && pixels == Screen(t)
    ensures out.None? ==> ParseAll(lines).None?
    ensures out.Some? ==>
              ParseAll(lines[..i + 1]) == Some(program') && t' == Timeline(program') &&
              |t'| >= 1 && machine.cycle == |t'| && machine.x == t'[|t'| - 1] &&
              out.value.0 == Strengths(t') && out.value.1 == Screen(t')
  {
    var inst := ParseInstruction(lines[i]);
    if inst.None? {
      PanicAt(lines, i);
      return None, program, t;
    }
    ParseAllSnoc(lines, i, program, inst.value);
    TimelineSnoc(program, inst.value);
    var strengths', pixels' := Execute(machine, inst.value, t, strengths, pixels);
    t' := t + Ticks(t[|t| - 1], inst.value);
    program' := program + [inst.value];
    out := Some((strengths', pixels'));
  }

  lemma PanicAt(lines: seq<string>, i: nat)
    requires i < |lines| && ParseInstruction(lines[i]).None?
    ensures ParseAll(lines).None?
  {
    assert lines[..i + 1][..i] == lines[..i];
    PanicStays(lines, i + 1);
  }

  /** A panicking line spoils the whole program. */
  lemma {:induction false} PanicStays(lines: seq<string>, k: nat)
    requires k <= |lines| && ParseAll(lines[..k]).None?
    ensures ParseAll(lines).None?
    decreases |lines| - k
  {
    if k < |lines| {
      assert lines[..k + 1][..k] == lines[..k];
      PanicStays(lines, k + 1);
    } else {
      assert lines[..k] == lines;
    }
  }
}
