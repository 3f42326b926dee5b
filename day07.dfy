/** No space left on device: a terminal transcript of `cd` and `ls` is
    replayed to total the size of every directory, keyed by the
    concatenated names on the directory stack (src/day07.rs). */
module Day07 {
  import opened Prelude
  import Text

  /** A line of the transcript, as the line loop tells them apart. */
  datatype Command = Cd(dest: string) | Ls | DirEntry | FileEntry(size: nat)

  /** The line loop's dispatch. A line starting with `$ cd` names its
      destination from the sixth character on; `None` where the source
      panics: a `$ cd` line too short to slice, an entry line without a
      space, or a size that is not a `usize`. */
  function ParseLine(line: string): Option<Command>
  {
    if Text.StartsWith(line, "$ cd") then
      (if |line| < 5 then None else Some(Cd(line[5..])))
    else if Text.StartsWith(line, "$ ls") then Some(Ls)
    else
      match Text.SplitOnce(line, ' ')
      case None => None
      case Some((size, _)) =>
        if size == "dir" then Some(DirEntry)
        else
          match Text.ParseUsize(size)
          case None => None
          case Some(n) => Some(FileEntry(n))
  }

  /** The transcript's text for a command. */
  function CommandLine(c: Command, name: string): string
  {
    match c
    case Cd(dest) => "$ cd " + dest
    case Ls => "$ ls"
    case DirEntry => "dir " + name
    case FileEntry(n) => Text.NatToString(n) + " " + name
  }

  /** Every command the transcript can hold reads back as itself, whatever
      the entry's name. */
  lemma ParseLineRoundTrip(c: Command, name: string)
    requires c.FileEntry? ==> c.size < Text.UsizeLimit
    ensures ParseLine(CommandLine(c, name)) == Some(c)
  {
    var line := CommandLine(c, name);
    match c
    case Cd(dest) =>
      assert line[..4] == "$ cd" && line[5..] == dest;
    case Ls =>
      assert line[..4] == "$ ls";
    case DirEntry =>
      assert line[..4] != "$ cd" && line[..4] != "$ ls";
      assert line == "dir" + [' '] + name;
      Text.SplitOnceAt("dir", ' ', name);
    case FileEntry(n) =>
      var digits := Text.NatToString(n);
      assert Text.IsDigit(line[0]);
      assert line == digits + [' '] + name;
      assert ' ' !in digits by {
        assert Text.AllDigits(digits);
      }
      Text.SplitOnceAt(digits, ' ', name);
      assert digits != "dir" by {
        assert Text.IsDigit(digits[0]);
      }
      Text.ParseUnsignedRoundTrip(n);
  }

  /** The loop's state: `dir_stack` and `sizes`. */
  datatype State = State(stack: seq<string>, sizes: map<string, nat>)

  /** The names of the directory stack written one after another. */
  function Concat(names: seq<string>): (s: string)
  {
    if names == [] then "" else Concat(names[..|names| - 1]) + names[|names| - 1]
  }

  /** The `or_default` read of `sizes`. */
  function Get(sizes: map<string, nat>, key: string): nat
  {
    if key in sizes then sizes[key] else 0
  }

  /** The inner loop of a file line after its first `k` rounds: `size` added
      to the entry of each of the first `k` stack prefixes. */
  function AddToPrefixes(sizes: map<string, nat>, stack: seq<string>, size: nat, k: nat): map<string, nat>
    requires k <= |stack|
  {
    if k == 0 then sizes
    else
      var before := AddToPrefixes(sizes, stack, size, k - 1);
      var key := Concat(stack[..k]);
      before[key := Get(before, key) + size]
  }

  /** How many of the first `k` stack prefixes concatenate to `key`. */
  function PrefixCount(stack: seq<string>, key: string, k: nat): (n: nat)
    requires k <= |stack|
    ensures n <= k
  {
    if k == 0 then 0
    else PrefixCount(stack, key, k - 1) + (if Concat(stack[..k]) == key then 1 else 0)
  }

  /** A file line adds its size once to every entry for each stack prefix
      naming it, creates the entries of prefixes not seen before, and leaves
      every other entry as it was. */
  lemma {:induction false} AddToPrefixesEffect(sizes: map<string, nat>, stack: seq<string>, size: nat, k: nat, key: string)
    requires k <= |stack|
    ensures var r := AddToPrefixes(sizes, stack, size, k);
            (key in r <==> key in sizes || PrefixCount(stack, key, k) > 0) &&
            Get(r, key) == Get(sizes, key) + size * PrefixCount(stack, key, k)
  {
    if k > 0 {
      AddToPrefixesEffect(sizes, stack, size, k - 1, key);
      var before := AddToPrefixes(sizes, stack, size, k - 1);
      var p := Concat(stack[..k]);
      assert AddToPrefixes(sizes, stack, size, k) == before[p := Get(before, p) + size];
      if p == key {
        MulSucc(size, PrefixCount(stack, key, k - 1));
      }
    }
  }

  /** One line's effect on the state; `None` for `cd ..` at an empty stack,
      where `pop().unwrap()` panics. */
  function Step(st: State, c: Command): Option<State>
  {
    match c
    case Cd(dest) =>
      if dest == "/" then Some(State(["/"], st.sizes))
      else if dest == ".." then
        (if st.stack == [] then None else Some(State(st.stack[..|st.stack| - 1], st.sizes)))
      else Some(State(st.stack + [dest], st.sizes))
    case Ls => Some(st)
    case DirEntry => Some(st)
    case FileEntry(n) => Some(State(st.stack, AddToPrefixes(st.sizes, st.stack, n, |st.stack|)))
  }

  /** The state after a whole transcript, starting from an empty stack and
      no sizes; `None` where any line panics. */
  function Replay(lines: seq<string>): Option<State>
  {
    if lines == [] then Some(State([], map[]))
    else
      match Replay(lines[..|lines| - 1])
      case None => None
      case Some(st) =>
        match ParseLine(lines[|lines| - 1])
        case None => None
        case Some(c) => Step(st, c)
  }

  /** Entering a directory and leaving it again restores the stack, and
      moving about never changes the sizes. */
  lemma CdIntoThenUp(st: State, name: string)
    requires name != "/" && name != ".."
    ensures Step(st, Cd(name)).Some?
    ensures Step(Step(st, Cd(name)).value, Cd("..")) == Some(st)
  {
    assert (st.stack + [name])[..|st.stack|] == st.stack;
  }

  /** `cd /` forgets the whole stack: it leads to the same state from any
      stack. */
  lemma CdRootForgets(st: State, stack': seq<string>)
    ensures Step(st, Cd("/")) == Step(State(stack', st.sizes), Cd("/"))
  {
  }

  /** `cd ..` panics exactly at the empty stack, and otherwise drops one name. */
  lemma CdUp(st: State)
    ensures Step(st, Cd("..")).None? <==> st.stack == []
    ensures Step(st, Cd("..")).Some? ==> |Step(st, Cd("..")).value.stack| == |st.stack| - 1
  {
  }

  /** A stack whose bottom is the root and whose other names are not empty:
      then only the bottom prefix concatenates to `/`. */
  predicate Rooted(stack: seq<string>)
  {
    |stack| >= 1 && stack[0] == "/" && forall i :: 1 <= i < |stack| ==> stack[i] != ""
  }

  lemma {:induction false} ConcatLong(stack: seq<string>, k: nat)
    requires Rooted(stack) && 2 <= k <= |stack|
    ensures |Concat(stack[..k])| >= 2
  {
    if k == 2 {
      assert stack[..2][..1] == [stack[0]];
      assert Concat(stack[..1]) == Concat([]) + stack[0];
    } else {
      ConcatLong(stack, k - 1);
      assert stack[..k][..k - 1] == stack[..k - 1];
    }
  }

  lemma {:induction false} RootPrefixCount(stack: seq<string>, k: nat)
    requires Rooted(stack) && 1 <= k <= |stack|
    ensures PrefixCount(stack, "/", k) == 1
  {
    if k == 1 {
      assert stack[..1][..0] == [];
      assert Concat(stack[..1]) == Concat([]) + stack[0];
    } else {
      RootPrefixCount(stack, k - 1);
      ConcatLong(stack, k);
    }
  }

  /** The sizes of all file lines of a transcript, summed. */
  function FileTotal(lines: seq<string>): nat
  {
    if lines == [] then 0
    else
      FileTotal(lines[..|lines| - 1]) +
      match ParseLine(lines[|lines| - 1])
      case Some(FileEntry(n)) => n
      case _ => 0
  }

  /** Every file line of the transcript is met with a rooted stack. */
  ghost predicate FilesRooted(lines: seq<string>)
  {
    forall k :: 0 <= k < |lines| && IsFileLine(lines[k]) ==>
      Replay(lines[..k]).Some? && Rooted(Replay(lines[..k]).value.stack)
  }

  predicate IsFileLine(line: string)
  {
    ParseLine(line).Some? && ParseLine(line).value.FileEntry?
  }

  /** The last line's step, spelled out. */
  lemma ReplaySnoc(lines: seq<string>)
    requires lines != []
    ensures Replay(lines) ==
              match Replay(lines[..|lines| - 1])
              case None => None
              case Some(st) =>
                match ParseLine(lines[|lines| - 1])
                case None => None
                case Some(c) => Step(st, c)
  {
  }

  lemma FilesRootedInit(lines: seq<string>)
    requires lines != [] && FilesRooted(lines)
    ensures FilesRooted(lines[..|lines| - 1])
  {
    var init := lines[..|lines| - 1];
    forall k | 0 <= k < |init| && IsFileLine(init[k])
      ensures Replay(init[..k]).Some? && Rooted(Replay(init[..k]).value.stack)
    {
      assert init[..k] == lines[..k];
      assert init[k] == lines[k];
    }
  }

  /** One line adds to the entry for `/` the size of the file it lists, if
      any, provided a file line meets a rooted stack. */
  lemma RootStep(st: State, line: string)
    requires ParseLine(line).Some? && Step(st, ParseLine(line).value).Some?
    requires IsFileLine(line) ==> Rooted(st.stack)
    ensures Get(Step(st, ParseLine(line).value).value.sizes, "/") ==
              Get(st.sizes, "/") + (if IsFileLine(line) then ParseLine(line).value.size else 0)
  {
    var c := ParseLine(line).value;
    if c.FileEntry? {
      AddToPrefixesEffect(st.sizes, st.stack, c.size, |st.stack|, "/");
      RootPrefixCount(st.stack, |st.stack|);
    }
  }

  /** When every file is listed from a rooted stack, the entry for `/` is the
      total size of all files: the figure `gold` calls the used space. */
  lemma {:induction false} RootHoldsTotal(lines: seq<string>)
    requires Replay(lines).Some? && FilesRooted(lines)
    ensures Get(Replay(lines).value.sizes, "/") == FileTotal(lines)
  {
    if lines != [] {
      var n := |lines|;
      var init := lines[..n - 1];
      var last := lines[n - 1];
      ReplaySnoc(lines);
      FilesRootedInit(lines);
      RootHoldsTotal(init);
      var st := Replay(init).value;
      assert IsFileLine(last) ==> Rooted(st.stack) by {
        assert IsFileLine(lines[n - 1]) ==> Rooted(Replay(lines[..n - 1]).value.stack);
      }
      RootStep(st, last);
      assert FileTotal(lines) == FileTotal(init) + (if IsFileLine(last) then ParseLine(last).value.size else 0);
    }
  }

  /** A panic ends the replay: once a prefix panics, so does the whole
      transcript. */
  lemma {:induction false} PanicStays(lines: seq<string>, k: nat)
    requires k <= |lines| && Replay(lines[..k]).None?
    ensures Replay(lines).None?
    decreases |lines| - k
  {
    if k < |lines| {
      assert lines[..k + 1][..k] == lines[..k];
      ReplaySnoc(lines[..k + 1]);
      PanicStays(lines, k + 1);
    } else {
      assert lines[..k] == lines;
    }
  }

  /** The line at `i` panics after the replay of the lines before it. */
  lemma PanicAt(lines: seq<string>, i: nat)
    requires i < |lines| && Replay(lines[..i]).Some?
    requires ParseLine(lines[i]).None? || Step(Replay(lines[..i]).value, ParseLine(lines[i]).value).None?
    ensures Replay(lines).None?
  {
    assert lines[..i + 1][..i] == lines[..i];
    ReplaySnoc(lines[..i + 1]);
    PanicStays(lines, i + 1);
  }

  /** The `silver` filter: entries of at most 100000. */
  const SmallLimit: nat := 100_000

  ghost function SmallPart(sizes: map<string, nat>): string -> int
  {
    key => if key in sizes && sizes[key] <= SmallLimit then sizes[key] else 0
  }

  /** `silver`: the entries of at most 100000, summed in the map's own
      order. */
  method Silver(sizes: map<string, nat>) returns (total: nat)
    ensures total == SetSum(sizes.Keys, SmallPart(sizes))
    ensures total <= SmallLimit * |sizes.Keys|
  {
    total := 0;
    var rest := sizes.Keys;
    while rest != {}
      invariant rest <= sizes.Keys
      invariant total + SetSum(rest, SmallPart(sizes)) == SetSum(sizes.Keys, SmallPart(sizes))
      decreases |rest|
    {
      var key :| key in rest;
      SetSumRemove(rest, SmallPart(sizes), key);
      if sizes[key] <= SmallLimit {
        total := total + sizes[key];
      }
      rest := rest - {key};
    }
    SetSumBounds(sizes.Keys, SmallPart(sizes), 0, SmallLimit);
  }

  const DiskSize: nat := 70_000_000
  const NeededSize: nat := 30_000_000

  /** `gold` can name a directory: `/` has an entry, and the used space plus
      the needed space reaches the disk size, so that the target does not
      underflow. */
  predicate GoldDefined(sizes: map<string, nat>)
  {
    "/" in sizes && sizes["/"] + NeededSize >= DiskSize
  }

  /** The least space to free so that the update fits. */
  function Target(sizes: map<string, nat>): nat
    requires GoldDefined(sizes)
  {
    sizes["/"] + NeededSize - DiskSize
  }

  /** `gold`: the smallest entry of at least the target; `None` where
      `unwrap` panics or the target underflows. */
  method Gold(sizes: map<string, nat>) returns (smallest: Option<nat>)
    ensures smallest.Some? <==> GoldDefined(sizes)
    ensures smallest.Some? ==>
              smallest.value in sizes.Values && smallest.value >= Target(sizes) &&
              forall key :: key in sizes && sizes[key] >= Target(sizes) ==> smallest.value <= sizes[key]
  {
    if "/" !in sizes {
      return None;
    }
    var used := sizes["/"];
    if used + NeededSize < DiskSize {
      return None;
    }
    var target := used + NeededSize - DiskSize;
    var best := used;
    var rest := sizes.Keys;
    while rest != {}
      invariant rest <= sizes.Keys
      invariant best in sizes.Values && best >= target
      invariant forall key :: key in sizes && key !in rest && sizes[key] >= target ==> best <= sizes[key]
      invariant best <= used
      decreases |rest|
    {
      var key :| key in rest;
      if sizes[key] >= target && sizes[key] < best {
        best := sizes[key];
      }
      rest := rest - {key};
    }
    return Some(best);
  }

  /** `gold` fails only for lack of space to find: the entry for `/` always
      passes the filter, so the minimum is never taken over nothing. */
  lemma GoldUnderflow(sizes: map<string, nat>)
    requires "/" in sizes
    ensures GoldDefined(sizes) <==> sizes["/"] >= DiskSize - NeededSize
    ensures GoldDefined(sizes) ==> sizes["/"] >= Target(sizes)
  {
  }

  /** The file line's inner loop. */
  method AddFile(stack: seq<string>, sizes: map<string, nat>, size: nat) returns (sizes': map<string, nat>)
    ensures sizes' == AddToPrefixes(sizes, stack, size, |stack|)
  {
    sizes' := sizes;
    for i := 0 to |stack|
      invariant sizes' == AddToPrefixes(sizes, stack, size, i)
    {
      var key := Concat(stack[..i + 1]);
      var prev := if key in sizes' then sizes'[key] else 0;
      sizes' := sizes'[key := prev + size];
    }
  }

  /** The line loop of `silver_and_gold`: `dir_stack` and `sizes` updated
      line by line; `None` where a line panics. */
  method Browse(lines: seq<string>) returns (r: Option<State>)
    ensures r == Replay(lines)
  {
    var dirStack: seq<string> := [];
    var sizes: map<string, nat> := map[];
    for i := 0 to |lines|
      invariant Replay(lines[..i]) == Some(State(dirStack, sizes))
    {
      assert lines[..i + 1][..i] == lines[..i];
      var line := lines[i];
      if Text.StartsWith(line, "$ cd") {
        if |line| < 5 {
          PanicAt(lines, i);
          return None;
        }
        var dest := line[5..];
        if dest == "/" {
          dirStack := ["/"];
        } else if dest == ".." {
          if dirStack == [] {
            PanicAt(lines, i);
            return None;
          }
          dirStack := dirStack[..|dirStack| - 1];
        } else {
          dirStack := dirStack + [dest];
        }
      } else if Text.StartsWith(line, "$ ls") {
      } else {
        var parts := Text.SplitOnce(line, ' ');
        if parts.None? {
          PanicAt(lines, i);
          return None;
        }
        var size := parts.value.0;
        if size != "dir" {
          var n := Text.ParseUsize(size);
          if n.None? {
            PanicAt(lines, i);
            return None;
          }
          sizes := AddFile(dirStack, sizes, n.value);
        }
      }
    }
    assert lines[..|lines|] == lines;
    return Some(State(dirStack, sizes));
  }

  /** `silver_and_gold`: both answers from the final sizes, or `None` where
      the transcript or the gold query panics. */
  method SilverAndGold(lines: seq<string>) returns (answer: Option<(nat, nat)>)
    ensures answer.Some? <==> Replay(lines).Some? && GoldDefined(Replay(lines).value.sizes)
    ensures answer.Some? ==>
              var sizes := Replay(lines).value.sizes;
              answer.value.0 == SetSum(sizes.Keys, SmallPart(sizes)) &&
              answer.value.1 >= Target(sizes) && answer.value.1 in sizes.Values &&
              forall key :: key in sizes && sizes[key] >= Target(sizes) ==> answer.value.1 <= sizes[key]
  {
    var st := Browse(lines);
    if st.None? {
      return None;
    }
    var silver := Silver(st.value.sizes);
    var gold := Gold(st.value.sizes);
    if gold.None? {
      return None;
    }
    return Some((silver, gold.value));
  }
}
