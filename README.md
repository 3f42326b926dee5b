# Advent of Code 2022 solvers, modelled in Dafny

This project models the puzzle solvers of the `advent-2022` Rust crate:
days 1 to 10, 12 to 15 and 18.
Each day's solver is a module, `Day01` to `Day18`.
Two shared modules hold what several days use:
- `Prelude`: `Option`, `Abs`, `Sign`, `Max`, `Min` and sums over sets.
- `Text`: the decimal parsers of Rust's `str::parse` for `usize`, `isize`/`i64` and `i32`, `split_once`, `strip_prefix` and `split_ascii_whitespace`. The `i8` parser of day 18 lives in `Day18`.

Each module follows the shape of its source file:
- Pure Rust code becomes functions and lemmas.
- Loops that update variables become methods with loop invariants.
- A loop method is proved against a recursive specification function.
- The properties that function should have are then proved as lemmas.

Some entities are objects updated in place in the source, and they are classes here:
- the tree grid of day 8, whose cells are marked one by one;
- the rope of day 9, whose knot array is updated in place;
- the CPU of day 10;
- the grain of sand of day 14.

The source reads an embedded input and prints its answers.
The model replaces both: an operation takes the input lines (or the already parsed values) as a parameter and returns its answer.
Where the source panics (`unwrap` on `None`/`Err`, an empty `pop`, an index out of range, an unsigned underflow), the model returns `None`.

## Model

| member | source | states |
|---|---|---|
| Day01.Silver | src/day01.rs:3-21 | The answer is the largest sum among the groups closed by a blank line, or 0 if there is none. It is `None` exactly when some line is neither blank nor an `i32`. |
| Day01.ScanFailurePersists | src/day01.rs:16-19 | Once a line fails to parse, the whole input fails. |
| Day01.PopMax | src/day01.rs:48 | `BinaryHeap::pop` returns a largest member and removes one copy of it. It returns `None` exactly on an empty heap. |
| Day01.SumTopThree | src/day01.rs:46-49 | Three pops succeed exactly when the heap holds at least three sums, and their total is the sum of three top members. |
| Day01.ThreePopsAreTopThree | src/day01.rs:46-49 | Three successive pops of the largest member yield `a >= b >= c`, and no member left in the heap exceeds `c`. |
| Day01.MultisetHasMax | src/day01.rs:48 | A non-empty heap has a largest member, so `pop` has something to return. |
| Day01.PoppedSize | src/day01.rs:48 | A pop takes exactly one member out of the heap. |
| Day01.PopThree | src/day01.rs:47-49 | Three pops take exactly the three popped values out of the heap. |
| Day01.Gold | src/day01.rs:27-49 | Every closed group's sum is pushed. The answer is `None` on a bad line or fewer than three groups; otherwise it is the sum of the three largest. |
| Day02.WinsFollowsRules | src/day02.rs:13-24 | `wins` is Draw exactly for equal hands, Win exactly against the hand the rules say `me` beats, and Lose otherwise. |
| Day02.WinsAntisymmetric | src/day02.rs:13-24 | For two different hands, exactly one of `wins(a, b)` and `wins(b, a)` is Win, and neither is Draw. |
| Day02.Score | src/day02.rs:26-32 | A hand scores between 1 and 3. |
| Day02.OutcomeScore | src/day02.rs:72-76 | An outcome scores 0, 3 or 6. |
| Day02.ParseHand | src/day02.rs:38-45 | A/X read as Rock, B/Y as Paper and C/Z as Scissors, each if and only if; anything else is an error. |
| Day02.ParseOutcome | src/day02.rs:51-58 | X reads as Lose, Y as Draw and Z as Win, each if and only if; anything else is an error. |
| Day02.Choose | src/day02.rs:100-112 | The hand gold picks gives the wanted outcome against the opponent's hand. |
| Day02.ChooseUnique | src/day02.rs:100-112 | No other hand gives that outcome. |
| Day02.SilverRound | src/day02.rs:70-78 | A silver round scores between 1 and 9. |
| Day02.GoldRound | src/day02.rs:93-114 | A gold round scores between 1 and 9, the same as a silver round played with the chosen hand. |
| Day02.SumSilverBounds | src/day02.rs:61-79 | The silver total over `n` rounds lies between `n` and `9n`. |
| Day02.Silver | src/day02.rs:61-82 | The loop's total is the sum of the rounds' scores, between `n` and `9n` for `n` rounds. |
| Day02.Gold | src/day02.rs:85-118 | The loop's total is the sum of the gold rounds' scores. |
| Day03.Priority | src/day03.rs:3-9 | `a`..`z` have priorities 1..26 and `A`..`Z` have 27..52. Every other item panics, exactly those. |
| Day03.PriorityRoundTrip | src/day03.rs:3-9 | The priority is one-to-one: `ItemOf` inverts it on 1..52. |
| Day03.SilverTotalFailurePersists | src/day03.rs:29 | A shared item that is not a letter on any line makes the whole silver total fail. |
| Day03.InsertAll | src/day03.rs:21-22 | The set built from a compartment holds exactly its items. |
| Day03.SumPriorities | src/day03.rs:24-29 | Summing the shared items succeeds exactly when all of them are letters, and then gives the sum of their priorities. |
| Day03.Silver | src/day03.rs:11-36 | The total is the sum, over the lines, of the priorities of the items common to both halves; `None` when such an item is not a letter. |
| Day03.GroupBadge | src/day03.rs:44-64 | The scratch sets are empty again afterwards. The badge is missing exactly when the group's lines share no item; otherwise it is the smallest shared item. |
| Day03.SmallestOf | src/day03.rs:58 | `iter().next()` on a non-empty `BTreeSet` yields its least member: one of the set, no greater than any other. |
| Day03.ChunkPriority | src/day03.rs:44-64 | One chunk of `N` lines yields its badge's priority, and the scratch sets are left empty. |
| Day03.Gold | src/day03.rs:38-68 | The total is the sum of the badge priorities of the chunks of `N` lines; `None` when a chunk shares no item or its badge is not a letter. |
| Day04.IsDisjoint | src/day04.rs:10-18 | For well-formed ranges, `is_disjoint` holds exactly when no section lies in both. |
| Day04.OverlapsFully | src/day04.rs:20-28 | For well-formed ranges, `overlaps_fully` holds exactly when every section of one range lies in the other. |
| Day04.IsDisjointSymmetric | src/day04.rs:10-18 | `is_disjoint` does not depend on the order of its arguments. |
| Day04.OverlapsFullySymmetric | src/day04.rs:20-28 | `overlaps_fully` does not depend on the order of its arguments. |
| Day04.OverlapsFullyNotDisjoint | src/day04.rs:10-28 | For well-formed ranges, one that holds the other is not disjoint from it. |
| Day04.IllFormedOverlapsAndIsDisjoint | src/day04.rs:10-28 | For the ill-formed range `5-3` and `4-4`, both tests hold at once. |
| Day04.IntoRangeRoundTrip | src/day04.rs:31-38 | Printing `a-b` and reading it back gives the range `a..b` for a non-negative `a`. |
| Day04.NegativeStartDoesNotParse | src/day04.rs:31-38 | A leading minus sign on the first bound is taken as the separator, so the line does not parse. |
| Day04.GoldCountsAtLeastSilver | src/day04.rs:40-68 | On well-formed input, silver and gold fail together, and gold counts at least as many pairs as silver. |
| Day04.Count | src/day04.rs:41-50 | The loop's count is the number of pairs that pass the test, or `None` once a line does not parse. |
| Day04.CountFailurePersists | src/day04.rs:44-45 | Once a line fails to parse, the whole count fails. |
| Day04.Silver | src/day04.rs:40-53 | The count of pairs where one range fully holds the other. |
| Day04.Gold | src/day04.rs:55-68 | The count of pairs whose ranges are not disjoint. |
| Day05.ParseMoveRoundTrip | src/day05.rs:45-52 | Reading a printed `move N from A to B` line back gives the move, with 1-based stack numbers made 0-based. |
| Day05.StackZeroDoesNotParse | src/day05.rs:50 | Stack number 0 makes the line fail, because `0 - 1` underflows a `usize`. |
| Day05.TrimStartSpec | src/day05.rs:36 | Trimming the start removes exactly the leading run of spaces and brackets. |
| Day05.TrimEndSpec | src/day05.rs:36 | Trimming the end removes exactly the trailing run of spaces and brackets. |
| Day05.CrateOfSpec | src/day05.rs:36-41 | A chunk names no crate exactly when it is all padding; otherwise its crate is its first character that is not padding. |
| Day05.CrateOfDrawing | src/day05.rs:28-41 | `[X] ` names crate `X`, and four spaces name none. |
| Day05.LoadRowEffect | src/day05.rs:28-42 | A drawing line puts the crate of chunk `i` at the bottom of stack `i` and of no other stack. It fails exactly when some crate has no stack to go to. |
| Day05.LoadRowFailurePersists | src/day05.rs:41 | Once a crate has no stack, the whole drawing line fails. |
| Day05.PlaceRow | src/day05.rs:28-42 | The chunk loop computes the stacks that the drawing line describes. |
| Day05.PopPushEffect | src/day05.rs:56-57 | One lift between two stacks moves the top crate of `from` onto `to`. It fails exactly when `from` is empty. |
| Day05.MoveSinglyEffect | src/day05.rs:55-58 | Between two different stacks, `count` lifts move the top `count` crates of `from` onto `to` in reverse order and change no other stack. They fail exactly when `from` holds fewer crates. |
| Day05.MoveSinglySameStack | src/day05.rs:55-58 | Lifting crates from a stack onto itself changes nothing. It fails only on an empty stack. |
| Day05.LiftOneByOne | src/day05.rs:55-58 | The lift loop does what `count` single lifts do. |
| Day05.MoveSinglyFailurePersists | src/day05.rs:55-58 | Once a lift fails, the whole move fails. |
| Day05.MoveBlockSameStack | src/day05.rs:117-120 | Moving a block onto its own stack leaves that stack as it was. |
| Day05.MoversAgreeOnOneCrate | src/day05.rs:55-58 | For at most one crate, the two cranes give the same result. |
| Day05.AllCratesUpdate | src/day05.rs:56-57 | Replacing one stack changes the crate multiset by exactly what that stack lost and gained. |
| Day05.PopPushKeepsCrates | src/day05.rs:56-57 | A single lift neither loses nor creates a crate. |
| Day05.MoveSinglyKeepsCrates | src/day05.rs:55-58 | The one-by-one crane neither loses nor creates a crate. |
| Day05.MoveBlockKeepsCrates | src/day05.rs:117-120 | The block crane neither loses nor creates a crate. |
| Day05.ApplyMoveKeeps | src/day05.rs:44-59 | A move by either crane keeps the number of stacks and the multiset of crates. |
| Day05.MoveSinglyLength | src/day05.rs:55-58 | The one-by-one crane keeps the number of stacks. |
| Day05.StepMovingKeepsCrates | src/day05.rs:44-59 | Once the moves have begun, a line stays in the moving phase and keeps the stacks and crates. |
| Day05.TopsOfSpec | src/day05.rs:64 | The answer has one character per stack: the top crate of each. It fails exactly when some stack is empty. |
| Day05.ProcessFailurePersists | src/day05.rs:15-61 | Once a line fails, the whole rearrangement fails. |
| Day05.Turn | src/day05.rs:16-60 | One turn of the loop: skip the stack-number line, switch phase at the empty line, then place a drawing row or carry out a move. |
| Day05.Rearrange | src/day05.rs:8-65 | The loop leaves the stacks the line-by-line specification describes, and the answer is their tops. |
| Day05.Silver | src/day05.rs:7-66 | The answer of the one-by-one crane. |
| Day05.Gold | src/day05.rs:68-129 | The answer of the block crane. |
| Day06.ElemsMembers | src/day06.rs:9 | The set that `extend` fills holds exactly the bytes of the window. |
| Day06.DistinctSnoc | src/day06.rs:8-17 | A window is pairwise distinct exactly when its shorter prefix is distinct and its last byte is new. |
| Day06.ElemsCardinality | src/day06.rs:11 | The set is never larger than the window, and the test `set.len() == N` holds exactly when the window's bytes are pairwise distinct. |
| Day06.Extend | src/day06.rs:9 | `extend` adds exactly the window's bytes to the set. |
| Day06.FirstMarker | src/day06.rs:3-18 | The reported position `i + N` ends a window of `N` distinct bytes, and no earlier window is distinct. No report means that no window is distinct. |
| Day07.ParseLineRoundTrip | src/day07.rs:9-38 | Every `cd`, `ls`, `dir` or file line the transcript can hold reads back as the same command. |
| Day07.PrefixCount | src/day07.rs:34-35 | At most `k` of the first `k` stack prefixes name a given key. |
| Day07.AddToPrefixesEffect | src/day07.rs:34-36 | A file line adds its size to the entry of every prefix of the directory stack, once per prefix naming it. It creates the entries not seen before and leaves every other entry unchanged. |
| Day07.CdIntoThenUp | src/day07.rs:18-23 | Entering a directory and then `cd ..` restores the state. |
| Day07.CdRootForgets | src/day07.rs:15-17 | `cd /` leads to the same state whatever the stack was. |
| Day07.CdUp | src/day07.rs:18-20 | `cd ..` panics exactly at an empty stack, and otherwise drops one name. |
| Day07.ConcatLong | src/day07.rs:35 | Below a rooted stack's bottom, every prefix concatenates to more than `/`. |
| Day07.RootPrefixCount | src/day07.rs:35 | In a rooted stack, exactly one prefix names `/`. |
| Day07.FilesRootedInit | src/day07.rs:9-39 | If every file line of the transcript is met with a rooted stack, so is every file line of its prefix without the last line. |
| Day07.RootStep | src/day07.rs:29-37 | A line adds its file's size to the entry for `/`, and adds nothing if it is not a file line. |
| Day07.RootHoldsTotal | src/day07.rs:34-45 | When every file is listed from below `/`, the entry for `/` is the total size of all listed files. |
| Day07.PanicStays | src/day07.rs:9-39 | Once a prefix of the transcript panics, the whole transcript panics. |
| Day07.PanicAt | src/day07.rs:19-33 | A line that does not parse, or `cd ..` at an empty stack, makes the whole transcript panic. |
| Day07.Silver | src/day07.rs:41-43 | The sum of the entries of at most 100000, which is at most 100000 per entry. |
| Day07.Gold | src/day07.rs:45-51 | `None` exactly when `/` has no entry or the target underflows. Otherwise the smallest entry of at least the target. |
| Day07.GoldUnderflow | src/day07.rs:45-51 | With an entry for `/`, gold fails exactly when `/` uses less than 40000000, and `/` itself always meets the target. |
| Day07.AddFile | src/day07.rs:34-36 | The inner loop adds a file's size to every stack prefix. |
| Day07.Browse | src/day07.rs:9-39 | The line loop leaves the stack and sizes the transcript describes, or fails where a line panics. |
| Day07.SilverAndGold | src/day07.rs:5-55 | Both answers come from the final sizes: the silver sum and the gold minimum. `None` exactly where the transcript or the gold query panics. |
| Day08.RowStartIsProduct | src/day08.rs:17 | The start of row `row` is `row * size`. |
| Day08.IndexFacts | src/day08.rs:17 | `row * size + col` lies in the grid, and `rem_euclid` and `div_euclid` recover `col` and `row` from it. |
| Day08.IndexBound | src/day08.rs:17 | The index of a cell lies inside `trees`. |
| Day08.IndexInjective | src/day08.rs:21 | Different cells have different indices, so `mark` touches only its own cell. |
| Day08.FlatFacts | src/day08.rs:142-144 | Every index of the grid is the index of the cell at `(i % size, i / size)`. |
| Day08.Cell | src/day08.rs:45-116 | The cells a sweep walks along a lane lie in the grid. |
| Day08.CellCoordinates | src/day08.rs:45-116 | Every cell is the cell of its own lane and step, for each of the four sweep directions. |
| Day08.SweepsMarkVisible | src/day08.rs:44-116 | A tree is visible from outside exactly when one of the four sweeps marks it, counting the edge trees each sweep marks first. |
| Day08.RunningMax | src/day08.rs:47-60 | `highest` is the maximum of the trees already passed, so `now > highest` holds exactly for a tree visible from that edge. |
| Day08.NothingVisibleBehindNine | src/day08.rs:57-59 | No tree behind a tree of height 9 is visible from that edge, so the `break` misses nothing. |
| Day08.DigitHeights | src/day08.rs:31-36 | Parsing keeps only ASCII digits, as heights 0 to 9, and never yields more heights than bytes. |
| Day08.Grid.FromStr | src/day08.rs:27-38 | The grid is as wide as the first line, holds the text's digits as heights, and has nothing marked. |
| Day08.Grid.N | src/day08.rs:16-18 | `n(col, row)` is the digit at row `row` and column `col`. |
| Day08.Grid.LaneN | src/day08.rs:51 | The height read at step `k` of a lane is that cell's height. |
| Day08.Grid.Mark | src/day08.rs:20-22 | `mark` flags exactly one cell and changes no height. |
| Day08.Grid.SweepCell | src/day08.rs:51-60 | Looking at a cell marks it exactly when it is visible from the sweep's edge. |
| Day08.Grid.Sweep | src/day08.rs:46-61 | One sweep marks, on its lane, exactly the trees visible from its edge, and changes no other flag and no height. |
| Day08.Grid.SweepNext | src/day08.rs:49-61 | One turn of the sweep loop keeps `highest` as the running maximum. After a 9 it may stop, having marked all it would have. |
| Day08.Grid.SweptAll | src/day08.rs:49-61 | When every cell of the sweep has been looked at, the flags are the old ones plus the trees visible from that edge. |
| Day08.Grid.NothingVisibleAfterNine | src/day08.rs:57-59 | Stopping after a tree of height 9 leaves the sweep's marks complete. |
| Day08.Grid.NothingSwept | src/day08.rs:42-45 | Before the column pass, no cell is marked. |
| Day08.Grid.ColumnsThenRows | src/day08.rs:79-82 | The row pass starts from the flags the column pass left. |
| Day08.Grid.SweepColumn | src/day08.rs:45-79 | The north and south sweeps of one column extend the marks to that column. |
| Day08.Grid.SweepRow | src/day08.rs:82-116 | The west and east sweeps of one row extend the marks to that row. |
| Day08.Grid.CountMarked | src/day08.rs:118-120 | The count is the number of marked trees. |
| Day08.FlagAtIndex | src/day08.rs:118-120 | The flag of `trees[i]` is the flag of the cell at `(i % size, i / size)`. |
| Day08.SweepAll | src/day08.rs:44-116 | After both passes, exactly the visible trees are marked and the heights are unchanged. |
| Day08.Silver | src/day08.rs:41-122 | The answer is the number of trees visible from outside the grid. |
| Day08.Ray | src/day08.rs:154-169 | The trees towards an edge, nearest first; from step `k` there are `k` of them. |
| Day08.ViewingDistance | src/day08.rs:155-157 | A tree never sees more trees than its ray holds. |
| Day08.ViewingDistanceSpec | src/day08.rs:155-157 | The trees seen are all shorter except perhaps the last, which is the first one at least as tall, or the last before the edge. |
| Day08.ViewingDistanceUnique | src/day08.rs:155-157 | Those facts pin the viewing distance down. |
| Day08.EdgeScoresZero | src/day08.rs:146-149 | A tree on the edge scores 0, so the border test's `col == size`, which never holds, changes nothing. |
| Day08.SeesEdgeIffVisible | src/day08.rs:53 | A tree sees over only shorter trees to an edge exactly when it is visible from that edge. |
| Day08.StepByPartition | src/day08.rs:134-142 | The index sets of the threads partition `1..size*size`: index `i` belongs to thread `(i - 1) % stride` alone. |
| Day08.SameResidue | src/day08.rs:142 | Two indices with the same residue that are less than `stride` apart are equal. |
| Day08.ViewAlong | src/day08.rs:154-157 | An arena holds exactly the trees seen towards its edge: the shorter ones, and the first one at least as tall if there is one. |
| Day08.ArenaIsView | src/day08.rs:155-157 | What `peeking_take_while` plus `next` leave in the arena is the ray cut at the viewing distance. |
| Day08.ScoreCell | src/day08.rs:151-177 | The product of the four arena lengths is the tree's scenic score. |
| Day08.AllScores | src/day08.rs:142-177 | There is one score per cell. |
| Day08.ScoresBelowNext | src/day08.rs:142 | After handling an index, a thread moves on by `stride` and skips no index of its own. |
| Day08.ThreadStart | src/day08.rs:142 | Thread `t` starts at `t + 1`, and no index before it is its own. |
| Day08.ResidueAfterStride | src/day08.rs:142 | Stepping by `stride` keeps the residue. |
| Day08.CornerScoresZero | src/day08.rs:126-142 | Cell `(0, 0)`, which no thread visits, scores 0, the initial maximum. |
| Day08.AllHandled | src/day08.rs:133-194 | Once every thread is done, the maximum is the best scenic score of the grid, and 0 on a grid with no cells. |
| Day08.ScoreOfIndex | src/day08.rs:142-144 | The score at index `i` is the score of the cell at `(i % size, i / size)`. |
| Day08.VisitCell | src/day08.rs:142-184 | One index: border cells are skipped, and `fetch_update` raises the maximum to at least this cell's score while it stays a score some cell has; no index of the thread below the next `step_by(stride)` index scores more. |
| Day08.OnThreadNext | src/day08.rs:142 | `step_by(stride)` keeps an index on its thread: `t + 1` plus a multiple of `stride`. |
| Day08.Thread | src/day08.rs:138-189 | A thread's loop leaves a maximum no smaller than any score of its indices, and it is a score some cell has; on a grid with no cells it leaves the maximum as it found it. |
| Day08.BestScore | src/day08.rs:126-191 | All threads together leave the best scenic score of the grid; with no cells, the initial 0. |
| Day08.Gold | src/day08.rs:124-195 | The answer is the best scenic score of the parsed grid, and 0 when the grid has no cells. |
| Day09.Follow | src/day09.rs:54-64 | A knot moves at most one step in each axis. It stays put while it touches its leader, and it touches again after the leader moves one step away. |
| Day09.FollowFrom | src/day09.rs:50-65 | Catching up keeps the number of knots. |
| Day09.StepRope | src/day09.rs:50-65 | A step keeps the number of knots. |
| Day09.FollowFromShape | src/day09.rs:50-65 | Catching up from knot `i` leaves the knots up to `i` in place. |
| Day09.FollowFromTaut | src/day09.rs:50-65 | When the leader is at most two away and every other pair touches, the followers close up and the whole rope is taut. |
| Day09.StepKeepsTaut | src/day09.rs:49-65 | A step moves the head by exactly one unit and keeps a taut rope taut. |
| Day09.OneKnotStaysPut | src/day09.rs:50 | A rope of one knot never moves, because its follower loop `0..N-1` is empty. |
| Day09.Rope.constructor | src/day09.rs:10-16 | `Rope::default()` puts `N` knots at the origin. |
| Day09.Rope.MoveAbs | src/day09.rs:21-23 | `move_abs` sets knot `i` and no other. |
| Day09.Rope.MoveDelta | src/day09.rs:26-29 | `move_delta` shifts knot `i` by the delta and moves no other. |
| Day09.Rope.Step | src/day09.rs:50-65 | The knot loop changes the array into one step of the rope. |
| Day09.ParseMotionDirections | src/day09.rs:38-46 | Only `R`, `L`, `U` and `D` parse, each to a unit step. |
| Day09.ParseMotionRoundTrip | src/day09.rs:38-46 | `R n` reads as `n` steps right, and `D n` as `n` steps down. |
| Day09.Walk | src/day09.rs:49-68 | A walk keeps the number of knots. |
| Day09.WalkShape | src/day09.rs:49-68 | A walk keeps the rope taut, only adds visited places, and records the tail's last place. |
| Day09.Simulate | src/day09.rs:37-69 | The rope keeps its `N` knots. |
| Day09.SimulateShape | src/day09.rs:33-69 | Throughout the motions, the rope keeps `N` knots and stays taut, and the origin stays visited. |
| Day09.SimulateFailurePersists | src/day09.rs:38-45 | Once a line panics, the whole simulation fails. |
| Day09.SimulatePanic | src/day09.rs:38-45 | A line that does not parse ends the simulation. |
| Day09.Travel | src/day09.rs:49-68 | The step loop does to the array and the visited set what the walk describes, with no steps for a negative count. |
| Day09.SilverAndGold | src/day09.rs:32-71 | The answer is the number of distinct places the last knot visits, or `None` where a line panics. |
| Day10.Machine.constructor | src/day10.rs:11-18 | `Machine::default()` starts at cycle 1 with X = 1. |
| Day10.ParseInstructionRoundTrip | src/day10.rs:26-38 | `noop` and `addx v` read back as themselves. |
| Day10.ParseIgnoresWords | src/day10.rs:29-37 | A line without a space is a `noop`, and the first word of a line with a space is never read. |
| Day10.ParseAll | src/day10.rs:67-68 | The program has one instruction per line. |
| Day10.Timeline | src/day10.rs:62-85 | Every program has a value of X for its first cycle. |
| Day10.TimelineEnd | src/day10.rs:70-83 | The timeline has one entry per cycle and ends at 1 plus the sum of the `addx` arguments. |
| Day10.TimelinePrefix | src/day10.rs:67-85 | Running more instructions only extends the timeline. |
| Day10.TimelineAfter | src/day10.rs:70-84 | After the first `k` instructions, X is 1 plus their `addx` sum. The second cycle of an `addx` still sees the value from before it. |
| Day10.AddxSecondCycle | src/day10.rs:74-81 | During the second cycle of an `addx`, X has not changed yet. |
| Day10.Check | src/day10.rs:40-46 | `check` samples exactly at cycles 20, 60, ..., 220, and the strength it records is `cycle * X`. |
| Day10.StrengthsAtBeyond | src/day10.rs:40-46 | Points beyond the timeline sample nothing. |
| Day10.StrengthsAtSnoc | src/day10.rs:40-46 | One more cycle adds its strength if it is a sample point, and nothing otherwise. |
| Day10.StrengthsSnoc | src/day10.rs:76-84 | One more cycle adds what `check` records for it. |
| Day10.LitSprite | src/day10.rs:48-60 | A pixel is lit exactly when its column is X - 1, X or X + 1. |
| Day10.ScreenSnoc | src/day10.rs:71-81 | One more cycle draws one more pixel. |
| Day10.Execute | src/day10.rs:70-84 | One instruction advances the machine through its cycles, and it extends the pixels and the strengths by those of the new cycles. |
| Day10.Start | src/day10.rs:63-66 | Before the loop, cycle 1 is under way with X = 1, its pixel is lit, and nothing has been sampled. |
| Day10.Line | src/day10.rs:67-85 | One round of the line loop keeps the machine, pixels and strengths in step with the program so far, or fails where the line panics. |
| Day10.SilverAndGold | src/day10.rs:62-88 | The answer is the sum of the sampled strengths, with the pixels of every cycle. `None` exactly when a line panics. |
| Day10.PanicAt | src/day10.rs:33-68 | An `addx` with an argument that is not a number makes the whole program panic. |
| Day10.PanicStays | src/day10.rs:67-68 | Once a prefix panics, the whole program panics. |
| Day12.Letters | src/day12.rs:44 | Only letters are kept, never more than the text holds. |
| Day12.HeightOf | src/day12.rs:45-55 | A letter that does not underflow has a height between 0 and 25: `S` as `a` and `E` as `z`. |
| Day12.LastIndex | src/day12.rs:46-53 | The start or end index is the last square with that letter, or 0 if there is none. |
| Day12.NewGrid | src/day12.rs:38-59 | `None` exactly when the text holds an upper-case letter other than `S` and `E`, whose `c - b'a'` underflows. Otherwise the squares are the text's letters as heights, and start and end are the last `S` and `E`. |
| Day12.AddSquare | src/day12.rs:45-55 | One letter appends its height and updates the start or end index. |
| Day12.LettersComplete | src/day12.rs:44 | Every letter of the text is kept as a square. |
| Day12.NoUnderflow | src/day12.rs:44-55 | If no kept square underflows, no letter of the text does. |
| Day12.LastIndexSnoc | src/day12.rs:46-53 | One more square becomes the last index of its letter, and leaves other letters unchanged. |
| Day12.LastIndexPrefix | src/day12.rs:46-53 | The last index depends only on the squares read so far. |
| Day12.IdxFacts | src/day12.rs:62 | `row * width + col` lies in the grid and gives back `col` and `row`. |
| Day12.CoordsOfIdx | src/day12.rs:65-67 | Every flat index is the index of `(v % width, v / width)`. |
| Day12.GetI | src/day12.rs:65-67 | `get_i(v)` is the square at index `v`. |
| Day12.WalkableMirror | src/day12.rs:71-72 | The gold rule from `a` to `b` is the silver rule from `b` to `a`. |
| Day12.NeighboursAt | src/day12.rs:70-108 | Every neighbour index lies in the grid. |
| Day12.AsVec | src/day12.rs:23-34 | `as_vec` holds at most four indices: exactly the neighbours present. |
| Day12.NeighboursSpec | src/day12.rs:70-108 | The walkable neighbours are exactly the squares above, left, right and below inside the grid that the gold rule allows. |
| Day12.NeighboursIInRange | src/day12.rs:111-115 | The neighbours of a flat index lie in the grid. |
| Day12.CountFalseSet | src/day12.rs:142-146 | Discovering a square lowers the number of undiscovered squares by one. |
| Day12.DiscoverOne | src/day12.rs:142-146 | Discovering one neighbour keeps the parent tree and the queue well formed. |
| Day12.DiscoverTree | src/day12.rs:144-145 | The new parent edge is a walkable step from a discovered square, one level deeper. |
| Day12.DiscoverQueued | src/day12.rs:143-144 | The newly queued square is discovered. |
| Day12.Discover | src/day12.rs:137-147 | After the neighbour loop every walkable neighbour of the popped square is discovered, nothing discovered is forgotten, and each newly discovered square is queued. The tree and the queue stay well formed, and each square queued is one fewer undiscovered square. |
| Day12.DiscoverNeighbour | src/day12.rs:142-146 | One neighbour ends up discovered; if it was new, it gets the popped square as its parent and is queued. |
| Day12.DiscoverGrows | src/day12.rs:142-146 | Discovering and queueing a square keeps "discovered exactly when it is the root or has a parent", and a newly discovered square is in the queue. |
| Day12.ProcessedKeeps | src/day12.rs:129-147 | After a pop and its neighbour loop, every processed square has all its neighbours discovered, and every discovered square is processed or still queued. |
| Day12.BreadthFirstSearch | src/day12.rs:118-151 | The search ends. The root has no parent, and every parent edge is a walkable step one level deeper, so following parents never cycles. If it stops early, it stopped at a square of height 0 that the tree reaches. Otherwise the squares the tree reaches are closed under walkable steps, so every square reachable from the root is the root or has a parent. |
| Day13.Size | src/day13.rs:10-58 | Every packet has size at least 1, the measure that makes the recursion end. |
| Day13.SumSizes | src/day13.rs:28-31 | Each item of a list is no larger than the list's items together. |
| Day13.SizeWrapped | src/day13.rs:44-55 | Wrapping a number in a one-element list adds exactly one to its size. |
| Day13.CompareRecursive | src/day13.rs:10-58 | The zipped loop and the wrapping cases compute the recursive packet order. |
| Day13.OrderListsFirstDecided | src/day13.rs:28-41 | Two lists are settled by their first decided zipped pair; when every pair ties, the shorter list is in order. |
| Day13.OrderReflexive | src/day13.rs:10-58 | No packet is ordered against itself. |
| Day13.OrderListsReflexive | src/day13.rs:23-42 | No list is ordered against itself. |
| Day13.OrderAntisymmetric | src/day13.rs:10-58 | Swapping two packets swaps in order and out of order, and keeps an undecided pair undecided. |
| Day13.OrderListsAntisymmetric | src/day13.rs:23-42 | Swapping two lists flips their order. |
| Day13.Comparator | src/day13.rs:94-98 | The sort comparator says `Less` exactly for pairs in order and `Greater` exactly for pairs out of order. |
| Day13.ComparatorAntisymmetric | src/day13.rs:89-99 | The comparator is antisymmetric and calls every packet equal to itself, as `sort_unstable_by` requires. |
| Day13.Silver | src/day13.rs:60-80 | The answer is the sum of the 1-based indices of the pairs in order. |
| Day13.SilverSwapped | src/day13.rs:60-80 | The silver sums of the pairs and of the swapped pairs, plus the undecided indices, add up to `1 + 2 + ... + n`. |
| Day13.Rank | src/day13.rs:102-103 | A divider's rank, 1 plus the number of packets ordered strictly before it, lies between 1 and the number of packets plus 1. |
| Day13.DividersInOrder | src/day13.rs:85 | `[[2]]` sorts before `[[6]]`. |
| Day13.RankCounts | src/day13.rs:102-103 | A packet ordered before a divider pushes its position past 1. |
| Day13.Gold | src/day13.rs:82-106 | The decoder key, the product of the two dividers' positions, is at least 2, since `[[6]]` comes after `[[2]]`. |
| Day14.RangeInclusive | src/day14.rs:7-17 | The range runs from `a` to `b`, both included, upwards or downwards, with `|a - b| + 1` values. |
| Day14.RangeInclusiveSpec | src/day14.rs:7-17 | The range holds exactly the numbers between its ends, each once. |
| Day14.VerticalSegment | src/day14.rs:67-72 | A vertical segment puts a rock on every point of its column between its ends, and nowhere else. |
| Day14.FillSegment | src/day14.rs:68-72 | The two range loops add exactly the points of the segment to the rocks. |
| Day14.FillColumn | src/day14.rs:69-71 | The inner loop adds the rocks at `x` for every `y` of the range. |
| Day14.FillPaths | src/day14.rs:59-74 | The path loops add exactly the segments between consecutive vertices of every path. |
| Day14.NewCave | src/day14.rs:36-50 | `None` exactly for fewer than two rocks, where `minmax_by_key` reaches `unreachable!`. Otherwise the bounds are the least and greatest rock `x`, and the abyss is at the lowest rock row. |
| Day14.LowestY | src/day14.rs:42 | A non-empty rock set has a lowest rock row. |
| Day14.LowestYUnique | src/day14.rs:42 | The lowest rock row is unique. |
| Day14.FromPaths | src/day14.rs:56-77 | The cave holds the rocks of all paths, with the source at (500, 0) and the abyss below the lowest rock. It fails for fewer than two rocks. |
| Day14.TickSpec | src/day14.rs:87-121 | A moving grain falls one row, straight down or else diagonally left or right, to the first point that is not rock. It never moves onto or through an infinite floor. It rests exactly when all three points are rock or the floor is right below. |
| Day14.Sand.constructor | src/day14.rs:133 | A new grain starts where it is put. |
| Day14.Sand.Simulate | src/day14.rs:87-121 | `simulate` moves the grain by one time step, and the reported outcome is that step's. |
| Day14.FallStaysInCone | src/day14.rs:161-175 | Over an infinite floor, a grain from the cone under the source rests in the cone, on a point that is not yet rock unless it never moved. |
| Day14.SilverSpinsAtBlockedSource | src/day14.rs:132-146 | Once a grain rests at the source, the silver loop never ends. |
| Day14.DropGrain | src/day14.rs:133-164 | One grain falls from the source until it rests, falls past the lowest rock, or underflows. |
| Day14.Silver | src/day14.rs:126-149 | Silver counts the grains that rest before the first one falls into the abyss. It crashes on a cave of fewer than two rocks. |
| Day14.SilverLoop | src/day14.rs:132-146 | The `'outer` loop counts resting grains, adding each to the rocks, until one falls into the abyss. |
| Day14.GoldRunStep | src/day14.rs:161-175 | One grain of the gold loop: a grain resting at the source ends the count at 1. Any other resting grain is counted and fills a new point of the cone, so the loop ends. |
| Day14.GoldLoop | src/day14.rs:161-175 | The gold loop counts grains until one rests at the source, that one included. |
| Day14.Gold | src/day14.rs:151-178 | Gold puts the floor two rows below the lowest rock and counts the grains until the source is blocked. |
| Day15.Manhattan | src/day15.rs:15-17 | The Manhattan distance is never negative, and it is 0 only from a point to itself. |
| Day15.ManhattanSymmetric | src/day15.rs:15-17 | The distance does not depend on the order of the points. |
| Day15.ManhattanTriangle | src/day15.rs:15-17 | The distance obeys the triangle inequality. |
| Day15.ParseSensor | src/day15.rs:31-43 | A parsed sensor's distance is the Manhattan distance to its beacon. |
| Day15.ParseCoordRoundTrip | src/day15.rs:23-29 | `x=a, y=b` reads back as the point `(a, b)`. |
| Day15.ParseSensorRoundTrip | src/day15.rs:21-43 | A sensor line reads back as its sensor, its beacon and their distance. |
| Day15.ParseAll | src/day15.rs:68 | One sensor per line, each the parse of its line. |
| Day15.ParseAllConsistent | src/day15.rs:38-42 | Every parsed sensor's distance is the distance to its beacon. |
| Day15.Reachable | src/day15.rs:73-75 | Exactly the sensors whose distance reaches row `y` are kept. |
| Day15.RangeOnSpec | src/day15.rs:85-92 | A sensor that reaches the row covers exactly the points of its range on it, and that range is well formed. |
| Day15.RowRanges | src/day15.rs:85-123 | There is one range per sensor that reaches the row. |
| Day15.CoveredByMembers | src/day15.rs:97-102 | A point is covered exactly when some range contains it. |
| Day15.CoveredBySameRanges | src/day15.rs:50 | Only which ranges there are decides the coverage, not their order. |
| Day15.RowCoverageSpec | src/day15.rs:85-123 | The row ranges cover exactly the points of the row within some sensor's distance. |
| Day15.Insert | src/day15.rs:50 | Inserting a range keeps every range and adds one. |
| Day15.SortByStart | src/day15.rs:48-50 | The sort keeps the ranges, as a permutation. |
| Day15.InsertSorted | src/day15.rs:50 | Inserting into ranges sorted by start keeps them sorted. |
| Day15.SortByStartSorted | src/day15.rs:50 | The sort orders the ranges by start. |
| Day15.MergeSorted | src/day15.rs:52-62 | The merge of at least one range is never empty. |
| Day15.MergeSortedShape | src/day15.rs:52-62 | The merge gives no more ranges than it is given. They begin at the least start, ascend by start and are apart from each other. |
| Day15.AbsorbShape | src/day15.rs:54-61 | One merge turn keeps the result ascending and apart. |
| Day15.WidenedCovers | src/day15.rs:57-58 | Widening `latest` over a `next` that overlaps it covers both. |
| Day15.AbsorbCovers | src/day15.rs:54-61 | One merge turn adds what `next` covers. |
| Day15.MergeSortedUnion | src/day15.rs:46-65 | The merge covers exactly what its input covers. |
| Day15.MergeSortedLastStart | src/day15.rs:54-58 | The last merged range starts no later than the last range merged. |
| Day15.MergeUnionStep | src/day15.rs:53-62 | One merge turn keeps the union, given that the turns before did. |
| Day15.MergeSortedWellFormed | src/day15.rs:52-62 | Merging well-formed ranges gives well-formed ranges. |
| Day15.MergeRanges | src/day15.rs:46-65 | `merge_ranges` sorts by start and then merges overlapping ranges. It panics on no ranges. |
| Day15.TouchingRowRanges | src/day15.rs:111-123 | The example's two sensors give the ranges `-5..=5` and `6..=16` on row 0. |
| Day15.TouchingReachable | src/day15.rs:114 | Both example sensors reach row 0. |
| Day15.GoldRowAsWrittenReportsCoveredHole | src/day15.rs:57 | As written, the merge leaves touching ranges apart, so gold reports a hole at `x = 6`, which the second sensor covers. With touching ranges joined there is no hole. |
| Day15.TouchingMerged | src/day15.rs:57 | As written, the two ranges stay apart; joining touching ranges makes one. |
| Day15.TouchingSorted | src/day15.rs:50 | The example ranges are already sorted. |
| Day15.RowRangesWellFormed | src/day15.rs:85-122 | Every row range is well formed. |
| Day15.MergedRowFacts | src/day15.rs:94-125 | The merged row is well formed, ascending and apart, and covers what the row ranges cover. |
| Day15.GoldRowSpec | src/day15.rs:125-133 | With touching ranges joined, the test panics exactly when no sensor reaches the row. A reported hole is a point no sensor covers, right after a covered one. A row without a hole has no gap between covered points. |
| Day15.GoldRowHole | src/day15.rs:128-131 | A reported hole `merged[0].end + 1` is covered by no sensor, and the point before it is covered. |
| Day15.GoldRowNoHole | src/day15.rs:128 | A single merged range leaves no gap in the row's coverage. |
| Day15.StartsAscendingFrom | src/day15.rs:54-61 | Merged ranges ascend by start between any two positions. |
| Day15.IntervalSize | src/day15.rs:101 | A well-formed range holds `end - start + 1` points. |
| Day15.IntervalSnoc | src/day15.rs:101 | A range is the range one shorter plus its end. |
| Day15.CoveredByBelowLast | src/day15.rs:97-102 | Ranges that are apart cover nothing right of the last range's end. |
| Day15.SumLengthsCounts | src/day15.rs:97-102 | For well-formed ranges that are apart, the fold counts exactly the covered points. |
| Day15.BeaconsCovered | src/day15.rs:77-81 | The beacons on the row are those of the reaching sensors, and each is covered. |
| Day15.SilverCount | src/day15.rs:78-102 | The fold less the unique beacons on the row is the number of covered points that hold no beacon. |
| Day15.SilverRow | src/day15.rs:71-103 | Silver on parsed sensors counts the points of the row where no beacon can be. `None` exactly when no sensor reaches the row. |
| Day15.Silver | src/day15.rs:67-104 | Silver fails on a line that does not parse. Otherwise it gives the silver count of the row. |
| Day15.Gold | src/day15.rs:106-135 | The scan reports the first row with a hole and that hole. It reports a panic at the first row no sensor reaches. Every row before it has no hole. |
| Day18.ParseI8 | src/day18.rs:12 | A coordinate parses only within the `i8` range. |
| Day18.NoCommaInNumber | src/day18.rs:11 | A printed coordinate holds no comma, so `split(',')` cuts between coordinates. |
| Day18.ParseCubeRoundTrip | src/day18.rs:10-15 | A cube's line `x,y,z` reads back as the cube. |
| Day18.Cubes | src/day18.rs:10-15 | `None` exactly when some line does not parse; otherwise the set holds each line's cube and nothing else. |
| Day18.CountFree | src/day18.rs:29-33 | At most `k` of the first `k` face directions are free. |
| Day18.FreeFaces | src/day18.rs:20-33 | A cube has at most six free faces. |
| Day18.Silver | src/day18.rs:8-38 | The answer is the free faces summed over the cubes, in any order the set yields them, and so at most six per cube. |
| Day18.InBoundsSpec | src/day18.rs:42-56 | `in_bounds` holds exactly when each coordinate lies within its axis's bounds. |
| Day18.MinMaxBy | src/day18.rs:68-70 | On one axis, `minmax_by_key` gives a least and a greatest coordinate, each reached by some cube. |
| Day18.ComputeBounds | src/day18.rs:67-83 | Every cube lies in the bounds, and each bound is reached by a cube. |
| Day18.InBox | src/day18.rs:42-56 | A point lies in the box of the bounds exactly when it is in bounds. |
| Day18.AirPathExtend | src/day18.rs:125-132 | A path through air extends to a neighbour that is not a cube. |
| Day18.ClosedKeepsPath | src/day18.rs:116-136 | A walk through air from a closed set of cells never leaves it. |
| Day18.FrontierPopSeen | src/day18.rs:116-122 | Popping a cell already seen keeps every air neighbour of a seen cell seen or on the stack. |
| Day18.PopKeeps | src/day18.rs:116 | A cell on the stack is the popped top or stays below it. |
| Day18.FrontierExpand | src/day18.rs:122-133 | Expanding a popped cell by pushing its air neighbours keeps every air neighbour of a seen cell seen or on the stack. |
| Day18.BoxComplete | src/day18.rs:42-56 | The box holds every point in bounds, a finite set that bounds the search. |
| Day18.Escapes | src/day18.rs:112-136 | The depth-first search returns `true` exactly when air from the cell connects to a cell outside the bounds. |
| Day18.Expand | src/day18.rs:122-133 | Expanding a new in-bounds cell marks it seen, keeps the stack below it, and pushes all its air neighbours. |
| Day18.EscapedThrough | src/day18.rs:117-120 | A walk to a cell out of bounds shows that the air escapes. |
| Day18.Enclosed | src/day18.rs:136 | A search that ran out of cells, all of them in bounds, shows a pocket the air cannot escape. |
| Day18.PushAir | src/day18.rs:125-132 | The cells pushed are exactly the air neighbours of the popped cell: every neighbour not in the grid is pushed, every pushed cell is such a neighbour, and each gets a walk through air. |
| Day18.CountExterior | src/day18.rs:100-137 | Gold never counts more of a cube's faces than are free. |
| Day18.ExteriorFaces | src/day18.rs:100-137 | A face touching a cube never counts. A face touching air counts exactly when that air escapes the bounds. |
| Day18.Gold | src/day18.rs:58-143 | `None` exactly for fewer than two cubes, where `minmax_by_key` reaches `unreachable!`. Otherwise the bounds are the cubes' extremes, and the answer is the number of faces through which air escapes. |
| Day18.GoldAtMostSilver | src/day18.rs:8-143 | Gold never counts more faces than silver. |
| Prelude.Abs | src/day09.rs:58 | `abs()` gives `x` or `-x`, never negative. |
| Prelude.Sign | src/day09.rs:60-61 | `signum()` is -1, 0 or 1, and multiplying by it gives the absolute value. |
| Prelude.SetSumRemove | src/day18.rs:19-35 | A sum over a set does not depend on the order in which a loop visits the elements. |
| Prelude.SetSumBounds | src/day18.rs:19-35 | A sum of values between `lo` and `hi` lies between `lo` and `hi` times the size. |
| Prelude.SetSumMonotone | src/day18.rs:89-140 | A sum over a set grows with its summand. |
| Text.ParseUnsigned | src/day07.rs:33 | `parse::<usize>` accepts exactly an optional `+` followed by one or more digits. |
| Text.ParseUsize | src/day05.rs:48 | A parsed `usize` is below 2^64. |
| Text.ParseIsize | src/day09.rs:39 | A parsed `i64` or `isize` lies in the 64-bit signed range. |
| Text.ParseI32 | src/day01.rs:16 | A parsed `i32` lies in the 32-bit signed range and is the decimal value of the text. |
| Text.NatToString | src/day07.rs:33 | A printed natural number is a non-empty string of digits. |
| Text.ParseUnsignedRoundTrip | src/day07.rs:33 | Parsing a printed natural number gives it back. |
| Text.ParseUsizeRoundTrip | src/day05.rs:48 | Parsing a printed `usize` gives it back. |
| Text.ParseSignedRoundTrip | src/day04.rs:35-36 | Parsing a printed integer gives it back. |
| Text.ParseNegative | src/day04.rs:35-36 | A minus sign followed by digits parses as the negative number. |
| Text.SplitOnceSpec | src/day04.rs:32 | `split_once` fails exactly when the separator is absent, and otherwise cuts the text around its first separator. |
| Text.SplitOnceAt | src/day04.rs:32 | Text with no separator before a given one is cut exactly there. |
| Text.WordLength | src/day05.rs:45 | A word is never longer than the text. |
| Text.WordsJoin | src/day05.rs:45 | `split_ascii_whitespace` undoes joining words with single spaces. |
| Text.StripPrefix | src/day15.rs:32-33 | `strip_prefix` succeeds exactly when the text starts with the prefix, and gives the rest. |
| Text.SplitOnceStrAt | src/day15.rs:24-31 | A separator of several characters is found at its first occurrence. |

## Left out

- The text of days 3, 8 and 12 is read as characters (`char`), where the source indexes bytes (`line.len()` and `line[..len / 2]` in src/day03.rs:19-22, the first line's `len()` in src/day08.rs:28, `as_bytes()` in src/day12.rs:44); the two agree only on ASCII input, and the panic of `line[..len / 2]` inside a multi-byte character is not modelled.
- Day 11 (the monkeys) is not part of this model.
- Reading the embedded input, printing the answers and `main.rs` are not modelled: each operation takes its input as a parameter and returns its answers.
- Day13.Silver: takes the packets already parsed; the `miniserde` JSON parser and the grouping of lines by `chunks(3)` are not modelled.
- Day13.Gold: states only that each divider's rank is at least 2 and what the rank counts; `sort_unstable` is modelled by ranking, and the transitivity of the packet order is not proved.
- Day13.Rank: counts only the packets ordered strictly before a divider; a packet that compares `Equal` to it (such as `[2]` against `[[2]]`) may land on either side of it in `sort_unstable_by`, so the source's position can be larger than the rank.
- Day14.FromPaths: takes the rock paths already parsed into vertices; the text parsing of `x,y -> x,y` is not modelled.
- Day14.Silver: runs on a `fuel` bound, because the source loop need not end (a blocked source spins forever, shown by `Day14.SilverSpinsAtBlockedSource`).
- Day08.Gold: the `stride` scoring threads (`available_parallelism`, a parameter here) run one after another; thread interleaving, `Arc` and the atomic maximum are not modelled, and only the final maximum is.
- Day08.Silver: requires the input to be a square grid of digit lines, the shape the source assumes when it indexes by `size`.
- Day12.BreadthFirstSearch: requires a grid whose squares fill width × height and a root inside it; it does not prove that each depth is the shortest, nor that a square is queued at most once.
- `path_find`, the path printing and the `COUNT` constant of day 12 are not modelled.
- Day06.FirstMarker: requires a window length of at least 1, because `windows(0)` panics; the length is a const generic in the source.
- Day09.SilverAndGold: requires at least one knot, the const generic `N` of the source; coordinates are unbounded integers, not `i64`.
- Day01.Silver: does not model `i32` overflow of a group's sum.
- Day07.SilverAndGold: does not model `usize` overflow of the directory sums; the order in which the `HashMap` is walked is abstracted by summing over a set.
- Day10.SilverAndGold: `x` and the cycle counter are unbounded integers, so the `i64` overflow of `x += val`, of `POINTS[index] * machine.x` and of `strengths.iter().sum::<i64>()`, and the failing `try_into` of a huge cycle are not modelled.
- Day10.Screen: the screen is a sequence of pixels; the newline printed every 40 pixels is not modelled.
- Day15.Silver: takes the row as a parameter where the source fixes it at 2000000, and does not model `isize` overflow.
- Day15.Gold: takes the last row as a parameter where the source fixes it at 4000000 (the column of a hole is bounded neither here nor in the source); it uses the corrected merge below.
- Day01.Gold: does not model `i32` overflow of a group's sum or of the sum of the top three.
- Day18.Silver: does not model the `i8` overflow of `cube.0 + dir.0`.
- Day03.Gold: requires a chunk length of at least 1, because `chunks(0)` panics; the length is a const generic in the source.
- Day15.SortByStart: the ranges are sorted by an insertion sort that keeps the multiset of ranges; the stability of the library sort is not modelled.
- Day18.Gold: does not model the `i8` overflow of `cube.0 + dir.0`; the order in which the `HashSet` is walked is abstracted by summing over a set.

## Findings

| source | as written | input that shows it | evidently intended | confidence | as-written member | corrected member |
|---|---|---|---|---|---|---|
| src/day15.rs:57 | Two sorted ranges are merged only when they overlap (`latest.end() >= next.start()`), so ranges that touch, such as `-5..=5` and `6..=16`, stay apart and the gap between them is reported as the distress beacon. | `Day15.TouchingSensors` on row 0: the ranges are `-5..=5` and `6..=16`, and the as-written scan reports a hole at `x = 6`, which the second sensor covers. | Merge when `latest.end() + 1 >= next.start()`, so that a reported hole is a position no sensor covers. | not executed | Day15.GoldRowAsWrittenReportsCoveredHole | Day15.GoldRowSpec |
