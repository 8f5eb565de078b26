# Advent of Code solvers, modelled in Dafny

This project models the puzzle solvers of the `aoc` repository (Rust), one
Dafny module per solver, and proves what each of them computes:

- `ButtonMachine` (2025/day10): the machine-line parser, the light toggling of a
  button press and the breadth-first search for the fewest presses.
- `Dial` (2025/day1): the `Dial` class with its `turn`, and the rotation parser.
- `LegacyDial` (day1): the two line loops of the first version of the same puzzle.
- `RepeatedIds` (2025/day2): the two invalid-ID checks and the range sum.
- `JoltageBanks` (2025/day3): the greedy choice of the largest k-digit subsequence.
- `PaperRolls` (2025/day4): the `Grid` class and its neighbour counting and peeling.
- `FreshIngredients` (2025/day5): range membership, the size of a union of ranges, and
  the database parser.
- `ColumnArithmetic` (2025/day6): operators, the column folds and the
  character-column problems.
- `Tachyons` (2025/day7): one row of beam splitting.
- `Circuits` (2025/day8): distances, sorted connections, circuit merging and the
  size queries.
- `TileGeometry` (2025/day9): rectangle area, interior test, segment intersection,
  the polygon's edges and the enclosure scan.
- `DevicePaths` (2025/day11): the device parser and the memoised path count.
- `PresentPacking` (2025/day12): shape transforms, collision-checked placement,
  placement enumeration, the quick checks and the search.

Shared modules:

- `Wrappers` holds `Option` and `Result`.
- `Text` holds splitting, joining, trimming and number parsing with Rust's `parse` rules.
- `Numbers` holds `Min`, `Max` and `AbsDiff`.
- `Sorting` holds an insertion sort by comparator, proved to give a sorted permutation, and the list of
  all index pairs `i < j`.
- `MapSums` holds the sum of the values of a map.
- `Grids` holds rectangular blocks of coordinates and their sizes.

A Rust panic (`unwrap`, `panic!`, out-of-range indexing) becomes either a
precondition or a `None`/`Err` result, as noted per member. Integers are
unbounded `int`/`nat`. The points where the source subtracts in unsigned
arithmetic become preconditions.

## Model

| member | source | states |
|---|---|---|
| ButtonMachine.ParseMachine | 2025/day10/src/main.rs:12-45 | a parsed machine has two fewer buttons than its line has space-separated fields: the goal and the joltage list are not buttons |
| ButtonMachine.ParseFormatGoal | 2025/day10/src/main.rs:15-27 | parsing a goal field written with `.`/`#` inside brackets gives back exactly its lights |
| ButtonMachine.ParseFormatIndexList | 2025/day10/src/main.rs:28-38 | a bracketed, comma-separated index list parses back to the same indices |
| ButtonMachine.ParseFormatMachine | 2025/day10/src/main.rs:12-45 | parsing a written machine line gives back the machine, buttons in order |
| ButtonMachine.ToggledAt | 2025/day10/src/main.rs:48-53 | after a press, a light is flipped exactly when the button lists it an odd number of times, and the length is kept |
| ButtonMachine.PressGoalButton | 2025/day10/src/main.rs:48-53 | the in-place flipping loop computes the toggled state |
| ButtonMachine.PressTwice | 2025/day10/src/main.rs:48-53 | pressing the same button twice restores the state |
| ButtonMachine.PressesCommute | 2025/day10/src/main.rs:48-53 | the order of two presses does not matter |
| ButtonMachine.LevelIffPresses | 2025/day10/src/main.rs:56-78 | a state is in search level k exactly when some sequence of k presses from all-off produces it |
| ButtonMachine.PressEach | 2025/day10/src/main.rs:63-73 | the inner loop reports the goal if one press from the state reaches it; otherwise it enqueues each new state once and marks it visited |
| ButtonMachine.ExpandFrontier | 2025/day10/src/main.rs:61-74 | one level of the search: it finds the goal one press away, or collects every unvisited state one press from the frontier |
| ButtonMachine.FrontierAdvance | 2025/day10/src/main.rs:61-76 | the next frontier holds exactly the states first reached at the next level, and the visited set is everything reached so far |
| ButtonMachine.NumGoalPresses | 2025/day10/src/main.rs:56-78 | the answer is at least 1 and is the length of the shortest non-empty press sequence that lights exactly the goal |
| Dial.Dial.constructor | 2025/day1/src/main.rs:9-17 | a new dial points at 50 with both counters at 0 |
| Dial.Dial.Turn | 2025/day1/src/main.rs:25-66 | the new position is the old position plus or minus the amount, mod 100; stops grow by one exactly when it lands on 0; clicks grow by the number of multiples of 100 passed or landed on, not counting the start |
| Dial.ZeroClicksClosed | 2025/day1/src/main.rs:35-65 | the click count in closed form: q/100 for a move right from p to q; for a move left, the number of multiples of 100 in [q, p), so the starting position is never counted; an empty move clicks once exactly when it sits on 0 |
| Dial.LandingIsClick | 2025/day1/src/main.rs:48-65 | a move that ends on a multiple of 100 counts at least one click, so a landing is never missed |
| Dial.FullTurns | 2025/day1/src/main.rs:35-59 | n whole turns either way click 0 exactly n times |
| Dial.ParseRotation | 2025/day1/src/main.rs:69-75 | a rotation is produced exactly when the line starts with `L` or `R` |
| Dial.ParseFormatRotation | 2025/day1/src/main.rs:69-75 | writing a rotation as `L<n>`/`R<n>` and parsing it gives it back |
| LegacyDial.Part1Line | day1/src/main.rs:12-32 | one line moves the position by the signed amount (left negative, a direction other than `L`/`R` not at all) and normalises it into [0, 100) |
| LegacyDial.Part1 | day1/src/main.rs:8-36 | starting at 50, the count is the number of lines after which the dial points at 0 |
| LegacyDial.Part2Line | day1/src/main.rs:49-84 | one line of part 2 gives the same position and counts the same clicks on 0 as a turn of the 2025 dial |
| LegacyDial.Part2 | day1/src/main.rs:44-85 | the total is the sum over the lines of each move's clicks on 0 |
| LegacyDial.StopsAtMostClicks | day1/src/main.rs:65-84 | part 2's answer is never below part 1's |
| RepeatedIds.IsInvalidPart1 | 2025/day2/src/main.rs:4-17 | an odd-length number is never invalid |
| RepeatedIds.Part1IffDoubled | 2025/day2/src/main.rs:4-17 | part-1 invalid exactly when the decimal string is some x written twice |
| RepeatedIds.IsInvalidPart2 | 2025/day2/src/main.rs:51-62 | invalid exactly when, for some i in 1..len/2, the first i digits repeated len/i times give the string; a single digit is never invalid |
| RepeatedIds.RepeatsPrefixIffBlocks | 2025/day2/src/main.rs:51-62 | the loop's test holds exactly when the string is some block repeated at least twice |
| RepeatedIds.Part1ImpliesPart2 | 2025/day2/src/main.rs:51-62 | every part-1 invalid id is part-2 invalid |
| RepeatedIds.InvalidSumForRange | 2025/day2/src/main.rs:19-27 | the sum of the invalid values in [start, end], and 0 when end < start |
| RepeatedIds.InvalidSumSplit | 2025/day2/src/main.rs:19-27 | the range sum splits at any midpoint |
| RepeatedIds.Part1SumAtMostPart2 | 2025/day2/src/main.rs:19-27 | on ranges of non-negative ids, the part-1 sum is at most the part-2 sum |
| JoltageBanks.GetNum | 2025/day3/src/main.rs:4-10 | the smallest index in [minIdx, maxIdx] holding the digit, or `None` when no index in that window holds it |
| JoltageBanks.MaxJoltageHelper | 2025/day3/src/main.rs:12-35 | a result is a k-digit number (below 10^k); 0 digits give `Some(0)` |
| JoltageBanks.HelperSound | 2025/day3/src/main.rs:12-35 | a result is the value of some k digits at increasing indices from minIdx |
| JoltageBanks.HelperMaximal | 2025/day3/src/main.rs:16-33 | whenever some k digits can be picked in order, there is a result and it is at least the value of every such pick |
| JoltageBanks.AllDigitsAnswered | 2025/day3/src/main.rs:12-35 | an all-digit bank with at least k characters from minIdx always has a result |
| JoltageBanks.HelperIsMaximum | 2025/day3/src/main.rs:12-35 | the result is exactly the maximum over all in-order k-digit picks |
| JoltageBanks.MaxJoltagePart1 | 2025/day3/src/main.rs:37-42 | the largest two-digit number formed by two digits in order |
| JoltageBanks.MaxJoltagePart2 | 2025/day3/src/main.rs:44-49 | the largest twelve-digit number formed by twelve digits in order |
| PaperRolls.Grid.constructor | 2025/day4/src/main.rs:9-17 | an empty grid of width and height 0 |
| PaperRolls.Grid.AddLine | 2025/day4/src/main.rs:20-27 | the row is appended and y grows by one; x is the length of the first row with a non-zero length, and never changes after that |
| PaperRolls.OffsetsAreWindow | 2025/day4/src/main.rs:30-40 | the eight offsets checked are exactly the 3-by-3 window minus its centre |
| PaperRolls.NeighbourCount | 2025/day4/src/main.rs:29-61 | the count is the number of neighbouring cells holding `@`, with out-of-grid cells counted as empty; at most 8 |
| PaperRolls.SumIsCount | 2025/day4/src/main.rs:41-59 | the fold over distinct non-centre offsets counts exactly the occupied ones |
| PaperRolls.AccessibleRow | 2025/day4/src/main.rs:63-74 | a row of the accessibility map has the row's length, and a cell is true exactly when it is `@` and has fewer than four `@` neighbours |
| PaperRolls.AccessibleCells | 2025/day4/src/main.rs:63-74 | the accessibility map has the grid's shape, and a cell is marked exactly when it is a roll with fewer than four roll neighbours |
| PaperRolls.PeelCount | 2025/day4/src/main.rs:84-95 | rewriting the marked rolls to `X` lowers the roll count by the number of marks |
| PaperRolls.PeelNothing | 2025/day4/src/main.rs:84-95 | with nothing marked, the grid is unchanged |
| PaperRolls.PeelRowInPlace | 2025/day4/src/main.rs:88-92 | the inner in-place loop rewrites exactly the marked cells of a row |
| PaperRolls.Grid.UpdateAccessible | 2025/day4/src/main.rs:84-95 | exactly the accessible rolls become `X` and all other cells are kept; it returns the number of accessible rolls, which is how much the roll count drops |
| PaperRolls.Grid.RemoveAll | 2025/day4/src/main.rs:105-112 | the removal loop terminates with no accessible roll left, and its total is the number of rolls removed |
| FreshIngredients.NumElements | 2025/day5/src/main.rs:7-10 | hi - lo + 1 is the number of IDs in the range |
| FreshIngredients.FreshRanges.constructor | 2025/day5/src/main.rs:17-19 | the ranges are stored as given |
| FreshIngredients.FreshRanges.IsFresh | 2025/day5/src/main.rs:20-22 | fresh exactly when some range contains the ID |
| FreshIngredients.CoverMember | 2025/day5/src/main.rs:20-22 | an ID is in the union of the ranges exactly when some range contains it |
| FreshIngredients.CoverPermutation | 2025/day5/src/main.rs:25-31 | sorting does not change the union |
| FreshIngredients.RangeLeTotal | 2025/day5/src/main.rs:25-31 | the comparator by start, then end, is a total preorder |
| FreshIngredients.FoldGapStep | 2025/day5/src/main.rs:40-49 | when the next range starts more than one past the hull, recording the gap between them and widening the hull keeps the fold invariant: the hull minus the gaps is the union of the ranges so far, and the gap sizes add up |
| FreshIngredients.FoldMergeStep | 2025/day5/src/main.rs:40-49 | when the next range overlaps or touches the hull, widening the hull without a new gap keeps the fold invariant |
| FreshIngredients.FoldNext | 2025/day5/src/main.rs:36-50 | one step of the fold keeps the invariant: hull minus gaps is the union of the ranges so far |
| FreshIngredients.FoldTotal | 2025/day5/src/main.rs:51-54 | after the whole fold, the hull size minus the gap sizes is the size of the union |
| FreshIngredients.FoldHull | 2025/day5/src/main.rs:32-54 | the fold's hull and gaps give the size of the union of the sorted ranges |
| FreshIngredients.FreshRanges.GetTotalFresh | 2025/day5/src/main.rs:23-55 | the ranges are left sorted by (start, end) and are a permutation of the original; the result is the number of IDs in their union |
| FreshIngredients.ParseDatabase | 2025/day5/src/main.rs:58-75 | one range for each line before the first empty line, and one ID for each line after it |
| FreshIngredients.ParseFormatDatabase | 2025/day5/src/main.rs:58-75 | reading a written database (ranges, an empty line, IDs) gives back its ranges and IDs |
| ColumnArithmetic.ParseOp | 2025/day6/src/main.rs:10-19 | `*` and `+` parse to their operators; anything else is an error naming the text |
| ColumnArithmetic.InitValIdentity | 2025/day6/src/main.rs:21-34 | `init_val` is an identity of `apply` for both operators |
| ColumnArithmetic.ReduceAppend | 2025/day6/src/main.rs:108-113 | folding a concatenation combines the folds of the parts |
| ColumnArithmetic.ColumnFoldIsReduce | 2025/day6/src/main.rs:55-62 | the row-by-row fold leaves, in slot i, column i folded with operator i from its identity |
| ColumnArithmetic.GrandTotal | 2025/day6/src/main.rs:36-64 | defined exactly when the operator line and every number parse and every row is wide enough; the answer is the sum of the column answers |
| ColumnArithmetic.Transposed | 2025/day6/src/main.rs:76-88 | there are as many columns as the shortest row, capped by the first line's length; column c holds character c of each row |
| ColumnArithmetic.TransposeLines | 2025/day6/src/main.rs:76-88 | the `zip` fold builds exactly those columns |
| ColumnArithmetic.SegmentsCount | 2025/day6/src/main.rs:89-101 | blank columns split the columns into one more run than there are blanks |
| ColumnArithmetic.ConcatSegments | 2025/day6/src/main.rs:89-101 | the runs laid end to end are exactly the non-blank columns, in order |
| ColumnArithmetic.SegmentsJoin | 2025/day6/src/main.rs:89-101 | joining the runs with blanks gives back the columns |
| ColumnArithmetic.GroupColumns | 2025/day6/src/main.rs:89-104 | the grouping fold yields the parsed runs, and keeps the last one only when it is not empty |
| ColumnArithmetic.ProblemsKeepNumbers | 2025/day6/src/main.rs:89-104 | grouping keeps every number, in column order |
| ColumnArithmetic.SumProblems | 2025/day6/src/main.rs:105-114 | problem i folded with operator i, summed |
| ColumnArithmetic.CephalopodTotal | 2025/day6/src/main.rs:66-115 | the answer is the sum of the problems' answers; `None` where the source panics |
| Tachyons.SplitterLocs | 2025/day7/src/main.rs:9-13 | exactly the columns holding `^`, increasing |
| Tachyons.Deposit | 2025/day7/src/main.rs:18-30 | an entry update adds the count at the key and changes nothing else |
| Tachyons.ArrivalsAt | 2025/day7/src/main.rs:15-33 | a column holds beams afterwards exactly when a beam reaches it, and it holds their total count |
| Tachyons.Progress | 2025/day7/src/main.rs:4-34 | the new beams are each column's arrivals (a split sends the count to both neighbours, otherwise it goes straight down); the split count grows by the number of occupied splitter columns; the total grows by the counts at splitters |
| Tachyons.StartBeams | 2025/day7/src/main.rs:40-48 | one beam with count 1 at the first `S`; `None` without an `S` |
| Circuits.DistSquared | 2025/day8/src/main.rs:7-9 | the sum of squared coordinate differences |
| Circuits.DistSquaredProperties | 2025/day8/src/main.rs:7-9 | the distance is symmetric, and 0 exactly for boxes at the same place |
| Circuits.ListPairs | 2025/day8/src/main.rs:14-18 | the nested loops push every pair i < j once, in index order |
| Circuits.GetSortedConnections | 2025/day8/src/main.rs:11-27 | n(n-1)/2 id pairs: every pair of boxes once, ordered by non-decreasing squared distance |
| Circuits.Circuits.constructor | 2025/day8/src/main.rs:105-107 | every box in its own circuit of size 1; the sizes are consistent and sum to n |
| Circuits.Circuits.MakeConnection | 2025/day8/src/main.rs:29-57 | it returns the next pair; ids already in one circuit change nothing; otherwise id2's circuit is relabelled to id1's, the sizes move over and the old size becomes 0; consistency and the total size are kept |
| Circuits.MergeConsistent | 2025/day8/src/main.rs:38-55 | after a merge each size still counts the boxes in that circuit |
| Circuits.MergeSum | 2025/day8/src/main.rs:38-44 | a merge keeps the sum of the sizes |
| Circuits.StartConsistent | 2025/day8/src/main.rs:105-107 | the starting maps are consistent and their sizes sum to the number of boxes |
| Circuits.ThreeLargestProduct | 2025/day8/src/main.rs:67-74 | the product of the first three sizes (or all of them, when fewer) of any largest-first listing; 1 for no circuits |
| Circuits.TopProductAgrees | 2025/day8/src/main.rs:67-74 | every largest-first listing gives the same product, so the tie order does not matter |
| Circuits.MoreThanOneCircuit | 2025/day8/src/main.rs:76-89 | true exactly when two different circuits have non-zero size |
| Circuits.MoreThanOneIffSplit | 2025/day8/src/main.rs:76-89 | with consistent maps, that holds exactly when the boxes are not all in one circuit |
| TileGeometry.AreaCountsTiles | 2025/day9/src/main.rs:7-9 | the area is the number of tiles in the rectangle, edges included; it is symmetric |
| TileGeometry.Area | 2025/day9/src/main.rs:7-9 | the area is at least 1 |
| TileGeometry.Adjacent | 2025/day9/src/main.rs:11-14 | true exactly when the tiles share an edge, in either order |
| TileGeometry.PointInRect | 2025/day9/src/main.rs:16-20 | strict interior for either corner order; never true for a degenerate rectangle |
| TileGeometry.LineIntersection | 2025/day9/src/main.rs:22-50 | `Some` only for orthogonal segments; for axis-aligned segments the point lies on both, and is found whenever they cross |
| TileGeometry.CrossoverPoint | 2025/day9/src/main.rs:52-67 | the first of the four edges that the segment meets gives the point, which lies on the segment and on the border; `None` where the source panics |
| TileGeometry.CrossoverFound | 2025/day9/src/main.rs:52-67 | an axis-aligned segment with one end inside and one outside always meets an edge, so it does not panic |
| TileGeometry.MaxAreaCoords | 2025/day9/src/main.rs:69-77 | every pair i < j with its area, each once, sorted largest first; the head has the largest area |
| TileGeometry.Lines | 2025/day9/src/main.rs:79-90 | n segments forming a closed loop, the first from the last point to the first |
| TileGeometry.Enclosed | 2025/day9/src/main.rs:92-140 | true exactly when no segment cuts across the rectangle and the border crossings pair up in order, each leaving next to an entering |
| DevicePaths.ParseDevice | 2025/day11/src/main.rs:9-17 | the name is the first token without its last character; the connections are the remaining tokens, in order |
| DevicePaths.ParseFormat | 2025/day11/src/main.rs:9-17 | parsing a written device line gives the device back |
| DevicePaths.Find | 2025/day11/src/main.rs:28-30 | the first device with the name, or `None` when there is none |
| DevicePaths.Paths | 2025/day11/src/main.rs:19-41 | the count is the number of paths from the device to the target; every memo entry stays correct and no entry is dropped |
| DevicePaths.PathSetMembers | 2025/day11/src/main.rs:25-40 | the paths counted are exactly the walks along connections that reach the target first at their end |
| DevicePaths.PathCountIsSize | 2025/day11/src/main.rs:25-40 | with no repeated outputs, the count is the number of such paths |
| PresentPacking.ModifyCoordAsWritten | 2025/day12/src/main.rs:19-38 | the transform as written keeps cells inside the 3-by-3 box |
| PresentPacking.FlipIsHalfTurn | 2025/day12/src/main.rs:19-38 | as written, a flipped placement equals the unflipped one turned a further half turn |
| PresentPacking.ModifyAsWrittenInjective | 2025/day12/src/main.rs:19-38 | the transform as written still moves different cells of the box to different cells |
| PresentPacking.ModifyCoord | 2025/day12/src/main.rs:19-38 | the corrected transform, with the flip as a mirror image, keeps cells inside the box |
| PresentPacking.ModifyBijective | 2025/day12/src/main.rs:19-38 | every rotation and mirror flip of the corrected transform maps the nine cells of the box one to one onto themselves |
| PresentPacking.ModifyDistinct | 2025/day12/src/main.rs:19-38 | the eight rotation and mirror-flip combinations of the corrected transform are eight different transforms |
| PresentPacking.ShapeFromLines | 2025/day12/src/main.rs:41-47 | the header line is dropped; a cell is true exactly for `#` |
| PresentPacking.ShapeFromShown | 2025/day12/src/main.rs:41-47 | reading a drawn shape gives it back |
| PresentPacking.FootprintSize | 2025/day12/src/main.rs:49-54 | a present covers as many positions as its size |
| PresentPacking.CheckCollideAndPlace | 2025/day12/src/main.rs:56-78 | each cell lands where `modify_coord` as written puts it; a collision is reported exactly when some cell of the present lands on a taken position; without one, exactly the footprint is taken; either way it only sets footprint cells |
| PresentPacking.ParseRegion | 2025/day12/src/main.rs:90-111 | the dimensions before `: `, split on `x`; the counts after it, split on spaces |
| PresentPacking.ParseFormatRegion | 2025/day12/src/main.rs:90-111 | parsing a written region gives it back |
| PresentPacking.StartState | 2025/day12/src/main.rs:189-191 | `height` rows of `length` free positions |
| PresentPacking.DefinitelyCanPack | 2025/day12/src/main.rs:175-177 | that many 3-by-3 boxes together have no more cells than the region |
| PresentPacking.PossiblePlacements | 2025/day12/src/main.rs:153-169 | the nested loops push the eight turns at every corner position, column by column |
| PresentPacking.PossiblePlacementsFacts | 2025/day12/src/main.rs:153-169 | there are 8(L-2)(H-2) placements, and a corner is used exactly when the box lies inside the region |
| PresentPacking.PresentsToAdd | 2025/day12/src/main.rs:179-187 | the loop lists each index as often as the region requires it, in index order |
| PresentPacking.ExpandedCounts | 2025/day12/src/main.rs:179-187 | index v occurs exactly `presents_required[v]` times |
| PresentPacking.ExpandedSorted | 2025/day12/src/main.rs:179-187 | the indices are non-decreasing |
| PresentPacking.SearchStep | 2025/day12/src/main.rs:128-147 | trying one placement either lets the rest fit or leaves the decision to the later placements |
| PresentPacking.CanFitHelper | 2025/day12/src/main.rs:113-150 | true exactly when the presents from the index on can be placed one after another without collision, each by one of the listed placements through the transform as written; only failing (state, index) pairs are recorded |
| PresentPacking.QuickCheckRejectsFittingRegion | 2025/day12/src/main.rs:195-201 | as written, a 3-by-3 region asked for one full 3-by-3 present is rejected, although that present fits |
| PresentPacking.QuickCheckAsWrittenAccepts | 2025/day12/src/main.rs:193-204 | as written, a count within `definitely_can_pack` is accepted unless the presents' cells exactly fill the region, which is rejected |
| PresentPacking.QuickCheckRejectSound | 2025/day12/src/main.rs:195-201 | corrected: with the strict comparison, a rejection means the presents cannot all be placed |
| PresentPacking.QuickCheckAcceptsBoxes | 2025/day12/src/main.rs:202-204 | corrected: with the strict comparison, a count within `definitely_can_pack` is always accepted |
| PresentPacking.CanFit | 2025/day12/src/main.rs:193-214 | the quick checks as written (reject when the cells add up to at least the region's size, accept when within `definitely_can_pack`), then the search from the empty region over all possible placements |
| PresentPacking.CanFitRejectSound | 2025/day12/src/main.rs:193-214 | `can_fit` answers false for presents that could all be placed only when their cells exactly fill the region |
| PresentPacking.OutcomesDiffer | 2025/day12/src/main.rs:193-214 | `can_fit` and the corrected decision differ only where the cells exactly fill the region, and there `can_fit` answers false |
| PresentPacking.CanFitRejectsFittingRegion | 2025/day12/src/main.rs:193-214 | on the 3-by-3 region with one full-box present, `can_fit` answers false, the present fits, and the corrected decision answers true |
| PresentPacking.CorrectedRejectSound | 2025/day12/src/main.rs:193-214 | corrected: with the strict rejection, the decision answers false only when the presents cannot all be placed |

## Left out

- File reading and `main` in every solver are left out, and so is the `part1`/`part2` plumbing that reads files and prints. The lines are parameters of type `seq<string>`.
- ButtonMachine: `num_joltage_presses` calls an external linear-programming solver and rounds floats. Only the equation system it builds is stated, as `SatisfiesJoltage`.
- ButtonMachine.NumGoalPresses requires that the goal is reachable by a non-empty press sequence and that every button index exists. The source loops forever when the goal is unreachable. It panics as soon as it presses a button with an index out of range, but it still answers 1 when a button listed earlier lights the goal on its own. For example, goal `[true]` with buttons `[[0],[5]]` gives 1 in the source but is outside the model.
- Dial.ParseRotation requires a non-empty line whose amount parses. The source panics otherwise.
- Dial.ParseRotation returns `None` for a line whose first character takes more than one byte; the source's `&line[0..1]` panics there, because strings are modelled as characters, not bytes.
- LegacyDial.Part1 and LegacyDial.Part2 require every line to have at least two characters and an amount that parses. The source panics otherwise.
- JoltageBanks.MaxJoltageHelper requires k <= |bank|, because the source computes `bank.len() - k` in unsigned arithmetic. The model counts `|bank|` in characters, while `len()` counts bytes; the two differ only for non-ASCII input.
- JoltageBanks.MaxJoltagePart1 and JoltageBanks.MaxJoltagePart2 require that a pick of two (or twelve) digits exists. The source panics otherwise.
- FreshIngredients.FreshRanges.GetTotalFresh requires a non-empty list and `1 <= lo <= hi` for every range. The source unwraps the first range, asserts `hi >= lo` and computes `lo - 1` in u64.
- FreshIngredients.ParseDatabase requires lines that parse. The source panics otherwise.
- ColumnArithmetic.CephalopodTotal takes the width as the first line's length in characters. The source's `len()` counts bytes, which differs only for non-ASCII input.
- Tachyons.Progress requires that no beam sits on a splitter in column 0. There the source's `loc - 1` underflows.
- Tachyons.Progress visits the beams in an arbitrary order, as `HashMap` iteration does. The result does not depend on that order.
- Circuits.Circuits.MakeConnection requires a next connection whose ids and circuit are in the maps. The source unwraps them.
- Circuits.GetSortedConnections requires at least one box. On an empty list the source panics: its capacity request `boxes.len() * boxes.len() - 1` underflows.
- Circuits.GetSortedConnections and TileGeometry.MaxAreaCoords specify the sorted result as a sorted permutation. The tie order of `sort_by` is left unspecified, and neither `sort_by` nor `combinations` is verified as library code.
- `parse_junction_box` (2025/day8) and the connection-count loop of `main` are not part of this model.
- TileGeometry.Lines requires at least one point, because the source unwraps `coords.last()`.
- TileGeometry.Enclosed requires that every segment leaving or entering the rectangle meets one of its edges. `crossover_point` panics otherwise. TileGeometry.CrossoverFound proves this for axis-aligned segments.
- DevicePaths.Paths requires an acyclic device graph, given by a ghost ranking of the names. A cycle that misses the target makes the source recurse forever. The ranking also rules out cycles through the target and cycles no path reaches, where the source still terminates; for example `you: out` and `out: you` with target `out` give 1 in the source but are outside the model.
- DevicePaths.Paths threads the memo as a value in and out, not as a `&mut` map.
- DevicePaths.PathCountIsSize needs devices that list no output twice. With repeats, the source counts a path once per repeated wire.
- PresentPacking.CheckCollideAndPlace requires a shape covering the whole 3-by-3 box and a box placed inside the state. The source panics on out-of-range indexing otherwise.
- PresentPacking.CanFit returns `None` where the source panics or indexes out of range: a required present with no shape, or a search in a region narrower or lower than 3. It also returns `None` when the search would run and any shape, required or not, is smaller than its 3-by-3 box; the source panics only when it places such a shape.
- PresentPacking.CanFitHelper threads the set of failing states as a value in and out.
- PresentPacking: `parse_input` (2025/day12/src/main.rs:219-236) is not part of this model. It groups lines into shapes and regions.
- PresentPacking.QuickCheckAcceptsBoxes and PresentPacking.QuickCheckAsWrittenAccepts: that an acceptance is right (the presents always fit) is not proved.
- Integer widths (`i32`, `u64`, `usize`, `i128`) are modelled as unbounded. Overflow is not modelled.

## Findings

| source | as written | input that shows it | evidently intended | confidence | as-written member | corrected member |
|---|---|---|---|---|---|---|
| 2025/day12/src/main.rs:21-24 | the flip maps `(i, j)` to `(2 - i, 2 - j)`, which is a half turn, so the eight placements at a position give only the four turns, each twice | any cell with rotation `NONE` and flipped `true`: it lands where rotation `HALF` unflipped puts it | a mirror image, `(i, j)` to `(2 - i, j)`, so that the eight placements are eight distinct transforms | not executed | PresentPacking.FlipIsHalfTurn | PresentPacking.ModifyDistinct |
| 2025/day12/src/main.rs:195-201 | the quick check rejects when the presents' total size is `>=` the region's size | a 3-by-3 region requiring one present that fills its 3-by-3 box: total 9 >= size 9, so it is rejected although the present fits | reject only when the total size exceeds the region's size (`>`) | not executed | PresentPacking.CanFitRejectsFittingRegion | PresentPacking.CorrectedRejectSound |

The solver members (`CheckCollideAndPlace`, `CanFitHelper`, `CanFit`) follow the code as written. The corrected transform and the corrected decision (`CorrectedOutcome`) are defined beside them, and their intended properties are proved there.
