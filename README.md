# AdventOfCodePython, modelled in Dafny

This project models the puzzle solvers of the AdventOfCodePython repository: the grid
helpers of `aoc/utils/grid.py`, the 2024 solvers for days 1 to 6 and the 2025 solvers
for days 1 to 11. Each solver module turns the puzzle text into values and computes the
two answers of its day. The model follows that shape: one Dafny module per source file
(`Grid`, `Year2024Day01` … `Year2024Day06`, `Year2025Day01` … `Year2025Day11`), plus
three shared modules:

- `Common`: `Option`, sums, products and counts.
- `Text`: `splitlines`, `split`, `strip`, `int()` and `str()` on strings.
- `Sorting`: Python's stable `sorted`.

Code that computes by expressions and comprehensions is modelled as functions and
lemmas. Code that updates variables in loops is modelled as methods with loop
invariants, proved against a function of their inputs:

- the parse loops of 2024 day 1 and 2025 day 2;
- the `enabled`/`total` loop of 2024 day 3;
- the guard walks and the obstacle index of 2024 day 6;
- the dial of 2025 day 1;
- the digit picks of 2025 day 3;
- the removal waves of 2025 day 4, on a `array2<char>` grid;
- the beam rows and the in-place `defaultdict` counts of 2025 day 7, on an `array`;
- the disjoint-set `DSU` class of 2025 day 8, with Prim's loop;
- the segment index of 2025 day 9;
- the pattern table of 2025 day 10;
- the memoised search of 2025 day 11.

What the solvers promise is proved about those functions. The properties proved include:

- the answers are the counts or the extremes the puzzles ask for;
- both directions of every "exactly when";
- permutations, not only sortedness;
- the worked examples of the repository's tests, where the proof stays small.

In 2025 day 7 part 2 the model follows the source's order of updates: the active
splitters of a row are fixed first, then moved one after the other in place, so a
splitter sees what its left neighbour has just moved onto it. On adjacent splitters this
counts more timelines than splitting them all at once would (5 instead of 4 on `.^^.`,
`Year2025Day07.AdjacentSplittersInPlace`). The puzzle statement is not part of this
model, so the model takes the code as the intended behaviour and does not report this
as a finding.

Python's failures on malformed input (`int()` errors, unpacking errors, `min` of nothing)
are `None` results. String positions and integers are unbounded, which matches Python's
integers. Python's floor division and modulo agree with Dafny's `/` and `%` for the
positive divisors the solvers use.

## Model

| member | source | states |
|---|---|---|
| Grid.InBoundsIndexes | aoc/utils/grid.py:36-38 | a cell `in_bounds` of a rectangular grid (0 ≤ y < height, 0 ≤ x < width) indexes a character of the grid |
| Grid.NonEmptyLines | aoc/utils/grid.py:43 | the filter `if line` keeps only non-empty lines, each one a line of the input, never more lines than the input |
| Grid.ParseGrid | aoc/utils/grid.py:41-43 | every row of `parse_grid` is non-empty and holds no newline |
| Grid.NonEmptyLinesKeepsAll | aoc/utils/grid.py:43 | lines that are all non-empty are kept unchanged and in their order |
| Grid.NonEmptyLinesAppend | aoc/utils/grid.py:43 | the filter works line by line: filtering two runs of lines gives the two filtered runs, in order |
| Grid.ParseGridRoundTrip | aoc/utils/grid.py:41-43 | parsing the newline-joined text of non-empty rows gives back exactly those rows |
| Grid.NonEmptyLinesSkipsGap | aoc/utils/grid.py:43 | an empty line between two runs of non-empty lines is dropped and the rest kept in order |
| Grid.ParseGridDropsEmptyLines | aoc/utils/grid.py:41-43 | a blank line in the text disappears from the grid; the rows around it stay in their order |
| Grid.StepZeroIsIdentity | aoc/utils/grid.py:63-68 | `step` with `steps = 0` leaves the cell where it was |
| Grid.StepDefaultIsUnit | aoc/utils/grid.py:63-68 | `step` with the default `steps` moves by exactly one `(dy, dx)` |
| Grid.StepCompose | aoc/utils/grid.py:63-68 | `a` steps followed by `b` steps in the same direction are `a + b` steps |
| Grid.Neighbors4 | aoc/utils/grid.py:51-54 | four cells, in the order up, right, down, left, and they are exactly the cells at Manhattan distance 1 |
| Grid.Neighbors8Cells | aoc/utils/grid.py:57-60 | `neighbors8` gives eight pairwise distinct cells, none of them `(y, x)`, and they are exactly the cells at Chebyshev distance 1 |
| Grid.DirectionTables | aoc/utils/grid.py:10-33 | `DIAGONALS` is exactly the part of `DIRECTIONS_8` with both components non-zero, and `DIRECTIONS_4` exactly the rest |
| Grid.TurnRightRotates | aoc/utils/grid.py:10-15 | in `DIRECTIONS_4`, index `d + 1 mod 4` is direction `d` turned 90° clockwise |
| Text.LinesOfJoinLines | aoc/year2024/day01.py:8 | `splitlines` of newline-joined lines that hold no newline gives those lines back |
| Text.LinesHaveNoNewline | aoc/year2024/day01.py:8 | no line produced by `splitlines` holds a newline |
| Text.ConcatLines | aoc/year2024/day01.py:8 | the lines of a text, put back together, are the text with its newlines removed |
| Text.JoinSplit | aoc/year2025/day11.py:9 | `str.split(sep)` loses nothing: re-joining the pieces with `sep` gives the text back |
| Text.Words | aoc/year2024/day01.py:9 | the pieces of `str.split()` are non-empty and hold no white space |
| Text.ConcatWords | aoc/year2024/day01.py:9 | the pieces of `str.split()`, put back together, are the text with its white space removed, so no other character is lost or added |
| Text.SpaceIndexOfRun | aoc/year2024/day01.py:9 | a word's end is found right after its last non-space character, at the next white space or the end of the text |
| Text.TrimStartSpaces | aoc/year2024/day01.py:9 | stripping the start removes leading white space and nothing more |
| Text.WordsSkipSpaces | aoc/year2024/day01.py:9 | white space in front of the text adds no word |
| Text.WordsTakeRun | aoc/year2024/day01.py:9 | a non-space run ended by white space or the end of the text is one whole word, followed by the words of the rest, so words are the maximal runs |
| Text.WordsNone | aoc/year2024/day01.py:9 | `split()` gives no words exactly when the text is all white space |
| Text.NatToString | aoc/year2025/day02.py:15 | `str(n)` is a non-empty run of decimal digits, without a leading zero unless `n` is 0, whose value is `n` |
| Sorting.SortInts | aoc/year2024/day01.py:17 | `sorted` returns a permutation of its input in ascending order |
| Sorting.SortedUnique | aoc/year2024/day01.py:17 | two ascending permutations of the same values are equal, so `sorted` is determined by the multiset of its input |
| Sorting.SortIsSorted | aoc/year2025/day08.py:50 | sorting with a total, transitive order gives a sequence ordered by it |
| Sorting.SortWith | aoc/year2025/day08.py:50 | sorting with a key is a permutation of its input |
| Common.CountMultiset | aoc/year2024/day01.py:23-24 | the number of occurrences that `Counter` reports for a value is its multiplicity in the list |
| Common.CountSnoc | aoc/year2024/day01.py:23-24 | one more entry adds one to the count of its value and leaves every other count |
| Text.NonBlankMembers | aoc/year2025/day09.py:8 | the `if line.strip()` filter keeps exactly the lines that are not all whitespace |
| Year2024Day01.ParsedLines | aoc/year2024/day01.py:8-9 | one parse result per input line, in line order |
| Year2024Day01.Unzip | aoc/year2024/day01.py:7-12 | the two columns exist exactly when every line parses; then they have one entry per line and entry `i` of each column comes from line `i` |
| Year2024Day01.Parse | aoc/year2024/day01.py:6-12 | the appending loop returns exactly the two columns of the input, or nothing when a line does not unpack into two integers |
| Year2024Day01.TotalDistancePermutation | aoc/year2024/day01.py:17-18 | part 1 (Σ \|sorted R[i] − sorted L[i]\|) is unchanged by any reordering of either list |
| Year2024Day01.DistanceToItself | aoc/year2024/day01.py:18 | paired with itself, a list has distance 0 |
| Year2024Day01.TotalDistanceOfPermutation | aoc/year2024/day01.py:17-18 | part 1 is 0 when the right list is a permutation of the left one |
| Year2024Day01.Distinct | aoc/year2024/day01.py:23-24 | the keys of `Counter(lefts)`: each value of the list, once |
| Year2024Day01.SimilarityPerEntry | aoc/year2024/day01.py:24 | Σ over distinct n of n·countL(n)·countR(n) equals Σ over every left entry x of x·countR(x) |
| Year2024Day01.SimilaritySnoc | aoc/year2024/day01.py:24 | one more left entry x adds x·countR(x) to part 2 |
| Year2024Day01.SimilarityIgnoresRightOnly | aoc/year2024/day01.py:24 | a right value absent from the left list contributes nothing to part 2 |
| Year2024Day01.ExamplePart1 | tests/year2024/test_day01.py:19-21 | on the example columns part 1 is 11 |
| Year2024Day01.ExamplePart2 | tests/year2024/test_day01.py:24-27 | on the example columns part 2 is 31 |
| Year2024Day02.ParseWords | aoc/year2024/day02.py:5 | `list(map(int, line.split()))` succeeds exactly when every word is an integer, and then holds those integers in order |
| Year2024Day02.ParseReports | aoc/year2024/day02.py:4-7 | the k-th report is the parse of the k-th non-blank line, in order, and the parse fails exactly when one of those lines has a word that is not an integer |
| Year2024Day02.ValidReportByDiffs | aoc/year2024/day02.py:20-27 | a report is safe exactly when it has at least two levels and its `diffs` are all in [1, 3] or all in [−3, −1]; shorter reports are never safe |
| Year2024Day02.StepsAsDiffs | aoc/year2024/day02.py:24-26 | the `all(...)` over `diffs` is the same test as every neighbouring step lying in the range |
| Year2024Day02.Reverse | aoc/year2024/day02.py:24-27 | reversal puts entry `i` at position `len − 1 − i` |
| Year2024Day02.StepsOfReverse | aoc/year2024/day02.py:24-26 | reversing a report negates its steps: steps in [lo, hi] become steps in [−hi, −lo] |
| Year2024Day02.ReverseReverse | aoc/year2024/day02.py:24-27 | reversing twice gives the report back |
| Year2024Day02.ValidReportReversed | aoc/year2024/day02.py:24-27 | `is_valid_report` does not change when the report is reversed |
| Year2024Day02.SomeRemovalValidMeans | aoc/year2024/day02.py:34-39 | the early-return loop from index `from` succeeds exactly when removing some level at or after `from` gives a safe report |
| Year2024Day02.DampenerMeans | aoc/year2024/day02.py:30-39 | safe with the dampener exactly when safe, or safe after removing one level; so a safe report is safe with the dampener |
| Year2024Day02.ValidDropFirst | aoc/year2024/day02.py:34-36 | a safe report of three levels or more remains safe without its first level |
| Year2024Day02.CountWhere | aoc/year2024/day02.py:12 | the number of reports passing a test is at most the number of reports |
| Year2024Day02.Part1AtMostPart2 | aoc/year2024/day02.py:10-17 | part 1 ≤ part 2 ≤ the number of reports |
| Year2024Day02.ExampleReport | tests/year2024/test_day02.py:4-11 | of the six example reports, the first and last are safe, and all but the second and third are safe with the dampener |
| Year2024Day02.CountAt | aoc/year2024/day02.py:12 | one more report adds one to a count exactly when it passes the test |
| Year2024Day02.ExampleFirstTwo | tests/year2024/test_day02.py:4-11 | of the first two example reports one is safe, with or without the dampener |
| Year2024Day02.ExampleFirstFour | tests/year2024/test_day02.py:4-11 | of the first four example reports one is safe, and two with the dampener |
| Year2024Day02.Example | tests/year2024/test_day02.py:19-26 | on the example reports part 1 is 2 and part 2 is 4 |
| Year2024Day03.Memory | aoc/year2024/day03.py:7-9 | the memory is the input with every line break removed and nothing else changed |
| Year2024Day03.DigitRun | aoc/year2024/day03.py:4 | the run of digits starting at `i` is maximal: all of it is digits and the next character, if any, is not |
| Year2024Day03.MatchMulAt | aoc/year2024/day03.py:4 | a match at `i` is a well-formed `mul(a,b)` with one to three digits per operand, and yields those operands and the end of the match |
| Year2024Day03.MatchMulComplete | aoc/year2024/day03.py:4 | every well-formed `mul(a,b)` with one to three digit operands at `i` is matched, with its operands |
| Year2024Day03.DigitRunOf | aoc/year2024/day03.py:4 | a digit run ended by a non-digit is measured exactly |
| Year2024Day03.MalformedForms | aoc/year2024/day03.py:4 | `mul[3,7]`, `mul(32,64]` and a four-digit operand do not match |
| Year2024Day03.SkipWithoutM | aoc/year2024/day03.py:12-14 | the scan is unchanged by skipping characters other than `m` |
| Year2024Day03.TokensKeepMuls | aoc/year2024/day03.py:5 | the `mul` tokens of the controlled scan are exactly the matches of the plain scan, in order, so adding `do()`/`don't()` to the pattern loses no multiplication |
| Year2024Day03.SolvePart2 | aoc/year2024/day03.py:21-37 | the loop's total is the sum of the products of the `mul` tokens met while enabled, starting enabled |
| Year2024Day03.FindMulsNonNegative | aoc/year2024/day03.py:12-14 | every operand found is non-negative |
| Year2024Day03.TokensNonNegative | aoc/year2024/day03.py:26-35 | every `mul` token of the controlled scan has non-negative operands |
| Year2024Day03.EnabledSumAtMost | aoc/year2024/day03.py:26-35 | the enabled total never exceeds the sum over all `mul` tokens |
| Year2024Day03.Part2AtMostPart1 | aoc/year2024/day03.py:17-37 | part 2's answer is at most part 1's answer on every input |
| Year2024Day03.EnabledSumNoDont | aoc/year2024/day03.py:26-35 | with no `don't()` token, every product is counted |
| Year2024Day03.DontNeedsText | aoc/year2024/day03.py:5 | a `don't()` token appears only where the text `don't()` occurs |
| Year2024Day03.NoDontSameAnswer | aoc/year2024/day03.py:17-37 | on input without the text `don't()`, parts 1 and 2 agree |
| Year2024Day04.Between | aoc/year2024/day04.py:39-46 | a cell between the first and the fourth cell of a straight line lies between them in each coordinate |
| Year2024Day04.Convex | aoc/year2024/day04.py:39-46 | checking only the last cell against the bounds is enough: when the first and the fourth cells are inside, so are the middle two |
| Year2024Day04.LettersMatchMeans | aoc/year2024/day04.py:44-48 | the letter loop succeeds exactly when each remaining cell reads the matching letter of XMAS |
| Year2024Day04.MatchesXmasMeans | aoc/year2024/day04.py:34-48 | `matches_xmas` holds exactly when all four cells along the direction lie inside the grid and spell XMAS |
| Year2024Day04.IsMasPair | aoc/year2024/day04.py:58 | a diagonal qualifies exactly when it reads `M` then `S` or `S` then `M` |
| Year2024Day04.MatchesXMas | aoc/year2024/day04.py:51-58 | `matches_x_mas` holds exactly when the centre is `A` and each diagonal through it reads MAS one way or the other |
| Year2024Day04.CountDirections | aoc/year2024/day04.py:17-18 | a cell has at most as many matches as there are directions tried |
| Year2024Day04.CountDirectionsCounts | aoc/year2024/day04.py:17-18 | over directions with no repeats, the count is the number of directions along which XMAS is spelled |
| Year2024Day04.CountRow | aoc/year2024/day04.py:16-18 | a row prefix of `x` cells has at most `8x` matches |
| Year2024Day04.CountRows | aoc/year2024/day04.py:13-19 | the first `y` rows have at most eight matches per cell |
| Year2024Day04.Part1 | aoc/year2024/day04.py:9-19 | the part 1 answer is at most eight times the number of cells |
| Year2024Day04.TagCard | aoc/year2024/day04.py:13-19 | tagging the hits of one column or row with its index keeps their number |
| Year2024Day04.RowHitsStep | aoc/year2024/day04.py:16-18 | one more column adds exactly that cell's spelling directions |
| Year2024Day04.CountRowCounts | aoc/year2024/day04.py:16-18 | a row's count is the number of (column, direction) pairs that spell XMAS |
| Year2024Day04.TripleCard | aoc/year2024/day04.py:13-19 | tagging a row's hits with the row index keeps their number |
| Year2024Day04.HitsStep | aoc/year2024/day04.py:15-18 | one more row adds exactly that row's hits |
| Year2024Day04.CountRowsCounts | aoc/year2024/day04.py:13-19 | the count over the first `y` rows is the number of (row, column, direction) triples that spell XMAS |
| Year2024Day04.Part1Counts | aoc/year2024/day04.py:9-19 | `solve_part1` counts each (cell, direction) pair of the eight directions exactly once when its four cells lie inside the grid and spell XMAS, and no other pair |
| Year2024Day04.CountInteriorRow | aoc/year2024/day04.py:29-30 | a row has at most one X-MAS centre per column scanned |
| Year2024Day04.CountInteriorRows | aoc/year2024/day04.py:26-31 | the rows scanned have at most one centre per cell |
| Year2024Day04.Part2 | aoc/year2024/day04.py:22-31 | the part 2 answer is at most the number of cells |
| Year2024Day04.CountInteriorRowCounts | aoc/year2024/day04.py:29-30 | a row's count is the number of interior columns where two MAS cross |
| Year2024Day04.CentresStep | aoc/year2024/day04.py:28-30 | one more row adds exactly that row's centres |
| Year2024Day04.CountInteriorRowsCounts | aoc/year2024/day04.py:26-31 | the count over the rows below `y` is the number of interior cells where two MAS cross |
| Year2024Day04.Part2Counts | aoc/year2024/day04.py:22-31 | `solve_part2` counts exactly the cells off the border that are X-MAS centres |
| Year2024Day05.ParseRule | aoc/year2024/day05.py:8-9 | a line is a rule exactly when it splits at `\|` into two parts that both parse as integers, and the rule is that pair |
| Year2024Day05.ParseRules | aoc/year2024/day05.py:7-10 | the parse succeeds exactly when every line is a rule, and then the k-th rule is the parse of the k-th line |
| Year2024Day05.ParseFields | aoc/year2024/day05.py:11 | the parse succeeds exactly when every comma-separated field is an integer, and then the k-th page is the k-th field's value |
| Year2024Day05.ParseUpdates | aoc/year2024/day05.py:11 | the parse succeeds exactly when every line's fields all parse, and then the k-th update is the k-th line's fields, each with at least one page |
| Year2024Day05.Parse | aoc/year2024/day05.py:4-13 | the parse succeeds exactly when the stripped text is two blank-line-separated blocks whose lines are all rules and all updates, and the result is those two parses; every update has a middle page |
| Year2024Day05.Pos | aoc/year2024/day05.py:41 | `pos[v]` is the last index holding `v`, since a later entry of the dict comprehension overwrites an earlier one |
| Year2024Day05.IsValidUpdateMeans | aoc/year2024/day05.py:40-48 | an update is valid exactly when no rule with both pages present has its first page positioned after its second |
| Year2024Day05.FirstViolation | aoc/year2024/day05.py:54-57 | a violated rule is found exactly when the update is invalid, and its two positions are indexes of the update |
| Year2024Day05.Swap | aoc/year2024/day05.py:57-59 | swapping on a copy exchanges the two entries, leaves every other entry alone and keeps the same pages |
| Year2024Day05.FixUpdate | aoc/year2024/day05.py:51-63 | a repaired update is a permutation of the input and is valid, and a valid input comes back unchanged |
| Year2024Day05.PartsSplitUpdates | aoc/year2024/day05.py:16-37 | each update is scored by exactly one part: valid ones by part 1 and the rest by part 2, so the two totals add up to the sum of the middle pages of all repaired updates |
| Year2024Day06.FindStart | aoc/year2024/day06.py:14-17 | the row-major first `^` is found when there is one; otherwise no row holds `^`, where the source raises `ValueError` |
| Year2024Day06.StartIsUnique | aoc/year2024/day06.py:14-16 | the start `parse` returns is the only row-major first `^` |
| Year2024Day06.Parse | aoc/year2024/day06.py:12-17 | a parse succeeds with the parsed grid and its first `^`, and fails only when there is no `^` or the rows differ in width |
| Year2024Day06.Advance | aoc/year2024/day06.py:32-42 | one step of the walk ends it when the cell ahead is outside, moves onto the cell ahead when it is free, and otherwise turns right, from `d` to `(d + 1) mod 4`, without moving |
| Year2024Day06.GetPath | aoc/year2024/day06.py:25-42 | the loop returns the set of visited cells of the walk from the start facing up, within the step bound |
| Year2024Day06.PathCellsFree | aoc/year2024/day06.py:25-42 | the visited set contains the start and holds no cell outside the grid or on a `#` |
| Year2024Day06.SolvePart1 | aoc/year2024/day06.py:20-22 | the part 1 answer is the number of cells in the path from the first `^` |
| Year2024Day06.RowObstaclesMeans | aoc/year2024/day06.py:54-58 | the columns listed for a row ascend strictly and are exactly the `#` columns of that row |
| Year2024Day06.ColObstaclesMeans | aoc/year2024/day06.py:54-58 | the rows listed for a column ascend strictly and are exactly the `#` rows of that column |
| Year2024Day06.SortedIsOwnSort | aoc/year2024/day06.py:60-63 | sorting a list built in scan order changes nothing |
| Year2024Day06.BuildObstacleIndex | aoc/year2024/day06.py:45-65 | `rows[r]` is the sorted list of the `#` columns of row `r`, `cols[c]` the sorted list of the `#` rows of column `c`, and every other key reads as empty |
| Year2024Day06.ScanRow | aoc/year2024/day06.py:55-58 | scanning one grid row extends every row and column list by that row's obstacles, in scan order |
| Year2024Day06.ScanCellRows | aoc/year2024/day06.py:56-57 | one cell keeps the row lists equal to the obstacles scanned so far |
| Year2024Day06.ScanCellCols | aoc/year2024/day06.py:56-58 | one cell keeps the column lists equal to the obstacles scanned so far |
| Year2024Day06.ScanGrid | aoc/year2024/day06.py:54-58 | the row-major scan lists, per row and per column, the `#` cells in the order it meets them |
| Year2024Day06.SortEachFixed | aoc/year2024/day06.py:60-63 | sorting lists that are already strictly increasing changes none of them |
| Year2024Day06.SortChangesNothing | aoc/year2024/day06.py:60-63 | the final sorts leave an index that already lists the obstacles in order unchanged |
| Year2024Day06.BisectRight | aoc/year2024/day06.py:70 | `bisect` gives an insertion point at most the length of the list |
| Year2024Day06.BisectRightSplits | aoc/year2024/day06.py:70 | on a sorted list, every element before the point is at most the value and every element from it on is greater |
| Year2024Day06.Prev | aoc/year2024/day06.py:68-71 | `_prev` gives the largest element at most the value (not strictly less, as its docstring says), or `None` when every element is greater |
| Year2024Day06.Next | aoc/year2024/day06.py:74-77 | `_next` gives the least element greater than the value, or `None` when there is none |
| Year2024Day06.InsortAdds | aoc/year2024/day06.py:163-164 | `insort` adds exactly the one value |
| Year2024Day06.InsortAtBisect | aoc/year2024/day06.py:163-164 | `insort` puts the value at the `bisect` point |
| Year2024Day06.InsortSorted | aoc/year2024/day06.py:163-164 | `insort` keeps a sorted list sorted |
| Year2024Day06.Remove | aoc/year2024/day06.py:169-170 | `list.remove` takes exactly one occurrence of the value away |
| Year2024Day06.InsortBeforeAll | aoc/year2024/day06.py:163-164 | a value no greater than every element goes first |
| Year2024Day06.RemoveInsort | aoc/year2024/day06.py:163-170 | removing what `insort` added gives back the sorted list it started from |
| Year2024Day06.MoveWithIndex | aoc/year2024/day06.py:80-111 | a move keeps the row or the column, stops on the cell just before the nearest obstacle ahead or at −1, `h` or `w` when there is none, passes no obstacle, and turns right |
| Year2024Day06.MoveStaysInRange | aoc/year2024/day06.py:80-111 | from a cell inside the grid a move lands at most one cell outside, so the states reachable are finitely many |
| Year2024Day06.FewerUnseen | aoc/year2024/day06.py:124-129 | adding a new state to `seen` shrinks the number of states not yet seen, which bounds the loop of `is_looping` |
| Year2024Day06.IterAdd | aoc/year2024/day06.py:124-125 | moving `a + b` times is moving `a` times and then `b` times |
| Year2024Day06.IterAt | aoc/year2024/day06.py:124-125 | moving `c = a + b` times is moving `a` times and then `b` times |
| Year2024Day06.Recurs | aoc/year2024/day06.py:124-129 | once a state repeats, every later state is one already seen |
| Year2024Day06.TraceZero | aoc/year2024/day06.py:123 | `seen` starts as the start state alone |
| Year2024Day06.TraceGrows | aoc/year2024/day06.py:129 | each move adds its state to `seen` |
| Year2024Day06.InRangeInStates | aoc/year2024/day06.py:124-129 | every state the loop meets is one of the finitely many states |
| Year2024Day06.RepeatStaysInside | aoc/year2024/day06.py:124-128 | a repeat met while the guard is inside means it stays inside for ever |
| Year2024Day06.RepeatInTrace | aoc/year2024/day06.py:126-128 | a state already in `seen` means the walk repeats |
| Year2024Day06.LoopingMeans | aoc/year2024/day06.py:114-130 | the loop of `is_looping` answers true exactly when the guard never leaves the grid |
| Year2024Day06.IsLooping | aoc/year2024/day06.py:114-130 | `is_looping` is true exactly when the guard starting up from the start never leaves the grid |
| Year2024Day06.MoveSame | aoc/year2024/day06.py:114-130 | one move reads the index only through its row and column lists |
| Year2024Day06.IterSame | aoc/year2024/day06.py:114-130 | two indexes with the same lists give the same walk |
| Year2024Day06.WellFormedSame | aoc/year2024/day06.py:114-130 | the lists are sorted in one index exactly as in another with the same lists |
| Year2024Day06.GridIndexLookup | aoc/year2024/day06.py:45-65 | the index of a grid lists the row or column obstacles of every in-grid key, and nothing for any other key |
| Year2024Day06.IndexIsGridIndex | aoc/year2024/day06.py:45-65 | the index the scan builds reads the same as the reference index of the grid |
| Year2024Day06.GridIndexWellFormed | aoc/year2024/day06.py:60-63 | the reference index has sorted lists |
| Year2024Day06.InsertWithin | aoc/year2024/day06.py:163-164 | `insort` of an in-range value into one list keeps every list sorted and in range |
| Year2024Day06.AddObstacleWellFormed | aoc/year2024/day06.py:163-164 | inserting a candidate obstacle keeps every list sorted |
| Year2024Day06.CandidateCells | aoc/year2024/day06.py:138-159 | the cells tried as written are every cell the first walk crosses, the start removed, including the one past the edge when the last move leaves right or down |
| Year2024Day06.Obstructions | aoc/year2024/day06.py:138-159 | the cells tried, corrected: the candidates off the start and inside the grid |
| Year2024Day06.LoopersAdd | aoc/year2024/day06.py:161-167 | each candidate adds one to the count exactly when it makes the guard loop |
| Year2024Day06.InsortIsAddObstacle | aoc/year2024/day06.py:163-164 | the two `insort` calls give the index with the obstacle added |
| Year2024Day06.RemoveRestores | aoc/year2024/day06.py:169-170 | the two `remove` calls give back the lists before the candidate |
| Year2024Day06.LoopsAgree | aoc/year2024/day06.py:166 | whether the guard loops depends only on what the lists hold |
| Year2024Day06.LoopsWithCopy | aoc/year2024/day06.py:163-166 | trying a candidate on the mutated lists answers whether that obstacle makes the guard loop |
| Year2024Day06.SameListsSorted | aoc/year2024/day06.py:163-170 | the lists stay sorted throughout part 2 |
| Year2024Day06.SameListsTransfer | aoc/year2024/day06.py:169-170 | lists that read the same stand for the same index |
| Year2024Day06.TryObstacle | aoc/year2024/day06.py:162-170 | one candidate's insert, test and remove answers whether it loops and leaves the obstacle sets as they were |
| Year2024Day06.WalkCandidates | aoc/year2024/day06.py:138-157 | the first loop of `solve_part2` collects exactly the cells of each move's segment until the guard leaves |
| Year2024Day06.CountLoops | aoc/year2024/day06.py:161-172 | `loop_count` is the number of tried cells where an extra obstacle makes the guard loop |
| Year2024Day06.LoopObstructions | aoc/year2024/day06.py:133-172 | part 2 on a parsed grid counts the cells of the corrected candidate set that make the guard loop |
| Year2024Day06.SolvePart2 | aoc/year2024/day06.py:133-172 | the part 2 answer counts the loop-making obstructions for the first `^` |
| Year2024Day06.SingletonList | aoc/year2024/day06.py:54-63 | an ascending list holding just one value is that value alone |
| Year2024Day06.EmptyList | aoc/year2024/day06.py:54-63 | a list holding nothing is empty |
| Year2024Day06.EdgeExampleRows | aoc/year2024/day06.py:45-65 | on the grid `.#.` / `...` / `#^.` / `..#`, row 1 has no obstacles and row 2 has one, in column 0 |
| Year2024Day06.NoObstacleInRow | aoc/year2024/day06.py:45-65 | a row without `#` lists nothing |
| Year2024Day06.OneObstacleInRow | aoc/year2024/day06.py:45-65 | a row with one `#` lists just that column |
| Year2024Day06.OneObstacleInColumn | aoc/year2024/day06.py:45-65 | a column with one `#` lists just that row |
| Year2024Day06.EdgeExampleCols | aoc/year2024/day06.py:45-65 | on that grid, column 1 lists row 0, column 2 lists row 3, and key 3, past the edge, lists nothing |
| Year2024Day06.EdgeExampleIndex | aoc/year2024/day06.py:45-65 | the index of that grid has exactly those lists |
| Year2024Day06.EdgeExampleCandidates | aoc/year2024/day06.py:138-157 | the first walk on that grid collects the start, (1,1), (1,2) and the out-of-grid cell (1,3) |
| Year2024Day06.EdgeExampleLoopsPastEdge | aoc/year2024/day06.py:161-167 | an obstacle at (1,3), outside the grid, traps the guard in a four-move cycle |
| Year2024Day06.EdgeExampleNoLoopAbove | aoc/year2024/day06.py:161-167 | an obstacle at (1,1) does not trap the guard |
| Year2024Day06.EdgeExampleNoLoopRight | aoc/year2024/day06.py:161-167 | an obstacle at (1,2) does not trap the guard |
| Year2024Day06.EdgeExampleStart | aoc/year2024/day06.py:14-16 | the start of that grid is (2,1) |
| Year2024Day06.EdgeExampleLoopers | aoc/year2024/day06.py:161-167 | of the cells tried as written only (1,3) loops, and of the corrected cells none does |
| Year2024Day06.EdgeExampleCells | aoc/year2024/day06.py:138-159 | as written the cells tried are (1,1), (1,2) and (1,3); corrected they are (1,1) and (1,2) |
| Year2024Day06.EdgeExampleCounts | aoc/year2024/day06.py:133-172 | on that grid the source as written answers 1, counting an obstacle outside the grid, where the corrected count is 0 |
| Year2025Day01.ParseMove | aoc/year2025/day01.py:13-14 | a line is a move exactly when it is non-empty and the rest after its first character is an integer; the move turns left exactly when that character is `L`, by that integer |
| Year2025Day01.ParseMoves | aoc/year2025/day01.py:4-5 | the parse succeeds exactly when every line is a move, and then the k-th move is the parse of the k-th line |
| Year2025Day01.Turn | aoc/year2025/day01.py:13-15 | after every move the dial position lies in [0, 100) |
| Year2025Day01.ReducedTurn | aoc/year2025/day01.py:14-15 | reducing the step count mod 100 first, as part 1 does, gives the same position as turning the full count, as part 2 does |
| Year2025Day01.ZeroStops | aoc/year2025/day01.py:12-17 | there are at most as many stops on 0 as moves |
| Year2025Day01.Part1 | aoc/year2025/day01.py:8-18 | part 1's loop counts the moves that end on 0, starting from 50 |
| Year2025Day01.FirstHitIsFirst | aoc/year2025/day01.py:29-32 | `t0` is the least click count in [1, 100] that brings the dial to 0 |
| Year2025Day01.ModUnique | aoc/year2025/day01.py:30 | a remainder in [0, 100) is the remainder |
| Year2025Day01.NegatedRemainder | aoc/year2025/day01.py:30 | a number and its negation are multiples of 100 together |
| Year2025Day01.HitPeriodic | aoc/year2025/day01.py:29-35 | after `t0`, the dial is at 0 exactly every 100 clicks |
| Year2025Day01.DivStep | aoc/year2025/day01.py:35 | one more click adds one to the floor division by 100 exactly when it completes a multiple of 100 |
| Year2025Day01.ClosedHitsCount | aoc/year2025/day01.py:34-35 | `1 + (steps − t0) // 100`, or 0 when `steps < t0`, is the number of clicks of the move that pass 0 |
| Year2025Day01.ClosedCrossingsAgree | aoc/year2025/day01.py:29-37 | summing the closed form of every move gives the click-by-click count of clicks landing on 0 |
| Year2025Day01.Part2 | aoc/year2025/day01.py:21-38 | part 2's loop counts every click that lands on 0, over all moves, starting from 50 |
| Year2025Day01.StopIsHit | aoc/year2025/day01.py:34-37 | a move of at least one click that ends on 0 counts at least once in part 2 |
| Year2025Day01.CrossingsCoverStops | aoc/year2025/day01.py:8-38 | part 2's answer is at least part 1's when every move turns the dial |
| Year2025Day01.ExampleStop | aoc/year2025/day01.py:15-17 | one move of part 1 on its own |
| Year2025Day01.ExampleClicks | aoc/year2025/day01.py:34-37 | one move of part 2 on its own, counted by the closed form |
| Year2025Day01.ExampleLastStops | tests/year2025/test_day01.py:4-16 | the last five moves of the example, from 55, stop on 0 twice |
| Year2025Day01.ExamplePart1 | tests/year2025/test_day01.py:24-26 | on the example moves part 1 is 3 |
| Year2025Day01.ExampleClicksFrom8 | tests/year2025/test_day01.py:4-16 | the last two example moves, from 0, pass 0 once by the closed form |
| Year2025Day01.ExampleClicksFrom6 | tests/year2025/test_day01.py:4-16 | the last four example moves, from 0, pass 0 twice by the closed form |
| Year2025Day01.ExampleClicksFrom5 | tests/year2025/test_day01.py:4-16 | the last five example moves, from 55, pass 0 three times by the closed form |
| Year2025Day01.ExampleClicksFrom4 | tests/year2025/test_day01.py:4-16 | the last six example moves, from 95, pass 0 four times by the closed form |
| Year2025Day01.ExampleClicksFrom2 | tests/year2025/test_day01.py:4-16 | the last eight example moves, from 52, pass 0 five times by the closed form |
| Year2025Day01.ExamplePart2 | tests/year2025/test_day01.py:29-31 | on the example moves part 2 is 6 |
| Year2025Day01.SolvePart1 | aoc/year2025/day01.py:8-18 | part 1 fails exactly when the parse does, and otherwise counts the stops on 0 |
| Year2025Day01.SolvePart2 | aoc/year2025/day01.py:21-38 | part 2 fails exactly when the parse does, and otherwise counts the clicks on 0 |
| Year2025Day02.ParsedParts | aoc/year2025/day02.py:6-7 | each comma-separated part is parsed on its own, in order |
| Year2025Day02.Parse | aoc/year2025/day02.py:4-8 | the parsing loop yields the ranges of all parts, and fails when a part is not two integers around one `-` |
| Year2025Day02.SplitPiecesAvoid | aoc/year2025/day02.py:6-7 | no piece of a split contains the separator |
| Year2025Day02.NoMinusNonNegative | aoc/year2025/day02.py:7 | text without a `-` parses to a non-negative integer, if at all |
| Year2025Day02.ParseRangeNonNegative | aoc/year2025/day02.py:7 | both ends of a parsed range are non-negative, since the `-` separates them |
| Year2025Day02.RangesNonNegative | aoc/year2025/day02.py:4-8 | every parsed range has non-negative ends |
| Year2025Day02.Pow | aoc/year2025/day02.py:29-30 | a block written `k` times has `k` times its length |
| Year2025Day02.PowAdd | aoc/year2025/day02.py:29-30 | writing a block `a` times and then `b` times writes it `a + b` times |
| Year2025Day02.CommutingWords | aoc/year2025/day02.py:32-35 | two non-empty strings that commute are both repetitions of one block |
| Year2025Day02.ShiftedOccurrence | aoc/year2025/day02.py:28-35 | a string `z + q` whose tail `q` commutes with it, with `q` at least as long as `z`, occurs in its doubled string one place before `\|z\|` and so passes the test |
| Year2025Day02.BlocksAreRepeated | aoc/year2025/day02.py:28-35 | a block repeated at least twice passes the doubled-string test |
| Year2025Day02.RepeatedAreBlocks | aoc/year2025/day02.py:28-35 | a string passing the doubled-string test is a block repeated at least twice |
| Year2025Day02.RepeatedMeansBlocks | aoc/year2025/day02.py:28-35 | `_is_repeated` holds exactly when the string is a smaller block repeated at least twice, as its docstring says |
| Year2025Day02.DoubledMeans | aoc/year2025/day02.py:16 | part 1's test holds exactly when the string is some half written twice |
| Year2025Day02.DoubledIsRepeated | aoc/year2025/day02.py:16-35 | every number counted by part 1 is also counted by part 2 |
| Year2025Day02.SingleDigitsNeverCount | aoc/year2025/day02.py:16-35 | no one-digit number counts in either part |
| Year2025Day02.RangePart1 | aoc/year2025/day02.py:14-17 | the inner loop of part 1 sums the numbers of the inclusive range whose decimal form is some half written twice |
| Year2025Day02.Part1 | aoc/year2025/day02.py:11-18 | part 1 sums those numbers over all ranges |
| Year2025Day02.DoubledSumAtMostRepeatedSum | aoc/year2025/day02.py:14-24 | over one range of non-negative numbers, part 1's sum is at most part 2's |
| Year2025Day02.Part1AtMostPart2 | aoc/year2025/day02.py:11-25 | over all ranges of non-negative numbers, part 1's total is at most part 2's |
| Year2025Day02.EmptyRangeAddsNothing | aoc/year2025/day02.py:14-24 | a range whose start is past its end adds nothing to either part |
| Year2025Day02.SolvePart1 | aoc/year2025/day02.py:11-18 | part 1 fails exactly when the parse does, and otherwise is the part 1 total |
| Year2025Day02.SolvePart2 | aoc/year2025/day02.py:21-25 | part 2 fails exactly when the parse does, and otherwise is the sum of the repeated numbers in the ranges |
| Year2025Day02.SolvedPart1AtMostPart2 | aoc/year2025/day02.py:11-25 | on any input that parses, part 1's answer is at most part 2's |
| Year2025Day03.Parse | aoc/year2025/day03.py:4-6 | the banks are the lines of the input and `l` is the length of the first; input without lines fails, where the source raises `IndexError` |
| Year2025Day03.LeftmostMax | aoc/year2025/day03.py:14 | `max(range(lo, hi), key=...)` gives an index inside the window |
| Year2025Day03.LeftmostMaxIsMax | aoc/year2025/day03.py:14 | that index holds a largest digit of the window, and the first one on ties |
| Year2025Day03.LeftmostMaxUnique | aoc/year2025/day03.py:14 | the first index of a largest digit is the only index with that property |
| Year2025Day03.Joltage2 | aoc/year2025/day03.py:13-18 | a bank's part 1 joltage is at most 99 |
| Year2025Day03.Joltage2IsGreedy | aoc/year2025/day03.py:13-18 | part 1's two-step choice is the greedy choice of two digits that part 2 makes for twelve |
| Year2025Day03.Joltage2IsBestPair | aoc/year2025/day03.py:13-18 | no pair of digits `i < j` of the bank reads as a larger two-digit number than part 1's choice |
| Year2025Day03.Joltage2Attained | aoc/year2025/day03.py:13-18 | part 1's joltage is the two-digit number of some pair `i < j` of the bank |
| Year2025Day03.Part1 | aoc/year2025/day03.py:9-19 | part 1's loop sums the per-bank joltages |
| Year2025Day03.Greedy | aoc/year2025/day03.py:28-31 | the greedy selection of `m` digits has exactly `m` digits |
| Year2025Day03.Pick | aoc/year2025/day03.py:28-31 | the digits at a list of indexes: one per index, all digits when the line is |
| Year2025Day03.Pow10 | aoc/year2025/day03.py:33 | a power of ten is at least 1 |
| Year2025Day03.DigitsValueCons | aoc/year2025/day03.py:33 | the value of a digit string is its leading digit times the power of ten of the rest, plus the value of the rest |
| Year2025Day03.DigitsValueBound | aoc/year2025/day03.py:33 | an `n`-digit string is below `10^n` |
| Year2025Day03.PicksSpread | aoc/year2025/day03.py:28-31 | increasing indexes climb by at least one per pick |
| Year2025Day03.PicksTail | aoc/year2025/day03.py:28-31 | after the first pick, the remaining picks start past it |
| Year2025Day03.PickCons | aoc/year2025/day03.py:28-31 | the digits picked are the first index's digit followed by the rest |
| Year2025Day03.LeadingDigitDecides | aoc/year2025/day03.py:33 | numbers of one length compare by their leading digit first, then by the rest |
| Year2025Day03.PickValue | aoc/year2025/day03.py:33 | picked digits read as the first one's digit times `10^(m-1)` plus the rest, which is below `10^(m-1)` |
| Year2025Day03.GreedyValue | aoc/year2025/day03.py:29-33 | the greedy number is its first pick's digit times `10^(m-1)` plus the greedy number of the rest |
| Year2025Day03.GreedyLeads | aoc/year2025/day03.py:29 | the greedy first digit is at least any choice's first digit, and on a tie the choice's other picks lie past the greedy one |
| Year2025Day03.GreedyIsBest | aoc/year2025/day03.py:26-33 | no choice of `m` digits in increasing position order reads as a larger number than the greedy choice |
| Year2025Day03.GreedyPicks | aoc/year2025/day03.py:28-31 | the indexes the greedy loop picks are `m` indexes of the line |
| Year2025Day03.GreedyPicksWindow | aoc/year2025/day03.py:29 | pick `k` is the first largest digit of its window, which starts after the previous pick and leaves room for the digits still to come |
| Year2025Day03.GreedyPicksArePicks | aoc/year2025/day03.py:28-31 | the greedy indexes increase strictly |
| Year2025Day03.GreedyCons | aoc/year2025/day03.py:29-31 | the first greedy pick is the first largest digit of the first window, and the rest are picked from after it |
| Year2025Day03.GreedyIsPick | aoc/year2025/day03.py:28-31 | the greedy digits are the digits at the greedy indexes |
| Year2025Day03.PickDigits | aoc/year2025/day03.py:26-31 | the inner loop of part 2 produces the greedy selection of `m` digits |
| Year2025Day03.KeepDigits | aoc/year2025/day03.py:25-33 | the outer loop sums the values of the greedy selections of each bank |
| Year2025Day03.Part2 | aoc/year2025/day03.py:22-35 | part 2 sums, over the banks, the value of the twelve greedily kept digits |
| Year2025Day03.Part2LineIsBest | aoc/year2025/day03.py:26-33 | no twelve digits of a bank kept in order read as a larger number than part 2's choice |
| Year2025Day03.SolvePart1 | aoc/year2025/day03.py:9-19 | part 1 on the raw input is the sum of the per-bank joltages |
| Year2025Day03.SolvePart2 | aoc/year2025/day03.py:22-35 | part 2 on the raw input is the sum of the per-bank twelve-digit values |
| Year2025Day04.Board | aoc/year2025/day04.py:5 | the rows of the mutable grid read as strings, cell for cell |
| Year2025Day04.SameBoard | aoc/year2025/day04.py:5 | two boards of the same size that agree on every cell are equal |
| Year2025Day04.RollsAmong | aoc/year2025/day04.py:40-44 | among a list of cells there are at most as many rolls as cells |
| Year2025Day04.RollsAmongCountsSet | aoc/year2025/day04.py:40-44 | over distinct cells, the count is the number of in-grid cells holding `@` |
| Year2025Day04.RollsAmongPrefix | aoc/year2025/day04.py:45-46 | a prefix of the neighbours holds no more rolls than all of them, so stopping at four leaves the answer false |
| Year2025Day04.FreeToRemoveMeans | aoc/year2025/day04.py:38-47 | a roll is free exactly when fewer than four of its in-grid eight neighbours are rolls |
| Year2025Day04.IsFreeToRemove | aoc/year2025/day04.py:38-47 | the early-exit loop answers the same as counting every neighbour roll and comparing with four |
| Year2025Day04.CardRemove | aoc/year2025/day04.py:33-34 | removing a subset takes away exactly its size |
| Year2025Day04.FreeSet | aoc/year2025/day04.py:24-29 | the cells collected into `to_remove` are rolls |
| Year2025Day04.InFreeSet | aoc/year2025/day04.py:24-29 | a cell is collected exactly when it is an in-grid `@` that is free to remove |
| Year2025Day04.Cleared | aoc/year2025/day04.py:33-34 | clearing turns exactly the removed cells into `.` and keeps every other cell |
| Year2025Day04.ClearedRolls | aoc/year2025/day04.py:33-34 | after clearing, the rolls are the old rolls less the removed ones, so a non-empty wave strictly shrinks them |
| Year2025Day04.WaveStep | aoc/year2025/day04.py:23-34 | a non-empty wave adds its size to the total and leaves strictly fewer rolls for the following waves |
| Year2025Day04.WaveTotalBound | aoc/year2025/day04.py:20-35 | part 2 never removes more rolls than the grid holds |
| Year2025Day04.FirstWaveIsPart1 | aoc/year2025/day04.py:10-35 | part 2 removes at least the rolls of part 1, its first wave, and is 0 exactly when part 1 is |
| Year2025Day04.CollectRow | aoc/year2025/day04.py:24-29 | scanning one more row adds that row's free rolls, each once |
| Year2025Day04.CollectFree | aoc/year2025/day04.py:24-29 | the comprehension lists each free roll once and nothing else |
| Year2025Day04.DistinctCount | aoc/year2025/day04.py:30 | `len(to_remove)` is the number of free rolls |
| Year2025Day04.ClearCells | aoc/year2025/day04.py:33-34 | the clearing loop turns the listed cells into `.` and changes nothing else |
| Year2025Day04.Wave | aoc/year2025/day04.py:24-34 | one pass of the loop removes, all at once, the rolls that were free at its start, and reports how many |
| Year2025Day04.Part2 | aoc/year2025/day04.py:20-35 | the loop ends when no roll is free; its total is the sum of the wave sizes, and the rolls left are a subset of those at the start |
| Year2025Day04.Parse | aoc/year2025/day04.py:4-7 | the mutable grid holds the parsed rows, with `h` rows of width `w` |
| Year2025Day04.SolvePart1 | aoc/year2025/day04.py:10-17 | part 1 counts the rolls with fewer than four neighbouring rolls |
| Year2025Day04.SolvePart2 | aoc/year2025/day04.py:20-35 | part 2 is the total removed by repeated waves until none is free |
| Year2025Day05.PairLeIsOrder | aoc/year2025/day05.py:14 | tuples compare by start and then by end, a total and transitive order |
| Year2025Day05.SortRules | aoc/year2025/day05.py:14 | `sorted(rules)` is a permutation of the rules in tuple order |
| Year2025Day05.SortedRulesStartsSorted | aoc/year2025/day05.py:14 | the sorted rules have non-decreasing starts |
| Year2025Day05.Merge | aoc/year2025/day05.py:13-18 | the merge loop appends a rule when it starts more than one past the last end, and otherwise extends the last end to the larger of the two |
| Year2025Day05.EndsOfPrefix | aoc/year2025/day05.py:15-18 | a start or an end of a prefix is one of the whole list |
| Year2025Day05.MergedEndsAreOriginal | aoc/year2025/day05.py:15-18 | every merged start is an original start and every merged end an original end |
| Year2025Day05.MergedShape | aoc/year2025/day05.py:13-18 | on start-sorted proper rules, the merged intervals are proper and each ends more than one before the next starts, so they are pairwise disjoint and not adjacent; there are none only when there are no rules |
| Year2025Day05.CoversSnoc | aoc/year2025/day05.py:32 | one more interval covers exactly the values it holds in addition |
| Year2025Day05.CoversAbsorb | aoc/year2025/day05.py:15-18 | absorbing a rule into the merged list covers exactly what the list covered plus the rule |
| Year2025Day05.MergedCovers | aoc/year2025/day05.py:13-18 | on start-sorted proper rules, a value lies in some merged interval exactly when it lies in some rule |
| Year2025Day05.Parse | aoc/year2025/day05.py:4-24 | `parse` fails exactly when the input does not split into the two blocks of ranges and integers, and otherwise yields the merged sorted rules and the available list |
| Year2025Day05.FreshCount | aoc/year2025/day05.py:29-33 | part 1 counts at most every available value |
| Year2025Day05.FreshCountSameCover | aoc/year2025/day05.py:29-33 | two rule lists covering the same available values give the same part 1 count |
| Year2025Day05.Interval | aoc/year2025/day05.py:38 | the integers from `s` to `e` number `e − s + 1` |
| Year2025Day05.Union | aoc/year2025/day05.py:38 | the union of the rules holds exactly the values some rule covers |
| Year2025Day05.UnionBeforeLast | aoc/year2025/day05.py:15-18 | on separated intervals, every value of the earlier intervals lies before the last start |
| Year2025Day05.DisjointCard | aoc/year2025/day05.py:38 | disjoint sets add up in size |
| Year2025Day05.WidthsCountUnion | aoc/year2025/day05.py:38 | on proper separated intervals, the sum of widths is the number of integers covered |
| Year2025Day05.SolvePart1 | aoc/year2025/day05.py:27-33 | part 1 counts the available values covered by the merged rules, which for proper rules is the number covered by the original rules |
| Year2025Day05.SortedCoverSame | aoc/year2025/day05.py:14 | sorting the rules changes no value's cover |
| Year2025Day05.SortedRulesProper | aoc/year2025/day05.py:14 | sorting keeps every rule proper |
| Year2025Day05.MergedUnionSame | aoc/year2025/day05.py:13-38 | sorting and merging the rules leave the set of covered ids unchanged |
| Year2025Day05.MergedWidthsCountUnion | aoc/year2025/day05.py:13-38 | for proper rules, the sum of the merged widths is the number of distinct integers in the union of the rules |
| Year2025Day05.SolvePart2 | aoc/year2025/day05.py:36-38 | part 2 is the sum of the merged widths, which for proper rules is the number of distinct integers the rules cover |
| Year2025Day05.MergeAllSnoc | aoc/year2025/day05.py:14-18 | one more sorted rule is absorbed into the merge so far |
| Year2025Day05.FreshCountSnoc | aoc/year2025/day05.py:29-33 | one more available value adds one exactly when it is covered |
| Year2025Day05.WidthsSnoc | aoc/year2025/day05.py:38 | one more interval adds its width |
| Year2025Day05.ExampleMerged | aoc/year2025/day05.py:13-18 | the sorted example rules merge to `3-5` and `10-20` |
| Year2025Day05.SortWithCons | aoc/year2025/day05.py:14 | sorting a list inserts its head into the sorted tail |
| Year2025Day05.InsertWithCons | aoc/year2025/day05.py:14 | insertion goes before the first element it does not follow |
| Year2025Day05.ExampleSort2 | aoc/year2025/day05.py:14 | the last two example rules sort to `12-18`, `16-20` |
| Year2025Day05.ExampleSort3 | aoc/year2025/day05.py:14 | the last three sort to `10-14`, `12-18`, `16-20` |
| Year2025Day05.ExampleSort4 | aoc/year2025/day05.py:14 | all four sort to `3-5`, `10-14`, `12-18`, `16-20` |
| Year2025Day05.ExampleSorted | aoc/year2025/day05.py:14 | `sorted` puts the example rules in that order |
| Year2025Day05.ExampleCounts | tests/year2025/test_day05.py:25-32 | on the merged example rules, three available values are fresh and fourteen integers are covered |
| Year2025Day05.Example | tests/year2025/test_day05.py:25-32 | on the example, part 1 is 3 and part 2 is 14, the number of integers the rules cover |
| Year2025Day06.MaxLen | aoc/year2025/day06.py:12 | `max_len` is at least every line's length and equals one of them |
| Year2025Day06.Padded | aoc/year2025/day06.py:13 | `ljust` brings every line to the same length, keeping its text and filling the rest with spaces |
| Year2025Day06.Sheet | aoc/year2025/day06.py:11-13 | after padding, every line has the length of the longest line |
| Year2025Day06.BlankColumns | aoc/year2025/day06.py:16 | a column is blank exactly when every line has a space there |
| Year2025Day06.RunEnd | aoc/year2025/day06.py:24-25 | the inner loop stops at the first blank column or the end, and passes only non-blank columns |
| Year2025Day06.RunsAreRuns | aoc/year2025/day06.py:19-28 | every block is a non-empty run of non-blank columns bounded by blank columns or the edges, so it is maximal |
| Year2025Day06.RunsOrdered | aoc/year2025/day06.py:19-28 | the blocks come in increasing order, and each ends before the next starts |
| Year2025Day06.RunsCover | aoc/year2025/day06.py:19-28 | every non-blank column lies in some block |
| Year2025Day06.FindBlocks | aoc/year2025/day06.py:19-28 | the nested loops produce exactly the maximal runs of non-blank columns |
| Year2025Day06.FirstNonSpace | aoc/year2025/day06.py:35 | `next(...)` gives the first character that is not a space, or nothing when the row is all spaces |
| Year2025Day06.Slices | aoc/year2025/day06.py:33 | `chunk_rows` is the block's slice of every line |
| Year2025Day06.Problem | aoc/year2025/day06.py:33-39 | a block is dropped exactly when its operator row is blank; otherwise it gives the slices of all rows but the last, and a non-space operator |
| Year2025Day06.Problems | aoc/year2025/day06.py:30-39 | `chunks` and `ops` have equal length, at most the number of blocks, and each pair comes from some block |
| Year2025Day06.ProblemsShape | aoc/year2025/day06.py:33-38 | every chunk leaves out the operator row, and all its rows have its block's width |
| Year2025Day06.SheetBlocks | aoc/year2025/day06.py:16-28 | every block fits inside the padded lines |
| Year2025Day06.CollectProblems | aoc/year2025/day06.py:30-39 | the collecting loop yields exactly the problems of the kept blocks, in order |
| Year2025Day06.Parse | aoc/year2025/day06.py:6-41 | `parse` yields the chunks and operators of the worksheet |
| Year2025Day06.ComputeSplit | aoc/year2025/day06.py:44-48 | `compute` folds: `+` sums and any other operator multiplies, so splitting the numbers splits the result by that operation |
| Year2025Day06.ComputeEmpty | aoc/year2025/day06.py:44-48 | an empty list gives 0 for `+` and 1 for any other operator |
| Year2025Day06.Stripped | aoc/year2025/day06.py:58 | `r.strip()` of every row |
| Year2025Day06.NonEmpty | aoc/year2025/day06.py:58 | the filter keeps no more rows than it is given |
| Year2025Day06.NonEmptyMembers | aoc/year2025/day06.py:58 | the filter keeps exactly the non-empty stripped rows |
| Year2025Day06.Column | aoc/year2025/day06.py:74 | a column, read top to bottom |
| Year2025Day06.ColumnsRightToLeft | aoc/year2025/day06.py:73-74 | the columns of a chunk, rightmost first |
| Year2025Day06.ReadingAt | aoc/year2025/day06.py:56-58 | the readings hold one entry per chunk, in order: entry `j` is chunk `j` read |
| Year2025Day06.ReadAllRows | aoc/year2025/day06.py:56-58 | part 1 reads each chunk's non-blank stripped rows as integers |
| Year2025Day06.ReadAllColumns | aoc/year2025/day06.py:67-75 | part 2 reads each chunk column by column at the width of its first row; a chunk without rows fails |
| Year2025Day06.GrandTotalReads | aoc/year2025/day06.py:56-76 | the total exists exactly when every problem reads as integers |
| Year2025Day06.GrandTotalSums | aoc/year2025/day06.py:57-59 | when every problem reads, the total is the sum of the per-problem results |
| Year2025Day06.GrandTotalNext | aoc/year2025/day06.py:57-59 | one more problem adds its result to the total |
| Year2025Day06.GrandTotalMissing | aoc/year2025/day06.py:58 | one problem that does not read leaves the whole total unread |
| Year2025Day06.SumReadings | aoc/year2025/day06.py:56-59 | the `total +=` loop gives the grand total, stopping at the first problem that does not read |
| Year2025Day06.ChunkShape | aoc/year2025/day06.py:33-38 | one block's problem has a row per number line, each of the block's width |
| Year2025Day06.ProblemsNext | aoc/year2025/day06.py:32-39 | one more block adds its problem exactly when it has an operator |
| Year2025Day06.ColumnRead | aoc/year2025/day06.py:72-74 | entry `i` of the right-to-left readings is the number in column `width - 1 - i` |
| Year2025Day06.SumRows | aoc/year2025/day06.py:56-60 | part 1's loop gives the grand total of the row readings |
| Year2025Day06.ReadColumns | aoc/year2025/day06.py:71-75 | the column loop reads the columns right to left |
| Year2025Day06.SumColumns | aoc/year2025/day06.py:68-77 | part 2's loop gives the grand total of the column readings |
| Year2025Day06.WorksheetChunks | aoc/year2025/day06.py:30-39 | every chunk has one row fewer than the input has lines, and its rows are all one width |
| Year2025Day06.SolvePart1 | aoc/year2025/day06.py:51-60 | part 1 is the grand total of the worksheet read by rows, failing when a row is not an integer |
| Year2025Day06.SolvePart2 | aoc/year2025/day06.py:63-77 | part 2 is the grand total of the worksheet read by columns, failing when a column is not an integer |
| Year2025Day07.Start | aoc/year2025/day07.py:12 | `grid[0].index('S')` gives a column of the first row holding `S`, and fails, as the source raises, when there is none |
| Year2025Day07.SplitBeams | aoc/year2025/day07.py:17 | the split beams are some of the beams |
| Year2025Day07.StraightBeams | aoc/year2025/day07.py:21 | the straight beams are some of the beams |
| Year2025Day07.SplitStraightPartition | aoc/year2025/day07.py:17-21 | each row, the split and the straight beams partition the beam set |
| Year2025Day07.NextBeamsInside | aoc/year2025/day07.py:24 | with no splitter on an edge column, the new beams stay within the row |
| Year2025Day07.Splitters | aoc/year2025/day07.py:17 | the splitters of a row are exactly its `^` columns |
| Year2025Day07.SplitsAtMostSplitters | aoc/year2025/day07.py:15-26 | the split count never exceeds the number of splitters in the grid, since each row splits at most once per splitter |
| Year2025Day07.LabCrossable | aoc/year2025/day07.py:15 | the rows below the first can all be crossed at the grid's width |
| Year2025Day07.CountSplits | aoc/year2025/day07.py:13-26 | the loop of part 1 counts, row by row, the beams that hit a splitter |
| Year2025Day07.SolvePart1 | aoc/year2025/day07.py:10-26 | part 1 is the split count from the start column, and fails when the first row has no `S` |
| Year2025Day07.Width | aoc/year2025/day07.py:36 | no row is wider than the width, and an empty grid has width 0 |
| Year2025Day07.WidthAttained | aoc/year2025/day07.py:36 | some row is exactly as wide as the width, which is therefore the widest row |
| Year2025Day07.ActiveSplitters | aoc/year2025/day07.py:36 | `splits` lists, in increasing order, exactly the `^` columns of the row with a positive count, whatever the row's width |
| Year2025Day07.ActiveFrom | aoc/year2025/day07.py:36 | the comprehension from column `from` on lists exactly those columns, in order |
| Year2025Day07.SplitAt | aoc/year2025/day07.py:40-43 | one split keeps the number of cells |
| Year2025Day07.SplitAll | aoc/year2025/day07.py:39-43 | the splits of a row keep the number of cells |
| Year2025Day07.SplitAtSum | aoc/year2025/day07.py:40-43 | one split adds its count to the total, since the count is copied left and right and then cleared |
| Year2025Day07.SplitAtNonNegative | aoc/year2025/day07.py:40-43 | a split keeps every count non-negative |
| Year2025Day07.SplitAllGrows | aoc/year2025/day07.py:39-43 | the splits of a row keep the counts non-negative and never lower the total |
| Year2025Day07.ActiveInside | aoc/year2025/day07.py:36-43 | both neighbours of every split have a cell, including column -1 and the column past the row |
| Year2025Day07.RowStep | aoc/year2025/day07.py:36-43 | a row keeps the number of cells |
| Year2025Day07.Timelines | aoc/year2025/day07.py:34-43 | the rows keep the number of cells |
| Year2025Day07.Initial | aoc/year2025/day07.py:31-32 | the counts start non-negative |
| Year2025Day07.InitialSum | aoc/year2025/day07.py:31-32 | the counts start with one timeline in all |
| Year2025Day07.ZerosSum | aoc/year2025/day07.py:31 | counts all 0 add up to 0 |
| Year2025Day07.TimelinesGrow | aoc/year2025/day07.py:34-43 | the counts stay non-negative and their total never drops |
| Year2025Day07.WidthFits | aoc/year2025/day07.py:34-43 | every row below the first fits the cells of the columns -1 to the width, so no split reaches outside the counts |
| Year2025Day07.Part2AtLeastOne | aoc/year2025/day07.py:29-45 | whenever there is an `S`, part 2 counts at least one timeline, whatever the grid's shape |
| Year2025Day07.ApplySplits | aoc/year2025/day07.py:39-43 | the in-place loop over `splits` leaves the counts the sequential splits give |
| Year2025Day07.CountTimelines | aoc/year2025/day07.py:31-45 | the loop of part 2 sums the counts left after every row |
| Year2025Day07.SolvePart2 | aoc/year2025/day07.py:29-45 | part 2 on any input is the number of timelines from the start column, including those sent past an edge, and fails when there is no `S` |
| Year2025Day07.AdjacentSplittersInPlace | aoc/year2025/day07.py:39-43 | splits apply in place and in order: on `.^^.` with timelines in columns 1 and 2, the second split also moves the count the first one added, leaving 1, 2, 0 and 2 in columns 0 to 3 |
| Year2025Day07.EdgeSplitterKeepsTimelines | aoc/year2025/day07.py:39-45 | a splitter in column 0 moves its timeline to column -1, and the sum still counts it |
| Year2025Day08.Points | aoc/year2025/day08.py:9-10 | when every field parses, one point per line, each the integers of that line's comma-separated fields |
| Year2025Day08.Dist2 | aoc/year2025/day08.py:41-42 | the squared distance over the first three coordinates is never negative |
| Year2025Day08.Square | aoc/year2025/day08.py:42 | a square is non-negative and zero exactly for zero |
| Year2025Day08.MulGrows | aoc/year2025/day08.py:59 | a product of positive sizes is at least each factor |
| Year2025Day08.Dist2Symmetric | aoc/year2025/day08.py:41-42 | `dist2(p, q) == dist2(q, p)` |
| Year2025Day08.Dist2Zero | aoc/year2025/day08.py:41-42 | `dist2(p, q)` is 0 exactly when the two points agree on the three coordinates, so it is 0 on identical points |
| Year2025Day08.Relabel | aoc/year2025/day08.py:32 | re-rooting one circuit moves exactly the elements of that circuit and leaves every other element where it was |
| Year2025Day08.CountRelabel | aoc/year2025/day08.py:32-33 | after re-rooting `from` under `to`, the circuit of `to` holds both circuits' elements, and `from` holds none |
| Year2025Day08.Join | aoc/year2025/day08.py:25-34 | after a union, `a` and `b` share a circuit; two elements share a circuit exactly when they did before or each was in the circuit of `a` or of `b` |
| Year2025Day08.JoinSizes | aoc/year2025/day08.py:33 | joining two different circuits gives a circuit whose size is the sum of theirs |
| Year2025Day08.Singletons | aoc/year2025/day08.py:14-16 | at the start every element is alone in its circuit |
| Year2025Day08.JoinAll | aoc/year2025/day08.py:55-56 | a sequence of unions keeps the circuits a partition of the same elements |
| Year2025Day08.JoinAllJoins | aoc/year2025/day08.py:55-56 | after the unions, both ends of every pair share a circuit, and elements that shared a circuit before still do |
| Year2025Day08.Tally | aoc/year2025/day08.py:37 | entry `r` of the tally is the number of occurrences of `r` |
| Year2025Day08.TallySnoc | aoc/year2025/day08.py:37 | counting one more root adds one to its entry and leaves the others |
| Year2025Day08.TallyEmpty | aoc/year2025/day08.py:37 | nothing counted gives all zeros |
| Year2025Day08.ClassSizes | aoc/year2025/day08.py:37 | the Counter of roots holds only positive counts |
| Year2025Day08.Positives | aoc/year2025/day08.py:37 | dropping zero counts keeps only positive entries |
| Year2025Day08.PositivesSum | aoc/year2025/day08.py:37 | dropping zero counts keeps the total |
| Year2025Day08.CountsSum | aoc/year2025/day08.py:37 | the per-root counts of labels in [0, n) add up to the number of elements |
| Year2025Day08.ZeroCountsSum | aoc/year2025/day08.py:37 | with no elements every count is zero |
| Year2025Day08.ComponentSizesSum | aoc/year2025/day08.py:36-38 | the component sizes sum to the number of elements |
| Year2025Day08.Halve | aoc/year2025/day08.py:21 | the path-halving step `parent[x] = parent[parent[x]]` changes no element's root, and the rank strictly grows along the new parent link |
| Year2025Day08.Attached | aoc/year2025/day08.py:32-33 | attaching one root under another keeps the parent forest well-founded and the root's size equal to its circuit's size |
| Year2025Day08.JoinBySize | aoc/year2025/day08.py:29-32 | union by size (the smaller root under the larger, `rb` under `ra` on a tie) merges the same circuits as the abstract union |
| Year2025Day08.SingletonCount | aoc/year2025/day08.py:14-16 | each singleton circuit has exactly one element |
| Year2025Day08.SingletonsShape | aoc/year2025/day08.py:14-16 | the identity parent list with all sizes 1 is a valid forest |
| Year2025Day08.DSU.constructor | aoc/year2025/day08.py:14-16 | `parent[i] = i` and `size[i] = 1` for every element, with every element its own circuit |
| Year2025Day08.DSU.Find | aoc/year2025/day08.py:18-23 | returns the root of `x`'s circuit, a node that is its own parent; path halving leaves every circuit and size as it was |
| Year2025Day08.DSU.Union | aoc/year2025/day08.py:25-34 | returns false exactly when `a` and `b` already share a root; otherwise the smaller root (`rb` on a tie) is attached under the larger, whose size becomes the sum, and the circuits are those of the abstract union |
| Year2025Day08.DSU.Attach | aoc/year2025/day08.py:32-33 | `parent[small] = big` and `size[big] += size[small]`, nothing else changes, and the circuit of `small` moves under `big` |
| Year2025Day08.DSU.CountClasses | aoc/year2025/day08.py:37 | the `Counter` of `find(i)` over all elements: entry `r` is the size of the circuit of root `r`, and the circuits are unchanged |
| Year2025Day08.DSU.ComponentSizes | aoc/year2025/day08.py:36-38 | the circuit sizes sorted descending; they sum to the number of elements, and the circuits are unchanged |
| Year2025Day08.PairsFrom | aoc/year2025/day08.py:49 | every generated edge is `(dist2, i, j)` for a pair of indices `i < j` of the points |
| Year2025Day08.RowPairs | aoc/year2025/day08.py:49 | the edges starting at `i` are `(dist2(p_i, p_j), i, j)` for every `j > i`, in increasing `j` |
| Year2025Day08.PairsFromOrdered | aoc/year2025/day08.py:49 | edges come in the lexicographic order of `combinations` |
| Year2025Day08.PairsFromComplete | aoc/year2025/day08.py:49 | every pair `i < j` appears as an edge |
| Year2025Day08.Keep | aoc/year2025/day08.py:50 | `nsmallest(n, ...)` keeps at most as many edges as there are (none when `n` is not positive) |
| Year2025Day08.Closest | aoc/year2025/day08.py:50 | the kept edges number `min(n, #pairs)` and are all edges of the points |
| Year2025Day08.ClosestSorted | aoc/year2025/day08.py:50 | the kept edges are in ascending distance |
| Year2025Day08.SortedCut | aoc/year2025/day08.py:50 | in a sorted list every element of a prefix is at most every element of the rest |
| Year2025Day08.Cut | aoc/year2025/day08.py:50 | a prefix and the rest split the multiset of a list |
| Year2025Day08.ClosestAreClosest | aoc/year2025/day08.py:50 | the kept edges are a sub-multiset of all edges, none farther than any edge left out |
| Year2025Day08.ResortClosest | aoc/year2025/day08.py:53 | the stable re-sort by distance leaves the kept edges as they are |
| Year2025Day08.Ends | aoc/year2025/day08.py:55 | the pairs passed to `union` are the index pairs of the kept edges, all within range |
| Year2025Day08.Circuits | aoc/year2025/day08.py:54-56 | the circuits after the unions partition all the points |
| Year2025Day08.CircuitsJoinChosen | aoc/year2025/day08.py:49-58 | both ends of every kept edge are in one circuit, and the circuit sizes sum to the number of points |
| Year2025Day08.UnionAll | aoc/year2025/day08.py:55-56 | the union loop leaves the DSU holding the abstract joins of the pairs, in order |
| Year2025Day08.SolvePart1 | aoc/year2025/day08.py:45-59 | `solve_part1` returns the product of the (at most) three largest circuit sizes after joining the `n` closest pairs |
| Year2025Day08.Link | aoc/year2025/day08.py:66-70 | a vertex's (key, parent): the parent is -1 or a tree vertex, and then the key is the distance to it |
| Year2025Day08.LinkStep | aoc/year2025/day08.py:87-93 | when `u` enters, a vertex takes `u` as parent exactly when `u` is strictly closer than its key |
| Year2025Day08.LinkIsLeast | aoc/year2025/day08.py:86-93 | `key[v]` is at most the distance from `v` to every tree vertex; `v` has a parent exactly when its key is below `INF`, and the parent is the first tree vertex at that distance |
| Year2025Day08.LeastKey | aoc/year2025/day08.py:75 | the `min((key[i], i) ...)` pick is a vertex outside the tree with the least key, the lowest index on ties; none exactly when all are in |
| Year2025Day08.LeastKeyOutside | aoc/year2025/day08.py:75 | the pick depends only on the keys of vertices outside the tree |
| Year2025Day08.InTree | aoc/year2025/day08.py:68-76 | `in_mst[i]` holds exactly for the vertices already added |
| Year2025Day08.InTreeAdd | aoc/year2025/day08.py:76 | `in_mst[u] = True` marks the tree grown by `u` |
| Year2025Day08.Keys | aoc/year2025/day08.py:87-93 | every key is the key of its vertex for the current tree |
| Year2025Day08.Pick | aoc/year2025/day08.py:75 | the next vertex is outside the tree, and there is one exactly while some vertex is outside |
| Year2025Day08.PickIsLeast | aoc/year2025/day08.py:75 | the picked vertex has the least key among those outside, the lowest index on ties |
| Year2025Day08.Grow | aoc/year2025/day08.py:73-76 | after `t` rounds, `t` vertices of the points are in the tree, one per round |
| Year2025Day08.GrowDistinct | aoc/year2025/day08.py:73-76 | the vertices added over the rounds are pairwise distinct: each round adds a vertex not yet in |
| Year2025Day08.DistinctSnoc | aoc/year2025/day08.py:75-76 | appending a vertex not yet in a list of distinct vertices keeps them distinct |
| Year2025Day08.Below | aoc/year2025/day08.py:73 | `range(n)` as a set has `n` elements |
| Year2025Day08.Entries | aoc/year2025/day08.py:73-76 | a list of distinct vertices has as many members as entries |
| Year2025Day08.Unvisited | aoc/year2025/day08.py:75 | while fewer than `n` vertices are in, some vertex is outside, so `min` is never empty |
| Year2025Day08.GrowAll | aoc/year2025/day08.py:73-76 | after `n` rounds every vertex is in the tree |
| Year2025Day08.Entry | aoc/year2025/day08.py:75-80 | the vertex added at each round, with its key and its parent (-1 or an index) |
| Year2025Day08.MaxEdge | aoc/year2025/day08.py:71-83 | `max_edge` holds -1 or indices of the points |
| Year2025Day08.Entered | aoc/year2025/day08.py:73-83 | the record of the rounds holds one entry per round |
| Year2025Day08.HeavierRecord | aoc/year2025/day08.py:79-83 | one update of `max_edge` never lowers its weight, reaches the entry's weight when the entry has a parent, and keeps the old value or takes the entry |
| Year2025Day08.HeaviestSnoc | aoc/year2025/day08.py:79-83 | the heaviest of one more entry is the update of the heaviest so far by that entry |
| Year2025Day08.HeaviestIsMax | aoc/year2025/day08.py:79-83 | the heaviest recorded edge weighs at least every entry that has a parent, and is one of them unless none has |
| Year2025Day08.MaxEdgeIsHeaviest | aoc/year2025/day08.py:71-83 | `max_edge` after `t` rounds is the heaviest of the first `t` entries |
| Year2025Day08.MaxEdgeIsMax | aoc/year2025/day08.py:79-83 | the `max_edge` weight is at least the key of every vertex added with a parent, and it is the entry of one of them unless none had a parent |
| Year2025Day08.Part2 | aoc/year2025/day08.py:62-96 | the result is the product of the X coordinates at the ends of `max_edge`; it fails exactly when there are no points |
| Year2025Day08.FrontierStart | aoc/year2025/day08.py:65-71 | the initial keys, parents, `in_mst` and `max_edge` are the loop state for the empty tree |
| Year2025Day08.Prim | aoc/year2025/day08.py:64-94 | the rounds of Prim's algorithm end with `max_edge` equal to the heaviest edge recorded over all `n` rounds |
| Year2025Day08.Relax | aoc/year2025/day08.py:86-93 | after relaxing from `u`, every vertex outside the tree holds the (key, parent) for the tree grown by `u` |
| Year2025Day08.Visit | aoc/year2025/day08.py:73-93 | one round keeps the loop state: `in_mst` marks the tree, keys and parents match it, and `max_edge` is its heaviest edge |
| Year2025Day08.SolvePart2 | aoc/year2025/day08.py:62-96 | `solve_part2` computes `Part2` of the parsed points |
| Year2025Day09.Reds | aoc/year2025/day09.py:7-8 | when every field parses, one tile per non-blank line, each the integers of that line's comma-separated fields |
| Year2025Day09.RectOf | aoc/year2025/day09.py:11-13 | `rect` gives (xmin, xmax, ymin, ymax) with xmin ≤ xmax and ymin ≤ ymax, each bound one of the two tiles' coordinates, and the box holds both tiles |
| Year2025Day09.OverlapSymmetric | aoc/year2025/day09.py:16-19 | `rects_overlap` is symmetric |
| Year2025Day09.OpenMeetsClosed | aoc/year2025/day09.py:19 | the strict comparisons on one axis mean an open interval meets a closed one |
| Year2025Day09.OverlapMeetsInterior | aoc/year2025/day09.py:16-19 | for a box of positive width and height, `rects_overlap` holds exactly when the other box meets its open interior, so touching the border does not count |
| Year2025Day09.EdgeAt | aoc/year2025/day09.py:30-38 | the edge from tile `i` to tile `(i+1) mod n` is vertical exactly when the X ends are equal, with `y1 ≤ y2` the sorted Y ends; otherwise it is horizontal exactly when the Y ends are equal, with `x1 ≤ x2`; any other edge is dropped |
| Year2025Day09.VerticalsOfEdges | aoc/year2025/day09.py:30-35 | `verticals` holds exactly the vertical edges |
| Year2025Day09.HorizontalsOfEdges | aoc/year2025/day09.py:36-38 | `horizontals` holds exactly the horizontal edges |
| Year2025Day09.BuildSegments | aoc/year2025/day09.py:22-40 | the loop builds the vertical and the horizontal segments of every edge, in edge order |
| Year2025Day09.Bucket | aoc/year2025/day09.py:49-54 | the grouping has a key exactly for each fixed coordinate that occurs, and lists under it exactly the (low, high) ends of the segments at that coordinate |
| Year2025Day09.KeyOrder | aoc/year2025/day09.py:49-54 | the dictionary's keys are exactly the fixed coordinates that occur |
| Year2025Day09.Group | aoc/year2025/day09.py:49-54 | a `setdefault(...).append(...)` loop builds that grouping and its key order |
| Year2025Day09.GroupStep | aoc/year2025/day09.py:51-54 | one more segment appends its ends under its key, and adds the key to the order exactly when the key is new |
| Year2025Day09.IndexSegments | aoc/year2025/day09.py:43-58 | `index_segments` returns both groupings and their sorted key lists |
| Year2025Day09.SortedKeys | aoc/year2025/day09.py:56-57 | the key list is sorted and holds exactly the grouping's keys |
| Year2025Day09.BisectRightIn | aoc/year2025/day09.py:66 | the bisection keeps the invariant: all before the index are ≤ `x`, all from it on are > `x` |
| Year2025Day09.BisectLeftIn | aoc/year2025/day09.py:67 | the bisection keeps the invariant: all before the index are < `x`, all from it on are ≥ `x` |
| Year2025Day09.BisectRight | aoc/year2025/day09.py:66 | `bisect_right` is the first index whose key exceeds `x` |
| Year2025Day09.BisectLeft | aoc/year2025/day09.py:67 | `bisect_left` is the first index whose key is at least `x` |
| Year2025Day09.AnyCrossing | aoc/year2025/day09.py:71-76 | the inner scan is true exactly when some listed segment reaches into the open extent |
| Year2025Day09.ScanKeys | aoc/year2025/day09.py:70-76 | the outer scan is true exactly when some selected key lists such a segment |
| Year2025Day09.ProbeSelects | aoc/year2025/day09.py:66-76 | the bisect slice selects exactly the keys strictly between the bounds |
| Year2025Day09.ProbeFinds | aoc/year2025/day09.py:66-87 | a probe finds a segment exactly when one has its fixed coordinate strictly between the bounds and crosses the other extent |
| Year2025Day09.KeyedCrossing | aoc/year2025/day09.py:70-76 | scanning by key finds the same crossings as scanning the segments |
| Year2025Day09.KeyedCrossingOver | aoc/year2025/day09.py:70-76 | for any dictionary listing exactly the segments under their keys, and any key list of exactly its keys, scanning by key finds the same crossings as scanning the segments |
| Year2025Day09.QueryIff | aoc/year2025/day09.py:61-89 | `any_segment_overlaps_rectangle` is true exactly when some stored segment's box satisfies `rects_overlap` with the rectangle |
| Year2025Day09.VerticalProbe | aoc/year2025/day09.py:65-76 | the vertical half finds exactly the vertical segments whose box overlaps the rectangle |
| Year2025Day09.VerticalOverlaps | aoc/year2025/day09.py:70-76 | a vertical segment's box overlaps the rectangle exactly when its x lies strictly inside and its ends reach into the open y range |
| Year2025Day09.HorizontalProbe | aoc/year2025/day09.py:78-87 | the horizontal half finds exactly the horizontal segments whose box overlaps the rectangle |
| Year2025Day09.HorizontalOverlaps | aoc/year2025/day09.py:81-87 | a horizontal segment's box overlaps the rectangle exactly when its y lies strictly inside and its ends reach into the open x range |
| Year2025Day09.PairsFrom | aoc/year2025/day09.py:96 | every pair from index `i` on has `i ≤ a < b < n` |
| Year2025Day09.Pairs | aoc/year2025/day09.py:96 | `combinations` yields index pairs `a < b` within range |
| Year2025Day09.PairsFromComplete | aoc/year2025/day09.py:96 | every pair `a < b` appears |
| Year2025Day09.InclusiveIsBoxArea | aoc/year2025/day09.py:97 | the inclusive area of two tiles is the number of tiles in the box `rect` gives |
| Year2025Day09.MulMonotone | aoc/year2025/day09.py:97 | products of non-negative numbers grow with their factors |
| Year2025Day09.AsWrittenAtMost | aoc/year2025/day09.py:97 | `abs(ax - bx + 1) * abs(ay - by + 1)` is never negative and never above the inclusive area, and equals it when the first tile is not left of or below the second |
| Year2025Day09.BestStep | aoc/year2025/day09.py:96-99 | one more pair raises `best` to that pair's area when it is larger |
| Year2025Day09.BestIsMax | aoc/year2025/day09.py:94-100 | `best` is at least every pair's area and is 0 or one of them |
| Year2025Day09.AsWrittenBestAtMost | aoc/year2025/day09.py:94-100 | the best area as written is never above the best inclusive area |
| Year2025Day09.Part1IsLargest | aoc/year2025/day09.py:92-100 | part 1 (inclusive area) is the largest box over all pairs of red tiles, or 0 with fewer than two |
| Year2025Day09.Part1Covers | aoc/year2025/day09.py:94-100 | part 1 is at least the box of every pair of red tiles |
| Year2025Day09.Part1Attained | aoc/year2025/day09.py:94-100 | part 1 is 0 or the box of some pair of red tiles |
| Year2025Day09.Part1AsWrittenAtMost | aoc/year2025/day09.py:92-100 | part 1 as written lies between 0 and the largest box |
| Year2025Day09.PairsOfTwo | aoc/year2025/day09.py:96 | two tiles give the single pair (0, 1) |
| Year2025Day09.AsWrittenDiagonal | aoc/year2025/day09.py:97 | on the tiles (0,0) and (2,2) part 1 as written gives 1 where the box holds 9 tiles |
| Year2025Day09.SolvePart1 | aoc/year2025/day09.py:92-100 | `solve_part1`, with the inclusive area, computes part 1 of the parsed tiles |
| Year2025Day09.LargestBox | aoc/year2025/day09.py:94-100 | the pair loop computes the largest inclusive area |
| Year2025Day09.Rects | aoc/year2025/day09.py:107 | `rects` is the box of every pair, in `combinations` order |
| Year2025Day09.MaxFreeStep | aoc/year2025/day09.py:115-121 | one more box raises `best` to its area exactly when the area is larger and no segment overlaps it |
| Year2025Day09.MaxFreeIsMax | aoc/year2025/day09.py:114-123 | `best` is at least the area of every box no segment overlaps, and is 0 or one of them, so the `area <= best` prune does not change it |
| Year2025Day09.Part2AtMostPart1 | aoc/year2025/day09.py:103-123 | part 2 is between 0 and part 1 |
| Year2025Day09.SolvePart2 | aoc/year2025/day09.py:103-123 | `solve_part2` computes part 2 of the parsed tiles |
| Year2025Day09.LargestFreeBox | aoc/year2025/day09.py:105-123 | the pruned loop using the bisect index computes the largest box no segment overlaps |
| Year2025Day09.FilterBoxes | aoc/year2025/day09.py:114-123 | given an index whose query holds exactly for the blocked boxes, the pruned loop computes the largest box no segment overlaps |
| Year2025Day10.Inner | aoc/year2025/day10.py:12-14 | `x[1:-1]` is the text between the first and the last character, empty for shorter words |
| Year2025Day10.LightsOf | aoc/year2025/day10.py:12 | one light per inner character: 1 exactly for `#`, 0 otherwise |
| Year2025Day10.ParseMachine | aoc/year2025/day10.py:11-14 | a row parses exactly when it has at least two words and every word after the first holds comma-separated integers between its brackets; the lights then come from the first word, button `k` from word `k + 1` and the joltage from the last word |
| Year2025Day10.ButtonsParse | aoc/year2025/day10.py:13 | the buttons all parse exactly when every word between the first and the last parses as integers |
| Year2025Day10.Machines | aoc/year2025/day10.py:8-16 | when every row parses, one machine per line, each the parse of its row |
| Year2025Day10.Apply | aoc/year2025/day10.py:24-27 | the effect has one counter per position of `delta` |
| Year2025Day10.PressStep | aoc/year2025/day10.py:25-27 | one more button adds its press count once for every time it lists the counter |
| Year2025Day10.PressNonNegative | aoc/year2025/day10.py:25-27 | non-negative presses never give a negative counter |
| Year2025Day10.CountStep | aoc/year2025/day10.py:26 | counting one listed counter more |
| Year2025Day10.Added | aoc/year2025/day10.py:26-27 | adding a pressed button keeps the counter list's length |
| Year2025Day10.AddedStep | aoc/year2025/day10.py:26-27 | each `delta[j] += p` adds `p` to counter `j` and nothing else |
| Year2025Day10.PressButton | aoc/year2025/day10.py:26-27 | the inner loop adds `p` for every listed counter |
| Year2025Day10.DeltaOf | aoc/year2025/day10.py:24-27 | `delta[j]` is the number of pressed buttons listing `j`, counted with repetition |
| Year2025Day10.Pow2 | aoc/year2025/day10.py:23 | a power of two is at least 1 |
| Year2025Day10.Prefixed | aoc/year2025/day10.py:23 | putting one choice in front of every shorter mask |
| Year2025Day10.Masks | aoc/year2025/day10.py:23 | `product((0, 1), repeat=m)` yields `2^m` masks of `m` zeros and ones |
| Year2025Day10.MasksComplete | aoc/year2025/day10.py:23 | every mask of that length appears |
| Year2025Day10.MasksDistinct | aoc/year2025/day10.py:23 | no mask appears twice |
| Year2025Day10.Parity | aoc/year2025/day10.py:28 | one parity per counter |
| Year2025Day10.Matching | aoc/year2025/day10.py:30 | the masks of one parity are some of the masks |
| Year2025Day10.MatchingMembers | aoc/year2025/day10.py:28-30 | a mask is listed under a parity exactly when its effect has that parity |
| Year2025Day10.EffectsOfMembers | aoc/year2025/day10.py:29 | `effects` holds exactly the masks, each with its effect |
| Year2025Day10.PatternsOfListed | aoc/year2025/day10.py:30 | each list of `patterns` is the masks of its parity, in the order they were tried |
| Year2025Day10.BuildPatterns | aoc/year2025/day10.py:19-32 | `build_patterns` returns the effect of every mask and the masks grouped by the parity of their effect |
| Year2025Day10.PatternsPartition | aoc/year2025/day10.py:28-30 | every mask has its effect in `effects` and is listed exactly under the parity of that effect, so in exactly one list |
| Year2025Day10.MinPresses | aoc/year2025/day10.py:39 | `min(sum(mask) ...)` is the least number of presses over the listed masks, and fails exactly on an empty list |
| Year2025Day10.FewestIsLeast | aoc/year2025/day10.py:37-39 | per machine, part 1 is the least number of buttons a mask whose parity equals the lights presses, and fails exactly when no mask does |
| Year2025Day10.Plus | aoc/year2025/day10.py:39 | a sum is defined exactly when both terms are, and is their sum |
| Year2025Day10.FewestOf | aoc/year2025/day10.py:38-39 | one machine of the part 1 loop computes its fewest presses |
| Year2025Day10.TotalFewest | aoc/year2025/day10.py:36-40 | the loop computes the part 1 total |
| Year2025Day10.SolvePart1 | aoc/year2025/day10.py:35-40 | `solve_part1` computes part 1 of the parsed machines |
| Year2025Day10.FailureStays | aoc/year2025/day10.py:36-39 | once one machine fails, every longer run of machines fails |
| Year2025Day10.FirstFailure | aoc/year2025/day10.py:39 | a machine whose lights no mask matches makes part 1 fail |
| Year2025Day10.Next | aoc/year2025/day10.py:59 | the halved target has one counter per counter |
| Year2025Day10.NextWeight | aoc/year2025/day10.py:59-60 | halving what is left never adds to the positive part of the target, and strictly lowers it while the target is not zero, so the recursion terminates |
| Year2025Day10.MaskEffectNonNegative | aoc/year2025/day10.py:58 | the effect of a mask never lowers a counter |
| Year2025Day10.ListedMasks | aoc/year2025/day10.py:57 | every list of `patterns` holds masks only |
| Year2025Day10.After | aoc/year2025/day10.py:58-59 | the next target has as many counters as the target |
| Year2025Day10.Candidate | aoc/year2025/day10.py:60 | `sum(mask) + 2 * cost(next_target)`, infinite exactly when the cost is |
| Year2025Day10.Least | aoc/year2025/day10.py:60 | `min(best, ...)` with infinity: finite when either is, at most each finite one, and one of the two |
| Year2025Day10.CostOverStep | aoc/year2025/day10.py:57-60 | one more mask lowers `best` to its candidate when that is smaller |
| Year2025Day10.CostOverLeast | aoc/year2025/day10.py:56-61 | `best` is at most every finite candidate |
| Year2025Day10.CostOverWitness | aoc/year2025/day10.py:56-61 | a finite `best` is one of the candidates |
| Year2025Day10.Combine | aoc/year2025/day10.py:59-60 | presses `m + 2y` have one count per button |
| Year2025Day10.PressCombine | aoc/year2025/day10.py:59-60 | the effect of `m + 2y` is the effect of `m` plus twice the effect of `y` |
| Year2025Day10.SumCombine | aoc/year2025/day10.py:60 | `m + 2y` presses `sum(m) + 2 sum(y)` times |
| Year2025Day10.PressZero | aoc/year2025/day10.py:50-51 | pressing nothing leaves every counter at 0 |
| Year2025Day10.SumZero | aoc/year2025/day10.py:50-51 | pressing nothing counts no presses |
| Year2025Day10.EvenDifference | aoc/year2025/day10.py:55-59 | when the target and the effect agree in parity, `(t - d) // 2` is exact: `t == d + 2 * ((t - d) // 2)` |
| Year2025Day10.Doubled | aoc/year2025/day10.py:55-59 | `d + 2p` has the parity of `d`, and halving its difference with `d` gives `p` |
| Year2025Day10.ZeroReached | aoc/year2025/day10.py:50-51 | the zero target is reached with no presses |
| Year2025Day10.Lift | aoc/year2025/day10.py:55-60 | pressing `m` once and then twice the presses reaching the halved rest reaches the target |
| Year2025Day10.TriedParity | aoc/year2025/day10.py:55-57 | every mask tried is a mask whose effect has the target's parity, so the target minus its effect is even in every counter |
| Year2025Day10.CostSound | aoc/year2025/day10.py:49-61 | a finite cost is the number of presses of some non-negative press vector reaching the target |
| Year2025Day10.CostOptimal | aoc/year2025/day10.py:49-61 | every non-negative press vector reaching the target presses at least the cost times |
| Year2025Day10.CostIsLeast | aoc/year2025/day10.py:49-61 | `cost(target)` is the least number of presses reaching the target (0 for the zero target), and infinite exactly when no presses reach it, as for any target with a negative counter |
| Year2025Day10.TriedEffect | aoc/year2025/day10.py:57-59 | every tried mask has its effect in `effects`, and its next target carries strictly less weight |
| Year2025Day10.CostOf | aoc/year2025/day10.py:49-61 | the recursive `cost` over `effects` and `patterns` computes the cost |
| Year2025Day10.TryMask | aoc/year2025/day10.py:58-60 | one pass of the loop of `cost` gives the mask's candidate: its presses plus twice the cost of the halved rest |
| Year2025Day10.Part2IsLeast | aoc/year2025/day10.py:43-65 | the part 2 total is finite exactly when every machine's joltage can be reached |
| Year2025Day10.CostOfMachine | aoc/year2025/day10.py:46-63 | one machine of the part 2 loop computes the cost of its joltage |
| Year2025Day10.TotalCost | aoc/year2025/day10.py:44-65 | the loop computes the part 2 total |
| Year2025Day10.SolvePart2 | aoc/year2025/day10.py:43-65 | `solve_part2` computes part 2 of the parsed machines |
| Year2025Day11.ParseLine | aoc/year2025/day11.py:9-10 | a line parses exactly when `split(": ")` gives two parts, into the source and the words of the second part |
| Year2025Day11.Join | aoc/year2025/day11.py:10 | `connections[src].update(dsts)` adds `src` as a key and the destinations to its successors, and changes no other device |
| Year2025Day11.GraphOfKeys | aoc/year2025/day11.py:6-11 | the devices with connections are exactly the sources of the lines |
| Year2025Day11.GraphOfUnion | aoc/year2025/day11.py:6-11 | a device's successors are the union of the destinations over all its lines |
| Year2025Day11.Parse | aoc/year2025/day11.py:6-11 | the parse loop builds those connections, and fails exactly where a line does not unpack |
| Year2025Day11.CountOverPick | aoc/year2025/day11.py:36-37 | the total over the successors does not depend on the order the set is visited in |
| Year2025Day11.ExtendCard | aoc/year2025/day11.py:36-37 | putting one device before each of a set of paths keeps their number |
| Year2025Day11.WalkSplit | aoc/year2025/day11.py:30-37 | a path of two or more devices is a walk exactly when its first device is not "out", leads to the second, and the rest is a walk |
| Year2025Day11.WalksOverMembers | aoc/year2025/day11.py:35-37 | the walks counted from the successors `nexts` are the current device followed by a counted walk from one of them |
| Year2025Day11.WalksNonEmpty | aoc/year2025/day11.py:25-40 | every counted path starts at the device searched from |
| Year2025Day11.WalksExact | aoc/year2025/day11.py:25-40 | the counted paths are exactly the walks to "out" from the device whose final state is accepted |
| Year2025Day11.WalksOverCard | aoc/year2025/day11.py:35-39 | the total over the successors is the number of walks counted through them |
| Year2025Day11.WalksCard | aoc/year2025/day11.py:25-40 | `dfs(node, state)` without the memo is the number of counted walks |
| Year2025Day11.CountIsWalks | aoc/year2025/day11.py:25-40 | `dfs(node, state)` counts exactly the walks from `node` to "out" that stop at the first "out" and whose state, advanced by `step` at every later device, is accepted; "out" gives 1 or 0 by `accept`, and a device without successors gives 0 |
| Year2025Day11.Dfs | aoc/year2025/day11.py:25-40 | the memoised search returns the unmemoised count, and every memo entry stays equal to the count of its key |
| Year2025Day11.CountPaths | aoc/year2025/day11.py:14-42 | `count_paths` returns the count from `start` with the initial state |
| Year2025Day11.SeenRun | aoc/year2025/day11.py:60 | along a path the flags only switch on, and each is on exactly when it was on before or its device has been passed |
| Year2025Day11.Part1Counts | aoc/year2025/day11.py:45-52 | part 1 counts every walk from "you" to "out" |
| Year2025Day11.Part2Counts | aoc/year2025/day11.py:55-62 | part 2 counts the walks from "svr" to "out" that pass through both "fft" and "dac" |
| Year2025Day11.SolvePart1 | aoc/year2025/day11.py:45-52 | `solve_part1` computes the part 1 count of the parsed connections |
| Year2025Day11.SolvePart2 | aoc/year2025/day11.py:55-62 | `solve_part2` computes the part 2 count of the parsed connections |
| Year2025Day11.CountOne | aoc/year2025/day11.py:35-37 | a device with one successor passes its count on |
| Year2025Day11.CountTwo | aoc/year2025/day11.py:35-37 | a device with two successors adds their counts |
| Year2025Day11.CountThree | aoc/year2025/day11.py:35-37 | a device with three successors adds their counts |
| Year2025Day11.Example1Ranked | tests/year2025/test_day11.py:4-15 | the first example's connections are acyclic |
| Year2025Day11.Example1Succ | tests/year2025/test_day11.py:4-15 | the successors of the first example's devices |
| Year2025Day11.Part1Example | tests/year2025/test_day11.py:39-41 | on the first example's connections, part 1 is 5 |
| Year2025Day11.Example2Ranked | tests/year2025/test_day11.py:17-31 | the second example's connections are acyclic |
| Year2025Day11.Example2Succ | tests/year2025/test_day11.py:17-31 | the successors of the second example's devices |
| Year2025Day11.Example2Tail | tests/year2025/test_day11.py:28-30 | from "fff" there are two walks, counted exactly when both flags are on |
| Year2025Day11.Example2Through | tests/year2025/test_day11.py:18-28 | from "aaa", after "fft", two walks also pass "dac" |
| Year2025Day11.Example2Around | tests/year2025/test_day11.py:18-28 | from "bbb" no walk passes "fft" |
| Year2025Day11.Part2Example | tests/year2025/test_day11.py:44-46 | on the second example's connections, part 2 is 2 |

## Left out

- Reading the puzzle input, the command line, the runner's timing and table, and the day-creation script are I/O around the solvers; the solvers are modelled from the text they are given.
- `splitlines` is modelled as splitting at `'\n'` only; the other line boundaries Python knows (`\r`, `\v`, `\f`, `\x1c`–`\x1e`, `\x85`, ` `, ` `) are not modelled.
- `int()` is modelled on optional surrounding white space, an optional sign and decimal digits; underscores between digits and non-ASCII digits are not modelled.
- The regular expressions of 2024 day 3 are modelled as the left-to-right scanners that `findall` and `finditer` run with those two patterns, not as a regular-expression engine. Their digits are the ASCII digits `0` to `9`, where Python's `\d` also matches other Unicode decimal digits.
- `Counter`, `heapq.nsmallest`, `bisect`, `itertools.combinations` and `itertools.product` are modelled by their documented results: a count function, a stable sort followed by a prefix, a bisection function, and pair and mask lists in the library's order.
- `functools.cache` in 2025 day 10 is omitted: `cost` is modelled as the plain recursion, which the cache does not change. `float("inf")` there is `None`.
- Python's negative indices are modelled in two places. One is `points[-1]` in 2025 day 8 when no edge was recorded. The other is the `defaultdict` of 2025 day 7 part 2, whose key -1 is a cell of the count array. Elsewhere the preconditions named below keep every index in range, and so also exclude the negative indices at which Python would wrap around.
- Year2025Day07.SolvePart1: requires a rectangular grid with no splitter on an edge column below the first row (`Lab`). On a row shorter than the first, or after an edge split, `next_row[b]` raises past the end of the row or wraps around at -1; neither is modelled. `Lab` also excludes rows wider than the first and an edge splitter in the last row, which the source reads without harm.
- Year2024Day04.Part1: requires a non-empty rectangular grid (`Rectangular`). The source raises on an empty grid, and on ragged rows it reads past a short row or skips cells of a long one, which is not modelled.
- Year2024Day04.Part2: same `Rectangular` precondition as part 1.
- Year2024Day06.Parse: returns `None` when the rows differ in width. The source does not check this; ragged rows are not modelled.
- Year2025Day04.SolvePart1: requires a rectangular grid; ragged rows are not modelled.
- Year2025Day04.SolvePart2: requires a rectangular grid, like part 1.
- Year2025Day03.SolvePart1: requires every bank to be a digit string of one common length of at least 2; the source assumes this and raises or misreads otherwise.
- Year2025Day03.SolvePart2: requires the same, with length at least 12.
- Year2025Day08.SolvePart1: requires every point to have at least three coordinates (`Spatial`), where `dist2` would raise otherwise, and that the input parses, where the source raises on a malformed field. It also takes the number of closest pairs `n` as a parameter, without the source's default of 1000.
- Year2025Day08.SolvePart2: same `Spatial` precondition as part 1, and that the input parses.
- Year2025Day09.SolvePart1: requires that the input parses, where the source raises on a malformed field, and at least two coordinates per tile. The source accepts longer tuples in part 1 and reads only the first two, and so does the model.
- Year2025Day09.SolvePart2: requires that the input parses and that every tile has exactly two coordinates (`Planar`), as the source's unpacking does.
- Year2025Day10.SolvePart1: requires every button to list only existing counters (`WiredForLights`), and that the input parses, where the source raises on a malformed line. In the source, `delta[j]` raises for `j` of at least `size` or below `-size`. For `j` from `-size` to -1 it silently adds to counter `size + j`, and that wrap-around is not modelled.
- Year2025Day10.SolvePart2: requires `WiredForJoltage`, the same condition against the joltage counters, and that the input parses. A negative button index wraps around in the source, as in part 1, and is excluded here too.
- Year2025Day06.SolvePart1: requires a non-empty input. On an input with no lines, `max(len(l) for l in lines)` raises `ValueError`.
- Year2025Day06.SolvePart2: same non-empty precondition as part 1.
- Year2025Day06.SumRows: reads every problem first and then adds up, where `solve_part1` reads and adds one problem at a time; the total, and failure at an unreadable row, come out the same. Year2025Day06.SumColumns does the same for part 2.
- Year2025Day11.SolvePart1: requires that the input parses, where the source raises on a line without `: `, and a rank that falls along every connection (`Ranked`). That is acyclicity of the whole graph, which is stronger than acyclicity of the part reachable from the start. On a cycle, the source's `dfs` recurses until Python raises `RecursionError`.
- Year2025Day11.SolvePart2: same `Ranked` precondition as part 1, and that the input parses.
- Year2024Day05.SolvePart2: on cyclic rules `fix_update` may swap without end, recursing until Python raises `RecursionError`. The model bounds the swaps by a `fuel` parameter, and an update not repaired within it scores 0.
- Year2024Day06.SolvePart1: `get_path` may walk forever. The model bounds the passes by `fuel` and states the answer only when the walk leaves within it; it does not say when the result is `None`.
- Year2024Day06.SolvePart2: bounds the first walk by `fuel` in the same way. The loop test itself terminates, because it stops on a repeated state.
- The order in which Python iterates over a `set` or a `Counter` is not modelled. Where the source's result depends only on the contents, the model iterates in any order.
- 2025 day 8: the `DSU` lists are `seq` fields that the methods reassign. Python's lists are never resized there, so only update in place and aliasing of the lists are not modelled.
- The worked examples of these tests are not proved:
  - 2024 days 3, 4, 5 and 6;
  - 2025 days 2, 3, 4, 6 and 9.

  Evaluating the solvers on those literal inputs is beyond the verifier's resource limit. The 2024 day 1 and day 2 examples and the 2025 day 1, day 5 and day 11 examples are proved on their parsed values, not from the text. 2025 days 7, 8 and 10 have no example test.
- 2025 day 11: the answers are stated through the ghost function `Count`, which no compiled code calls.

## Findings

| source | as written | input that shows it | evidently intended | confidence | as-written member | corrected member |
|---|---|---|---|---|---|---|
| aoc/year2024/day06.py:146-151 | when the guard leaves the grid moving right or down, `range(x, new_x + 1)` / `range(y, new_y + 1)` runs up to the exit position, so the cell just outside the grid becomes a candidate obstruction | the grid `.#.` / `...` / `#^.` / `..#`: an obstacle at (1, 3), outside the grid, traps the guard, and part 2 answers 1 | only cells inside the grid are tried, and that grid answers 0 | not executed | Year2024Day06.EdgeExampleCounts | Year2024Day06.LoopObstructions |
| aoc/year2025/day09.py:97 | `abs(a[0] - b[0] + 1) * abs(a[1] - b[1] + 1)` adds 1 inside the absolute value | the tiles (0, 0) and (2, 2): the formula gives 1 × 1 = 1 | the number of tiles in the box, `(abs(ax - bx) + 1) * (abs(ay - by) + 1)`, which is 9 there | not executed | Year2025Day09.AsWrittenDiagonal | Year2025Day09.Part1IsLargest |
