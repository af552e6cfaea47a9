# Advent of Code solvers, modelled in Dafny

This project models the puzzle solvers of an Advent of Code repository (the
2025 puzzles, two from 2024 and six from 2022) and proves what each one
computes. Each source file becomes one Dafny module over already-parsed
input. Reading files, command-line entry points and printing are not
modelled.

- `common.dfy` (module `Common`) holds what several solvers share:
  - the `Option` result;
  - sums and products of integer lists;
  - Python's `int()` and `str()` on decimal text;
  - `str.strip()`, `str.split(sep)` and `sep.join()`;
  - Python's slice semantics.
- `y2025_day01.dfy` … `y2025_day12.dfy`: the 2025 solvers:
  - a dial;
  - repeated-digit ids;
  - greedy joltage picks;
  - paper-roll grid automata;
  - fresh-ingredient ranges;
  - worksheet columns;
  - tachyon beams;
  - union-find circuits;
  - red-tile rectangles;
  - GF(2) light machines;
  - DAG path counting;
  - polyomino packing.
- `y2024_day01.dfy` and `y2024_day02.dfy`: location-list distance and similarity, and report safety.
- `y2022_day01.dfy` … `y2022_day06.dfy`: the 2022 solvers:
  - calorie groups;
  - rock-paper-scissors tables;
  - rucksack priorities;
  - section ranges;
  - crate stacks;
  - datastream markers.

How the model follows the code:
- Code that loops and updates variables is a `method`. Each such method is proved against a specification function or predicate, and lemmas state the properties of that function.
- Objects whose fields change become classes. These are the union-find of 2025 day 8, the path counter of 2025 day 11, the packing grid of 2025 day 12 and the crate stacks of 2022 day 5.
- A Python exception becomes an `Option` result: `ValueError` from `int()`, `IndexError`, and `KeyError`. Where the surrounding code cannot reach the exception with well-formed puzzle input, it becomes a precondition instead; "## Left out" lists those cases.

## Model

| member | source | states |
|---|---|---|
| Common.NatToString | 2025/day02.py:6 | `str(n)` is a non-empty run of decimal digits with no leading zero whose value is `n` |
| Common.ParseInt | 2022/day04.py:16 | `int(s)` raises ValueError on empty text |
| Common.Strip | 2022/day01.py:7 | `s.strip()` neither begins nor ends with whitespace |
| Common.Split | 2022/day04.py:11 | `s.split(sep)` always gives at least one piece |
| Common.ParseNatToString | 2022/day04.py:16 | `int()` reads back the decimal text of every natural number |
| Common.SplitJoin | 2022/day04.py:11-14 | `s.split(sep)` cuts `s` into pieces without `sep` that `sep.join` puts back together |
| Common.SplitWithout | 2022/day04.py:11-14 | a string without the separator splits into itself alone, so the second field of the split is missing |
| Common.JoinSplit | 2022/day04.py:11-14 | splitting the join of separator-free pieces gives back exactly those pieces |
| Common.StripEmpty | 2022/day01.py:7 | `line.strip()` is empty exactly when the line is all whitespace |
| Dial.PositionInRange | 2025/day01.py:18-20 | after any rotations the dial position, kept by `% 100`, lies in 0..99 |
| Dial.SolvePart1 | 2025/day01.py:10-25 | the loop counts the rotations that leave the dial on 0, starting from 50 |
| Dial.RightClicksClosedForm | 2025/day01.py:44-50 | turning right, the clicks that point at 0 number `(position + steps) // 100` |
| Dial.LeftClicksClosedForm | 2025/day01.py:53-59 | turning left, the clicks that point at 0 follow the closed form of the left branch |
| Dial.ZeroPassesCountsClicks | 2025/day01.py:44-61 | the closed-form increment of part 2 equals the number of single clicks that land on 0, for every direction and step count |
| Dial.SolvePart2 | 2025/day01.py:37-63 | part 2 counts every click of every rotation that points at 0 |
| Dial.ZeroPassesTotalCountsClicks | 2025/day01.py:40-63 | the closed form summed over all rotations equals the click-by-click count |
| Dial.LandingsAtMostClicks | 2025/day01.py:13-23 | with no zero-length rotation, part 1 never counts more than part 2 |
| Dial.Example | 2025/day01_test.py:6-14 | the ten-rotation example lands on 0 three times and points at 0 six times |
| RepeatedIds.RepeatLength | 2025/day02.py:26 | `pattern * repeats` has `repeats` times the pattern's length |
| RepeatedIds.RepeatAt | 2025/day02.py:26 | every block of `pattern * repeats` is the pattern |
| RepeatedIds.IsInvalidPart1 | 2025/day02.py:4-13 | an id is invalid for part 1 exactly when its text is some non-empty text written twice |
| RepeatedIds.EqualHalvesMeaning | 2025/day02.py:9-13 | even length with equal halves is exactly a non-empty text written twice |
| RepeatedIds.IsInvalidIdPart2 | 2025/day02.py:16-28 | the pattern search returns True exactly when some prefix of at most half the length, repeated, gives the whole string |
| RepeatedIds.RepeatsSomePrefixMeaning | 2025/day02.py:16-28 | the search's condition holds exactly when the string is some non-empty text repeated two or more times |
| RepeatedIds.Part1ImpliesPart2 | 2025/day02.py:4-28 | an id repeated exactly twice is also repeated at least twice |
| RepeatedIds.EqualHalvesRepeat | 2025/day02.py:9-13 | equal halves make the half-length prefix a repeating pattern |
| RepeatedIds.SmallAndNegativeValid | 2025/day02.py:4-28 | every id below 10 is valid for both checkers: one digit has no pattern, and a leading `-` never repeats |
| RepeatedIds.RunChecker | 2025/day02.py:35 | `checker(n)` answers the chosen checker's predicate |
| RepeatedIds.FindInvalidIdsInRange | 2025/day02.py:31-37 | the result is ascending and holds exactly the accepted ids of `[start, end]` |
| RepeatedIds.ScanStep | 2025/day02.py:34-36 | each step of the range scan appends `n` exactly when the checker accepts it |
| RepeatedIds.SelectMeaning | 2025/day02.py:31-37 | the filtered range is ascending, stays within `end` and holds exactly the members that satisfy the filter |
| RepeatedIds.InvalidIdsMeaning | 2025/day02.py:31-37 | the invalid ids of a range are ascending and are exactly the accepted ids within it |
| RepeatedIds.SumInvalidIds | 2025/day02.py:57-78 | each part's total is the sum, range by range, of the invalid ids |
| RepeatedIds.RangeSumMonotone | 2025/day02.py:57-78 | within one range of non-negative ids, the part-1 sum is at most the part-2 sum |
| RepeatedIds.Part1TotalAtMostPart2 | 2025/day02.py:57-78 | over ranges of non-negative ids, part 1's total never exceeds part 2's |
| RepeatedIds.Part1Examples | 2025/day02_test.py:8-11 | 55, 6464, 123123 and 1010 are invalid for part 1 |
| RepeatedIds.Part1CounterExamples | 2025/day02_test.py:13-15 | 101, 12 and 111 are valid for part 1 |
| RepeatedIds.Part2Examples | 2025/day02_test.py:19-21 | 55, 111 and 999, one digit written two or three times, are invalid for part 2 |
| RepeatedIds.Part2EightDigitExample | 2025/day02_test.py:22 | 12341234 is invalid for part 2 |
| RepeatedIds.Part2LongExample | 2025/day02_test.py:24 | 1212121212 is invalid for part 2 |
| RepeatedIds.Part2CounterExamples | 2025/day02_test.py:27-29 | 101, 12 and 1234 are valid for part 2 |
| RepeatedIds.Part2NineDigitExample | 2025/day02_test.py:23 | 123123123, "123" three times, is invalid for part 2 |
| RepeatedIds.Part2SevenOnesExample | 2025/day02_test.py:25 | 1111111, "1" seven times, is invalid for part 2 |
| RepeatedIds.RepdigitInvalid | 2025/day02.py:16-28 | a digit written two or more times is invalid for part 2 |
| RepeatedIds.Repdigit | 2025/day02.py:18 | the text of the number whose digits are all `d`, `k` of them, is `d` written `k` times |
| RepeatedIds.PeriodAt | 2025/day02.py:21-28 | when `pattern * repeats` gives the whole string, every character equals the one at the same offset of the first copy |
| RepeatedIds.ShortRepeats | 2025/day02.py:16-28 | a two- or three-character text found by the search is one character throughout |
| RepeatedIds.FourRepeats | 2025/day02.py:16-28 | a four-character text found by the search has period two |
| RepeatedIds.SixRepeats | 2025/day02.py:16-28 | a six-character text found by the search has period two or three |
| RepeatedIds.NineRepeats | 2025/day02.py:16-28 | a nine-character text found by the search has period three |
| RepeatedIds.TenRepeats | 2025/day02.py:16-28 | a ten-character text found by the search has period two or five |
| RepeatedIds.LastDigitText | 2025/day02.py:6 | `str(n)` of a number of two or more digits is `str(n // 10)` followed by the last digit |
| RepeatedIds.TwoDigits | 2025/day02.py:4-28 | a two-digit id is invalid, for either part, exactly when its two digits agree |
| RepeatedIds.ThreeDigits | 2025/day02.py:4-28 | a three-digit id is never invalid for part 1, and for part 2 only when its three digits agree |
| RepeatedIds.AscendingUnique | 2025/day02.py:31-37 | two ascending lists with the same members are equal |
| RepeatedIds.InvalidIdsAre | 2025/day02.py:31-37 | the range scan gives a list exactly when that list ascends and holds just the accepted ids of the range |
| RepeatedIds.RangeExample11To22 | 2025/day02_test.py:31-34 | the part-1 scan of 11-22 gives [11, 22] |
| RepeatedIds.RangeExample95To115Part1 | 2025/day02_test.py:36-39 | the part-1 scan of 95-115 gives [99] |
| RepeatedIds.RangeExample95To115Part2 | 2025/day02_test.py:41-44 | the part-2 scan of 95-115 gives [99, 111] |
| RepeatedIds.RangeExample998To1012 | 2025/day02_test.py:46-49 | the part-2 scan of 998-1012 gives [999, 1010] |
| RepeatedIds.RangeExample565653To565659 | 2025/day02_test.py:51-54 | the part-2 scan of 565653-565659 gives [565656] |
| RepeatedIds.RangeExample824824821To824824827 | 2025/day02_test.py:56-59 | the part-2 scan of 824824821-824824827 gives [824824824] |
| RepeatedIds.RangeExample2121212118To2121212124 | 2025/day02_test.py:61-64 | the part-2 scan of 2121212118-2121212124 gives [2121212121] |
| Joltage.MaxJoltage | 2025/day03.py:15-24 | the best pair is at least every two-digit `int(bank[i] + bank[j])` with `i < j`, is one of them, is 0 for banks shorter than 2, and equals the greedy two-digit pick |
| Joltage.LeftmostMaxIsLeftmostMaximum | 2025/day03.py:42-45 | the window scan's index holds a maximal digit, and every earlier digit of the window is strictly smaller |
| Joltage.FindBest | 2025/day03.py:42-45 | the inner loop finds the leftmost maximum of `bank[start:end]` |
| Joltage.GreedyDigitsAreDigits | 2025/day03.py:36-48 | the greedy picks of a digit string are digits |
| Joltage.GreedyIsSelection | 2025/day03.py:36-48 | the greedy picks are `m` batteries at strictly increasing positions |
| Joltage.SelectionRoom | 2025/day03.py:37-40 | the k-th of `m` increasing picks leaves room for the `m - k` picks still to come |
| Joltage.FirstPickBound | 2025/day03.py:39-45 | no other choice's first digit beats the window maximum, and a tie picks at or after the leftmost maximum |
| Joltage.GreedyIsLexMax | 2025/day03.py:36-48 | the greedy digits are the dictionary-largest among all ordered choices of `m` batteries |
| Joltage.LexLeValue | 2025/day03.py:50 | for equal-length digit strings, dictionary order gives numeric order under `int(''.join(result))` |
| Joltage.GreedyOptimal | 2025/day03.py:27-50 | no ordered choice of `n` batteries is worth more than the greedy joltage |
| Joltage.MaxJoltageN | 2025/day03.py:27-50 | for `1 <= n <= len(bank)` the method returns the greedy joltage, and no ordered choice of `n` batteries beats it |
| Joltage.PairMaxIsGreedy | 2025/day03.py:15-24 | the best pair of the nested loops equals the greedy two-battery pick |
| Joltage.PairExample1 | 2025/day03_test.py:8 | the best pair of 987654321111111 is 98 |
| Joltage.PairExample2 | 2025/day03_test.py:9 | the best pair of 811111111111119 is 89 |
| Joltage.PairExample3 | 2025/day03_test.py:10 | the best pair of 234234234234278 is 78 |
| Joltage.PairExample4 | 2025/day03_test.py:11 | the best pair of 818181911112111 is 92 |
| Joltage.TwelveExample1 | 2025/day03_test.py:15 | twelve batteries of 987654321111111 give 987654321111 |
| Joltage.TwelveExample2 | 2025/day03_test.py:16 | twelve batteries of 811111111111119 give 811111111119 |
| Joltage.TwelveExample3 | 2025/day03_test.py:17 | twelve batteries of 234234234234278 give 434234234278 |
| Joltage.TwelveExample4 | 2025/day03_test.py:18 | twelve batteries of 818181911112111 give 888911112111 |
| PaperRolls.CountAdjacentRolls | 2025/day04.py:15-29 | the count is the number of rolls among the eight cells around `(row, col)` inside the grid, never the cell itself, so at most 8 |
| PaperRolls.NeighbourScanStep | 2025/day04.py:21-27 | each step of the `dr`/`dc` scan adds one to the count exactly when it meets a neighbouring roll |
| PaperRolls.NeighbourScanDone | 2025/day04.py:21-29 | after the three rows of the scan, every neighbouring roll has been seen |
| PaperRolls.SolvePart1 | 2025/day04.py:32-43 | part 1 counts the rolls that have fewer than four neighbouring rolls |
| PaperRolls.AccessibleScanStep | 2025/day04.py:37-41 | each cell of the row-major scan adds one exactly when it holds a reachable roll |
| PaperRolls.AccessibleScanDone | 2025/day04.py:37-41 | the finished scan has met every reachable roll |
| PaperRolls.FindAccessible | 2025/day04.py:56-61 | one round's list holds each reachable roll exactly once |
| PaperRolls.ScanCell | 2025/day04.py:59-61 | one cell of the scan appends it exactly when it is a roll with fewer than four neighbouring rolls, so the list still holds each reachable roll scanned so far once |
| PaperRolls.RemoveRolls | 2025/day04.py:67-68 | the removal loop overwrites exactly the listed cells with '.' and leaves the rest of the grid as it was |
| PaperRolls.ClearedRolls | 2025/day04.py:67-68 | clearing cells keeps the grid's shape and removes exactly those cells from the rolls |
| PaperRolls.RoundRemovesAccessible | 2025/day04.py:54-70 | one round removes exactly the reachable rolls, so the number of rolls falls by their count |
| PaperRolls.SettleStep | 2025/day04.py:54-70 | a round with a reachable roll leads to the same final grid, with that many fewer rolls |
| PaperRolls.SolvePart2 | 2025/day04.py:46-72 | part 2 returns the number of rolls removed before the rounds stop |
| PaperRolls.SettledHasNoAccessible | 2025/day04.py:63-64 | when the loop stops, no roll is reachable |
| PaperRolls.SettleOnlyRemovesRolls | 2025/day04.py:50-68 | the final grid has the original shape, and only rolls have changed, each into '.' |
| PaperRolls.SettleKeepsSomeRolls | 2025/day04.py:46-72 | the rolls left at the end are among the original rolls |
| PaperRolls.PartTwoAtLeastPartOne | 2025/day04.py:32-72 | part 2 removes at least the rolls part 1 counts |
| FreshRanges.IsFresh | 2025/day05.py:31-36 | `is_fresh` returns True exactly when some inclusive range holds the id |
| FreshRanges.SolvePart1 | 2025/day05.py:39-49 | part 1 counts the ids that some range holds |
| FreshRanges.FreshCountBounds | 2025/day05.py:44-49 | the fresh count is at most the number of ids, and equals it exactly when every id is fresh |
| FreshRanges.Insert | 2025/day05.py:58 | inserting a range adds exactly that range to the list's contents |
| FreshRanges.InsertSorted | 2025/day05.py:58 | inserting into a list in tuple order keeps it in tuple order |
| FreshRanges.Sort | 2025/day05.py:58 | `sorted(ranges)` holds the same ranges |
| FreshRanges.SortSorted | 2025/day05.py:58 | `sorted(ranges)` is in Python's tuple order |
| FreshRanges.MergeSorted | 2025/day05.py:61-72 | the merged ranges are separated by a gap of at least one id, cover exactly the ids the sorted ranges cover, and stay valid when the input ranges are |
| FreshRanges.CoveredSnoc | 2025/day05.py:72 | appending a range adds exactly its ids to the coverage |
| FreshRanges.CoveredReplaceLast | 2025/day05.py:67-69 | extending the last merged range to `max(last_end, current_end)` covers the old ids plus the current range's |
| FreshRanges.IntervalSize | 2025/day05.py:77 | an inclusive range holds `end - start + 1` ids |
| FreshRanges.CoveredSetMeaning | 2025/day05.py:52-79 | the set of covered ids holds exactly the ids some range contains |
| FreshRanges.SeparatedCount | 2025/day05.py:75-77 | for separated valid ranges, the sum of the lengths is the number of covered ids |
| FreshRanges.MergeRanges | 2025/day05.py:52-79 | an empty list gives 0; for ranges with `start <= end` the total is the number of distinct ids covered |
| FreshRanges.MergedCount | 2025/day05.py:74-79 | the merged lengths add up to the number of distinct ids the original ranges cover |
| FreshRanges.SortKeepsRanges | 2025/day05.py:58 | sorting keeps validity and the covered ids |
| FreshRanges.CoverageIgnoresOrder | 2025/day05.py:52-79 | the part-2 count does not depend on the order of the ranges |
| FreshRanges.FreshMeansCounted | 2025/day05.py:31-36 | an id is fresh for part 1 exactly when part 2 counts it |
| Worksheet.LJust | 2025/day06.py:25 | `ljust` keeps the line as a prefix, fills with spaces and never shortens |
| Worksheet.MaxLenIsMax | 2025/day06.py:22 | the width is at least every line's length and is reached by some line |
| Worksheet.PadMeaning | 2025/day06.py:22-25 | padding gives one line per line, all of the maximum width, each the original line followed by spaces |
| Worksheet.SpaceColumnMeaning | 2025/day06.py:33-43 | a column is a separator exactly when every padded line has a space there |
| Worksheet.RunEndMeaning | 2025/day06.py:41-46 | the inner scan stops at the first all-space column or at the edge, and every column it passes has text |
| Worksheet.RunsAreMaximal | 2025/day06.py:31-60 | the column ranges found are ordered, disjoint, maximal runs of non-separator columns and cover every column with text |
| Worksheet.FindRunEnd | 2025/day06.py:37-46 | the inner loop returns the end of the run that starts at the column |
| Worksheet.ExtractProblem | 2025/day06.py:49-53 | the problem is the stripped, non-empty slices of the run's columns, in line order |
| Worksheet.TakeProblem | 2025/day06.py:35-58 | one pass of the outer loop at a column with text appends exactly that run's problem when it has text |
| Worksheet.ScanProblems | 2025/day06.py:28-62 | the outer loop yields the kept problems of all runs, left to right |
| Worksheet.ParseWorksheet | 2025/day06.py:16-62 | empty input gives no problems; otherwise the problems of the padded lines' runs |
| Worksheet.ScanColumn | 2025/day06.py:33-60 | a column with text emits the problem of its run and resumes past the run, a blank column is stepped over; either way the problems still to come plus those emitted are unchanged |
| Worksheet.ProblemsMeaning | 2025/day06.py:31-56 | the runs scanned are the maximal ones, and every problem is non-empty with stripped, non-empty lines |
| Worksheet.MultiplyAll | 2025/day06.py:83-85 | the loop computes the product of the numbers |
| Worksheet.MapAllFails | 2025/day06.py:74 | the list comprehension fails exactly when some line is not a number |
| Worksheet.MapAllValues | 2025/day06.py:74 | when it succeeds, each entry is that line's number |
| Worksheet.SolveProblem | 2025/day06.py:65-89 | no lines give 0; a bad number fails; no numbers give 0; '+' gives the sum, '*' the product, any other operator 0 |
| Worksheet.SpaceColumnsMeaning | 2025/day06.py:127-130 | the separator list holds exactly the all-space columns, in increasing order |
| Worksheet.NoSeparatorBetween | 2025/day06.py:133-141 | between consecutive separators, and after the last one, no column is a separator |
| Worksheet.RunsAtSeparator | 2025/day06.py:135-138 | each separator emits the range since the previous one when it is non-empty, as the part-1 scan finds it |
| Worksheet.RunsAfterLastSeparator | 2025/day06.py:140-141 | the last range runs from after the last separator to the width when non-empty |
| Worksheet.FirstOperatorMeaning | 2025/day06.py:147-151 | the operator found is the leftmost '*' or '+' of the range, and none is found only when the range has none |
| Worksheet.FindOperator | 2025/day06.py:147-151 | the loop with `break` returns that first operator |
| Worksheet.ColumnDigitsMeaning | 2025/day06.py:161-165 | a column yields at most one digit per row, and none exactly when no row has a digit there |
| Worksheet.ReadColumn | 2025/day06.py:161-165 | the loop collects the column's digits top to bottom |
| Worksheet.ReadNumbers | 2025/day06.py:158-170 | the loop reads one number per column with digits, right to left |
| Worksheet.ColumnNumbersRightToLeft | 2025/day06.py:159-170 | when every column has a digit, the k-th number is the value of column `end - 1 - k` |
| Worksheet.FindSpaceColumns | 2025/day06.py:127-130 | the loop lists the all-space columns |
| Worksheet.SplitRanges | 2025/day06.py:133-141 | the ranges built from the separators are exactly the runs the part-1 scan finds |
| Worksheet.ParseWorksheetCephalopod | 2025/day06.py:105-175 | the problems are, range by range, the first operator and the column numbers, dropping ranges with no operator or no numbers |
| Worksheet.TakeColumn | 2025/day06.py:159-170 | a column with digits appends the number they spell top to bottom, a column without digits appends nothing, keeping the right-to-left column numbers of the range |
| Worksheet.CephalopodProblemsWellFormed | 2025/day06.py:153-173 | every cephalopod problem has a '*' or '+' and at least one number |
| Worksheet.SolveProblemCephalopod | 2025/day06.py:178-191 | no numbers give 0 (not 1); '+' the sum, '*' the product, any other operator 0 |
| Beams.FindStart | 2025/day07.py:15-21 | returns the first 'S' in row-major order, or nothing when the grid has no 'S' |
| Beams.FirstStartUnique | 2025/day07.py:15-21 | the first 'S' is unique, and there is none when no cell is 'S' |
| Beams.Spread | 2025/day07.py:55-87 | the columns on the next row are exactly the children of the columns on this row |
| Beams.ReachedClosed | 2025/day07.py:45-87 | the reached positions are closed under a beam's step |
| Beams.ReachedLeast | 2025/day07.py:45-87 | the reached positions are the least such set that holds the start |
| Beams.ReachRowNonNegative | 2025/day07.py:75-80 | beams never reach a negative column |
| Beams.ChildrenCases | 2025/day07.py:58-87 | a beam leaving the bottom or over a short row stops; at a splitter it goes to `col-1` and `col+1` within `0..cols-1`; otherwise straight down, and it never continues straight down through a splitter |
| Beams.Advance | 2025/day07.py:55-87 | a new beam's splitter is activated; a splitter not yet active is counted once and sends its side beams to the queue; a beam over empty space is queued straight down |
| Beams.SimulateBeams | 2025/day07.py:24-89 | no 'S' gives 0; otherwise the count is the number of distinct splitters hit by the beams from the first 'S' |
| Beams.BeamStep | 2025/day07.py:49-72 | visiting a new position grows the visited set by one, and a splitter is counted only when it was not already active |
| Beams.SplitCountBound | 2025/day07.py:67-72 | the split count is at most the number of '^' cells |
| Beams.Mark | 2025/day07.py:142-162 | a cell is recorded for its row, and queued only when it was not recorded before |
| Beams.Explore | 2025/day07.py:123-162 | a pass records every cell the beam moves to, and queues exactly the ones that were new |
| Beams.ReachableCells | 2025/day07.py:115-162 | the search records, for every row, exactly the columns beams reach |
| Beams.ColumnsRecorded | 2025/day07.py:115-162 | the recorded columns of each row are the reached columns of that row |
| Beams.ChildColsShape | 2025/day07.py:136-162 | a beam moves at most one column, and at or past the first row's width it has at most one child |
| Beams.WideAlone | 2025/day07.py:110-150 | a reached column at or past the first row's width is the only reached column on its row |
| Beams.StepTargets | 2025/day07.py:189-205 | the cells the dynamic program looks up below a reached cell are reached exactly when the search sent a beam there |
| Beams.TimelinesStep | 2025/day07.py:182-207 | a cell on the last row has one timeline, a cell over a short row none, a cell over a splitter the sum of its left and right neighbours' counts, any other cell the count of the cell below |
| Beams.CellTimelines | 2025/day07.py:180-207 | the count stored for one reached cell is its number of timelines |
| Beams.CountTimelines | 2025/day07.py:172-207 | after the bottom-up pass, every reached cell of every row has its number of timelines stored |
| Beams.FillRow | 2025/day07.py:179-207 | once the rows below are solved, filling one reached row stores each of its cells' number of timelines and keeps the rows below solved |
| Beams.SplitTimelines | 2025/day07.py:192-201 | below a splitter the count is the sum of the timelines of the left and right neighbours that were reached, and neighbours off the grid add nothing |
| Beams.SimulateQuantumBeams | 2025/day07.py:99-210 | no 'S' gives 0; otherwise the result is the number of timelines from the first 'S' |
| Beams.PrependCount | 2025/day07.py:193-201 | putting a column in front keeps the number of paths |
| Beams.TwoHeadsCount | 2025/day07.py:193-201 | the paths going left and the paths going right are disjoint, so their counts add |
| Beams.PathsMeaning | 2025/day07.py:99-104 | the path set holds exactly the column sequences a particle can follow to the bottom |
| Beams.TimelinesCountPaths | 2025/day07.py:168-210 | the number of timelines is the number of distinct paths |
| Beams.QuantumBeamsCountTimelines | 2025/day07.py:99-210 | from the start, the count is the number of distinct paths a particle can take to the bottom |
| Circuits.FirstOccurrencesMeaning | 2025/day08.py:55-59 | the keys of the size dictionary, in insertion order, are each root once and every root |
| Circuits.ClassSizesSum | 2025/day08.py:53-59 | the sizes of the classes of equal roots add up to the number of boxes |
| Circuits.ClassSizesPositive | 2025/day08.py:53-59 | every circuit holds at least one box |
| Circuits.RenamedSizes | 2025/day08.py:53-59 | renaming the roots one-to-one keeps the list of class sizes |
| Circuits.MergedCount | 2025/day08.py:47-48 | merging one label into another adds the two counts and leaves the others |
| Circuits.Root | 2025/day08.py:34-37 | `find` ends at an element that is its own parent, ranked above `x` unless it is `x` |
| Circuits.CircuitRoots | 2025/day08.py:55-58 | every key of the size dictionary is a root |
| Circuits.CircuitSizesAreClassSizes | 2025/day08.py:53-59 | the stored sizes read in key order are the numbers of boxes in each circuit |
| Circuits.CircuitSizesSum | 2025/day08.py:53-59 | the circuit sizes add up to the number of boxes |
| Circuits.RootOfRoot | 2025/day08.py:35-37 | `find` of a root is that root |
| Circuits.RootsAreCircuits | 2025/day08.py:53-59 | there are exactly as many circuits as roots |
| Circuits.CompressKeepsRoot | 2025/day08.py:36 | path compression changes no element's root |
| Circuits.CompressKeepsCircuits | 2025/day08.py:35-37 | after compression the forest is well formed, and roots, circuits and stored sizes are unchanged |
| Circuits.LinkCircuits | 2025/day08.py:45-50 | hanging one root under another moves exactly that circuit, adds its size, keeps the rank order, and removes one root |
| Circuits.JoinRelabels | 2025/day08.py:39-51 | a union that merges the circuits of `x` and `y` matches relabelling `y`'s circuit as `x`'s |
| Circuits.PartitionedCircuits | 2025/day08.py:53-59 | when forest and labels agree, they have the same number of circuits and the same sizes |
| Circuits.TabulatedSizes | 2025/day08.py:55-59 | filling the dictionary root by root and reading its values gives the stored circuit sizes |
| Circuits.SameAll | 2025/day08.py:42-43 | a union of two boxes already in one circuit changes no circuit |
| Circuits.LinkJoins | 2025/day08.py:41-51 | linking two different roots merges exactly the two circuits, keeps the sizes right and removes one root |
| Circuits.Below | 2025/day08.py:30 | `range(n)` holds exactly `0..n-1` |
| Circuits.UnionFind.constructor | 2025/day08.py:29-32 | every box starts as its own circuit of size 1: n roots, and two boxes share a circuit only when equal |
| Circuits.UnionFind.Find | 2025/day08.py:34-37 | returns the root of `x` and compresses paths without changing any root, rank, size or circuit |
| Circuits.UnionFind.Union | 2025/day08.py:39-51 | returns true exactly when `x` and `y` were apart; then their circuits are merged and the number of roots drops by one; otherwise nothing changes |
| Circuits.UnionFind.Link | 2025/day08.py:45-51 | the higher-rank root absorbs the other and its size, and the ranks stay consistent |
| Circuits.UnionFind.GetCircuitSizes | 2025/day08.py:53-59 | returns the size of every circuit, once each, in order of first root |
| Circuits.InsertPerm | 2025/day08.py:86 | inserting keeps every element and adds one |
| Circuits.SortDescendingCorrect | 2025/day08.py:86 | `sorted(..., reverse=True)` gives a descending permutation of the sizes |
| Circuits.PadToThreeShape | 2025/day08.py:87-89 | padding keeps the list and appends 1s up to length 3 |
| Circuits.TopThreeAreLargest | 2025/day08.py:86-90 | the first three sorted sizes are at least every other size |
| Circuits.Attempts | 2025/day08.py:81 | at most `len(pairs)` pairs are tried |
| Circuits.InitialPartition | 2025/day08.py:78 | before any union, the forest and the one-box-per-label labelling agree |
| Circuits.UnionStep | 2025/day08.py:81-83 | each union attempt keeps the forest in step with the labels after one more pair |
| Circuits.ConnectClosest | 2025/day08.py:77-90 | part 1 tries exactly `min(num_connections, len(pairs))` pairs, whether they join or not, and multiplies the three largest circuit sizes, missing circuits counting 1 |
| Circuits.LastJoin | 2025/day08.py:111-117 | the last joining pair is one of the pairs, or `(0, 0)` when no pair joins |
| Circuits.LastJoinSettled | 2025/day08.py:119-121 | once everything is one circuit, no later pair joins, so stopping early changes nothing |
| Circuits.OneRootConnected | 2025/day08.py:110-121 | one root left means every box is in one circuit |
| Circuits.ConnectAll | 2025/day08.py:109-124 | part 2 multiplies the X coordinates of the last pair that joined two circuits (boxes 0 and 0 if none did); both boxes are in range |
| Circuits.JoinPair | 2025/day08.py:39-51 | `union(i, j)` reports a join exactly when the pair connects two circuits; the forest then partitions the boxes as the pairs so far join them, with one root fewer after a join |
| Circuits.JoinUntilConnected | 2025/day08.py:109-121 | the loop ends with the last pair that joined two circuits, stopping at the first moment one circuit remains |
| RedTiles.SpanIsArea | 2025/day09.py:121-125 | part 2's area from the sorted sides equals part 1's area formula |
| RedTiles.LargestStep | 2025/day09.py:118-126 | one more pair keeps the running maximum the largest candidate area so far |
| RedTiles.LargestDone | 2025/day09.py:27-37 | after all pairs, the maximum is the largest candidate area, or 0 when there is none |
| RedTiles.LargestRectangle | 2025/day09.py:17-37 | part 1 returns the largest area over pairs `i < j` that differ in both coordinates, or 0 |
| RedTiles.BuildEdges | 2025/day09.py:45-49 | the edge loop joins each tile to the next and the last back to the first |
| RedTiles.EdgesClosed | 2025/day09.py:45-49 | the edges form one closed chain |
| RedTiles.PointInPolygon | 2025/day09.py:56-74 | true exactly when the point lies on an edge or the ray to the right crosses an odd number of vertical edges; boundary points are always inside |
| RedTiles.TileOnBoundary | 2025/day09.py:56-65 | every red tile lies on the boundary and passes the point test |
| RedTiles.RectangleInPolygon | 2025/day09.py:76-107 | true exactly when all four corners pass the point test and no edge cuts through the rectangle's open inside |
| RedTiles.LargestInsideRectangle | 2025/day09.py:109-128 | part 2 returns the largest area over the part-1 pairs whose rectangle lies inside the loop, or 0 |
| RedTiles.InsideAtMostAll | 2025/day09.py:109-128 | part 2's answer never exceeds part 1's |
| RedTiles.NoCandidateMeansZero | 2025/day09.py:24-37 | the answer is 0 exactly when there is no candidate pair |
| LightMachines.DotFromSplit | 2025/day10.py:103-104 | the XOR of products over a range splits at any midpoint |
| LightMachines.DotFromXor | 2025/day10.py:77-78 | the dot product is linear in the row: XORing two rows XORs their products |
| LightMachines.WeightBound | 2025/day10.py:107 | a 0/1 solution presses at most every button once |
| LightMachines.MatrixRow | 2025/day10.py:47-51 | the matrix row has one entry per button, 1 exactly when the button lists the light |
| LightMachines.Fewest | 2025/day10.py:36-41 | the answer is nothing exactly when no set of presses lights the target, and otherwise the fewest presses of any solution |
| LightMachines.FewestUnique | 2025/day10.py:36-41 | the fewest number of presses is unique |
| LightMachines.FewestAtMostButtons | 2025/day10.py:90-108 | no machine needs more presses than it has buttons |
| LightMachines.NoButtons | 2025/day10.py:36-110 | with no buttons the answer is 0 when every light is off in the target and nothing otherwise |
| LightMachines.BuildAugmented | 2025/day10.py:47-54 | the augmented matrix has one row per light: the button row followed by the target bit |
| LightMachines.AugmentedSolutions | 2025/day10.py:53-54 | the augmented system's solutions are exactly the press vectors that light the target |
| LightMachines.SwapSolutions | 2025/day10.py:71 | swapping two rows keeps the solutions |
| LightMachines.ClearSolutions | 2025/day10.py:75-78 | XORing the pivot row into the other rows with a 1 in the pivot column keeps the solutions |
| LightMachines.PivotStep | 2025/day10.py:59-80 | a column with a pivot extends the reduced form by one pivot row |
| LightMachines.NoPivotStep | 2025/day10.py:62-68 | a column with no 1 below the current row is skipped and the form stays reduced |
| LightMachines.XorInto | 2025/day10.py:77-78 | the inner loop XORs the pivot row into a row entry by entry |
| LightMachines.Eliminate | 2025/day10.py:56-80 | elimination ends in reduced row-echelon form with the same solutions, at most one pivot per column |
| LightMachines.FindPivot | 2025/day10.py:60-65 | the pivot search returns the first row from `row` on with a 1 in the column, or none when every such row has 0 there |
| LightMachines.ClearPass | 2025/day10.py:74-78 | the clearing pass XORs the pivot row into exactly the other rows that have a 1 in the pivot column |
| LightMachines.RankAtMostColumns | 2025/day10.py:57-80 | there are at most as many pivots as buttons |
| LightMachines.ZeroRowUnsolvable | 2025/day10.py:82-85 | a zero row whose target bit is 1, below the pivots, makes the machine unsolvable |
| LightMachines.FreeColumns | 2025/day10.py:88 | the free columns are exactly the non-pivot columns, in increasing order |
| LightMachines.PlaceFree | 2025/day10.py:95-97 | the starting solution has the chosen free values and zeros elsewhere |
| LightMachines.BackSubstitute | 2025/day10.py:99-105 | back-substitution from the last pivot gives a solution of the reduced system with the chosen free values |
| LightMachines.FreePartDetermines | 2025/day10.py:87-105 | two solutions with the same free values are equal |
| LightMachines.AllBitsComplete | 2025/day10.py:93 | `product([0, 1], repeat=k)` lists every choice of free values |
| LightMachines.ReducedSolutions | 2025/day10.py:53-80 | the reduced system has exactly the machine's solutions |
| LightMachines.FewestReduced | 2025/day10.py:90-108 | the search returns the weight of some solution and no solution weighs less |
| LightMachines.TryAssignment | 2025/day10.py:93-108 | after trying one choice of free values, the kept minimum is the weight of a real solution and no solution whose free values were tried so far weighs less |
| LightMachines.ReducedAnswer | 2025/day10.py:82-110 | the answer read from the reduced system is the machine's fewest presses |
| LightMachines.SolveMachine | 2025/day10.py:36-110 | `solve_machine` returns the fewest presses over all solutions, or nothing when the target cannot be lit |
| LightMachines.SolvePart1 | 2025/day10.py:112-122 | part 1 adds each machine's fewest presses, skipping unsolvable machines |
| LightMachines.TotalFewestBound | 2025/day10.py:112-122 | part 1 never exceeds the total number of buttons |
| LightMachines.AddPressesAt | 2025/day10.py:168-171 | the inner re-check loop adds the presses to a counter once per listing below the counter count |
| LightMachines.AchievedCounts | 2025/day10.py:167-171 | each re-checked counter holds the presses of every button listing it |
| LightMachines.SolveJoltage | 2025/day10.py:124-175 | with no buttons: 0 when every counter is 0 and nothing otherwise; else a total only when the solver's press vector is non-negative and reproduces every counter, and then it is the sum of the presses |
| LightMachines.RecheckMatchesConstraint | 2025/day10.py:139-172 | for buttons that list no counter twice, the re-check counts what the solver's `A x == b` counts |
| LightMachines.AcceptedSolvesConstraint | 2025/day10.py:152-173 | an accepted vector satisfies every row of the solver's constraint |
| DevicePaths.NoLinesNoSuccessors | 2025/day11.py:10-21 | a device no line names has no successors |
| DevicePaths.LineStep | 2025/day11.py:11-21 | one more line adds its source and destinations to the devices and appends its destinations to its source's list |
| DevicePaths.AddSource | 2025/day11.py:15-17 | a source gets a list on first sight, and a repeated source line extends its list instead of replacing it; other lists are unchanged |
| DevicePaths.AddDestinations | 2025/day11.py:18-21 | after a line, every destination is a key and each list is the destinations of its device's lines so far |
| DevicePaths.BuildGraph | 2025/day11.py:10-23 | the keys are every device named as source or destination, and each list is the concatenated destinations of that device's lines |
| DevicePaths.SimpleIsDag | 2025/day11.py:48-58 | on an acyclic graph the count does not depend on the path that led to a device, which is what makes the cache key sound |
| DevicePaths.NoEntryNoPaths | 2025/day11.py:54 | a device with no graph entry contributes 0 unless it is the end |
| DevicePaths.AtEnd | 2025/day11.py:40-46 | the end device is not expanded and counts 1 exactly when every required device has been seen |
| DevicePaths.PathCounter.constructor | 2025/day11.py:31-37 | the search starts with an empty cache over the given graph, end and required devices |
| DevicePaths.PathCounter.Dfs | 2025/day11.py:39-59 | the seen required devices stay a subset of the required ones; the count is the number of paths to the end that avoid devices already on the path and see every required device; every cached value stays correct |
| DevicePaths.CountPaths | 2025/day11.py:26-61 | on an acyclic graph, the result is the number of paths from start to end through every required device |
| PresentPacking.SortPairsMeaning | 2025/day12.py:75 | Python's `sorted` on cell pairs gives the ascending permutation of its input |
| PresentPacking.SortPairsDescendingMeaning | 2025/day12.py:140 | `sort(reverse=True)` on (size, shape) pairs gives the descending permutation of its input |
| PresentPacking.ShapeCellsMeaning | 2025/day12.py:49-56 | the shape's cells are exactly its '#' positions, each once, in row-major order |
| PresentPacking.GetShapeCells | 2025/day12.py:49-56 | the nested loops collect those cells |
| PresentPacking.Rotate90 | 2025/day12.py:59-61 | every cell `(r, c)` becomes `(c, -r)`, in order |
| PresentPacking.FlipHorizontal | 2025/day12.py:64-66 | every cell `(r, c)` becomes `(r, -c)`, in order |
| PresentPacking.RotateFourTimes | 2025/day12.py:59-61 | four quarter turns give the shape back |
| PresentPacking.FlipTwice | 2025/day12.py:64-66 | mirroring twice gives the shape back |
| PresentPacking.LeastMeaning | 2025/day12.py:73-74 | `min` is an element and at most every element |
| PresentPacking.GreatestMeaning | 2025/day12.py:150-151 | `max` is an element and at least every element |
| PresentPacking.TurnsKeepDistinct | 2025/day12.py:59-66 | turning and mirroring keep the cells distinct |
| PresentPacking.NormalizeCellsMeaning | 2025/day12.py:69-75 | the normal form keeps the number of cells, is sorted, has least row 0 and least column 0, and holds the shape's cells shifted by those minima |
| PresentPacking.Candidates | 2025/day12.py:83-87 | the loop forms eight candidates: each quarter turn and its mirror image |
| PresentPacking.ListOf | 2025/day12.py:89 | `list(set)` holds every element of the set once, in some order |
| PresentPacking.FoundAll | 2025/day12.py:81-87 | the collected set holds between one and eight orientations |
| PresentPacking.NormalOriented | 2025/day12.py:69-75 | every normal form is at the origin with the shape's number of distinct cells |
| PresentPacking.CollectOrientations | 2025/day12.py:81-87 | the loop collects the normal forms of all four turns and their mirror images |
| PresentPacking.GetAllOrientations | 2025/day12.py:78-89 | the orientations are exactly the distinct normal forms of the candidates, at most 8, each the shape's size |
| PresentPacking.CanPlace | 2025/day12.py:92-113 | true exactly when the shape has a cell and every shifted cell lies on the grid on a '.' square |
| PresentPacking.PlaceThenRemove | 2025/day12.py:116-127 | placing a shape where it fits and then removing it restores the grid exactly |
| PresentPacking.StampNothing | 2025/day12.py:116-127 | a shape with no cells changes nothing |
| PresentPacking.FitsInRange | 2025/day12.py:150-154 | a shape at the origin that fits somewhere sits at one of the listed positions |
| PresentPacking.PositionsFor | 2025/day12.py:148-154 | the positions listed for an orientation are exactly those in its row and column ranges |
| PresentPacking.OrientationPositions | 2025/day12.py:147-155 | the lists of a shape hold exactly its orientations at their listed positions |
| PresentPacking.Packing.constructor | 2025/day12.py:130-176 | the search state holds the presents, their options and the grid it fills |
| PresentPacking.Packing.PlaceShape | 2025/day12.py:116-120 | every square the shape covers gets the mark, and no other square changes |
| PresentPacking.Packing.RemoveShape | 2025/day12.py:123-127 | every square the shape covers becomes '.', and no other square changes |
| PresentPacking.Packing.ListedOption | 2025/day12.py:161-166 | every listed placement is one of the shape's orientations, placed on the grid |
| PresentPacking.Packing.AllDead | 2025/day12.py:164-174 | when every placement of a present leads nowhere, the presents from it on cannot be placed |
| PresentPacking.Packing.Backtrack | 2025/day12.py:157-174 | true means every remaining present was placed without overlap; false means the grid is unchanged and no placement of the remaining presents exists |
| PresentPacking.Packing.TryPlacement | 2025/day12.py:165-172 | a placement that fits and lets the rest follow leaves every remaining present placed; otherwise the grid is restored exactly and this placement cannot lead to a packing |
| PresentPacking.EmptyGrid | 2025/day12.py:132 | the region starts as `height` rows of `width` '.' squares |
| PresentPacking.SortedPresentsPermutation | 2025/day12.py:135-141 | the sorted presents are a reordering of the presents list |
| PresentPacking.ValidPositions | 2025/day12.py:144-155 | every present's shape gets its position lists |
| PresentPacking.TryFitPresents | 2025/day12.py:130-176 | true exactly when the sorted presents can all be placed on the empty region without overlap |
| PresentPacking.TotalSizeMultiset | 2025/day12.py:201 | the total size does not depend on the order of the presents |
| PresentPacking.StampDots | 2025/day12.py:116-120 | placing a shape where it fits takes exactly its squares off the empty ones |
| PresentPacking.StampCount | 2025/day12.py:116-120 | placing a shape of distinct cells removes exactly its number of cells from the empty squares |
| PresentPacking.BoxSize | 2025/day12.py:132 | a region has `height * width` squares |
| PresentPacking.PreCheckSound | 2025/day12.py:200-203 | presents that need more squares than the region has cannot all be placed |
| PresentPacking.ExpandCount | 2025/day12.py:195-198 | the presents list holds each shape exactly as often as its count asks |
| PresentPacking.PresentsList | 2025/day12.py:195-198 | the loops build that list, shape by shape |
| PresentPacking.ShapeOrientations | 2025/day12.py:184-186 | every shape gets its list of orientations |
| PresentPacking.OrientationsAgree | 2025/day12.py:184-186 | the search sees each shape's orientations and its size |
| PresentPacking.SkipSound | 2025/day12.py:200-203 | a region skipped by the size check could not have held its presents |
| PresentPacking.SearchDecides | 2025/day12.py:206 | the search decides exactly whether the region can hold its presents |
| PresentPacking.SolvePart1 | 2025/day12.py:179-209 | the count is the number of regions that can hold their presents; the pre-check does not change it |
| PresentPacking.FitRegion | 2025/day12.py:200-207 | a region is counted exactly when its presents can be packed into it; the size pre-check never rejects a packable region |
| LocationLists.ColumnsSameLength | 2024/day01.py:26-30 | both columns get an entry from exactly the same rows, so they have equal length |
| LocationLists.SplitColumns | 2024/day01.py:26-30 | rows with fewer than two fields are skipped; each other row gives its first field to the left column and its second to the right, in order |
| LocationLists.StrLessTotal | 2024/day01.py:32-33 | Python's string order is total, so the sort is well defined |
| LocationLists.InsertStringSorted | 2024/day01.py:32-33 | inserting into a sorted column keeps it sorted |
| LocationLists.InsertStringContents | 2024/day01.py:32-33 | inserting keeps every entry and adds one |
| LocationLists.SortStringsMeaning | 2024/day01.py:32-33 | `list.sort()` on strings gives the sorted permutation of the column |
| LocationLists.EqualWidthOrder | 2024/day01.py:32-35 | for numerals of one width, text order is numeric order |
| LocationLists.TextOrderIsNotNumeric | 2024/day01.py:32-35 | for numerals of different widths it is not: "10" sorts before "9" |
| LocationLists.DiffSum | 2024/day01.py:3-10 | the difference is a sum of absolute distances, never negative |
| LocationLists.DiffSumZero | 2024/day01.py:3-10 | the difference is 0 exactly when the columns hold the same numbers position by position |
| LocationLists.CalculateDifference | 2024/day01.py:3-10 | fails exactly when a left entry is not a number or has no right partner, or a right entry is not a number; otherwise the sum of the distances |
| LocationLists.CalculateSimilarity | 2024/day01.py:12-19 | fails exactly when a left entry is not a number; otherwise each left entry times its number of textual copies on the right, summed |
| LocationLists.CountOf | 2024/day01.py:16 | `list.count` counts the entries equal to the text |
| LocationLists.NothingSharedNoSimilarity | 2024/day01.py:12-19 | with no left entry on the right, the similarity is 0 |
| LocationLists.TextualMatching | 2024/day01.py:16 | copies are matched as text: "7" and "07" are the same number but do not match |
| LocationLists.CountIsMultiplicity | 2024/day01.py:16 | `count` depends only on the multiset of the column |
| LocationLists.SimSumPermutation | 2024/day01.py:32-37 | the similarity does not depend on the order of either column, so sorting first does not change it |
| LocationLists.LocationTotals | 2024/day01.py:21-38 | the difference is that of the text-sorted columns; the similarity is computed only when the difference did not fail, and equals that of the unsorted columns |
| ReportSafety.IsReportSafePart1 | 2024/day02.py:4-22 | fewer than two levels raise; otherwise true exactly when every step goes the way of the first pair, equal first levels counting as rising, by 1 to 3 |
| ReportSafety.CheckSafety | 2024/day02.py:77-83 | reports of at most one level are safe |
| ReportSafety.Part1AgreesWithCheckSafety | 2024/day02.py:4-22 | on two or more levels, `IsReportSafePart1` and `check_safety` agree |
| ReportSafety.FirstOffenseMeaning | 2024/day02.py:35-45 | the first bad step is found, and none is found only when no step is bad |
| ReportSafety.SafeWhenNoOffense | 2024/day02.py:35-59 | a report passes part 1 exactly when it has no bad step |
| ReportSafety.Remove | 2024/day02.py:51-53 | `pop(i)` removes exactly one level |
| ReportSafety.IsReportSafePart2 | 2024/day02.py:24-59 | fewer than two levels raise; without tolerance it is part 1 and leaves the list alone; with tolerance at the first bad step it pops that step's first level from the list itself, and accepts when the list without either level of the step passes |
| ReportSafety.Part1ImpliesDampened | 2024/day02.py:31-59 | a report that passes part 1 passes part 2 and loses no level |
| ReportSafety.SafeReports | 2024/day02.py:67-68 | the part-1 list holds at most the reports |
| ReportSafety.DampenedReports | 2024/day02.py:69-70 | the part-2 list holds at most the reports, each as its pop left it |
| ReportSafety.ReportsSafe | 2024/day02.py:61-75 | fails exactly when some report raises; otherwise the two lists of accepted reports, in order |
| ReportSafety.DampenedCountsMore | 2024/day02.py:61-75 | part 2 counts at least as many safe reports as part 1 |
| ReportSafety.SafeWithDampener | 2024/day02.py:24-59 | the intended dampener: true exactly when the report, or the report without some one level, is safe |
| ReportSafety.DampenedSound | 2024/day02.py:45-55 | whatever the written dampener accepts, the intended one accepts |
| ReportSafety.TwoLevelsTolerable | 2024/day02.py:77-83 | any two-level report is safe once a level is dropped |
| ReportSafety.DampenerMissesFirstLevel | 2024/day02.py:31-55 | [3, 1, 2, 3, 4] is rejected, yet dropping the 3 leaves a safe report |
| ReportSafety.TwoLevelReportRaises | 2024/day02.py:46-55 | [1, 1] makes the dampener raise, although it is tolerable |
| CalorieCounting.Groups | 2022/day01.py:5-12 | a successful grouping has at least one group, since the last group is added after the loop |
| CalorieCounting.GroupsMeaning | 2022/day01.py:5-12 | grouping fails exactly when a non-blank line is not a number; the groups hold every number in order, and there is one group more than there are blank lines |
| CalorieCounting.ReadElves | 2022/day01.py:3-12 | the reading loop builds those groups, with the final group appended after the loop |
| CalorieCounting.NumberElves | 2022/day01.py:14-18 | one total per elf: elf `i + 1` with the sum of its group |
| CalorieCounting.MaxElf | 2022/day01.py:20-23 | the result is at least every total and never below 0; it stays [0, 0] when no total is positive, and otherwise it is the first elf with the largest total |
| CalorieCounting.InsertDescendingSorted | 2022/day01.py:25 | inserting into a descending list keeps it descending |
| CalorieCounting.InsertDescendingContents | 2022/day01.py:25 | inserting keeps every total and adds one |
| CalorieCounting.SortDescendingMeaning | 2022/day01.py:25 | `sorted(..., reverse=True)` gives a descending permutation of the totals |
| CalorieCounting.SortKeepsSum | 2022/day01.py:25 | sorting keeps the sum of the totals |
| CalorieCounting.TopThreeSum | 2022/day01.py:25-28 | the loop adds up the first three sorted totals |
| CalorieCounting.TopThreeMeaning | 2022/day01.py:25 | the slice holds three totals, or all when there are fewer; none is smaller than a total left out; with at most three elves the sum is the sum of all totals |
| CalorieCounting.TopThreeAtLeastEach | 2022/day01.py:20-28 | with no negative totals, the top-three sum is at least every elf's total, so it is at least the largest one |
| CalorieCounting.CalorieAnswers | 2022/day01.py:2-31 | fails exactly when grouping fails; otherwise the first answer is 0 or some elf's total and at least every total, and the second is the top-three sum of the numbered totals |
| RockPaperScissors.TableKeys | 2022/day02.py:6-7 | both tables have exactly the nine "A/B/C X/Y/Z" lines as keys |
| RockPaperScissors.TableSum | 2022/day02.py:9-10 | `sum([d[x] for x in data])` has a value only when every line is a key of the table; otherwise the KeyError is None |
| RockPaperScissors.ShapeFor | 2022/day02.py:7 | the shape picked for a needed outcome gets that outcome |
| RockPaperScissors.ShapeTableIsGame | 2022/day02.py:6 | `d` scores each line as our shape's score plus the outcome's score |
| RockPaperScissors.OutcomeTableIsGame | 2022/day02.py:7 | `d2` scores each line as the needed outcome's score plus the score of the shape that gets it |
| RockPaperScissors.ShapeTableValues | 2022/day02.py:6 | the values of `d` are 1..9 |
| RockPaperScissors.OutcomeTableValues | 2022/day02.py:7 | the values of `d2` are 1..9 |
| RockPaperScissors.DecodeRound | 2022/day02.py:6-7 | a shape score and an outcome score can be read back from their sum |
| RockPaperScissors.ShapeTableInjective | 2022/day02.py:6 | no two lines share a score in `d`, so its values are a permutation of 1..9 |
| RockPaperScissors.OutcomeTableInjective | 2022/day02.py:7 | no two lines share a score in `d2` |
| RockPaperScissors.TableSumDefined | 2022/day02.py:8-10 | a sum exists exactly when every line is a key; any other line raises KeyError |
| RockPaperScissors.SumsAreGames | 2022/day02.py:9-10 | the two printed sums are the total scores of the two readings of the guide |
| RockPaperScissors.TrailingBlankRaises | 2022/day02.py:8-10 | a trailing empty line makes both sums raise |
| Rucksacks.LetterOf | 2022/day03.py:29-37 | every priority from 1 to 52 names a letter |
| Rucksacks.CharNumber | 2022/day03.py:29-37 | a lower-case letter gets a priority in 1..26 and an upper-case letter one in 27..52 |
| Rucksacks.CharNumberLetters | 2022/day03.py:29-37 | letters get priorities 1..52, lower case exactly for 1..26, and the priority names the letter back |
| Rucksacks.LetterOfPriority | 2022/day03.py:29-37 | the letter named by a priority has that priority |
| Rucksacks.CharNumberInjective | 2022/day03.py:29-37 | two letters with one priority are the same letter |
| Rucksacks.Halves | 2022/day03.py:9-10 | the halves concatenate back to the rucksack; the first has `len // 2` items and the second the same or one more |
| Rucksacks.SetPriorityRemove | 2022/day03.py:14-15 | the set's total does not depend on the order its items are taken in |
| Rucksacks.SetPriorityInsert | 2022/day03.py:12-15 | an item already present adds nothing; a new one adds its priority once |
| Rucksacks.SetPriorityBounds | 2022/day03.py:12-37 | a set of letters totals between one and 52 per item |
| Rucksacks.Misplaced | 2022/day03.py:9-12 | the matches are exactly the items in both halves |
| Rucksacks.AddPriorities | 2022/day03.py:14-15 | the loop over the set adds each item's priority once |
| Rucksacks.MatchSum | 2022/day03.py:7-15 | part 1 is the total over the rucksacks of the priorities of their matches |
| Rucksacks.RepeatsCountOnce | 2022/day03.py:12-15 | "aaaa" has one match, 'a', counted once |
| Rucksacks.Badges | 2022/day03.py:22 | the badges are exactly the items in all three lines of the group |
| Rucksacks.MatchBatch | 2022/day03.py:19-25 | part 2 succeeds exactly when the number of lines is a multiple of 3, and then totals the badge priorities of each group; a short last group raises IndexError |
| CampCleanup.ParseFormatRange | 2022/day04.py:13-16 | reading a written range gives it back |
| CampCleanup.ParseRange | 2022/day04.py:13-16 | an elf's range without a '-' has no second bound, the IndexError, here None |
| CampCleanup.ParsePair | 2022/day04.py:11-16 | a line without a ',' has no second elf, the IndexError, here None |
| CampCleanup.ParseFormatPair | 2022/day04.py:11-16 | reading a written pair gives it back |
| CampCleanup.TestsSymmetric | 2022/day04.py:16-24 | both tests are symmetric in the two elves |
| CampCleanup.ContainedMeaning | 2022/day04.py:16-19 | for real ranges, a pair counts as contained exactly when one elf's sections include the other's |
| CampCleanup.DisjointMeaning | 2022/day04.py:21-24 | for real ranges, a pair counts as disjoint exactly when no section is shared |
| CampCleanup.ContainedOverlaps | 2022/day04.py:16-24 | containment implies overlap, and identical ranges are both |
| CampCleanup.ParseAll | 2022/day04.py:10-16 | a successful read gives one pair per line |
| CampCleanup.ContainedAtMostOverlapping | 2022/day04.py:16-27 | with real ranges, the contained count never exceeds the overlap answer |
| CampCleanup.CountPairs | 2022/day04.py:7-27 | fails exactly when some line does not read as a pair; otherwise the contained count, counted once through the `elif`, and the number of lines minus the disjoint count |
| CampCleanup.Tally | 2022/day04.py:16-24 | each `if`/`elif` pair adds one to its count exactly when one range contains the other, respectively when the two ranges are disjoint |
| SupplyStacks.BottomUpMembers | 2022/day05.py:52-55 | a stack holds exactly the non-blank characters drawn in its text column in rows 0 to 7 |
| SupplyStacks.BottomUpFirst | 2022/day05.py:52-55 | the stack's bottom crate is the one drawn lowest, with only blanks below it |
| SupplyStacks.BottomUpBlank | 2022/day05.py:52-55 | an empty stack means its column is blank in every row |
| SupplyStacks.Columns | 2022/day05.py:48-51 | the stacks built for the first `k` columns number `k` |
| SupplyStacks.ColumnsMeaning | 2022/day05.py:49-55 | stack `j` is read from text column `4j+1` (`indexes[j] - 1`), bottom first |
| SupplyStacks.StartStacks | 2022/day05.py:47-57 | when no index is out of range, there are nine stacks |
| SupplyStacks.ReadColumn | 2022/day05.py:52-55 | the inner loop fails exactly when a row from 7 down to 0 is missing or too short, and otherwise gives the column's crates bottom first |
| SupplyStacks.CrateStart | 2022/day05.py:47-57 | crateStart gives the nine stacks of the drawing, or fails with IndexError |
| SupplyStacks.NumeralNoSpace | 2022/day05.py:38 | a written number holds no space, so splitting on spaces keeps it whole |
| SupplyStacks.ParseFormatStep | 2022/day05.py:38-43 | reading a written move gives the move back, with both stacks shifted to 0-based |
| SupplyStacks.ParseStep | 2022/day05.py:38-43 | a line without a space has no `moveData[1]`, the IndexError, here None |
| SupplyStacks.ParseSteps | 2022/day05.py:37-45 | a successful read gives one move per line |
| SupplyStacks.ParseStepsMeaning | 2022/day05.py:37-45 | the moves are read exactly when every line reads as a move, and move `i` is line `i`'s |
| SupplyStacks.GetActions | 2022/day05.py:33-45 | getActions reads every line from index 10 on as a move, or fails at the first bad line |
| SupplyStacks.Resolve | 2022/day05.py:15-20 | a resolved index is inside the list; negative indices count from the end |
| SupplyStacks.MoveOne | 2022/day05.py:15 | a single pop-and-append keeps the number of stacks |
| SupplyStacks.Crane9000 | 2022/day05.py:13-15 | the CrateMover 9000 keeps the number of stacks |
| SupplyStacks.Crane9001 | 2022/day05.py:17-20 | the CrateMover 9001 keeps the number of stacks |
| SupplyStacks.Reversed | 2022/day05.py:13-15 | reversing keeps the length |
| SupplyStacks.CrateTotalUpdate | 2022/day05.py:15-20 | replacing one stack changes the crate total by the difference in its height |
| SupplyStacks.TopsOf | 2022/day05.py:22-28 | a message that exists has one letter per stack |
| SupplyStacks.TopsOfMeaning | 2022/day05.py:22-28 | the message exists exactly when no stack is empty; it has one letter per stack, stack `j`'s top crate |
| SupplyStacks.Crane9000FailureStays | 2022/day05.py:14-15 | once a single move raises, any longer run of moves raises too |
| SupplyStacks.Crane9000Block | 2022/day05.py:13-15 | on two different stacks, `n` single moves take the top `n` crates and put them on the target in reverse order |
| SupplyStacks.Crane9000SameStack | 2022/day05.py:13-15 | when source and target are one non-empty stack, the moves change nothing |
| SupplyStacks.Crane9000Succeeds | 2022/day05.py:13-15 | the CrateMover 9000 raises exactly when a stack index is out of range or the source runs out of crates |
| SupplyStacks.Crane9001Block | 2022/day05.py:17-20 | with `0 < n` crates available, the CrateMover 9001 moves the top `n` crates onto the target in their order |
| SupplyStacks.Crane9000KeepsTotal | 2022/day05.py:13-15 | the CrateMover 9000 keeps the number of crates |
| SupplyStacks.Crane9001KeepsTotal | 2022/day05.py:17-20 | the CrateMover 9001 keeps the number of crates |
| SupplyStacks.CranesAgreeOnOne | 2022/day05.py:13-20 | moving one crate, the two cranes give the same stacks |
| SupplyStacks.ZeroMoveEmptiesSource | 2022/day05.py:17-20 | as written, a move of 0 crates empties the source stack, because `del src[-0:]` deletes everything |
| SupplyStacks.Crane9001Fixed | 2022/day05.py:17-20 | the corrected crane keeps the number of stacks |
| SupplyStacks.Crane9001FixedBlock | 2022/day05.py:17-20 | the corrected crane moves the top `n` crates in order for every `n` from 0 to the source's height, and keeps the crate total |
| SupplyStacks.Cargo.constructor | 2022/day05.py:7-8 | each copy of the stacks starts as crateStart's result |
| SupplyStacks.Cargo.Move9000 | 2022/day05.py:13-15 | the in-place single-crate loop succeeds exactly when the CrateMover 9000 does, and leaves its stacks |
| SupplyStacks.Cargo.Move9001 | 2022/day05.py:17-20 | the in-place block move succeeds exactly when the CrateMover 9001 does, and leaves its stacks |
| SupplyStacks.Cargo.TopMessage | 2022/day05.py:22-28 | the message loop gives the top crate of each stack, or fails on an empty stack |
| SupplyStacks.TopsOfNoneStays | 2022/day05.py:23-24 | an empty stack among the first `i` makes the whole message fail |
| SupplyStacks.RunSteps | 2022/day05.py:12-20 | the step loop applies each move to both copies, each with its crane, and fails exactly when some move raises |
| SupplyStacks.Rearrange | 2022/day05.py:3-28 | main gives the two messages of the rearranged stacks, or nothing when any step raises |
| SupplyStacks.Messages | 2022/day05.py:3-31 | when main gets through, each message has one letter for each of the nine stacks |
| SupplyStacks.RunBoth | 2022/day05.py:12-20 | a run that gets through keeps the number of stacks of both copies |
| SupplyStacks.RunBothStep | 2022/day05.py:12-20 | one more step applies both cranes to the stacks reached so far |
| SupplyStacks.RunBothNoneStays | 2022/day05.py:12-20 | once a step has raised, the whole run fails |
| TuningTrouble.DupeChars | 2022/day06.py:52-54 | the repeated characters are characters of the window |
| TuningTrouble.CountTwice | 2022/day06.py:53 | a character counts at least twice exactly when two positions hold it |
| TuningTrouble.NoDupesIsDistinct | 2022/day06.py:44-54 | findDupeChars is empty exactly when the window's characters are all different |
| TuningTrouble.Window | 2022/day06.py:41-42 | the slice `data[key:key+w]` is cut short at the end of the data |
| TuningTrouble.ScanUpToMeaning | 2022/day06.py:40-50 | the scan over the first `n` keys reports the first marker among them, ending `w` characters after its key, or finds none |
| TuningTrouble.ScanUpToNone | 2022/day06.py:40-50 | the scan over the first `n` keys reports nothing exactly when none of them starts a marker |
| TuningTrouble.ScanUpToSome | 2022/day06.py:40-50 | a marker the scan reports starts a window of distinct characters with no marker before it |
| TuningTrouble.ScanFindsFirst | 2022/day06.py:40-50 | the whole scan reports the first marker |
| TuningTrouble.HitAt | 2022/day06.py:44-48 | the test at one key holds exactly when the window's characters are all different (and, for the complete scan, the window fits) |
| TuningTrouble.Markers | 2022/day06.py:35-50 | as written, each marker reported is the first key whose window, possibly cut short, has no repeat, plus the width; each is reported once |
| TuningTrouble.CompleteMarkers | 2022/day06.py:35-50 | the corrected scan reports the first run of 4 (14) all-different characters that lies inside the data |
| TuningTrouble.CompleteMarkerFits | 2022/day06.py:14 | a complete marker ends inside the data, after exactly `w` characters |
| TuningTrouble.AgreeInside | 2022/day06.py:40-50 | the scan as written and the corrected one agree whenever the reported marker ends inside the data |
| TuningTrouble.TruncatedTailReported | 2022/day06.py:41-45 | as written, "aaab" reports a packet marker after character 6, though it has none |
| TuningTrouble.RepeatInWindow | 2022/day06.py:44 | two equal characters in a window rule out a marker there |
| TuningTrouble.FourDifferent | 2022/day06.py:44 | four pairwise different characters make a packet marker |
| TuningTrouble.FirstExample | 2022/day06.py:18-21 | "mjqjpqm…" has its packet marker after character 7 |
| TuningTrouble.SecondExample | 2022/day06.py:25 | "bvwbjplb…" has its packet marker after character 5 |
| TuningTrouble.ThirdExample | 2022/day06.py:26 | "nppdvjth…" has its packet marker after character 6 |

## Left out

- Reading input files, building paths from `__file__`, printing and the `__main__` entry points of every solver: the model starts from the file's lines (or parsed values) and returns what would be printed. 2022 day 1 opens an absolute path; that path is not modelled either.
- The expected answers of the worked examples that live only in input files absent here are not stated: 1227775554 and 4174379265 (2025 day 2), 357 and 3121910778619 (2025 day 3), 13 and 43 (2025 day 4), 40 and 25272 (2025 day 8), 50 and 24 (2025 day 9), 7 and 33 (2025 day 10), 5 and 2 (2025 day 11).
- MaxJoltage: requires every battery of the bank to be an ASCII digit (`AllDigits`). On other characters Python's `int(bank[i] + bank[j])` raises ValueError, or reads forms such as "+5", " 5" or non-ASCII digits; the model does not describe either.
- MaxJoltageN: requires `1 <= n <= len(bank)`. For `n = 0`, Python's `int('')` raises ValueError; for `n > len(bank)`, it raises IndexError. It also requires ASCII digits, as MaxJoltage does.
- PaperRolls: the grid must have no row shorter than the first (`Indexable`), where Python would raise IndexError.
- FreshRanges.MergeRanges: the total is stated only for ranges with start <= end. For a reversed range, Python adds a negative length, and the model does not describe that sum.
- ReadColumn and ColumnDigits: `char.isdigit()` is modelled as the ASCII digits '0' to '9' (`IsDigit`). Python's `isdigit` also accepts other Unicode digits, such as superscripts and Arabic-Indic digits, which `int()` then reads or rejects; a worksheet holding them is not described.
- Worksheet: the loops of `solve_part1` and `solve_part2` that add up the problem results and open the input file are not modelled. The parsing of the worksheet and each problem's result are.
- Circuits: the straight-line distances (`math.sqrt` on floats) and the sort by distance are left out. The pairs arrive already sorted, closest first.
- Circuits.ConnectAll: requires at least one box, where Python's `coords[0]` raises IndexError.
- RedTiles: the unused `x_coords` and `y_coords` lists of part 2 are not modelled.
- LightMachines.SolveJoltage: part 2's integer linear program (scipy's `milp`) is foreign code. Its rounded answer is a parameter, and only how the solver uses it is modelled. The loop of `solve_part2` that sums the machines is not modelled.
- DevicePaths: the graph must be acyclic, witnessed by a rank that every edge decreases. On a cyclic graph Python's search still ends, because it skips neighbours already on the path, but its cache is keyed by the node and the required nodes seen, not by the path. A count cached under one path is then reused under another, so simple paths can be missed. For example, with s→[a, b], a→[b, out] and b→[a, out], `dfs` returns 3 where there are 4 paths from s to out. The model describes acyclic graphs only, where the cache is sound.
- DevicePaths: the input lines arrive already split into a source and its destinations. The `split(': ')` and `split()` of `parse_input` are not modelled.
- PresentPacking: the progress prints are left out. The order of `list(set(...))` is arbitrary in the model, as it is in Python. A region asking for an unknown shape (Python's KeyError) is excluded by `ShapesKnown`. A shape drawn without any '#' is excluded: adding a list to a set raises there.
- PresentPacking.CanPlace: requires a grid with at least one row whenever there are cells to place, where Python's `grid[0]` raises IndexError.
- Sorting (2024 day 1, 2022 day 1, 2025 days 5 and 12) is given by specification functions and proved sorted and a permutation. The stability of Python's sort is not stated for the 2022 day 1 sort by total.
- Common.ParseInt: accepts an optional sign and ASCII digits only. Python's `int()` also takes surrounding whitespace, underscores between digits and non-ASCII digits; the puzzle inputs do not use these.
- Rucksacks: the priority total of a set of items (`SetPriority`) is a ghost function, since a set is summed in an order Python does not fix.
- ReportSafety: reports arrive already parsed into integers, so the `split()` and `int()` of each line are not modelled. For reports of fewer than two levels, Python's `report[1]` raises IndexError, and the model returns None.
- RockPaperScissors and CampCleanup: an input that ends with a newline leaves an empty last line after `split('\n')`, and the source raises on it (KeyError on day 2, IndexError on day 4). The model returns None there, as the source does, rather than skipping the line.
- TuningTrouble: the fourth and fifth examples (answers 10 and 11) are not stated as lemmas; the first three are.

## Findings

| source | as written | input that shows it | evidently intended | confidence | as-written member | corrected member |
|---|---|---|---|---|---|---|
| 2024/day02.py:31-55 | the dampener only tries dropping either level of the first bad step, with the direction still taken from the first pair | [3, 1, 2, 3, 4] is rejected, yet dropping the first level leaves the safe [1, 2, 3, 4] | a report is safe when it, or the report with some one level dropped, is safe | not executed | ReportSafety.DampenerMissesFirstLevel | ReportSafety.SafeWithDampener |
| 2024/day02.py:46-55 | for a two-level report with a bad step, the recursive call gets a one-level report and `report[1]` raises IndexError | [1, 1] raises, yet [1] alone is safe | any two-level report is tolerable | not executed | ReportSafety.TwoLevelReportRaises | ReportSafety.SafeWithDampener |
| 2022/day05.py:17-20 | `del src[-n:]` with `n = 0` is `del src[0:]`, which empties the source stack | "move 0 from 1 to 2" empties stack 1 | a move of no crates changes nothing | not executed | SupplyStacks.ZeroMoveEmptiesSource | SupplyStacks.Crane9001FixedBlock |
| 2022/day06.py:41-45 | near the end of the data, the slice `data[key:key+4]` is shorter than 4, and a short slice without repeats is reported as a marker | "aaab" reports a packet marker after character 6, though it holds no four different characters | only windows of full width inside the data count | not executed | TuningTrouble.TruncatedTailReported | TuningTrouble.CompleteMarkers |
