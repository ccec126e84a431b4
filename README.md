# Advent of Code 2025 solvers, modelled and verified in Dafny

This project models the solvers of the twelve puzzles of a 2025 Advent of Code
repository: Python scripts and two C programs. Each puzzle's logic becomes one
or more Dafny modules. The file reading stays out: every solver takes the lines
of its input file, or the whole text, as a parameter. Where the original
updates state step by step, the model is imperative Dafny. Lists become `seq`
values that methods reassign. Grids and tables updated in place become arrays.
The union-find is a class over `parent` and `size` arrays. Each such method is
proved against a specification function, and the properties the solvers rely
on are proved as lemmas about those functions. Where the original raises an
exception or exits, the model returns `None`.

- `common.dfy` (`Common`): the Python built-ins the solvers lean on.
  - `str.strip`, `str.split` and `str.split()`.
  - `int` on decimal text, and `str` on naturals.
  - `sum`, and dictionaries kept in insertion order.
- Day 1 (`Dial`): a dial of 100 positions, turned click by click, counting
  every landing on 0.
- Day 2 (`RepeatedIds`): ids whose decimal digits are one chunk repeated, and
  the sum of those ids over comma-separated ranges.
- Day 3, two C programs:
  - `BestPair`: the largest two-digit value per line.
  - `GreedyDigits`: the twelve-digit value chosen by a monotone stack kept in a
    `char` buffer, totalled in unsigned 64-bit arithmetic.
- Day 4: paper rolls on a grid.
  - `PaperRolls`: neighbour counts and accessible rolls.
  - `RollRemoval`: rounds that remove every accessible roll at once until none
    is left.
- Day 5: fresh ingredient ids.
  - `FreshIds`: reading the database, and membership in inclusive ranges.
  - `RangeMerging`: sorting and merging the ranges, and counting the ids they
    cover.
- Day 6: a worksheet of problems in column blocks.
  - `ColumnBlocks`: padding and block splitting.
  - `RowProblems` (part 1) and `ColumnProblems` (part 2): reading and solving
    the blocks.
- Day 7: beams split by '^' on a grid.
  - `Timelines`: the transition shared by all variants, and the memoised
    recursion.
  - `TimelineTables`: the dynamic-programming table in Python and in C,
    including 64-bit wrap-around.
  - `SparseTimelines`: the sparse frontier.
  - `Beams`: the breadth-first simulation that marks the grid and counts
    splits.
- Day 8: junction boxes joined into circuits.
  - `Circuits`: exact squared distances, the stable sort of all pairs, and the
    two drivers.
  - `DisjointSets`: union-find with path compression and union by size.
- Day 9: the largest rectangle inside a rectilinear polygon.
  - `AxisCompression`: coordinate compression.
  - `PolygonCanvas`: edge drawing and scanline fill.
  - `LargestRectangle`: 2-D prefix sums and the search.
  - `PolygonZone`: the driver, and reading the tiles.
- Day 10: machines of lights and buttons.
  - `MachineParsing`: the two regular-expression searches written out as scans.
  - `ButtonPresses`: the fewest distinct buttons whose XOR reaches the target.
- Day 11: a device graph.
  - `DeviceGraph`: loading the graph.
  - `PathCounting`: the memoised path count as a class.
  - `PathEnumeration`: the paths that count enumerates.
- Day 12 (`RegionFit`): shapes read as `#`/`.` bitmasks, and regions checked by
  area.

In `8/Part_1/main.py` the edge loop breaks only when `idx + 1 ==
MAX_CONNECTIONS`, so a limit below 1 never stops it and every edge is processed
(`Circuits.Processed`).

## Model

| member | source | states |
|---|---|---|
| Common.SumConcat | 12/Part_1/main.py:46-48 | `sum` over two lists in a row is the sum of the two sums |
| Common.SumNonNegative | 5/Part_1/main.py:35 | a sum of non-negative terms is not negative |
| Common.SumBounds | 12/Part_1/main.py:46-48 | a sum of terms between 0 and `hi` lies between 0 and the count times `hi` |
| Common.DigitChar | 2/main.py:29 | the character of a digit reads back as that digit |
| Common.NatToString | 2/main.py:29 | `str(n)` of a natural has no sign, only digits and no leading zero except for 0 itself |
| Common.NatToStringRoundTrip | 2/main.py:29 | the digits of `str(n)` are worth `n` |
| Common.StringToNatRoundTrip | 2/main.py:29 | a canonical digit string is `str` of its value |
| Common.TrimStart | 11/Part_1/main.py:15 | stripping the front removes a prefix and leaves no leading whitespace |
| Common.TrimEnd | 11/Part_1/main.py:15 | stripping the back removes a suffix and leaves no trailing whitespace |
| Common.Strip | 11/Part_1/main.py:15 | `str.strip()` leaves no whitespace at either end and never lengthens the text |
| Common.StripNoSpace | 11/Part_1/main.py:19 | stripping a text without whitespace leaves it as it is |
| Common.Split | 12/Part_1/main.py:12 | `str.split(sep)` always gives at least one piece |
| Common.SplitJoin | 12/Part_1/main.py:12 | joining the pieces with the separator gives the text back |
| Common.SplitWhole | 12/Part_1/main.py:33 | a text without the separator is one piece |
| Common.SplitNoChar | 2/main.py:77 | a text without the separator's first character is one piece |
| Common.SplitPrefix | 2/main.py:77 | a separator-free first piece is cut off at the first separator |
| Common.JoinSplit | 12/Part_1/main.py:16 | pieces without the separator, joined by it, split back into themselves |
| Common.WordLength | 11/Part_1/main.py:20 | a word runs to the first whitespace character |
| Common.WordsFacts | 11/Part_1/main.py:20 | `str.split()` gives non-empty words without whitespace |
| Common.ParseInt | 2/main.py:78 | `int` refuses a blank text |
| Common.ParseIntRoundTrip | 2/main.py:78 | `int(str(n))` is `n` |
| Common.ParseIntBlank | 5/Part_1/main.py:21 | `int` of a blank text raises |
| Common.ParseInts | 8/Part_1/main.py:11 | `map(int, pieces)`, when every piece reads, gives one integer per piece |
| Common.ParseIntsValue | 8/Part_1/main.py:11 | every integer is the reading of its own piece |
| Common.ParseIntsAll | 8/Part_1/main.py:11 | pieces that each read give the list of their values |
| Common.ParseIntsFails | 8/Part_1/main.py:11 | one piece that does not read makes the whole list fail |
| Common.StripLines | 5/Part_1/main.py:9 | stripping every line keeps the number of lines |
| Common.StripUnpadded | 5/Part_1/main.py:9 | stripping lines that are already stripped changes nothing |
| Common.Numerals | 12/Part_1/main.py:16 | there is one decimal text per number |
| Common.JoinDigits | 12/Part_1/main.py:16 | numbers joined by a separator hold only digits and that separator |
| Common.NumeralsRoundTrip | 12/Part_1/main.py:16 | numbers written with a non-digit separator between them split and read back as those numbers |
| Common.Get | 7/Part_2/main_sparse.py:25-28 | a key has a value in the dictionary exactly when it is one of its keys |
| Common.PutFacts | 7/Part_2/main_sparse.py:28 | storing a value adds its key, stores the value, leaves other keys alone, and keeps the insertion order of an old key |
| Common.PutKeys | 7/Part_2/main_sparse.py:28 | a stored key keeps its place, a new key goes last |
| Common.PutGet | 7/Part_2/main_sparse.py:28 | the stored value is found under its key and no other lookup changes |
| Common.GetOrPut | 7/Part_2/main_sparse.py:28 | a lookup with a default after storing sees the stored value under its key only |
| Common.PutDistinct | 7/Part_2/main_sparse.py:28 | storing keeps every key listed once |
| Common.ValuesFacts | 7/Part_2/main_sparse.py:35 | `values()` lists one value per entry, in insertion order |
| Common.PutSum | 7/Part_2/main_sparse.py:28-35 | storing `v` under `k` changes the sum of the values by `v` minus the old value of `k` |
| Common.PutIncrementSum | 7/Part_2/main_sparse.py:28 | adding 1 to a counter adds 1 to the sum of the values |
| Dial.TurnOnDial | 1/main.py:44-63 | turning keeps the position in 0..99 and never lowers the count of zeros |
| Dial.TurnRight | 1/main.py:44-52 | `n` clicks right from `pos` end at `(pos + n) % 100` and land on 0 exactly `(pos + n) / 100` times |
| Dial.TurnLeft | 1/main.py:55-63 | `n` clicks left end at `(pos - n) % 100` and land on 0 as often as the mirrored right turn does |
| Dial.LeftZero | 1/main.py:55-63 | a left turn ends on 0 exactly when the mirrored right turn does |
| Dial.FullTurn | 1/main.py:44-63 | a turn of exactly 100 either way leaves the position and adds exactly one zero |
| Dial.SkippedLines | 1/main.py:29-68 | a blank line, a value `int` rejects or an unknown direction leaves position and count unchanged |
| Dial.RunOnDial | 1/main.py:22-68 | after any number of lines the dial is on 0..99 and the count has never decreased |
| Dial.CountZerosDuringFile | 1/main.py:22-70 | the method's result is the password: the zeros counted over all lines from position 50 |
| Dial.CountZeros | 1/main.py:28-68 | the line loop yields the count of the state reached after all parsed lines |
| Dial.RotateLine | 1/main.py:29-68 | one loop pass applies the parsed line to the state |
| Dial.Spin | 1/main.py:45-63 | `for _ in range(value)` clicks `max(value, 0)` times, counting landings on 0 |
| RepeatedIds.RepeatIndex | 2/main.py:36-37 | character `i` of `chunk * m` is character `i % len(chunk)` of the chunk |
| RepeatedIds.RepeatsIffPeriodic | 2/main.py:34-38 | for a chunk size dividing the length, repeating the first `k` characters rebuilds the string exactly when every character equals the one `k` places earlier |
| RepeatedIds.ChunkTwice | 2/main.py:33-38 | a chunk size that succeeds leaves at least two copies of the chunk |
| RepeatedIds.IsRepeatedPattern | 2/main.py:29-42 | the result is true exactly when some `k` with `1 <= k <= L/2` dividing `L` has `s == s[:k] * (L/k)` |
| RepeatedIds.EmptyRange | 2/main.py:85-87 | a range with `low > high` adds nothing |
| RepeatedIds.RangeSumSplit | 2/main.py:85-87 | the sum over a range is the sum over its two halves cut at any point |
| RepeatedIds.RangeSumNonNegative | 2/main.py:85-87 | a range of non-negative ids never has a negative sum |
| RepeatedIds.SumRange | 2/main.py:82-87 | the inner loop adds up exactly the invalid ids of `low..high`, both ends included |
| RepeatedIds.TotalFails | 2/main.py:72-89 | the run raises exactly when some entry is neither blank nor a well-formed `low-high` |
| RepeatedIds.TotalTwice | 2/main.py:85-89 | an id in two overlapping ranges is counted twice |
| RepeatedIds.TotalStops | 2/main.py:77-78 | once an entry has raised, no later entry changes that |
| RepeatedIds.SumInvalidIds | 2/main.py:66-98 | the method returns the total of the stripped text split at commas, blank entries skipped, or the error |
| RepeatedIds.SumEntries | 2/main.py:72-89 | the entry loop returns the total over the parsed entries |
| RepeatedIds.AddEntry | 2/main.py:73-89 | one pass adds the entry's range sum, skips a blank entry, or raises |
| RepeatedIds.ReadEntry | 2/main.py:73-78 | an entry is read as blank, as a range of two integers, or as malformed |
| BestPair.RowBestAbove | 3/Part_1/main.c:53-64 | every pair starting at digit `i` is at most the best value the inner loop has seen |
| BestPair.BestBeforeAbove | 3/Part_1/main.c:44-65 | every pair whose first digit comes before `i` is at most the best value so far |
| BestPair.RowBestFound | 3/Part_1/main.c:53-64 | the inner loop's best value lies in -1..99 and, when not -1, is the value of an actual pair |
| BestPair.BestBeforeFound | 3/Part_1/main.c:40-65 | the running maximum lies in -1..99 and, when not -1, is attained by a pair |
| BestPair.JoltageIsLargestPair | 3/Part_1/main.c:40-65 | a line's value is the largest `10*a + b` over digits `a` before `b`, non-digits ignored; it lies in -1..99 and is -1 exactly when the line has fewer than two digits |
| BestPair.MaxJoltage | 3/Part_1/main.c:40-65 | the nested loops compute that value |
| BestPair.TotalBounds | 3/Part_1/main.c:68-71 | each line adds between 0 and 99, a line without a pair adds nothing |
| BestPair.TotalJoltage | 3/Part_1/main.c:33-77 | the line loop adds up the values of the lines that have a pair |
| GreedyDigits.CutLine | 3/Part_2/main.c:44 | the line is cut at its first CR or LF: a prefix without either, followed by one when shorter |
| GreedyDigits.DigitPrefixAll | 3/Part_2/main.c:51-83 | `strtoull` reads all the leading digits and stops at the first non-digit |
| GreedyDigits.StrtoullDigits | 3/Part_2/main.c:51-83 | `strtoull` of at most K digits followed by a non-digit is their decimal value |
| GreedyDigits.ShortValue | 3/Part_2/main.c:22-51 | K digits stay below 10^12, far from the 64-bit limit |
| GreedyDigits.PopRemovesSmaller | 3/Part_2/main.c:68-73 | the pop loop only removes digits smaller than the current one from the top, and only while enough characters remain to still reach K |
| GreedyDigits.StackShape | 3/Part_2/main.c:57-79 | at most K digits are ever kept, all of them digits |
| GreedyDigits.StackFills | 3/Part_2/main.c:60-80 | kept digits plus characters still to come plus non-digits skipped reach K, unless the line is shorter than K |
| GreedyDigits.DigitLineFills | 3/Part_2/main.c:60-80 | an all-digit line longer than K keeps exactly K digits |
| GreedyDigits.StackIsSubsequence | 3/Part_2/main.c:60-80 | the kept digits are a subsequence of the line's digits, in their original order |
| GreedyDigits.PopStops | 3/Part_2/main.c:68-73 | the pop loop ends at an empty stack, at a top digit not smaller than the current one, or when the characters left could no longer refill the stack to K |
| GreedyDigits.StepGrows | 3/Part_2/main.c:66-79 | one digit never moves the kept digits earlier in dictionary order |
| GreedyDigits.ForcedStep | 3/Part_2/main.c:66-79 | one digit keeps every ascent of the stack (a digit below a later, larger one) at a position that the characters left could not have refilled |
| GreedyDigits.StackForced | 3/Part_2/main.c:60-80 | every ascent of the stack is forced in that sense, after any prefix of the line |
| GreedyDigits.StepDominates | 3/Part_2/main.c:66-79 | if a choice comes no later than the stack in dictionary order, that choice followed by the next digit comes no later than the stack after that digit, when it can still reach K digits |
| GreedyDigits.ExtendPrefix | 3/Part_2/main.c:66-79 | the same for a choice that is a prefix of the stack |
| GreedyDigits.ExtendDiffering | 3/Part_2/main.c:66-79 | the same for a choice that first differs from the stack with a smaller digit |
| GreedyDigits.StackDominates | 3/Part_2/main.c:60-80 | on a line of digits, every in-order choice from the characters read that can still be completed to K digits comes no later than the stack in dictionary order |
| GreedyDigits.LexLessValue | 3/Part_2/main.c:83 | of two digit strings of one length, the one with the smaller digit at the first difference has the smaller value |
| GreedyDigits.LexLeValue | 3/Part_2/main.c:83 | of two digit strings of one length, the one no later in dictionary order has the value no larger |
| GreedyDigits.LexLeTrans | 3/Part_2/main.c:60-80 | dictionary order is transitive |
| GreedyDigits.KeptValue | 3/Part_2/main.c:44-83 | an all-digit line longer than K adds the value of the K digits the stack keeps |
| GreedyDigits.SelectionAtMost | 3/Part_2/main.c:60-83 | no K digits of an all-digit line, taken in order, spell more than the kept ones |
| GreedyDigits.KeptIsLargest | 3/Part_2/main.c:44-83 | on an all-digit line longer than K, the line's value is the largest number any K of its digits spell in their order, and some such choice spells it |
| GreedyDigits.LineJoltage | 3/Part_2/main.c:44-83 | the per-line method, on a `char[K+1]` buffer, gives the value of the line: `strtoull` of the whole line when it has at most K characters, otherwise of the K kept digits |
| GreedyDigits.PushDigit | 3/Part_2/main.c:68-79 | one step pops and pushes on the buffer so that it holds the stack after the next digit |
| GreedyDigits.TotalWraps | 3/Part_2/main.c:38-83 | the total is the sum of the line values modulo 2^64 |
| GreedyDigits.TotalStops | 3/Part_2/main.c:82-83 | a line whose value is undefined leaves the whole total undefined |
| GreedyDigits.TotalJoltage | 3/Part_2/main.c:38-84 | the method computes the total over the lines |
| GreedyDigits.SumLines | 3/Part_2/main.c:41-84 | the line loop adds up the line values modulo 2^64 |
| GreedyDigits.ReadValue | 3/Part_2/main.c:44-83 | one pass computes the value of its line |
| PaperRolls.DirectionCodes | 4/Part_1/main.py:7 | each of the eight directions is a distinct non-zero offset in the 3x3 box |
| PaperRolls.BoxCodes | 4/Part_1/main.py:7 | every non-zero offset of the 3x3 box is one of the eight directions |
| PaperRolls.OffsetRollsCount | 4/Part_1/main.py:9-13 | the count after the first `k` directions is the number of distinct '@' cells they reach |
| PaperRolls.NeighboursAreBox | 4/Part_1/main.py:4-14 | `count_neighbors` is the number of '@' cells inside the grid among the eight cells around `(r, c)`, the cell itself excluded |
| PaperRolls.OffsetsAreBox | 4/Part_1/main.py:7-13 | the cells the direction loop inspects are exactly the 3x3 box around the cell without its centre |
| PaperRolls.CornerAtMostThree | 4/Part_1/main.py:7-13 | a corner cell has at most three '@' neighbours |
| PaperRolls.CountNeighbors | 4/Part_1/main.py:4-14 | the loop over the directions counts the '@' neighbours, at most 8 |
| PaperRolls.AccessibleBound | 4/Part_1/main.py:17-27 | no more rolls are accessible than there are '@' cells |
| PaperRolls.CornerAccessible | 4/Part_1/main.py:7-24 | an '@' in a corner is always accessible |
| PaperRolls.CountAccessibleRolls | 4/Part_1/main.py:17-27 | the double loop counts the '@' cells with fewer than four '@' neighbours, without changing the grid |
| RollRemoval.StepCell | 4/Part2/main.py:22-30 | after one round a cell holds '@' exactly when it held '@' and was not accessible at the start of the round |
| RollRemoval.StepCounts | 4/Part2/main.py:22-32 | one round removes exactly the accessible rolls |
| RollRemoval.RemovedAccounts | 4/Part2/main.py:21-34 | the total removed is the initial '@' count minus the final '@' count |
| RollRemoval.FirstRound | 4/Part2/main.py:22-26 | the first round removes the cells part 1 counts, and nothing is removed at all exactly when none is accessible |
| RollRemoval.NoneAccessible | 4/Part2/main.py:27-28 | the round list is empty exactly when no cell is accessible |
| RollRemoval.FinalSettled | 4/Part2/main.py:21-28 | when the loop stops no '@' has fewer than four '@' neighbours |
| RollRemoval.FinalOnlyRemoves | 4/Part2/main.py:25-30 | only '@' cells change, and they become '.' |
| RollRemoval.RemovableFacts | 4/Part2/main.py:22-26 | the round list holds each accessible cell once, in row-major order, and nothing else |
| RollRemoval.CountNeighborsIn | 4/Part2/main.py:4-13 | neighbour counting on the copied grid agrees with the grid's neighbour count |
| RollRemoval.FindRemovable | 4/Part2/main.py:22-26 | the scan of a round lists the accessible cells of the grid as it stands |
| RollRemoval.ScanRow | 4/Part2/main.py:24-26 | the scan of one row lists its accessible cells |
| RollRemoval.ApplyRemoval | 4/Part2/main.py:29-30 | the listed cells become '.', every other cell keeps its character |
| RollRemoval.Round | 4/Part2/main.py:22-32 | one round removes the accessible rolls all at once and reports their number |
| RollRemoval.SimulateRemoval | 4/Part2/main.py:16-34 | the loop works on a copy and returns the total removed until no roll is accessible |
| FreshIds.ParseRangeRoundTrip | 5/Part_1/main.py:13 | a line `a-b` written from two naturals parses back to the pair `(a, b)` |
| FreshIds.NegativeStartRejected | 5/Part_1/main.py:13 | a line starting with '-' splits into more than two pieces or an empty first piece, so the unpacking or `int` fails |
| FreshIds.FirstBlankFacts | 5/Part_1/main.py:11-12 | every line before the first-blank index is non-empty, and the line at that index, if any, is blank |
| FreshIds.ReadRanges | 5/Part_1/main.py:11-15 | the first loop yields the ranges of the lines before the first blank line, in order, and stops at that blank line; a malformed line is an error |
| FreshIds.ReadIds | 5/Part_1/main.py:19-22 | the second loop yields the ids of the non-blank lines from the given index on, in order; a malformed id is an error |
| FreshIds.ReadSections | 5/Part_1/main.py:11-24 | the two loops together read the ranges before the first blank line and the ids after it, skipping the blank line itself |
| FreshIds.ParseInput | 5/Part_1/main.py:4-24 | `parse_input` on the file's lines is the section reading of the stripped lines |
| FreshIds.RangesRoundTrip | 5/Part_1/main.py:11-15 | lines written from a list of natural ranges read back as exactly that list |
| FreshIds.IdsRoundTrip | 5/Part_1/main.py:19-22 | lines written from a list of natural ids read back as exactly that list |
| FreshIds.SectionsRoundTrip | 5/Part_1/main.py:11-24 | ranges, a blank line and ids, written as text, read back as the same ranges and ids |
| FreshIds.DatabaseRoundTrip | 5/Part_1/main.py:4-24 | a database file written from ranges and ids parses back to those ranges and ids, stripping included |
| FreshIds.IsFresh | 5/Part_1/main.py:27-31 | an id is fresh exactly when some range holds it, ends included |
| FreshIds.IsFreshPermutation | 5/Part_1/main.py:27-31 | freshness does not depend on the order of the ranges |
| FreshIds.CountFresh | 5/Part_1/main.py:34-35 | the count of fresh ids is at most the number of ids |
| FreshIds.CountFreshExtremes | 5/Part_1/main.py:34-35 | the count equals the number of ids exactly when every id is fresh, and is zero exactly when none is |
| FreshIds.CountFreshPermutation | 5/Part_1/main.py:34-35 | the count does not depend on the order of the ranges |
| RangeMerging.ParseRanges | 5/Part_2/main.py:4-15 | `parse_ranges` reads the ranges of the stripped lines before the first blank line; a malformed line is an error |
| RangeMerging.InsertLast | 5/Part_2/main.py:22 | inserting the next element into a sorted prefix keeps the array a permutation and extends the sorted prefix by one |
| RangeMerging.SortRanges | 5/Part_2/main.py:22 | `ranges.sort()` leaves the ranges in lexicographic order and is a permutation of the input |
| RangeMerging.SortedUnique | 5/Part_2/main.py:22 | two sorted permutations of the same ranges are equal, so the sorted order is determined by the ranges alone |
| RangeMerging.Merge | 5/Part_2/main.py:24-35 | merging never produces more ranges than it is given, and a non-empty input gives a non-empty result |
| RangeMerging.MergeSorted | 5/Part_2/main.py:24-35 | the merge loop, which extends the last range when the next starts at most one past its end and appends otherwise, computes the merge |
| RangeMerging.MergeRanges | 5/Part_2/main.py:18-35 | `merge_ranges` sorts the list in place and returns the merge of the sorted list; an empty list gives an empty result |
| RangeMerging.MergeCovers | 5/Part_2/main.py:24-35 | on sorted ranges, an id is held by the merged ranges exactly when it is held by the input ranges |
| RangeMerging.MergeSeparated | 5/Part_2/main.py:24-35 | on sorted well-formed ranges, the merged ranges are well formed and each starts more than one past the previous end |
| RangeMerging.SeparatedSorted | 5/Part_2/main.py:24-35 | separated ranges are in sorted order |
| RangeMerging.MergeSeparatedIdentity | 5/Part_2/main.py:24-35 | merging ranges that are already separated returns them unchanged |
| RangeMerging.MergeIdempotent | 5/Part_2/main.py:24-35 | merging a merge returns it unchanged |
| RangeMerging.MergeRangesIdempotent | 5/Part_2/main.py:18-35 | sorting and merging any reordering of separated ranges gives those ranges back |
| RangeMerging.CoveredIdsFresh | 5/Part_2/main.py:38-45 | an id is in the set of covered ids exactly when some range holds it |
| RangeMerging.CoveredPermutation | 5/Part_2/main.py:22 | the covered ids do not depend on the order of the ranges |
| RangeMerging.SpanCounts | 5/Part_2/main.py:42-43 | on separated ranges, the sum of `end - start + 1` is the number of distinct covered ids |
| RangeMerging.MergedCount | 5/Part_2/main.py:38-45 | on sorted well-formed ranges, the sum over the merge is the number of distinct ids the input covers |
| RangeMerging.CountWellFormed | 5/Part_2/main.py:38-45 | after sorting well-formed ranges, the sum over the merge counts the distinct ids the original ranges cover |
| RangeMerging.CountFreshIds | 5/Part_2/main.py:38-45 | `count_fresh_ids` sorts the ranges in place and returns the sum of `end - start + 1` over the merge; on well-formed ranges this is the number of distinct fresh ids |
| ColumnBlocks.Ljust | 6/Part_1/main.py:8 | `ljust` keeps the line as a prefix, pads it with spaces and gives it length `max(len, width)` |
| ColumnBlocks.MaxLen | 6/Part_1/main.py:7 | the width is at least every line's length and is the length of some line |
| ColumnBlocks.Pad | 6/Part_1/main.py:4-8 | `load_grid` gives one row per line, every row as wide as the longest line, each row its line followed by spaces only |
| ColumnBlocks.PadCovers | 6/Part_1/main.py:13 | every row of the padded grid is at least as wide as the first, so indexing any row by a column of the first is in range |
| ColumnBlocks.ScanInvariant | 6/Part_1/main.py:22-27 | after each column, the finished blocks and the run being collected are maximal runs of non-blank columns, in order and a blank column apart |
| ColumnBlocks.SplitIntoBlocks | 6/Part_1/main.py:11-30 | `split_into_blocks`, with its `flush` on each all-blank column and at the end, returns the specified blocks |
| ColumnBlocks.BlocksShape | 6/Part_1/main.py:11-30 | each block is a run of consecutive columns bounded by blank columns or the grid's edges, the blocks are in order and a column apart, and a column is in some block exactly when it is not all spaces |
| ColumnBlocks.BlocksDisjoint | 6/Part_1/main.py:11-30 | no column belongs to two blocks |
| ColumnBlocks.BlocksFit | 6/Part_1/main.py:11-30 | every block column lies inside every row of the padded grid |
| ColumnBlocks.OperatorFirst | 6/Part_1/main.py:49-54 | the operator is `None` exactly when no block column of the last row holds '+' or '*', and otherwise is the first such character |
| ColumnBlocks.FindOperator | 6/Part_1/main.py:49-54 | the operator loop stops at the first '+' or '*' in the block's columns of the last row |
| ColumnBlocks.DigitsOfConcat | 6/Part_1/main.py:44 | keeping the digits of a concatenation keeps the digits of each part, in order |
| ColumnBlocks.DigitsOfDigits | 6/Part_1/main.py:44 | a string of digits keeps all of its characters |
| ColumnBlocks.DigitsOfNone | 6/Part_1/main.py:44 | a string without digits keeps nothing |
| ColumnBlocks.ReadBack | 6/Part_1/main.py:44-46 | a number written among non-digit characters is read back as that number |
| RowProblems.RowDigits | 6/Part_1/main.py:42-44 | the characters kept from a row's block segment are all digits |
| RowProblems.RowNumbersCount | 6/Part_1/main.py:39-46 | each row above the operator row contributes at most one number |
| RowProblems.RowNumbersDense | 6/Part_1/main.py:39-46 | when every such row holds a digit in the block, the numbers are exactly the rows' digit strings read top to bottom |
| RowProblems.RowReadBack | 6/Part_1/main.py:42-46 | a row whose block segment holds one number among non-digits contributes that number |
| RowProblems.ExtractProblem | 6/Part_1/main.py:33-56 | `extract_problem` returns the numbers of the rows above the last, top to bottom, and the block's first operator |
| RowProblems.SolveFacts | 6/Part_1/main.py:59-66 | an answer is not negative, no numbers give 0 for '+' and 1 otherwise, and a single number is its own answer; any operator but '+' multiplies |
| RowProblems.SolveProblem | 6/Part_1/main.py:59-66 | `solve_problem` adds for '+' and multiplies for anything else, `None` included |
| RowProblems.BlockAnswerNonNegative | 6/Part_1/main.py:80-82 | each block's answer is not negative |
| RowProblems.TotalNonNegative | 6/Part_1/main.py:78-82 | the running total is not negative |
| RowProblems.SolveAll | 6/Part_1/main.py:78-82 | the loop of `main` adds up the answers of all blocks |
| RowProblems.GrandTotal | 6/Part_1/main.py:69-84 | `main` on the file's lines raises exactly for an empty file, where `max` in `load_grid` has no lines, and otherwise returns the grand total of the padded grid's blocks, which is not negative |
| ColumnProblems.ColumnDigits | 6/Part_2/main.py:50 | the characters kept from a block column are all digits |
| ColumnProblems.ColumnFits | 6/Part_2/main.py:50 | every cell the column reading touches lies inside its row |
| ColumnProblems.ColumnNumbersCount | 6/Part_2/main.py:48-52 | each block column contributes at most one number |
| ColumnProblems.ColumnNumbersDense | 6/Part_2/main.py:48-52 | when every block column holds a digit, the `i`-th number is the digits of the `i`-th column from the right, read top to bottom |
| ColumnProblems.ColumnReadBack | 6/Part_2/main.py:50-52 | a column holding one number among non-digits contributes that number |
| ColumnProblems.ExtractProblem | 6/Part_2/main.py:35-61 | `extract_problem` returns the column numbers right to left and the block's first operator |
| ColumnProblems.SolveStrict | 6/Part_2/main.py:64-73 | solving fails exactly when the operator is neither '+' nor '*', and otherwise agrees with the first part's solver |
| ColumnProblems.SolveProblem | 6/Part_2/main.py:64-73 | `solve_problem` adds for '+', multiplies for '*' and raises for any other operator |
| ColumnProblems.BlockFails | 6/Part_2/main.py:55-73 | a block raises exactly when its last row has no '+' or '*' in its columns |
| ColumnProblems.SolveBlock | 6/Part_2/main.py:88-89 | one block's numbers and operator, solved |
| ColumnProblems.AccumulateFails | 6/Part_2/main.py:85-89 | the loop of `main` raises exactly when some block raises |
| ColumnProblems.Answers | 6/Part_2/main.py:87-89 | there is one answer per block |
| ColumnProblems.SolveAll | 6/Part_2/main.py:85-89 | the loop adds up the answers of all blocks, stopping at the first that raises |
| ColumnProblems.GrandTotal | 6/Part_2/main.py:76-91 | `main` on the file's lines raises for an empty file, where `max` in `load_grid` has no lines, and when a block has no operator; otherwise it returns the grand total of the padded grid's blocks |
| Timelines.IndexOfSSpec | 7/Part_2/main_dynamic_programming.py:38-40 | the column scan finds the first 'S' of a row at or after the given column, or reports that there is none |
| Timelines.FindStartFromSpec | 7/Part_2/main_dynamic_programming.py:37-41 | the row-major scan from a row on finds the first 'S', with no 'S' before it, or proves there is none |
| Timelines.FindStartSpec | 7/Part_2/main_dynamic_programming.py:37-41 | `find_start` returns the first 'S' in row-major order, and fails exactly when the grid has no 'S' |
| Timelines.StepAdd | 7/Part_2/main_dynamic_programming.py:63-72 | adding `x` timelines to one column before a step adds exactly what `propagate_timeline` pushes for `x` from that column |
| Timelines.PushAllStep | 7/Part_2/main_sparse.py:25-33 | pushing every entry of a frontier with distinct in-range columns gives the step of its dense counts |
| Timelines.PushColumnsStep | 7/Part_2/main_dynamic_programming.py:103-107 | pushing the columns of a row left to right gives the step of that row's counts |
| Timelines.EnumerateDense | 7/Part_2/main_dynamic_programming.py:103-104 | listing a row's counts with their columns and reading them back is the identity |
| Timelines.PushZero | 7/Part_2/main_dynamic_programming.py:105 | pushing a zero count changes nothing, so skipping zero counts does not change the result |
| Timelines.StepDots | 7/Part_2/main_sparse.py:27-28 | a row of '.' passes every count straight down |
| Timelines.StepAdjoint | 7/Part_2/main_dynamic_programming.py:63-72 | weighting the counts after a step is weighting the counts before it by each cell's gain, so totals can be tracked without the table |
| Timelines.StepTotal | 7/Part_2/main_sparse.py:28-33 | the total after a row is each count times its number of in-bounds successors ('.' one, '^' up to two, others none), so it at most doubles |
| Timelines.DotOnes | 7/Part_2/main_dynamic_programming.py:110 | weighting by ones is the sum |
| Timelines.DotBounds | 7/Part_2/main_sparse.py:28-33 | weights between 0 and `hi` bound a weighted sum by `hi` times the plain sum |
| Timelines.GainsOnes | 7/Part_2/main_sparse.py:27-33 | every cell sends a timeline to between 0 and 2 cells |
| Timelines.AdvanceTotal | 7/Part_2/main_sparse.py:23-35 | after `k` rows the total is at most `2^k` times the seed total |
| Timelines.SparseBound | 7/Part_2/main_sparse.py:18-35 | the sparse result is at most 2 to the number of rows below 'S' |
| Timelines.DfsBoundary | 7/Part_2/main_lru_cache.py:24-31 | a beam below the last row is one timeline, and a '^' on the left edge counts the beam leaving the grid as one |
| Timelines.DfsMemo | 7/Part_2/main_lru_cache.py:23-35 | the cached `dfs` returns the value of the plain recursion and keeps every cache entry equal to it |
| Timelines.DfsRowBelow | 7/Part_2/main_lru_cache.py:25-26 | every position of the row below the grid counts one timeline |
| Timelines.DfsRowGains | 7/Part_2/main_lru_cache.py:27-35 | on a row with no 'S' and no '^' at its edges, `dfs` on that row is the row's gain applied to `dfs` on the row below |
| Timelines.DfsAdvance | 7/Part_2/main_lru_cache.py:24-35 | counts pushed down through such rows, weighted by `dfs` at the end, equal the start counts weighted by `dfs` at the start |
| Timelines.DotSeed | 7/Part_2/main_sparse.py:21 | a single timeline in column `c` weighted by any row is that row's weight at `c` |
| Timelines.SumSeed | 7/Part_2/main_dynamic_programming.py:99 | the seed holds one timeline |
| Timelines.StartOnLastRow | 7/Part_2/main_dynamic_programming.py:99 | with 'S' on the last row the Python table solver fails on its seed, the sparse and memoised solvers return 1 and the C solver returns 0 |
| Timelines.CIsDpModWord | 7/Part_2/C/main.c:77-128 | the C result is the Python table result modulo 2^64 |
| Timelines.SparseAndDp | 7/Part_2/main_sparse.py:18-35 | when the table solver succeeds, the sparse solver does too, returns at most twice as much, and agrees when the last row is all '.' |
| Timelines.MemoAndSparse | 7/Part_2/main_lru_cache.py:22-38 | when no row below 'S' holds an 'S' or a '^' at an edge, the memoised and the sparse solvers agree |
| TimelineTables.FindStartScan | 7/Part_2/main_dynamic_programming.py:37-41 | the two loops of `find_start` return the first 'S' in row-major order, or fail when there is none |
| TimelineTables.SeededTable | 7/Part_2/main_dynamic_programming.py:93-99 | a fresh table of zeros with one seeded cell |
| TimelineTables.PropagateTimeline | 7/Part_2/main_dynamic_programming.py:63-72 | `propagate_timeline` adds the count below a '.' and to the in-bounds diagonals below a '^', only in row `r + 1`, and changes nothing from the last row |
| TimelineTables.PropagateRow | 7/Part_2/main_dynamic_programming.py:103-107 | the column loop over a row turns the zero row below it into the step of the row's counts and writes no other row |
| TimelineTables.FillRows | 7/Part_2/main_dynamic_programming.py:102-107 | the row loop leaves the seeded counts pushed down to the last row |
| TimelineTables.SumRow | 7/Part_2/main_dynamic_programming.py:110 | the final sum is the sum of the last row |
| TimelineTables.CountTimelinesDp | 7/Part_2/main_dynamic_programming.py:75-111 | `count_timelines_dp` computes the table result, failing without 'S' or with 'S' on the last row |
| TimelineTables.AddWrap | 7/Part_2/C/main.c:103-120 | an `unsigned long long` addition wraps like the exact sum taken modulo 2^64 |
| TimelineTables.SumWrap | 7/Part_2/C/main.c:118-120 | summing wrapped values and wrapping gives the exact sum wrapped |
| TimelineTables.PushOneWrap | 7/Part_2/C/main.c:100-114 | pushing a wrapped count into wrapped cells and wrapping is the exact push wrapped |
| TimelineTables.WrapColumn | 7/Part_2/C/main.c:93-115 | one more column of the wrapped inner loop agrees with the exact push wrapped, including a column whose wrapped count is zero and is skipped |
| TimelineTables.PropagateWrapped | 7/Part_2/C/main.c:98-114 | one cell of the C loop adds its count, wrapped, to the cells below it as in Python and writes only row `r + 1` |
| TimelineTables.PropagateRowWrapped | 7/Part_2/C/main.c:93-115 | one row of the C loop leaves the next row equal to the exact step wrapped modulo 2^64 |
| TimelineTables.FillRowsWrapped | 7/Part_2/C/main.c:91-116 | the row loop leaves the last row equal to the exact counts wrapped |
| TimelineTables.SumRowWrapped | 7/Part_2/C/main.c:118-120 | the total is the last row's sum modulo 2^64 |
| TimelineTables.CountBelow | 7/Part_2/C/main.c:80-120 | from a seed below 'S', the C table gives the exact count modulo 2^64, and 0 when 'S' is on the last row |
| TimelineTables.CountTimelinesC | 7/Part_2/C/main.c:77-128 | the C `count_timelines` computes the C result, exiting when there is no 'S' |
| TimelineTables.Chomp | 7/Part_2/C/main.c:33-38 | removing one trailing newline never lengthens a line |
| TimelineTables.MaxLengthSpec | 7/Part_2/C/main.c:41-42 | `cols` is at least every line's length, is some line's length, and is 0 for no lines |
| TimelineTables.LoadGridSize | 7/Part_2/C/main.c:31-44 | `load_grid` keeps each line without its trailing newline, counts the rows and sets `cols` to the longest line |
| TimelineTables.LoadGridRectangular | 7/Part_2/C/main.c:41-98 | when all lines have the same length the grid is rectangular and `cols` is that length |
| SparseTimelines.AddToFacts | 7/Part_2/main_sparse.py:28-33 | `next_line[c] += count` keeps the frontier's keys in range, distinct and positive, and adds `count` to column `c` of its dense reading |
| SparseTimelines.SumValuesDense | 7/Part_2/main_sparse.py:35 | the sum of the frontier's values is the sum of its dense reading |
| SparseTimelines.PushEntry | 7/Part_2/main_sparse.py:26-33 | one frontier entry is pushed to the cells below it: straight down on '.', to the in-bounds diagonals on '^', dropped otherwise |
| SparseTimelines.NextLine | 7/Part_2/main_sparse.py:24-34 | the inner loop builds the next frontier, whose dense reading is the step of the current one |
| SparseTimelines.CountTimelinesSparse | 7/Part_2/main_sparse.py:18-35 | `count_timelines_super_fast` computes the sparse result: the seed pushed through every row below 'S', summed |
| Beams.StepMonotone | 7/Part_1/main.py:35-47 | more beams in a row never give fewer beams in the next |
| Beams.BeamsBelowTimelines | 7/Part_1/main.py:63-73 | the beams the simulation has on each row are at most the timelines there, because a '.' is expanded only once |
| Beams.NoDotsBeamsAreTimelines | 7/Part_1/main.py:63-73 | on rows without '.', every beam is a timeline |
| Beams.CountsAppend | 7/Part_1/main.py:38-42 | appending a position to the queue adds one to its column's count |
| Beams.SplitHitsAdd | 7/Part_1/main.py:35-36 | one more beam on a row adds a division exactly when it lands on '^' |
| Beams.ProcessBeam | 7/Part_1/main.py:26-49 | `process_beam` does nothing out of bounds; otherwise it counts one division on '^', appends the in-bounds diagonals (left first) or the cell below a '.', marks a '.' with '|', reports `line_updated` exactly then, and changes no other cell |
| Beams.MarkBeam | 7/Part_1/main.py:31-47 | on a row being processed, the cell becomes '|' if it was '.', the successors are appended, and other rows are untouched |
| Beams.Round | 7/Part_1/main.py:68-73 | one round of the queue over a row counts the divisions of its beams, leaves the next row's beams in the queue and marks the row |
| Beams.FindStartInGrid | 7/Part_1/main.py:14-19 | `find_start` on the grid finds the first 'S' in row-major order |
| Beams.RunRounds | 7/Part_1/main.py:63-73 | the rounds count every division below the start row and leave the grid marked as the beams passed |
| Beams.NextRound | 7/Part_1/main.py:63-73 | each round keeps the simulation invariant and the queue empties after the last row |
| Beams.SimulationDone | 7/Part_1/main.py:63 | when the queue is empty the count and the marks are complete |
| Beams.QuietRows | 7/Part_1/main.py:63 | once no beam reaches a row, no later row gets beams or divisions |
| Beams.SimulateBeams | 7/Part_1/main.py:52-84 | `simulate_beams` fails on an empty grid; otherwise it reports the divisions of the grid, fails without 'S' and then leaves the grid unchanged, and otherwise leaves every '.' reached by a beam marked '|' |
| Beams.SimulateRows | 7/Part_1/main.py:52-84 | on a grid with a row, `simulate_beams` reports the divisions of the grid or fails without 'S', and leaves the grid marked as the specified final grid, or unchanged when it fails |
| Circuits.ParsePoint | 8/Part_1/main.py:11 | a box that reads has at least one coordinate, so `points[i][0]` is defined |
| Circuits.ParsePoints | 8/Part_1/main.py:10-11 | when the file reads, there is one box per line |
| Circuits.ParsePointsValue | 8/Part_1/main.py:11 | every box is the comma-separated integers of its own stripped line |
| Circuits.ParsePointsFails | 8/Part_1/main.py:11 | a single line that does not read makes the whole file fail |
| Circuits.PointRoundTrip | 8/Part_1/main.py:11 | a line written from natural coordinates with commas between them reads back as those coordinates |
| Circuits.BlankLineFails | 8/Part_1/main.py:11 | a blank line, such as a trailing empty line, makes `int` raise |
| Circuits.Square | 8/Part_1/main.py:41 | a square is not negative and is zero only for zero |
| Circuits.SquaredDistance | 8/Part_1/main.py:41 | the squared distance is zero exactly for equal points |
| Circuits.SquaredDistanceSymmetric | 8/Part_1/main.py:41 | the distance from `p` to `q` is the distance from `q` to `p` |
| Circuits.RowPairs | 8/Part_1/main.py:40 | the pairs with first element `i` are `(i, j)` for consecutive `j` |
| Circuits.PairsFrom | 8/Part_1/main.py:40 | `combinations(range(n), 2)` yields each pair `i < j` in lexicographic order |
| Circuits.Edges | 8/Part_1/main.py:39-42 | every edge joins two boxes `i < j` and carries their distance |
| Circuits.EdgesCover | 8/Part_1/main.py:39-42 | the edges come in pair order and every pair `i < j` has an edge |
| Circuits.ComputeEdges | 8/Part_1/main.py:39-42 | the edge loop builds exactly the edge list |
| Circuits.InsertByDistance | 8/Part_1/main.py:47 | inserting an edge adds exactly that edge |
| Circuits.InsertByDistanceSorted | 8/Part_1/main.py:47 | inserting into an ordered list keeps it ordered by distance |
| Circuits.SortByDistance | 8/Part_1/main.py:47 | the sorted edges are a permutation of the edges |
| Circuits.SortByDistanceSorted | 8/Part_1/main.py:47 | the sorted edges are in non-decreasing distance |
| Circuits.InsertStable | 8/Part_1/main.py:47 | inserting an edge that comes after all others in pair order keeps ties in pair order |
| Circuits.SortStable | 8/Part_1/main.py:47 | the sort is stable: equal distances keep their pair order |
| Circuits.SortWithin | 8/Part_1/main.py:47 | sorting keeps every edge between two distinct boxes of the input |
| Circuits.SortCover | 8/Part_1/main.py:47 | every pair with an edge still has one after sorting |
| Circuits.SortedEdges | 8/Part_2/main.py:66-72 | the sorted edges are ordered by distance then pair, join distinct boxes, and cover every pair |
| Circuits.Connect | 8/Part_1/main.py:52-55 | the partition after a list of unions labels every box by a representative of its circuit |
| Circuits.CircuitsAndMerges | 8/Part_2/main.py:78-84 | the number of circuits plus the number of successful unions is the number of boxes |
| Circuits.CircuitStep | 8/Part_2/main.py:83-84 | one more edge lowers the circuit count by one exactly when its ends were in different circuits |
| Circuits.CircuitsNonIncreasing | 8/Part_2/main.py:81-89 | more edges never give more circuits |
| Circuits.ConnectJoins | 8/Part_1/main.py:52-55 | after the unions, the two ends of every processed edge are in the same circuit |
| Circuits.AllConnected | 8/Part_2/main.py:78-89 | when every box has an edge to box 0, the edges leave one circuit |
| Circuits.CompletesAtUnique | 8/Part_2/main.py:81-89 | only one edge brings the circuit count to 1; its ends were in different circuits and `n - 1` unions have succeeded with it |
| Circuits.Processed | 8/Part_1/main.py:50-55 | the number of edges handed to `union` is at most the number of edges: `MAX_CONNECTIONS` when it is between 1 and that number, all edges otherwise |
| Circuits.ConnectFirst | 8/Part_1/main.py:50-55 | the connection loop unions the first `Processed` edges, counted by position whether or not they merge, and leaves the partition they define |
| Circuits.CountBelowMembers | 8/Part_1/main.py:58-61 | the count of a root among the first `i` boxes is the size of the set of those boxes |
| Circuits.Seen | 8/Part_1/main.py:58-61 | the roots seen among the first `i` boxes |
| Circuits.TallyDistinct | 8/Part_1/main.py:58-61 | the size map has one key per root |
| Circuits.TallyKeys | 8/Part_1/main.py:58-61 | its keys are the roots seen |
| Circuits.TallyCounts | 8/Part_1/main.py:58-61 | each root maps to the number of boxes it represents so far |
| Circuits.TallySum | 8/Part_1/main.py:58-61 | the sizes sum to the number of boxes counted |
| Circuits.CircuitSizes | 8/Part_1/main.py:58-61 | over all boxes, `circuit_sizes` has one key per circuit, each mapped to its circuit's size, and the values sum to the number of boxes |
| Circuits.FindAll | 8/Part_1/main.py:59-60 | calling `find` on every box returns each box's root and does not change the partition |
| Circuits.TallyRoots | 8/Part_1/main.py:58-61 | the counting loop builds the size map of the roots |
| Circuits.CountCircuitSizes | 8/Part_1/main.py:57-61 | the size map of the structure's current partition |
| Circuits.InsertDescending | 8/Part_1/main.py:65 | inserting a size adds exactly that size |
| Circuits.InsertDescendingSorted | 8/Part_1/main.py:65 | inserting into a descending list keeps it descending |
| Circuits.SortDescending | 8/Part_1/main.py:65 | `sorted(..., reverse=True)` is a permutation of the sizes |
| Circuits.SortDescendingSorted | 8/Part_1/main.py:65 | the sorted sizes are descending |
| Circuits.TopThree | 8/Part_1/main.py:65-67 | the first three sorted sizes are at most three, are among the sizes, and none of the other sizes is larger |
| Circuits.MultiplyLargest | 8/Part_1/main.py:65-69 | the result is the product of the up to three largest sizes |
| Circuits.ConnectClosest | 8/Part_1/main.py:15-69 | part 1 returns the product of the three largest circuit sizes after the first `Processed` edges in distance order |
| Circuits.SortedEdgesConnect | 8/Part_2/main.py:66-89 | there are no edges exactly when there are fewer than two boxes, and all sorted edges together leave a single circuit |
| Circuits.UnionEdge | 8/Part_2/main.py:83-85 | one `union` over the next edge advances the partition by that edge and reports whether it merged |
| Circuits.MergesComplete | 8/Part_2/main.py:83-89 | the edge at which the number of successful unions goes from `n - 2` to `n - 1` is the edge that completes the circuit |
| Circuits.ConnectUntilOne | 8/Part_2/main.py:78-89 | the loop keeps `total_circuits` equal to the boxes minus the successful unions and, with two or more boxes, stops at the edge that leaves one circuit and records it as `last_pair` |
| Circuits.LastConnection | 8/Part_2/main.py:78-99 | part 2 fails exactly with fewer than two boxes (unpacking `None`), and otherwise returns the product of the X coordinates of the edge that completes the circuit |
| DisjointSets.Range | 8/Part_1/main.py:16 | the boxes `0 .. n - 1` |
| DisjointSets.RangeSize | 8/Part_1/main.py:16 | there are `n` of them |
| DisjointSets.SingletonsFacts | 8/Part_1/main.py:16-17 | initially every box is alone in its circuit, of size 1, and there are `n` circuits |
| DisjointSets.RelabelMembers | 8/Part_1/main.py:33-34 | relabelling one root as another moves its members and leaves the others |
| DisjointSets.RelabelCount | 8/Part_1/main.py:34 | the survivor's count becomes the sum of both counts and other counts stay |
| DisjointSets.RelabelRepresentatives | 8/Part_1/main.py:33 | merging two roots removes exactly the loser from the roots |
| DisjointSets.LinkJoins | 8/Part_1/main.py:26-35 | after a union the two boxes share a root |
| DisjointSets.LinkClasses | 8/Part_1/main.py:26-35 | after a union two boxes share a root exactly when they did before or they are in the two circuits joined |
| DisjointSets.LinkRepresentatives | 8/Part_1/main.py:26-35 | a union lowers the number of circuits by one exactly when the boxes had different roots |
| DisjointSets.Path | 8/Part_1/main.py:20-23 | the boxes `find` visits from `x`: `x`, its root, and boxes of the same circuit no deeper than `x` |
| DisjointSets.Compress | 8/Part_1/main.py:22 | pointing a box straight at its root keeps the forest valid |
| DisjointSets.Hang | 8/Part_1/main.py:33-34 | hanging one root under another and adding its size keeps the forest valid for the merged labelling |
| DisjointSets.HangLinks | 8/Part_1/main.py:33 | after the hang every parent link stays inside its circuit and goes up |
| DisjointSets.HangSizes | 8/Part_1/main.py:34 | after the hang every root's size is its circuit's size |
| DisjointSets.SingletonForest | 8/Part_1/main.py:16-17 | `parent = list(range(n))` and `size = [1] * n` form a valid forest of singletons |
| DisjointSets.DisjointSet.constructor | 8/Part_1/main.py:16-17 | every box is its own parent with size 1, and the partition is all singletons |
| DisjointSets.DisjointSet.Find | 8/Part_1/main.py:20-23 | `find` returns the root of `x`, which is its own parent, points every visited box straight at it, changes no other parent and keeps the partition and sizes |
| DisjointSets.DisjointSet.Attach | 8/Part_1/main.py:33-34 | hanging the loser root under the winner relabels its circuit, sets one parent and adds the loser's size to the winner's |
| DisjointSets.DisjointSet.Union | 8/Part_1/main.py:26-35 | `union` returns whether the roots differed, leaves everything unchanged when they did not, and otherwise hangs the smaller root under the larger (keeping `x`'s root on a tie) with the sizes added |
| AxisCompression.InsertMembers | 9/Part_1/main.py:22 | inserting a value into a list gives the list's values plus that value |
| AxisCompression.InsertIncreasing | 9/Part_1/main.py:22 | inserting into a strictly increasing list keeps it strictly increasing |
| AxisCompression.SortedDistinct | 9/Part_1/main.py:22 | `sorted(set(all_t))` is strictly increasing and holds exactly the input's values |
| AxisCompression.PositionIncreases | 9/Part_1/main.py:23-29 | a later value of the sorted list gets a larger compressed index |
| AxisCompression.Number | 9/Part_1/main.py:23-29 | the numbering loop maps every value to its compressed index, computed from the one before it |
| AxisCompression.PairShape | 9/Part_1/main.py:25-29 | compression keeps order, and neighbouring values are one apart when adjacent and two apart when a gap lies between them |
| AxisCompression.LeastShape | 9/Part_1/main.py:23 | the least value is mapped to 0 |
| AxisCompression.CompressedOrder | 9/Part_1/main.py:25-29 | compression is strictly increasing and leaves one free index for every gap between neighbouring values |
| AxisCompression.CompressedLeast | 9/Part_1/main.py:23 | the least value is compressed to 0 |
| AxisCompression.CompressAxis | 9/Part_1/main.py:20-30 | `compress_axis` maps exactly the input's values, strictly increasing, least to 0, with a free index for every gap |
| PolygonCanvas.OutlineIsUnion | 9/Part_1/main.py:37-49 | a cell is on the outline exactly when one of the edges drawn so far covers it |
| PolygonCanvas.EdgeEnds | 9/Part_1/main.py:38-49 | an axis-parallel edge covers the cells of both its end tiles |
| PolygonCanvas.CreateCanvas | 9/Part_1/main.py:33-50 | the canvas has `height` rows of `width` cells, 1 exactly on the outline and 0 elsewhere |
| PolygonCanvas.DrawEdge | 9/Part_1/main.py:38-49 | one edge sets the cells it covers to 1 and changes nothing else; an edge that is neither vertical nor horizontal draws nothing |
| PolygonCanvas.DrawColumn | 9/Part_1/main.py:43-44 | the cells of column `x` from `y0` to `y1` become 1, all others stay |
| PolygonCanvas.DrawRow | 9/Part_1/main.py:48-49 | the cells of row `y` from `x0` to `x1` become 1, all others stay |
| PolygonCanvas.EvenOdd | 9/Part_1/main.py:55-61 | after the scan a cell is filled exactly when it was drawn or an odd number of drawn cells lie to its left |
| PolygonCanvas.FillKeeps | 9/Part_1/main.py:55-61 | filling keeps the row's length and every drawn cell, and a row of 0s and 1s stays one |
| PolygonCanvas.CrossingsStep | 9/Part_1/main.py:58-59 | every non-zero cell flips the `inside` toggle once |
| PolygonCanvas.FillInterior | 9/Part_1/main.py:53-61 | every row of the canvas becomes its scanline fill |
| PolygonCanvas.FillLine | 9/Part_1/main.py:56-61 | one row becomes its scanline fill and no other row changes |
| LargestRectangle.CellsSplit | 9/Part_1/main.py:64-75 | the sum of a row's first cells splits at any column |
| LargestRectangle.RegionFromPrefix | 9/Part_1/main.py:85-90 | the sum over any rectangle is the four-corner combination of prefix sums |
| LargestRectangle.PrefixStep | 9/Part_1/main.py:69-74 | each prefix sum is its left and upper neighbours minus the diagonal plus its cell |
| LargestRectangle.EmptyColumn | 9/Part_1/main.py:66 | the prefix sums of column 0 are 0 |
| LargestRectangle.ComputePrefixSum | 9/Part_1/main.py:64-75 | `prefix_sum[y][x]` is the sum of the canvas cells above and to the left of `(y, x)` |
| LargestRectangle.PrefixRow | 9/Part_1/main.py:68-74 | one row of prefix sums is computed from the row above and no other row changes |
| LargestRectangle.CellsFull | 9/Part_1/main.py:85-92 | on a canvas of 0s and 1s a stretch of a row sums to at most its length, and to its length exactly when it is all 1s |
| LargestRectangle.RegionFull | 9/Part_1/main.py:85-92 | a rectangle sums to its area exactly when all its cells are 1 |
| LargestRectangle.Corners | 9/Part_1/main.py:100-101 | the rectangle of two tiles has its smaller coordinates first and its corners taken from the tiles |
| LargestRectangle.Area | 9/Part_1/main.py:102 | the tile area of a rectangle counts both end tiles, so it is at least 1 |
| LargestRectangle.IsFilledMeansFull | 9/Part_1/main.py:80-92 | `is_filled` holds exactly when every compressed cell of the rectangle is filled |
| LargestRectangle.ScanKeep | 9/Part_1/main.py:103 | a pair that is not larger or not filled leaves the best so far |
| LargestRectangle.ScanReplace | 9/Part_1/main.py:103-105 | a larger filled pair becomes the best so far |
| LargestRectangle.ScanRowStart | 9/Part_1/main.py:98 | the inner loop starts after `i`, so pairs with `j <= i` are never visited |
| LargestRectangle.ScanRowEnd | 9/Part_1/main.py:97-98 | finishing the inner loop moves on to the next `i` |
| LargestRectangle.FindLargestRectangle | 9/Part_1/main.py:78-106 | `None` exactly when no pair of tiles spans a filled rectangle; otherwise the rectangle of the first pair, in scan order, of largest area among the filled ones |
| LargestRectangle.ScanRow | 9/Part_1/main.py:98-105 | one pass of the inner loop visits every later tile |
| LargestRectangle.Visit | 9/Part_1/main.py:99-105 | one pair is compared against the best so far |
| PolygonZone.Xs | 9/Part_1/main.py:229 | the x coordinates of the tiles, in order |
| PolygonZone.Ys | 9/Part_1/main.py:230 | the y coordinates of the tiles, in order |
| PolygonZone.CompressedBounds | 9/Part_1/main.py:234-235 | every compressed index lies between 0 and that of the largest value, so the canvas is wide and high enough |
| PolygonZone.PointsListed | 9/Part_1/main.py:229-230 | every tile's coordinates are among the listed ones |
| PolygonZone.QualifiesInside | 9/Part_1/main.py:239-242 | on the filled canvas `is_filled` holds for a pair exactly when its rectangle lies in the polygon's interior |
| PolygonZone.WinnerInside | 9/Part_1/main.py:242 | the winning pair is the first largest pair whose rectangle lies in the interior |
| PolygonZone.Axes | 9/Part_1/main.py:229-235 | the compressed axes map exactly the tiles' coordinates, keep their order and fit the canvas |
| PolygonZone.LargestInside | 9/Part_1/main.py:224-242 | no tiles give no rectangle; otherwise the result is `None` exactly when no pair spans an interior rectangle, and the first largest such pair otherwise |
| PolygonZone.Search | 9/Part_1/main.py:239-242 | drawing, filling, prefix sums and the search together find the first largest interior rectangle |
| PolygonZone.Tables | 9/Part_1/main.py:239-241 | the prefix sums built from the drawn and filled canvas answer `is_filled` as the interior test |
| PolygonZone.DrawnRows | 9/Part_1/main.py:239 | every drawn row is the outline row |
| PolygonZone.FilledCanvas | 9/Part_1/main.py:240 | the filled canvas holds 0s and 1s, 1 exactly on the interior |
| PolygonZone.PointPieces | 9/Part_1/main.py:8 | a written tile splits at its comma into the two numbers |
| PolygonZone.PointRoundTrip | 9/Part_1/main.py:6-8 | a tile written as `x,y` reads back as that tile |
| PolygonZone.PointTextUnpadded | 9/Part_1/main.py:17 | a written tile is not blank and stripping leaves it as it is |
| PolygonZone.PointsOf | 9/Part_1/main.py:17 | reading the stripped lines gives at most one tile per line |
| PolygonZone.PointsOfStep | 9/Part_1/main.py:17 | a non-blank line that reads as a tile appends that tile |
| PolygonZone.PointsOfRoundTrip | 9/Part_1/main.py:17 | stripped lines written from some tiles read back as those tiles in order |
| PolygonZone.ReadPointsRoundTrip | 9/Part_1/main.py:14-17 | `read_points` of a file written from some tiles gives those tiles back in order |
| MachineParsing.CellRun | 10/Part_1/main.py:8 | `[.#]+` takes the longest run of diagram characters: all of it matches and the next character does not |
| MachineParsing.DiagramLeftmost | 10/Part_1/main.py:8 | `re.search` fails exactly when no position holds a bracketed diagram, and otherwise returns the group of the leftmost one |
| MachineParsing.Target | 10/Part_1/main.py:11 | the target has one light per diagram character, on exactly for '#' |
| MachineParsing.ButtonRun | 10/Part_1/main.py:9 | `[\d,]+` takes the longest run of digits and commas |
| MachineParsing.ButtonGroupsShape | 10/Part_1/main.py:9 | every group `re.findall` returns is a non-empty run of digits and commas |
| MachineParsing.ParseButtons | 10/Part_1/main.py:12-14 | when every group reads, there is one button per group |
| MachineParsing.ParseButtonsValue | 10/Part_1/main.py:13-14 | every button is the integers of its group, split at the commas |
| MachineParsing.ButtonGroupsSkip | 10/Part_1/main.py:9 | a stretch without '(' contributes no match |
| MachineParsing.ButtonGroupsNone | 10/Part_1/main.py:9 | a tail without '(' yields no group |
| ButtonPresses.PyIndex | 10/Part_1/main.py:27 | `vec[idx]` addresses a light below `n`: a negative index counts from the end, and an index out of range raises |
| ButtonPresses.Zeros | 10/Part_1/main.py:25 | `[0] * n` has `n` lights, all off |
| ButtonPresses.VectorAfter | 10/Part_1/main.py:25-27 | a button's vector, when it builds, has one entry per light |
| ButtonPresses.VectorBits | 10/Part_1/main.py:26-27 | a light is on in a button's vector exactly when one of its indices addresses it, however often repeated |
| ButtonPresses.VectorFails | 10/Part_1/main.py:26-27 | building a vector raises exactly when one index is out of range |
| ButtonPresses.VectorStops | 10/Part_1/main.py:26-27 | once an index has raised, later indices do not matter |
| ButtonPresses.BuildVector | 10/Part_1/main.py:25-27 | the loop over a button's indices builds its vector |
| ButtonPresses.VectorsAfter | 10/Part_1/main.py:23-28 | the vectors, when they build, are one per button with one entry per light |
| ButtonPresses.VectorsStop | 10/Part_1/main.py:24-28 | once a button has raised, later buttons do not matter |
| ButtonPresses.BuildVectors | 10/Part_1/main.py:23-28 | the loop over the buttons builds all their vectors or raises |
| ButtonPresses.Xor | 10/Part_1/main.py:36-37 | pressing a button flips exactly the lights its vector has on |
| ButtonPresses.Lights | 10/Part_1/main.py:34-37 | the lights after a combination has one entry per light |
| ButtonPresses.ComboState | 10/Part_1/main.py:34-37 | the nested loop computes the lights after pressing each button of the combination once |
| ButtonPresses.SearchCombos | 10/Part_1/main.py:33-39 | the search finds a combination exactly when some combination of `k` increasing buttons extending the current prefix reaches the target |
| ButtonPresses.ExtendsWiden | 10/Part_1/main.py:33 | a combination extending the prefix with button `i` extends the prefix |
| ButtonPresses.ExtendsNarrow | 10/Part_1/main.py:33 | every combination extending a prefix extends it with its next button |
| ButtonPresses.FewestFromIsLeast | 10/Part_1/main.py:32-40 | from size `k` up, the first size some combination works for is found, and no smaller size works; 0 when none does |
| ButtonPresses.FewestIsLeast | 10/Part_1/main.py:32-40 | `min_presses` is the least number of distinct buttons that reach the target, or 0 when no number from 1 up does |
| ButtonPresses.NoButtons | 10/Part_1/main.py:32-40 | with no buttons the answer is 0 |
| ButtonPresses.FewestPresses | 10/Part_1/main.py:32-40 | the loop over sizes returns the least working size, or 0 |
| ButtonPresses.MinPressesOf | 10/Part_1/main.py:18-40 | `min_presses` raises exactly when a button's vector does not build, and otherwise gives the least working size |
| ButtonPresses.TotalStops | 10/Part_1/main.py:47-53 | once a line has raised, later lines do not matter |
| ButtonPresses.TotalIsSum | 10/Part_1/main.py:47-53 | when every line works, the total is the sum of the presses |
| ButtonPresses.TotalPresses | 10/Part_1/main.py:43-53 | `main` adds the fewest presses of every non-blank line, and raises when one line does |
| ButtonPresses.SumLines | 10/Part_1/main.py:47-53 | the loop over the lines computes that total |
| ButtonPresses.LinePresses | 10/Part_1/main.py:48-52 | one line gives 0 when blank and otherwise its machine's fewest presses |
| DeviceGraph.DestinationsClean | 11/Part_1/main.py:20 | every word of `right.split()` is already stripped and non-empty, so the filter keeps them all |
| DeviceGraph.ParseAll | 11/Part_1/main.py:14-21 | every line of the file is read as one blank, entry or malformed line |
| DeviceGraph.LoadFails | 11/Part_1/main.py:18 | loading raises exactly when one line does not split into two pieces at ':' |
| DeviceGraph.LoadLookup | 11/Part_1/main.py:19-21 | a device is a key exactly when some line names it, and its list comes from the last such line |
| DeviceGraph.LoadStops | 11/Part_1/main.py:14-21 | once a line has raised, later lines do not matter |
| DeviceGraph.ParseAllParses | 11/Part_1/main.py:14-21 | the lines read agree with the parse of each line |
| DeviceGraph.LoadGraph | 11/Part_1/main.py:5-22 | `load_graph` builds the graph the lines describe, or raises |
| DeviceGraph.ReadLines | 11/Part_1/main.py:14-21 | the loop applies the lines in order |
| DeviceGraph.ReadLine | 11/Part_2/main.py:15-22 | one line is skipped when blank, raises when malformed, and sets its device's list otherwise |
| PathCounting.PathsAnyRank | 11/Part_1/main.py:36-45 | the number of paths does not depend on the ranking that witnesses termination |
| PathCounting.PathsViaAnyRank | 11/Part_1/main.py:42-43 | the partial sums over the successors do not depend on the ranking either |
| PathCounting.PathsDescend | 11/Part_1/main.py:36-45 | a device with a path to `end` ranks above it |
| PathCounting.PathsViaPositive | 11/Part_1/main.py:42-43 | a positive sum over successors has a successor with a path |
| PathCounting.PathCounter.constructor | 11/Part_1/main.py:34 | the search starts with an empty memo |
| PathCounting.PathCounter.Search | 11/Part_1/main.py:36-45 | `dfs(node)` returns the number of paths from `node` to `end`, and the memo only grows and holds only such numbers |
| PathCounting.CountPaths | 11/Part_1/main.py:25-47 | `count_paths` is the number of paths from `start` to `end` |
| PathCounting.AcyclicRanked | 11/Part_2/main.py:26-50 | a graph ranked without cycles is ranked for every end |
| PathCounting.OneOrder | 11/Part_2/main.py:68-72 | without cycles there are no paths from `a` to `b` or none from `b` to `a` |
| PathCounting.YouToOut | 11/Part_1/main.py:50-55 | part 1 raises exactly when the file does, and otherwise is the number of paths from "you" to "out" |
| PathCounting.ThroughOneOrder | 11/Part_2/main.py:77-81 | at most one of the two products of part 2 is non-zero |
| PathCounting.ThroughBoth | 11/Part_2/main.py:62-81 | part 2 raises exactly when a required device appears nowhere in the graph, and otherwise gives the two products' sum |
| PathCounting.AllKnown | 11/Part_2/main.py:62-66 | the check passes exactly when every required device is a key or a destination |
| PathCounting.CountThrough | 11/Part_2/main.py:68-81 | the six counts combine into the two products' sum |
| PathCounting.CountChain | 11/Part_2/main.py:68-79 | one product is the paths to the first device times those on to the second times those on to "out" |
| PathCounting.SvrToOut | 11/Part_2/main.py:53-81 | part 2 from the file's lines: raises when the file does or a required device is missing, and otherwise gives the sum |
| PathEnumeration.PathSetIsPaths | 11/Part_1/main.py:36-45 | the set of enumerated paths is exactly the set of choice sequences that lead to `end` |
| PathEnumeration.PathSetViaIsPaths | 11/Part_1/main.py:42-43 | the paths through the first `k` successors are exactly those starting with a choice below `k` |
| PathEnumeration.PrefixedHas | 11/Part_1/main.py:42-43 | prefixing a choice keeps exactly the paths of the set |
| PathEnumeration.PrefixedHead | 11/Part_1/main.py:42-43 | every prefixed path starts with that choice |
| PathEnumeration.PrefixedCount | 11/Part_1/main.py:42-43 | prefixing a choice keeps the number of paths |
| PathEnumeration.PathsCounted | 11/Part_1/main.py:36-45 | what `dfs` computes is the number of distinct paths to `end` |
| PathEnumeration.PathsViaCounted | 11/Part_1/main.py:42-43 | each partial sum counts the distinct paths through the first `k` successors |
| RegionFit.CountHash | 12/Part_1/main.py:43 | the count of '#' is at most the length of the shape |
| RegionFit.Translate | 12/Part_1/main.py:42 | translating '#' to '1' and '.' to '0' keeps the length |
| RegionFit.ParseBinary | 12/Part_1/main.py:42 | `int(..., 2)` refuses a blank text |
| RegionFit.PopcountStep | 12/Part_1/main.py:42-43 | appending a bit adds that bit to the number of ones |
| RegionFit.CountOnes | 12/Part_1/main.py:42 | the ones of a bit string are at most its length |
| RegionFit.TranslateOnes | 12/Part_1/main.py:42-43 | a shape of '#' and '.' translates into bits with one '1' per '#' |
| RegionFit.BitsPopcount | 12/Part_1/main.py:42 | the value of a bit string has as many one bits as the string has '1's |
| RegionFit.BitsBound | 12/Part_1/main.py:42 | a bit string of length `n` is worth less than 2 to the `n` |
| RegionFit.TranslateCells | 12/Part_1/main.py:42-43 | a shape's bitmask has one bit per cell, set exactly for '#', so its popcount is the area |
| RegionFit.BinaryOfBits | 12/Part_1/main.py:42 | `int(t, 2)` of a non-empty bit string is its value |
| RegionFit.ShapeMask | 12/Part_1/main.py:39-44 | a shape chunk with at least one cell reads, its bitmask fits its cells and has its area as popcount |
| RegionFit.ShapeRows | 12/Part_1/main.py:39-41 | the cells of a chunk are its rows after the index line, joined |
| RegionFit.ShapeWithoutRows | 12/Part_1/main.py:39-42 | a chunk with only its index line has no cells, and `int("", 2)` raises |
| RegionFit.ParseShapes | 12/Part_1/main.py:37-44 | when every chunk reads, there is one shape per chunk |
| RegionFit.ParseShapesValue | 12/Part_1/main.py:38-44 | every shape is the reading of its own chunk |
| RegionFit.ParseShapesFails | 12/Part_1/main.py:38-44 | one chunk that does not read makes the whole reading fail |
| RegionFit.ExtraCountsIgnored | 12/Part_1/main.py:19-21 | `zip` stops at the shorter list: counts beyond the shapes are ignored |
| RegionFit.ExtraShapesIgnored | 12/Part_1/main.py:19-21 | shapes beyond the counts are ignored |
| RegionFit.RequiredAreaStep | 12/Part_1/main.py:19-21 | one more count and shape add that count times that shape's area |
| RegionFit.NothingRequired | 12/Part_1/main.py:19-21 | with no counts or no shapes nothing is required |
| RegionFit.RegionHalves | 12/Part_1/main.py:12 | a written region line splits at ": " into its size and its counts |
| RegionFit.RegionSize | 12/Part_1/main.py:13 | a written size splits at 'x' into width and height, which read back |
| RegionFit.RegionRoundTrip | 12/Part_1/main.py:12-16 | a region line written from a size and at least one count reads back as them |
| RegionFit.RegionValidIff | 12/Part_1/main.py:4-23 | a region is valid exactly when its area is at least the required area of its counts and shapes |
| RegionFit.NoCountsFail | 12/Part_1/main.py:16 | a region line with nothing after ": " raises, since `int("")` does |
| RegionFit.Verdicts | 12/Part_1/main.py:46-48 | one verdict per region line |
| RegionFit.CountFitsCounts | 12/Part_1/main.py:46-48 | the sum raises exactly when one region raises, and otherwise counts the valid regions |
| RegionFit.Chunks | 12/Part_1/main.py:33 | `split` always gives at least one chunk, so `chunks[-1]` is defined |
| RegionFit.SolverCounts | 12/Part_1/main.py:26-50 | `solver` raises exactly when a shape or a region does not read, and otherwise counts the valid regions, at most one per region line |
| RegionFit.NoBlankLine | 12/Part_1/main.py:33-35 | data without a blank line has no shapes, and every line is a region |

## Left out

- File reading and printing everywhere (`open`, `fgets`, `print`, `printf`), the timing code of day 2 and the JSON dump of day 8: the solvers take the lines or the text of the file as a parameter and return their answer.
- The web and drawing parts: the Flask routes, event streams and `time.sleep` of `7/Part_1/main.py`, and the SVG/HTML output and `webbrowser` of `9/Part_1/main.py`. `7/Part_2/main.py` (an animation whose count is a frame counter) is not part of this model.
- `9/Part_2/main.py` (shapely polygons and floating point) and `10/Part_2/main.py` (an external ILP solver) are not part of this model; nor are the three.js visualisation and the benchmark scripts.
- C memory management, `perror` and `exit`: allocation failures are not modelled, and `find_start` failing is the `None` result.
- Python's recursion limit for the recursive `find` and `dfs`.
- `Common.ParseInt`: Python's `int` also accepts underscores between digits and non-ASCII decimal digits; only ASCII digits with an optional sign and surrounding whitespace are modelled. `str.isdigit` is modelled on ASCII digits in the same way.
- `RegionFit.ParseBinary`: `int(s, 2)` also accepts a `0b` prefix and underscores; the translated shapes contain only '0' and '1', so these never arise from the solver.
- `Circuits.SquaredDistance`: `math.dist` is a floating-point square root; the model compares exact squared distances, which order the pairs the same way except where rounding would make two different distances equal.
- `Circuits.ConnectClosest`, `Circuits.LastConnection`: require all points to have the same number of coordinates (`math.dist` raises otherwise), and `LastConnection` also requires at least one coordinate per point, since the product reads the first one; these errors are not modelled as results.
- `GreedyDigits.KeptIsLargest`: stated for lines made of digits only. On a line with other characters the pop rule counts them among the characters still to come, so the kept digits need not be the largest choice, nor K of them.
- `GreedyDigits.LineJoltage`: a line longer than K that keeps fewer than K digits makes the C code read buffer cells it never wrote; the model returns `None` for such a line instead of a value.
- `TimelineTables.LoadGridSize`: requires at most `MaxRows` lines, the size of the C grid buffer; longer lines than the `fgets` buffer are not modelled.
- `TimelineTables.CountTimelinesDp`, `TimelineTables.CountTimelinesC`, `SparseTimelines.CountTimelinesSparse`, `Timelines.DfsMemo`, `Beams.SimulateBeams`, `Beams.SimulateRows`: take a rectangular grid (the beam simulation an `array2`), while the Python readers keep each line at its own length. On ragged rows the Python code checks bounds against the first row's width, so it may raise `IndexError` at a shorter row, or ignore cells beyond the first row's width (for the beams, an 'S' there is found but its beam is dropped); the C code may read past a row's end. None of this is modelled.
- `PaperRolls.CountAccessibleRolls`, `RollRemoval.SimulateRemoval`: require a non-empty grid whose rows are at least as wide as the first; the `IndexError` an empty grid raises at `grid[0]` is not modelled.
- `AxisCompression.CompressAxis`: requires a non-empty list, as `all_t[0]` does; the driver returns before calling it when there are no tiles.
- `PathCounting.CountPaths`, `PathCounting.YouToOut`, `PathCounting.SvrToOut`: require a ranking of the devices that witnesses the absence of cycles along the explored paths; on a cyclic graph the Python recursion does not terminate, which is not modelled.
- `PathCounting.ThroughBoth`: proves the result is the sum of the two products and that at most one of them is non-zero; it does not prove that this sum counts the paths from "svr" to "out" through both devices.
