# Advent of Code 2022, days 1 to 11, in Dafny

This project models the puzzle solvers of a Rust Advent-of-Code repository (`src/q1.rs` …
`src/q11.rs` and the shared helpers in `src/common.rs`) and proves properties of them. One
Dafny module per source file:

| module | file | what it models |
|---|---|---|
| `Wrappers` | wrappers.dfy | `Option`, the value a parser returns where the Rust code panics |
| `Strings` | strings.dfy | the standard-library string operations the solvers use: `split`, `trim`, `trim_matches(' ')`, `parse` into `u32`/`u64`/`usize`/`i32`/`i64` |
| `Numbers` | numbers.dfy | the absolute value and `sort_unstable` on lists of numbers, shared by days 1, 9, 10 and 11 |
| `Common` | common.dfy | `parse_lines`: split at `\n` and drop blank lines |
| `Calories` | calories.dfy | day 1: parse one number per line, total each elf's inventory, add up the largest `n` totals |
| `Strategy` | strategy.dfy | day 2: rock-paper-scissors shapes, outcomes, scores and the two readings of the strategy guide |
| `Rucksack` | rucksack.dfy | day 3: compartments, item priorities, the items two compartments share, the badge three rucksacks share |
| `Cleanup` | cleanup.dfy | day 4: section ranges, full containment, overlap, and the `a-b,c-d` line format |
| `Crates` | crates.dfy | day 5: the crate drawing read into stacks, the move instructions, the two cranes |
| `Marker` | marker.dfy | day 6: the fixed-size ring buffer (`Buffer`) and the scan for the first window of distinct characters |
| `FileSystem` | filesystem.dfy | day 7: the `cd`/`ls` transcript tokenizer, the directory-tree parser and the size queries |
| `TreeGrid` | treegrid.dfy | day 8: the height grid, the four running-maximum visibility scans and the scenic score |
| `Rope` | rope.dfy | day 9: the knot chain pulled by its head and the set of positions its last knot visits |
| `Cpu` | cpu.dfy | day 10: the two-instruction CPU emulator, its signal strength and the screen's pixel test |
| `Monkeys` | monkeys.dfy | day 11: the monkeys' turns, the worry-level rollover, and the monkey-business answer |

How the Rust code is carried over:
- Functions that only compute a value are Dafny functions.
- Loops are methods with loop invariants. Each method is proved equal to a specification function, and the lemmas state what that function means.
- Structs whose methods update fields are classes: `Marker.Buffer`, `Rope.Grid`, `Cpu.CpuEmulator` and `Monkeys.MonkeyManager`.
- Where the Rust code panics (`unwrap` on a failed parse, an index past the end, an unsigned subtraction below zero), a parser returns `None`. Elsewhere a precondition excludes the panicking inputs; where it excludes more, "## Left out" says so.
- Integers are unbounded. The parsers enforce the width of the type they parse into (`ParseBelow` with `U32Limit`/`U64Limit` for unsigned types, `ParseIntIn` with `I32Min`/`I32Limit` and `I64Min`/`I64Limit` for signed ones).

## Model

| member | source | states |
|---|---|---|
| Common.ParseLines | src/common.rs:22-24 | the kept lines are never blank and never hold a newline, and there are no more of them than `\n`-separated pieces |
| Common.KeepNonBlank | src/common.rs:23 | the filter keeps a line exactly when it is non-blank: every kept line is a non-blank input line and every non-blank input line is kept |
| Common.KeepNonBlankAppend | src/common.rs:23 | filtering distributes over concatenation, so the kept lines stay in input order |
| Common.ParseLinesAppend | src/common.rs:22-24 | the lines of `a + "\n" + b` are the lines of `a` followed by those of `b` |
| Common.ParseLinesKeepsNonBlank | src/common.rs:22-24 | when no piece is blank, `parse_lines` is exactly `split('\n')` |
| Common.KeepAll | src/common.rs:23 | a list with no blank line passes the filter unchanged |
| Strings.Split | src/common.rs:23 | splitting gives at least one piece (an empty string splits into one empty piece) |
| Strings.SplitPiecesLackSep | src/common.rs:23 | no piece of a split holds the separator |
| Strings.JoinSplit | src/common.rs:23 | joining the pieces with the separator gives back the original string |
| Strings.SplitJoin | src/common.rs:23 | splitting the join of separator-free pieces gives back the pieces |
| Strings.SplitAppend | src/common.rs:23 | the split of `a + sep + b` is the split of `a` followed by the split of `b` |
| Strings.TrimBy | src/q1.rs:35 | trimming gives the empty string exactly when every character is stripped; otherwise it is the slice between the leading and trailing stripped runs, and it starts and ends with a kept character |
| Strings.TrimByUnpadded | src/q1.rs:35 | a string that starts and ends with kept characters is its own trim |
| Strings.TrimByLeadingPad | src/q1.rs:35 | a stripped prefix in front of an unpadded string is removed by trimming |
| Strings.TrimByPadded | src/q2.rs:145-147 | stripped characters on both sides of an unpadded string are removed by trimming |
| Strings.Trim | src/common.rs:23 | `trim` gives the empty string exactly when the string is all Unicode whitespace |
| Strings.TrimSpaces | src/q1.rs:35 | `trim_matches(' ')` gives the empty string exactly when the string is all spaces |
| Strings.ParseNat | src/q4.rs:55-56 | an unsigned parse succeeds exactly on a non-empty run of digits, optionally after one `+` |
| Strings.ParseInt | src/q10.rs:25 | the signed syntax before the width check: also accepts `-` followed by digits, and agrees with the unsigned parse where that succeeds |
| Strings.ParseIntIn | src/q10.rs:25 | a parse into a fixed-width signed type succeeds exactly when the signed syntax is met and the value lies in the type's range |
| Strings.ParseBelow | src/q4.rs:55-56 | a parse into a fixed-width unsigned type succeeds exactly when the unsigned parse does and the value is below the type's limit |
| Strings.ShowNat | src/q4.rs:55-56 | writing a number gives a non-empty run of digits with no leading zero |
| Strings.ParseShowNat | src/q4.rs:55-56 | a number written in decimal parses back to itself, unsigned and signed |
| Strings.DigitsShowNat | src/q4.rs:55-56 | the value of the digits written for `n` is `n` |
| Strings.ParseShowInt | src/q10.rs:25 | a signed number written in decimal parses back to itself |
| Strings.ParseShowIntIn | src/q9.rs:16 | a signed number written in decimal parses back into a fixed-width type exactly when it fits, and fails otherwise |
| Calories.ParseCalories | src/q1.rs:35 | a line's number is below 2^64; it is the parsed value when the trimmed line is a `u64`, and 0 otherwise |
| Calories.BlankLineIsZero | src/q1.rs:35 | a line of spaces reads as 0, the inventory separator |
| Calories.ParseInputLineByLine | src/q1.rs:33-37 | `parse_input` gives one entry per `\n`-separated line, entry `i` being line `i`'s number |
| Calories.ParsePadded | src/q1.rs:35 | a number below 2^64 with spaces in front of it reads back as that number |
| Calories.ParseInputOfLines | src/q1.rs:33-37 | lines without newlines that each read as a number, joined with `\n`, read back as those numbers |
| Calories.PaddedDigit | src/q1.rs:35 | a digit `1`-`9` after spaces reads as its value |
| Calories.ParseInputOneLine | src/q1.rs:33-37 | text without a newline reads as that one line's number |
| Calories.ParseInputAddLine | src/q1.rs:33-37 | adding a line after a `\n` appends that line's number |
| Calories.ParseInputFirstExample | src/q1.rs:43-50 | the first unit test: `1`, then `2`, `3`, `4`, each after the same run of spaces, reads as `[1, 2, 3, 4]` |
| Calories.ParseInputSecondExample | src/q1.rs:52-64 | the second unit test: padded numbers with empty lines between them read as `[1, 2, 3, 0, 4, 0, 5, 0, 6]` |
| Calories.SumAppend | src/q1.rs:7-16 | the sum of a concatenation is the sum of the parts |
| Calories.GroupingConserves | src/q1.rs:7-16 | grouping makes one total per 0 entry, and the totals plus the still-open running sum add up to the sum of all entries |
| Calories.GroupCalories | src/q1.rs:7-16 | the grouping loop computes the closed totals and the running sum of the specification `Grouping` |
| Numbers.Insert | src/q1.rs:17 | inserting into a sorted list gives a sorted permutation of the list plus the new element |
| Numbers.Sort | src/q1.rs:17 | `sort_unstable` (and the `sort` of src/q11.rs:202) gives an ascending permutation of its input |
| Calories.TopAreLargest | src/q1.rs:17-21 | the last `n` sorted totals are a sub-multiset of the totals, and none of the others is larger than any of them |
| Calories.MostCalories | src/q1.rs:7-21 | as written: the answer is the open running sum plus the `n` largest closed totals (`n` at most the number of closed totals, else the index underflows) |
| Calories.AllInventories | src/q1.rs:7-16 | the closed totals with the open running sum as the last inventory: one more than the number of separators, with the same sum as the entries |
| Calories.MostCaloriesCountsOpenInventory | src/q1.rs:7-21 | the Finding: for entries `1, 0, 5` and `n = 1` the program as written answers 6, while the largest inventory holds 5 |
| Calories.MostCaloriesOfAll | src/q1.rs:7-21 | corrected: the answer is the sum of the `n` largest totals over all inventories, the last one included |
| Calories.ClosedListLeavesNothingOpen | src/q1.rs:7-21 | when the input ends with a separator the running sum is 0, and the answer as written (open sum plus the `n` largest closed totals) equals the `n` largest totals over all inventories |
| Calories.TopSumWithZero | src/q1.rs:17-21 | adding a 0 total does not change the sum of the `n` largest when there are at least `n` others |
| Numbers.SortWithZero | src/q1.rs:17 | sorting a list with a 0 appended puts that 0 first, in front of the sorted list |
| Strategy.ActionScore | src/q2.rs:12-18 | a shape scores 1, 2 or 3 |
| Strategy.ActionFromStr | src/q2.rs:20-27 | a shape is read from exactly the letters `A`, `B`, `C`, `X`, `Y`, `Z`; any other text panics |
| Strategy.Beats | src/q2.rs:29-35 | the shape that beats `a` differs from `a` |
| Strategy.BeatsIsThreeCycle | src/q2.rs:29-43 | "beats" is a three-cycle: applied three times it returns to the start, `losses` is its inverse, and the three answers to a shape are pairwise different |
| Strategy.OutcomeScore | src/q2.rs:61-67 | an outcome scores 0, 3 or 6 |
| Strategy.OutcomeFromStr | src/q2.rs:69-76 | an outcome is read from exactly the letters `X`, `Y`, `Z` |
| Strategy.FromActionsFollowsBeats | src/q2.rs:82-106 | `from_actions` says Win exactly when my shape beats the opponent's, Loss exactly when theirs beats mine, and Draw exactly when the shapes are equal |
| Strategy.FromActionsAntisymmetric | src/q2.rs:82-106 | a shape draws with itself, and I win against `y` exactly when `y` loses against me |
| Strategy.FromInput | src/q2.rs:45-51 | the shape `from_input` picks reaches the requested outcome against the opponent's shape |
| Strategy.FromInputUnique | src/q2.rs:45-51 | it is the only shape that does |
| Strategy.RoundScore | src/q2.rs:121-125 | a round scores between 1 and 9 |
| Strategy.RoundScoreDecodes | src/q2.rs:121-125 | two rounds with the same score have the same shape of mine and the same outcome |
| Strategy.TotalScore | src/q2.rs:128-142 | the total score of `k` rounds lies between `k` and `9k` |
| Strategy.RoundLines | src/q2.rs:145-151 | the strings kept are three characters long and neither starts nor ends with whitespace, and there are no more of them than input lines |
| Strategy.RoundLinesOne | src/q2.rs:145-151 | a single line is kept, as its trim, exactly when its trim is three characters long; with `RoundLinesAppend` this fixes the filter on every list |
| Strategy.RoundLinesMembers | src/q2.rs:145-151 | a string is kept exactly when it is the three-character trim of some input line |
| Strategy.RoundLinesPadded | src/q2.rs:145-151 | a round padded with whitespace on either side is kept without the padding |
| Strategy.RoundLinesPaddedExample | src/q2.rs:145-151 | the line ` A X ` is kept as `A X` |
| Strategy.RoundLinesKeepsRounds | src/q2.rs:145-151 | trimmed three-character lines are all kept, in order |
| Strategy.RoundLinesDropsBlank | src/q2.rs:145-151 | blank lines are all dropped |
| Strategy.RoundLinesAppend | src/q2.rs:145-151 | the filter distributes over concatenation |
| Strategy.ParseRoundLine | src/q2.rs:152-160 | a parsed round has the opponent's shape from the first word and mine from the second |
| Strategy.ParseModifiedLine | src/q2.rs:171-180 | a round parsed the second way has the opponent's shape from the first word, and my shape reaches the outcome named by the second word |
| Strategy.ParseEach | src/q2.rs:144-181 | the guide parses exactly when every kept line parses, one round per line, in order |
| Strategy.ModifiedRoundsReachTheirOutcomes | src/q2.rs:163-181 | every round of `parse_input_modified` reaches the outcome its line asks for |
| Strategy.ParseShowRound | src/q2.rs:152-160 | a round written as `op my` letters parses back to itself |
| Strategy.ParseShowStrategy | src/q2.rs:171-180 | a line `op outcome` parses to the round whose shape `from_input` picks |
| Strategy.ParseInputExample | src/q2.rs:187-201 | the unit test: `A X`, `B Y`, `C Z` and two empty lines read as rock/rock, paper/paper, scissors/scissors |
| Rucksack.Compartments | src/q3.rs:6-8 | the first compartment holds the first `len / 2` items, and the two halves make up the line |
| Rucksack.CompartmentsEqualOnEvenLines | src/q3.rs:6-8 | on a line of even length the compartments have the same size |
| Rucksack.ItemOfPriority | src/q3.rs:17-25 | every priority from 1 to 52 belongs to a letter |
| Rucksack.PriorityOfLetters | src/q3.rs:10-25 | lower-case letters have priorities 1-26 and upper-case letters 27-52, and a letter is recovered from its priority |
| Rucksack.PriorityOfItem | src/q3.rs:10-25 | every priority 1-52 is the priority of its letter, so priorities and letters correspond one to one |
| Rucksack.PriorityExamples | src/q3.rs:94-101 | the unit test's priorities: `a`..`z` are 1..26 and `A`..`Z` are 27..52 |
| Rucksack.ItemsOf | src/q3.rs:28-35 | the map built from a string has exactly the string's characters as keys |
| Rucksack.GetCommonChars | src/q3.rs:27-44 | the result holds no character twice and holds exactly the characters found in both strings |
| Rucksack.GetBadge | src/q3.rs:46-56 | with no character common to all three rucksacks the result is `'\0'`; otherwise it is a character found in all three |
| Rucksack.BadgeCandidates | src/q3.rs:46-56 | the characters common to the first two and to the last two are the characters common to all three |
| Rucksack.CompartmentsExample | src/q3.rs:84-91 | the unit test's line splits into its two halves |
| Rucksack.CommonItemsExample | src/q3.rs:104-109 | the unit test's compartments share exactly `L` |
| Rucksack.GetCommonCharsExample | src/q3.rs:104-109 | `get_common_chars` on the unit test's compartments returns `L` first |
| Cleanup.ContainsIsInclusion | src/q4.rs:10-12 | `contains` holds exactly when every section of the other range is a section of this one |
| Cleanup.StartsInsideIsFirstSection | src/q4.rs:14-16 | the one-sided `overlaps` holds exactly when this range's first section lies in the other range |
| Cleanup.PairSymmetric | src/q4.rs:43-49 | the two-sided `contains` and `overlaps` do not depend on the order of the ranges |
| Cleanup.OverlapsIsIntersection | src/q4.rs:47-49 | two ranges overlap exactly when they share a section, exactly when the larger lower end is at most the smaller upper end |
| Cleanup.ContainsImpliesOverlaps | src/q4.rs:43-49 | a pair in which one range contains the other overlaps |
| Cleanup.ContainsExamples | src/q4.rs:67-85 | the unit test: `4-6` contains `6-6`, `5-8` contains `6-6`, `4-6` and `5-8` do not contain each other |
| Cleanup.ParseRegion | src/q4.rs:53-57 | a range parses exactly when its first two `-`-pieces are `u32` numbers, and both ends are below 2^32 |
| Cleanup.ParseRegions | src/q4.rs:52-58 | the ranges parse exactly when each does, one region per range, in order |
| Cleanup.ParseLine | src/q4.rs:51-61 | a line parses exactly when it has at least two `,`-pieces and every piece parses; the pair is the first two regions |
| Cleanup.ParseLineNeedsComma | src/q4.rs:60 | a line without a comma makes the parser panic |
| Cleanup.ParseShowRegion | src/q4.rs:53-57 | a region written as `a-b` parses back to itself |
| Cleanup.ParseShowLine | src/q4.rs:51-61 | a pair written as `a-b,c-d` parses back to itself |
| Cleanup.ParseLineExample | src/q4.rs:88-100 | the unit test: `3-5,7-10` reads as the regions 3-5 and 7-10 |
| Crates.Reverse | src/q5.rs:79 | the reversal has the same length and element `k` is element `len - 1 - k` |
| Crates.ReverseReverse | src/q5.rs:79 | reversing twice gives the stack back |
| Crates.TrimTop | src/q5.rs:84-88 | trimming keeps a prefix of the stack, removes only spaces, and leaves a top that is not a space |
| Crates.TrimTopRemovesPadding | src/q5.rs:84-88 | a stack whose padding above the top crate is all spaces is trimmed to exactly its crates |
| Crates.TrimTopOfStack | src/q5.rs:84-88 | the popping loop computes `TrimTop` |
| Crates.TrimTopKeepsCrates | src/q5.rs:84-88 | a stack with a crate on top is left alone, and trimming twice is trimming once |
| Crates.PushChunks | src/q5.rs:68-75 | reading a line never removes a stack; what it adds is stated by `PushCrateRow` |
| Crates.PushCrateRow | src/q5.rs:68-75 | a row with a non-digit at index 1 of every chunk never panics: stack `k` receives the character at index `4k+1`, missing stacks are created, and no other stack changes |
| Crates.CollectCrateRows | src/q5.rs:67-76 | rows of `m` such chunks give `m` stacks, stack `k` holding column `k` of the drawing from the top row down |
| Crates.ParseBoxesColumns | src/q5.rs:65-82 | crate rows followed by a label row parse into stacks holding each column bottom row first, without the spaces above the top crate |
| Crates.PushLineChunks | src/q5.rs:68-75 | the loop over a line's four-character chunks computes `PushChunks` |
| Crates.ParseBoxes | src/q5.rs:65-82 | `parse_boxes` computes `ParseBoxesSpec`: each collected stack reversed and trimmed, `None` where the source panics |
| Crates.CollectStaysFailed | src/q5.rs:67-76 | once a line makes the reader panic, later lines do not matter |
| Crates.LabelRowAddsNothing | src/q5.rs:70 | a row of stack labels adds no crate and no stack |
| Crates.ExampleDrawingStacks | src/q5.rs:110-125 | the unit-test drawing, each label at index 1 of its chunk, is collected into the expected raw stacks |
| Crates.ParseBoxesExample | src/q5.rs:110-125 | that drawing parses into the stacks the unit test expects, bottom crate first |
| Crates.ParseBoxesTestAsWritten | src/q5.rs:112-117 | the Finding: the unit test's literal as written, without indentation and with labels at index 0 of their chunks, makes the parser panic |
| Crates.ParsedStacksEndInCrates | src/q5.rs:77-81 | no parsed stack has a space on top |
| Crates.FromLine | src/q5.rs:97-104 | an instruction only parses from a line of at least six words |
| Crates.FromLineRoundTrip | src/q5.rs:97-104 | `move c from f to t` with `c` a `u32` and `f`, `t` at least 1 parses to `c`, `f - 1`, `t - 1` |
| Crates.MoveOneAtATime | src/q5.rs:19-22 | the first crane's move keeps the number of stacks |
| Crates.MoveBlock | src/q5.rs:47-54 | the second crane's move keeps the number of stacks |
| Crates.ApplyOneAtATime | src/q5.rs:19-22 | the pop-and-push loop computes `MoveOneAtATime` |
| Crates.PopBlock | src/q5.rs:47-51 | popping `count` crates removes the top `count` from the source stack and holds them top first |
| Crates.PushBack | src/q5.rs:52-54 | draining the holding stack puts its crates on the destination in reverse |
| Crates.ApplyBlock | src/q5.rs:46-55 | the pop-then-drain loops compute `MoveBlock` |
| Crates.RunOneAtATime | src/q5.rs:18-23 | the instruction loop of `run` computes `RearrangeOneAtATime`, `None` at the first instruction whose crates are missing |
| Crates.RunBlocks | src/q5.rs:46-55 | the instruction loop of `run2` computes `RearrangeBlocks` |
| Crates.TopCrates | src/q5.rs:26-28 | the message has one letter per stack, the top crate of that stack |
| Crates.OneAtATimeMovesTheTop | src/q5.rs:18-23 | the first crane takes the top `count` crates off the source, the destination grows by `count` with the source's top crate arriving first, other stacks stay, and no crate is lost or made |
| Crates.BlockMovesTheTop | src/q5.rs:46-55 | the second crane moves the top `count` crates as a block in their order, other stacks stay, and no crate is lost or made |
| Crates.CranesDifferByOrder | src/q5.rs:18-55 | the first crane's move is the second crane's move of the reversed block, and for one crate the cranes agree |
| Crates.BlockMoveUndone | src/q5.rs:46-55 | a block move followed by the opposite move restores the stacks |
| Crates.OneAtATimeMoveUndone | src/q5.rs:18-23 | a one-at-a-time move followed by the opposite move restores the stacks |
| Marker.DistinctIffCard | src/q6.rs:48-52 | a sequence has as many different characters as elements exactly when no character repeats |
| Marker.ModWrap | src/q6.rs:38-41 | below twice the capacity, the remainder is a single wrap-around |
| Marker.NextContents | src/q6.rs:33-42 | after a push the buffer holds one more character, up to its capacity |
| Marker.SlotAfterPush | src/q6.rs:33-42 | a push writes the new character to the slot after the newest one and leaves every other slot as it was |
| Marker.SlotsHoldAfterPush | src/q6.rs:33-42 | the slots keep holding the last received characters in ring order after a push |
| Marker.FullSlotsAreContents | src/q6.rs:48-52 | a full buffer's slots hold exactly the last `max_len` characters received |
| Marker.WindowAfterPush | src/q6.rs:55-62 | pushing the next input character slides the window of the last `max_len` characters by one |
| Marker.Blanks | src/q6.rs:23-24 | the new buffer's slots are all spaces |
| Marker.Buffer.New | src/q6.rs:22-31 | a new buffer is empty, with its slots all spaces |
| Marker.Buffer.Push | src/q6.rs:33-42 | a push appends the character to the received window, dropping the oldest when full, updates `len` and `head` and writes one slot, keeping the ring invariant |
| Marker.Buffer.IsUnique | src/q6.rs:48-52 | the buffer is unique exactly when it is full and its window holds no character twice |
| Marker.WindowIsSuffix | src/q6.rs:55-62 | after `n` pushes the buffer holds the last `min(n, k)` characters of the input |
| Marker.MarkerIffWindow | src/q6.rs:55-62 | position `i` ends a marker exactly when the buffer is full and distinct right after `s[i]` is pushed |
| Marker.ProcessDataStream | src/q6.rs:55-64 | the answer is one past the first position that ends `k` distinct characters, or 0 when there is none |
| Marker.FirstMarkerOfPrefix | src/q6.rs:55-64 | the first marker of a prefix is the first marker of the whole stream |
| Marker.MarkerExample1 | src/q6.rs:98-113 | `bvwbjplbgvbhsrlpgdmjqwftvncz` with window 4 answers 5 |
| Marker.MarkerExample2 | src/q6.rs:98-113 | `nppdvjthqldpwncqszvftbrmjlhg` answers 6 |
| Marker.MarkerExample3 | src/q6.rs:98-113 | `nznrnfrfntjfmvfwmzdfjlvtqnbhcprsg` answers 10 |
| Marker.MarkerExample4 | src/q6.rs:98-113 | `zcfzfwzzqfrljwzlrfnpqdbhtmscgvjw` answers 11 |
| Marker.PushLayoutExample | src/q6.rs:70-95 | the push unit test: the slot layouts after pushing `A` to `E` into a four-slot buffer |
| FileSystem.CommandChunkRole | src/q7.rs:61-70 | a `$`-line chunk panics exactly when it is empty, `c` or `l`, and is skipped exactly when it is `$`, `cd` or `ls` |
| FileSystem.CommandInto | src/q7.rs:60-72 | a command line fails exactly when one of its chunks panics; otherwise it keeps the earlier tokens and appends only directory names taken from its own chunks |
| FileSystem.TokenizeStaysFailed | src/q7.rs:57-81 | once a line makes the tokenizer panic, later lines do not matter |
| FileSystem.LsAddsNothing | src/q7.rs:65-67 | `$ ls` adds no token |
| FileSystem.CdAddsName | src/q7.rs:61-70 | `$ cd X` adds the one token `DirectoryName(X)` |
| FileSystem.ListingRoundTrip | src/q7.rs:73-79 | a listing line becomes one token whose space-free chunks join back into the line |
| FileSystem.IntoTokenStream | src/q7.rs:54-84 | the tokenizer loop computes `Tokenize` |
| FileSystem.PushLineTokens | src/q7.rs:58-79 | the loop body computes the tokens one line adds |
| FileSystem.FindChild | src/q7.rs:109 | the search returns the first child with the name, or the number of children when none has it |
| FileSystem.DirectoryAfter | src/q7.rs:95-142 | parsing only moves forward, a return to the root consumes a token, and the directory keeps its name and size, keeps its files as a prefix and never loses a child |
| FileSystem.ParseDirectory | src/q7.rs:95-142 | the recursive parser computes `DirectoryAfter`, `None` on a listing line with fewer than two chunks |
| FileSystem.ParseTokens | src/q7.rs:87-94 | `parse_tokens` computes `TreeAfter` from a fresh root |
| FileSystem.DirectoryAfterKeepsZeroSizes | src/q7.rs:95-142 | parsing never writes a `size` field |
| FileSystem.ParsedSizesAreZero | src/q7.rs:37 | every directory of a parsed tree has `size` 0 |
| FileSystem.CdReusesChild | src/q7.rs:109-118 | `cd X` then `cd ..` reuses an existing child called X, and otherwise appends a new empty child called X |
| FileSystem.ParseTokensExample | src/q7.rs:224-256 | the parser's unit test: the root gets the two files and the two empty children in listing order |
| FileSystem.SizesBelowRoot | src/q7.rs:146-150 | no directory of a tree is larger than the root |
| FileSystem.ChildBelowParent | src/q7.rs:146-150 | a directory is at least as large as each child |
| FileSystem.GetSumLessThanSpec | src/q7.rs:152-160 | `get_sum_less_than(n)` is the sum of the sizes below `n` over every directory of the tree, the root included |
| FileSystem.SumBelowAppend | src/q7.rs:152-160 | that sum distributes over concatenation |
| FileSystem.FindSmallestChildLessThanSpec | src/q7.rs:162-169 | as written: the result is the size of a directory of the tree, at most the root's; when the root is larger than `n` it is the smallest size strictly above `n` |
| FileSystem.FindSmallestMissesExactFit | src/q7.rs:163-164 | the Finding: a child of exactly the size asked for is passed over |
| FileSystem.FindSmallestAtLeastSpec | src/q7.rs:162-169 | corrected: when the root is at least `n`, the result is the smallest size of at least `n` |
| TreeGrid.HeightsOf | src/q8.rs:27-29 | a line reads as heights exactly when no character is below `0`, one height per character, each its distance from `0` |
| TreeGrid.HeightsRoundTrip | src/q8.rs:27-29 | single-digit heights written as digits read back as the same row |
| TreeGrid.GridOf | src/q8.rs:21-33 | the lines read as a grid exactly when each does, one row per line |
| TreeGrid.ParseTreeRow | src/q8.rs:26-29 | the inner loop computes `HeightsOf` |
| TreeGrid.ParsePuzzleInputToTreeGrid | src/q8.rs:21-33 | the parser computes `ParseTreeGrid` |
| TreeGrid.ExampleParse | src/q8.rs:173-190 | the unit test's five lines read as the example grid |
| TreeGrid.MarksAreVisibility | src/q8.rs:35-86 | a tree is visible (on the border, or taller than everything between it and an edge) exactly when the border pass or one of the four running-maximum scans marks it |
| TreeGrid.VisibilityMap | src/q8.rs:36-43 | the visibility map has the grid's shape |
| TreeGrid.CountRow | src/q8.rs:88-91 | a row's count is at most its length |
| TreeGrid.CountTrueMono | src/q8.rs:88-91 | a map that marks more cells counts at least as many |
| TreeGrid.VisibleCountBounds | src/q8.rs:35-92 | at least every border tree and at most every tree is counted |
| TreeGrid.MarkFromLeft | src/q8.rs:46-54 | the first scan adds exactly the trees taller than every tree to their left and than 0 |
| TreeGrid.MarkFromRight | src/q8.rs:57-66 | the second scan adds exactly the trees taller than every tree to their right and than 0 |
| TreeGrid.MarkFromTop | src/q8.rs:68-76 | the third scan adds exactly the trees taller than every tree above them and than 0 |
| TreeGrid.MarkFromBottom | src/q8.rs:78-86 | the fourth scan adds exactly the trees taller than every tree below them and than 0 |
| TreeGrid.GetVisibleTrees | src/q8.rs:35-92 | the answer is the number of visible trees |
| TreeGrid.ExampleVisibleCount | src/q8.rs:193-206 | the unit test: 21 trees of the example grid are visible |
| TreeGrid.ViewDistance | src/q8.rs:99-105 | the distance counts the trees up to and including the first one at least as tall, or to the edge |
| TreeGrid.ViewDistanceUnique | src/q8.rs:99-105 | those facts determine the distance |
| TreeGrid.Times | src/q8.rs:106 | a product of distances is 0 exactly when one of them is |
| TreeGrid.ScenicScoreZeroOnBorder | src/q8.rs:94-145 | the score is 0 exactly on the border |
| TreeGrid.CountUp | src/q8.rs:99-105 | the upward loop computes the upward viewing distance |
| TreeGrid.CountDown | src/q8.rs:109-115 | the downward loop computes the downward viewing distance |
| TreeGrid.CountRight | src/q8.rs:121-127 | corrected: the rightward loop bounded by the row length computes the rightward viewing distance |
| TreeGrid.CountLeft | src/q8.rs:134-140 | the leftward loop computes the leftward viewing distance |
| TreeGrid.GetScenicScore | src/q8.rs:94-145 | corrected (see the src/q8.rs:121 Finding): the score is the product of the four viewing distances, the rightward one bounded by the row length |
| TreeGrid.ExampleScenicScores | src/q8.rs:225-235 | the unit test: scores 8 at row 3, column 2 and 4 at row 1, column 2 |
| TreeGrid.BestInRow | src/q8.rs:150-152 | the inner loop raises the best score to at least every interior score of the row, and the new best is the old one or one of those scores |
| TreeGrid.GetMostScenicTree | src/q8.rs:147-155 | corrected (see the src/q8.rs:121 Finding): the answer is at least every tree's corrected score, and it is 0 or an interior tree's corrected score |
| TreeGrid.ScanToRowEnd | src/q8.rs:121-127 | the scan bounded by the row length is the viewing distance |
| TreeGrid.RightScanOnSquareGrid | src/q8.rs:121-127 | on a square grid the scan as written is the rightward viewing distance |
| TreeGrid.RightScanMissesTrees | src/q8.rs:121 | the Finding: on a grid wider than it is tall the scan as written stops early |
| Rope.PullSpec | src/q9.rs:69-124 | a knot moves exactly when it does not touch its leader, by at most one unit per axis, and from distance at most 2 it ends up touching |
| Rope.SettleShape | src/q9.rs:69-124 | the pull keeps the chain's length and the knots before it, stops at the first knot that stays put, moves each knot at most one unit per axis, and reports the last knot exactly when the pull reaches it |
| Rope.SettleKeepsTaut | src/q9.rs:69-124 | after the pull every knot touches the knot in front of it |
| Rope.StepKeepsTaut | src/q9.rs:126-155 | a head step on a taut rope leaves it taut |
| Rope.StepMovesHeadOneUnit | src/q9.rs:126-155 | a head step moves the head one unit along the direction's axis and every other knot at most one unit per axis |
| Rope.StepN | src/q9.rs:243-277 | repeated steps keep the number of knots |
| Rope.StepStateValid | src/q9.rs:243-277 | a step keeps the rope taut, records the last knot's position, and only grows the recorded set |
| Rope.StepNValid | src/q9.rs:243-277 | the same for any number of steps |
| Rope.SingleKnotRecordsHead | src/q9.rs:126-155 | with one knot every head position is recorded |
| Rope.ParseShowDirection | src/q9.rs:12-25 | a command written as `R n`, `L n`, `U n` or `D n` parses back to itself when `n` fits in an `i32`, and panics when it does not |
| Rope.Grid.WithNKnots | src/q9.rs:219-228 | `n` knots at the origin with the origin recorded |
| Rope.Grid.MoveHead | src/q9.rs:68-155 | a head move updates the chain as `Step` does and reports its tail position |
| Rope.Grid.ApplyDirection | src/q9.rs:234-277 | applying a command takes the grid to `StepN` of the old state, keeping the invariant and only growing the recorded set |
| Rope.Grid.NumPositions | src/q9.rs:279-281 | the answer is the number of recorded positions, at least 1 |
| Cpu.ParseNoop | src/q10.rs:18-22 | `noop` is a one-cycle no-op |
| Cpu.ParseAddx | src/q10.rs:23-30 | `addx V` is a two-cycle add of `V` when `V` fits in an `i64`, and panics when it does not |
| Cpu.SampledIsRemainder | src/q10.rs:90 | the sampling test holds exactly on cycles that are 20 more than a multiple of 40 |
| Cpu.Insert | src/q10.rs:60-65 | inserting appends to the queue and, with nothing in flight, takes up the queue's first instruction; clock, register and signal stay |
| Cpu.TickValid | src/q10.rs:71-93 | a tick keeps the emulator well formed and advances the cycle by one |
| Cpu.TickRegister | src/q10.rs:71-87 | the register changes only when the in-flight instruction's countdown runs out, and then by its amount; the next instruction is taken then and only then |
| Cpu.TickSignal | src/q10.rs:89-92 | the signal grows by register times cycle exactly on sampled cycles |
| Cpu.IdleTick | src/q10.rs:71-93 | with nothing in flight a tick only advances the clock |
| Cpu.AddxTakesTwoTicks | src/q10.rs:71-93 | an `addx V` changes the register by `V` after its second tick and not before |
| Cpu.NoopTakesOneTick | src/q10.rs:71-93 | a `noop` finishes in one tick and leaves the register alone |
| Cpu.Lit | src/q10.rs:99-106 | a pixel is lit exactly when the register is within 1 of the column being drawn |
| Cpu.OffscreenSpriteIsDark | src/q10.rs:99-106 | a sprite centred off the screen lights nothing |
| Cpu.CpuEmulator.Default | src/q10.rs:42-52 | the emulator starts at cycle 1 with register 1, no signal and nothing queued |
| Cpu.CpuEmulator.GetCurrentCycle | src/q10.rs:55 | the cycle counter |
| Cpu.CpuEmulator.GetSignalStrength | src/q10.rs:57-59 | the accumulated signal |
| Cpu.CpuEmulator.HasInstructions | src/q10.rs:67-69 | whether the queue is non-empty |
| Cpu.CpuEmulator.InsertInstructions | src/q10.rs:60-65 | the new state is `Insert` of the old one |
| Cpu.CpuEmulator.ExecuteClockCycle | src/q10.rs:71-93 | the new state is `Tick` of the old one |
| Cpu.CpuEmulator.RunUntil | src/q10.rs:122-124 | the driving loop reaches `Drive`: the queue is empty or the cycle has reached the limit |
| Cpu.Drive | src/q10.rs:122-124 | driving keeps the emulator well formed and stops with an empty queue or at the limit |
| Monkeys.Inspect | src/q11.rs:28-41 | an inspected worry level is below the rollover |
| Monkeys.ApplyCongruent | src/q11.rs:29-39 | every operation maps worry levels equal modulo `d` to levels equal modulo `d` |
| Monkeys.InspectKeepsTest | src/q11.rs:28-45 | with the rollover a multiple of the divisor, the reduced level passes the test exactly when the unreduced one would |
| Monkeys.InspectCongruent | src/q11.rs:28-41 | reduced and unreduced levels stay equal modulo every divisor of the rollover through later inspections |
| Monkeys.Throws | src/q11.rs:110-128 | a turn makes one throw per item |
| Monkeys.ThrowsFromTheEnd | src/q11.rs:112 | the `i`-th throw is the `i`-th item from the end |
| Monkeys.ThrowSpec | src/q11.rs:113-125 | a throw goes to `on_true` exactly when the unreduced level is divisible by the monkey's divisor |
| Monkeys.ThrowsGoToReceivers | src/q11.rs:115-125 | every throw goes to one of the two receivers |
| Monkeys.TakeATurn | src/q11.rs:110-128 | after a turn the monkey holds nothing and has counted every item, and its throws are `Throws`; a monkey without items needs no positive rollover or divisor |
| Monkeys.Replace | src/q11.rs:183 | replacing one monkey changes rules, counts and the item total only at its place |
| Monkeys.DeliverSpec | src/q11.rs:182-184 | handing out keeps rules and counts and adds one item per throw |
| Monkeys.TurnSpec | src/q11.rs:176-185 | a turn keeps the rules and the item total and raises the turn-taker's count by the items it held |
| Monkeys.RoundSpec | src/q11.rs:175-186 | a round keeps every monkey's rules and the number of items |
| Monkeys.ProductOfTestsSpec | src/q11.rs:166 | the rollover is positive and a multiple of every divisor |
| Monkeys.ProductRolloverValid | src/q11.rs:163-171 | a troop with positive divisors and member receivers is valid with that rollover |
| Monkeys.MonkeyBusinessIsMaxPair | src/q11.rs:200-204 | the monkey business is the largest product of two different monkeys' counts |
| Monkeys.MonkeyManager.constructor | src/q11.rs:163-171 | the manager holds the monkeys with the product of their divisors as rollover |
| Monkeys.MonkeyManager.PlayRound | src/q11.rs:175-186 | a round takes the troop to `Round` of the old troop |
| Monkeys.MonkeyManager.HandOut | src/q11.rs:182-184 | the throws are delivered in order |
| Monkeys.MonkeyManager.CalculateMonkeyBusiness | src/q11.rs:200-204 | the answer is at least the product of any two different monkeys' counts and equals one such product |

## Left out

- Reading input files (`common::read_file`), the `run`/`solve_qN` wrappers' file names and all printing (`println!`, `print_grid`, `print_crt_data`, `print_monkeys`, `print_inspections`, the `Display` impls) are I/O and are not modelled.
- The day 9 unit tests (13 and 36 recorded positions) and the day 10 unit test (signal 13140 over 146 instructions) are long simulations; the model proves the general properties instead.
- The day 11 regular-expression parser (`parse_input_to_monkeys`, `Monkey::from`) and its two unit tests are not modelled: the model starts from parsed monkeys, and there is no regular-expression engine here.
- The day 11 test's 10000 rounds are not computed.
- The day 8 most-scenic-tree unit test (answer 8) is not computed; the two scores behind it are (`TreeGrid.ExampleScenicScores`).
- The day 7 tokenizer unit test over literal lines is not computed. Its lines are covered by `FileSystem.CdAddsName`, `FileSystem.LsAddsNothing` and `FileSystem.ListingRoundTrip`.
- The day 7 `..` unit test and `solve_q7`'s arithmetic on the disk size are not modelled.
- `common::parse_lines`' unit test is not computed; `Common.ParseLinesKeepsNonBlank` covers input without blank lines.
- Day 5's `split_once("\n\n")` between drawing and instructions is not modelled: the model takes the two parts as separate inputs.
- Day 5: `run` and `run2` apply `parse_lines` to the drawing, which drops blank lines before `parse_boxes`. `Crates.ParseBoxes` takes the lines as given; an empty line adds nothing there either.
- Days 2, 3 and 4: the `run` loops that add up or count per line are not modelled as methods. Their per-line parts are: `RoundScore`/`TotalScore`, `Priority` with `GetCommonChars`/`GetBadge`, and `PairContains`/`PairOverlaps`.
- Rucksack.GetCommonChars: the source visits hash-map keys in an unspecified order. The model returns the common characters in some order, so the contract states the set and not the order.
- Rucksack.GetBadge: which of several common characters is returned depends on hash order; the contract only says it is common to all three rucksacks.
- Fixed-width wrap-around (u32, u64, usize, i32, i64 sums and products) is not modelled: integers are unbounded. Parsers do enforce the width of the type they parse into.
- Rope: positions are unbounded integers, not `i32`.
- Monkeys: worry levels are unbounded naturals, not `usize`.
- Monkeys.MonkeyManager.PlayRound: requires `ValidTroop`, which asks that every monkey's `on_true` and `on_false` name a monkey and every divisor be positive and divide the rollover. The source needs a receiver to exist only when an item is thrown to it (src/q11.rs:182-183), and a non-zero rollover and divisor only when an item is inspected (src/q11.rs:40, src/q11.rs:44). Troops whose out-of-range receiver is never used or whose zero divisor is never reached (one monkey holding `1` with `old + 0`, divisor 1, `on_true` 0 and `on_false` 5) run a round without panicking there and are not modelled; `Round`, `RoundFrom` and `TurnOf` carry the same precondition. When the divisors are positive and the receivers are members, the rollover the manager builds, the product of the divisors, meets the rest of `ValidTroop` (`Monkeys.ProductRolloverValid`).
- Rope.Grid.ApplyDirection: on a negative step count the source's recursion never meets 0 and recurses until a stack or arithmetic overflow (`steps-1` at `i32::MIN`); such counts are excluded by a precondition rather than modelled as that failure.
- The chain of knots owning their successors (day 9) is modelled as an array of positions. The recursive walks down the chain are loops over indices.
- Day 5 stacks, the day 7 tree and day 11 monkeys are values that methods reassign, rather than data updated in place through references.
- Strings are sequences of characters. Code that works on bytes (`as_bytes`, `chunks(4)`, `b'0'`, and `len()`, which counts bytes, in the three-character test of `Strategy.RoundLines`) is read on characters, which agrees for the ASCII inputs the puzzles use.
- Rucksack.Priority: characters between `Z` and `` ` `` and below `A` make the unsigned subtraction panic. They are excluded by a precondition.
- Unused helpers (`Grid::head`, `Buffer::get_vec`, the unused `ASCII_z` constant) are not modelled.
- Rope: with a single knot, `Knot::apply_*` returns the head's own position and the grid records it (`Rope.SingleKnotRecordsHead`).
- GetVisibleTrees: requires a rectangular grid. `parse_puzzle_input_to_tree_grid` does not make rows equal in length, and the source answers some ragged grids without panicking (`[[1,2],[1,2,0]]` gives 4); on most it panics at an index (src/q8.rs:51, src/q8.rs:71). Ragged grids are not modelled.
- GetScenicScore: requires a rectangular grid, for the same reason; the source scores some ragged grids (`[[0,0,0],[0,5,1],[0,0]]` at row 1, column 1 gives 1).
- GetMostScenicTree: requires a rectangular grid, for the same reason.
- GetScenicScore and GetMostScenicTree use the corrected rightward scan of the src/q8.rs:121 Finding. The source as written scans only up to the number of rows: it undercounts on grids wider than tall and indexes past the row, and panics, on grids taller than wide.

## Findings

| source | as written | input that shows it | evidently intended | confidence | as-written member | corrected member |
|---|---|---|---|---|---|---|
| src/q1.rs:7-21 | the running sum left open after the last entry is never closed into `sums`, and the top-`n` loop adds to that same variable, so it is counted in the answer as well | entries `1`, blank, `5` with `n = 1` answer 6 | the largest `n` totals over all inventories, the last one included: 5 | not executed | Calories.MostCaloriesCountsOpenInventory | Calories.MostCaloriesOfAll |
| src/q5.rs:112-117 | the unit test's drawing has no indentation and its label row starts in column 0, so the last label chunk `3` has no index 1 and the parser panics | the literal of the test | a drawing whose labels sit at index 1 of their chunks, parsed into the expected stacks | not executed | Crates.ParseBoxesTestAsWritten | Crates.ParseBoxesExample |
| src/q7.rs:163-164 | the filter keeps only sizes strictly above the space needed, which leaves the `< n` test after it no case to catch | a root with a 60-unit file and a child holding 40 units, asked for 40, answers 100 | the smallest directory whose removal frees at least the space needed: 40 | not executed | FileSystem.FindSmallestMissesExactFit | FileSystem.FindSmallestAtLeastSpec |
| src/q8.rs:121 | the rightward scan is bounded by the number of rows, not the row length | rows `00000`, `05111`, `00000`: the tree of height 5 at row 1, column 1 sees 3 trees to its right, but the scan counts 1 | the scan runs to the end of the row | not executed | TreeGrid.RightScanMissesTrees | TreeGrid.CountRight |
