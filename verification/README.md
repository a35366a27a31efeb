# Advent of Code 2023, days 1–10, in Dafny

This project models the Rust solutions of Advent of Code 2023 found under
`rust/solutions/`. It covers days 1, 2, 3, 4, 5, 7, 8, 9 and 10, and proves
what each solution computes. Each core file is modelled in the form its code
takes:

- Iterator pipelines over strings become functions on `seq<char>`.
- Loops that update variables or vectors become methods with loop
  invariants. Each such method is proved equal to a function that specifies
  it.
- Properties of those functions are proved as lemmas.

The modules are:

| module | models |
|---|---|
| `Wrappers` | `Option` |
| `Text` | the string functions of the Rust standard library the solutions use: `find`, `split_once`, `split`, `replace`, `lines`, `parse::<u32>` |
| `Seqs` | small sequence facts shared by the other modules |
| `Trebuchet` | day 1: calibration values (`day-01/src/lib.rs`) |
| `CubeGame`, `CubeGameExamples` | day 2: possible games and their powers (`day-02/src/lib.rs`) |
| `Gears`, `GearsExamples` | day 3: part numbers next to symbols (`day-03/src/lib.rs`, lines 1–85) |
| `Scratchcards` | day 4: card scores and won copies (`day-04/src/lib.rs`) |
| `Almanac`, `AlmanacExamples` | day 5, the final solution: point maps and interval maps (`day-05/src/lib.rs`) |
| `AlmanacSingle` | day 5, the first draft: one spec per block (`day-05/src/temp.rs`) |
| `AlmanacTable` | day 5, the second draft: an explicit table per block (`day-05/src/temp2.rs`) |
| `CamelCards`, `CamelCardsExamples` | day 7: hand types, the card comparison and total winnings (`day-07/src/lib.rs`) |
| `Wasteland` | day 8: following L/R instructions from `AAA` to `ZZZ` (`day-08/src/lib.rs`) |
| `Mirage` | day 9: difference pyramids and extrapolation (`day-09/src/lib.rs`) |
| `PipeMaze` | day 10: walking the pipe loop from `S` (`day-10/src/lib.rs`) |

A panic in the Rust code (`unwrap`, `expect`, `panic!`) is modelled in one of
two ways:

- as a `requires`, when the caller or the input format guarantees it cannot
  happen;
- as an explicit outcome (`None`, `Aborts`, `Panicked`, `Broken`), when it
  depends on data the function itself examines.

## Model

| member | source | states |
|---|---|---|
| Text.IndexOf | rust/solutions/day-07/src/lib.rs:59-62 | `str::find` of a character: none exactly when the character is absent; otherwise the position of its first occurrence |
| Text.ParseNat | rust/solutions/day-02/src/lib.rs:17 | `parse::<u32>` succeeds exactly on a non-empty string of digits, optionally after a `+`, and yields the decimal value of the digits, with or without the `+` |
| Text.ParseShow | rust/solutions/day-02/src/lib.rs:31-34 | parsing the decimal form of any number gives the number back |
| Text.FindFrom | rust/solutions/day-02/src/lib.rs:7-9 | the first occurrence of a pattern at or after a position: none when there is none, otherwise an occurrence with none before it |
| Text.SplitOnce | rust/solutions/day-02/src/lib.rs:7-9 | `split_once`: none exactly when the pattern never occurs; otherwise the text is before + pattern + after, with no earlier occurrence in before |
| Text.Split | rust/solutions/day-02/src/lib.rs:11-12 | `split` yields at least one piece, and no piece holds the pattern |
| Text.Join | rust/solutions/day-02/src/lib.rs:11-12 | the inverse of `split`: see Text.JoinSplit and Text.SplitJoin |
| Text.Replace | rust/solutions/day-02/src/lib.rs:31-32 | `replace` leaves a text without the pattern unchanged, and replacing a pattern by itself changes nothing |
| Text.JoinSplit | rust/solutions/day-02/src/lib.rs:11-12 | joining the pieces of `split` with the same pattern gives the text back |
| Text.SplitJoin | rust/solutions/day-02/src/lib.rs:11-12 | splitting pieces joined by a pattern gives the pieces back, when no piece holds the pattern's first character |
| Text.ReplacePrefix | rust/solutions/day-02/src/lib.rs:31-32 | `replace("Game ", "")` on `Game ` followed by text with no `G` leaves exactly that text |
| Text.LinesTerminated | rust/solutions/day-01/src/lib.rs:2-3 | `lines()` reads back lines that are each ended by a line feed, each with one carriage return at its end removed, so exactly as written when no line ends in a carriage return |
| Text.LinesSeparated | rust/solutions/day-03/src/lib.rs:59 | `lines()` reads back lines separated by line feeds, when the last line is non-empty and has no line feed after it: every line but the last loses one carriage return at its end, the last keeps it, so the lines come back as written when no line but the last ends in a carriage return |
| Text.Lines | rust/solutions/day-01/src/lib.rs:2-3 | `lines()` yields no line exactly for the empty text, and no line holds a line feed |
| Text.LinesCRLF | rust/solutions/day-01/src/lib.rs:2-3 | lines each ended by a carriage return and a line feed are read back as written, without the carriage return |
| Text.LinesSingle | rust/solutions/day-03/src/lib.rs:55 | a non-empty text without line feeds is one line, a carriage return at its end included |
| Trebuchet.FirstDigit | rust/solutions/day-01/src/lib.rs:9-12 | `find` of a digit: none exactly when the line has no digit; otherwise the leftmost digit |
| Trebuchet.LastDigit | rust/solutions/day-01/src/lib.rs:14-17 | `rfind` of a digit: none exactly when the line has no digit; otherwise the rightmost digit |
| Trebuchet.Calibration | rust/solutions/day-01/src/lib.rs:19-21 | a line's value is ten times its first digit plus its last digit, so it is below 100 |
| Trebuchet.SingleDigit | rust/solutions/day-01/src/lib.rs:5-8 | a line holding a single digit d is worth 11·d: the same digit serves as first and last |
| Trebuchet.FirstNotAfterLast | rust/solutions/day-01/src/lib.rs:9-17 | the first digit never lies after the last one |
| Trebuchet.FirstDigitIs | rust/solutions/day-01/src/lib.rs:9-12 | any digit with no digit before it is the one `find` returns |
| Trebuchet.LastDigitIs | rust/solutions/day-01/src/lib.rs:14-17 | any digit with no digit after it is the one `rfind` returns |
| Trebuchet.SumAppend | rust/solutions/day-01/src/lib.rs:23 | the sum over two runs of lines is the sum of the two sums |
| Trebuchet.SumBound | rust/solutions/day-01/src/lib.rs:23 | the sum is at most 99 per line |
| Trebuchet.SumCalibrations | rust/solutions/day-01/src/lib.rs:4-23 | the calibration values of the lines added up: see Trebuchet.SumAppend and Trebuchet.SumBound |
| Trebuchet.Part1 | rust/solutions/day-01/src/lib.rs:1-25 | the answer is at most 99 per line of the input |
| Trebuchet.ExamplePart1 | rust/solutions/day-01/src/lib.rs:32-48 | the four example lines give 142 |
| CubeGame.AllFit | rust/solutions/day-02/src/lib.rs:11-26 | `all` with a check that may abort: all fit exactly when every item fits; otherwise the first item that does not fit decides the verdict |
| CubeGame.SumOver | rust/solutions/day-02/src/lib.rs:39 | the sum over the lines exists exactly when no line aborts |
| CubeGame.DrawRoundTrip | rust/solutions/day-02/src/lib.rs:13-24 | a written draw splits at its first space into count and colour, its check is the check on the data, and part 2 reads it back |
| CubeGame.CheckDraw | rust/solutions/day-02/src/lib.rs:13-24 | the check of one draw: see CubeGame.DrawRoundTrip and CubeGame.PossibleGameId |
| CubeGame.AllFitFlatten | rust/solutions/day-02/src/lib.rs:11-26 | the nested `all` over sets and draws is one `all` over every draw in order |
| CubeGame.SetRoundTrip | rust/solutions/day-02/src/lib.rs:12 | a written set splits back into its written draws, and checking it checks its draws |
| CubeGame.SetsRoundTrip | rust/solutions/day-02/src/lib.rs:11 | the written sets split back apart, and the draws read from them are the game's draws in order |
| CubeGame.HeadRoundTrip | rust/solutions/day-02/src/lib.rs:7-9 | a written game splits at `: ` into its label and its sets |
| CubeGame.GameIdOfRender | rust/solutions/day-02/src/lib.rs:6-37 | what a written game adds to part 1: none if the first draw that does not fit has an unknown colour, 0 if it exceeds its limit, the id if every draw fits |
| CubeGame.PossibleGameId | rust/solutions/day-02/src/lib.rs:19-37 | with the three known colours, a game adds its id exactly when no draw shows more cubes than the bag holds (12 red, 13 green, 14 blue), and 0 otherwise |
| CubeGame.GameId | rust/solutions/day-02/src/lib.rs:6-37 | what one line adds to part 1: see CubeGame.GameIdOfRender and CubeGame.PossibleGameId |
| CubeGame.Part1 | rust/solutions/day-02/src/lib.rs:3-41 | part 1 is defined (does not panic) exactly when no line of the input panics |
| CubeGame.RecordSpec | rust/solutions/day-02/src/lib.rs:61-62 | folding a draw into the grouping map raises its colour's maximum, adds a new colour, and keeps the other colours |
| CubeGame.MaximaSpec | rust/solutions/day-02/src/lib.rs:61-62 | the grouping map holds each colour seen exactly once, with the largest count seen for it, and no other colour |
| CubeGame.Maxima | rust/solutions/day-02/src/lib.rs:61-62 | the grouping map folded from the draws: see CubeGame.MaximaSpec |
| CubeGame.ParseTexts | rust/solutions/day-02/src/lib.rs:54-59 | the draws written out are parsed back as the same draws |
| CubeGame.PowerOfRender | rust/solutions/day-02/src/lib.rs:46-64 | a written game's power is the product of the largest count of each colour over all its draws |
| CubeGame.Power | rust/solutions/day-02/src/lib.rs:46-64 | the power of one line: see CubeGame.PowerOfRender |
| CubeGame.Part2 | rust/solutions/day-02/src/lib.rs:43-68 | part 2 is defined (does not panic) exactly when no line of the input panics |
| CubeGame.RenderOneLine | rust/solutions/day-02/src/lib.rs:5 | a written game holds no line feed |
| CubeGame.SumOverValues | rust/solutions/day-02/src/lib.rs:39 | lines whose values are all known add up to the sum of those values |
| CubeGame.RenderAllLines | rust/solutions/day-02/src/lib.rs:4-5 | games written one per line are read back line by line, whether each line ends in a line feed or in a carriage return and a line feed |
| CubeGame.PartOneOfGames | rust/solutions/day-02/src/lib.rs:3-41 | part 1 of any list of well-formed games is the sum of the ids of the possible games, with line feeds or carriage returns and line feeds ending the lines |
| CubeGame.PartTwoOfGames | rust/solutions/day-02/src/lib.rs:43-68 | part 2 of any list of well-formed games is the sum of their powers, with line feeds or carriage returns and line feeds ending the lines |
| CubeGameExamples.ExampleGame3 | rust/solutions/day-02/src/lib.rs:75 | game 3 of the example is impossible: it draws 20 red cubes |
| CubeGameExamples.ExamplePart1 | rust/solutions/day-02/src/lib.rs:71-88 | the example games give 8 |
| Gears.RunEnd | rust/solutions/day-03/src/lib.rs:29-31 | the digits collected from a position end at the first non-digit or at the end of the line |
| Gears.RunsAreDigits | rust/solutions/day-03/src/lib.rs:24-49 | every maximal run holds digits only and cannot be extended to the right |
| Gears.RunsSeparated | rust/solutions/day-03/src/lib.rs:24-49 | runs cannot be extended to the left, and each run ends before the next starts |
| Gears.RunsCover | rust/solutions/day-03/src/lib.rs:24-49 | every digit of the line lies in some run |
| Gears.LastRun | rust/solutions/day-03/src/lib.rs:32-37 | a run that reaches the last column is the last one recorded, with start and end one column to the left of where it sits |
| Gears.ClosedRun | rust/solutions/day-03/src/lib.rs:39-45 | a run closed by a non-digit is recorded where it sits |
| Gears.PossibleNumbers | rust/solutions/day-03/src/lib.rs:21-52 | the fold over the characters records exactly one number per maximal digit run, as `Scanned` describes |
| Gears.ScannedRuns | rust/solutions/day-03/src/lib.rs:21-52 | the scanner records one number per maximal digit run, in order |
| Gears.ScannedTexts | rust/solutions/day-03/src/lib.rs:77 | every recorded text is a non-empty string of digits, so `parse` succeeds on it and yields its decimal value |
| Gears.ScannedPositions | rust/solutions/day-03/src/lib.rs:32-45 | on a line that is not all digits, recorded numbers have non-negative starts, span as many columns as they have digits, and do not overlap |
| Gears.ScannedAgrees | rust/solutions/day-03/src/lib.rs:32-45 | a run closed by a non-digit is recorded where it sits; a run reaching the end of the line is recorded one column left of where it sits |
| Gears.Dots | rust/solutions/day-03/src/lib.rs:56 | the padding row has the length of the first line and holds only dots |
| Gears.DotsTouchNothing | rust/solutions/day-03/src/lib.rs:56-60 | no symbol is found in the padding row |
| Gears.IsSymbol | rust/solutions/day-03/src/lib.rs:8-12 | a symbol is neither an ASCII digit nor a dot: see Gears.TouchesNear |
| Gears.TouchesNear | rust/solutions/day-03/src/lib.rs:73 | the window test `max(1, start) - 1 <= i <= end + 1` finds a symbol exactly when one lies in a column next to or inside the run |
| Gears.FixedIsAdjacent | rust/solutions/day-03/src/lib.rs:67-74 | with numbers recorded where they sit, a number is a part number exactly when a symbol in the row above, its own row or the row below touches it |
| Gears.IsPart | rust/solutions/day-03/src/lib.rs:67-74 | the window test of one number: see Gears.TouchesNear and Gears.FixedIsAdjacent |
| Gears.ClosedIsAdjacent | rust/solutions/day-03/src/lib.rs:67-74 | the scanner as written gives the same answer for every run closed by a non-digit |
| Gears.NoSymbolNoSum | rust/solutions/day-03/src/lib.rs:65-81 | a window with no symbol contributes nothing |
| Gears.PartSum | rust/solutions/day-03/src/lib.rs:63-81 | the part numbers of one window added up: see Gears.NoSymbolNoSum |
| Gears.WindowSum | rust/solutions/day-03/src/lib.rs:58-83 | the sum over all windows of three rows: see Gears.Part1AgreesWhenClosed |
| Gears.Numbers | rust/solutions/day-03/src/lib.rs:63 | each scanner yields one parsable number per run |
| Gears.ClosedLineAgrees | rust/solutions/day-03/src/lib.rs:32-45 | on a line that does not end in a digit, the scanner as written and the corrected one record the same numbers |
| Gears.Part1AgreesWhenClosed | rust/solutions/day-03/src/lib.rs:54-85 | when no line ends in a digit, part 1 as written equals part 1 with the corrected scanner |
| Gears.Part1 | rust/solutions/day-03/src/lib.rs:54-85 | part 1 panics exactly when the input is empty (`next().unwrap()`) or some line is made only of digits (the `usize` underflow) |
| Gears.Part1Fixed | rust/solutions/day-03/src/lib.rs:54-85 | with the corrected scanner, part 1 panics exactly when the input is empty |
| GearsExamples.ShiftedNumbers | rust/solutions/day-03/src/lib.rs:32-37 | on `*.12` the scanner as written records `12` at columns 1–2 instead of 2–3 |
| GearsExamples.EndOfLineShift | rust/solutions/day-03/src/lib.rs:54-85 | the one-line input `*.12` gives 12 as written and 0 with the corrected scanner |
| GearsExamples.ExamplePart1 | rust/solutions/day-03/src/lib.rs:177-185 | the three-line example `........`, `.24..4.4`, `......*.` gives 8 with either scanner |
| Scratchcards.MatchesIn | rust/solutions/day-04/src/lib.rs:57 | a prefix of the held numbers has at most as many matches as numbers |
| Scratchcards.MatchCount | rust/solutions/day-04/src/lib.rs:57 | a card has at most as many matches as held numbers |
| Scratchcards.MatchCountPositions | rust/solutions/day-04/src/lib.rs:57 | the match count is the number of positions of `right` holding a winning number, so repeats count every time |
| Scratchcards.MatchSnoc | rust/solutions/day-04/src/lib.rs:57 | one more held number adds one exactly when it is a winning number |
| Scratchcards.Score | rust/solutions/day-04/src/lib.rs:58-61 | the score is 0 exactly when there is no match, and 2^(count − 1) otherwise |
| Scratchcards.ScoreDoubles | rust/solutions/day-04/src/lib.rs:58-61 | the first match is worth 1 and each further match doubles the score |
| Scratchcards.Part1 | rust/solutions/day-04/src/lib.rs:52-65 | the total score is 0 exactly when no card has a match |
| Scratchcards.SumZero | rust/solutions/day-04/src/lib.rs:63 | a sum of scores is 0 exactly when none of the cards summed has a match |
| Scratchcards.Copies | rust/solutions/day-04/src/lib.rs:73-84 | every card ends with at least its original instance |
| Scratchcards.SumCopiesAtLeast | rust/solutions/day-04/src/lib.rs:88-89 | the pile never holds fewer instances than there are cards |
| Scratchcards.Part2 | rust/solutions/day-04/src/lib.rs:67-91 | the fold over `acc` ends with the instance count of each card, one original plus a copy for each instance of an earlier card that wins it, and sums them |
| Scratchcards.ExamplePart1 | rust/solutions/day-04/src/lib.rs:94-111 | the example cards score 13 |
| Scratchcards.ExamplePart2 | rust/solutions/day-04/src/lib.rs:94-117 | the example ends with 30 cards |
| Almanac.FirstMatch | rust/solutions/day-05/src/lib.rs:64-74 | the first spec whose source range holds the value, with none before it |
| Almanac.MapValue | rust/solutions/day-05/src/lib.rs:63-77 | a block shifts a value by the offset of the first spec that holds it, and keeps a value no spec holds |
| Almanac.Lookup | rust/solutions/day-05/src/lib.rs:64-76 | the search loop with its early return computes the block's mapping |
| Almanac.Min | rust/solutions/day-05/src/lib.rs:80 | the least element is in the list and at most every element |
| Almanac.LeastLocation | rust/solutions/day-05/src/lib.rs:80 | `min().unwrap()` over the seeds' locations: one of the locations, and none is smaller |
| Almanac.Part1 | rust/solutions/day-05/src/lib.rs:58-81 | part 1 is the location of some seed, and no seed has a smaller location |
| Almanac.SeedRanges | rust/solutions/day-05/src/lib.rs:92-94 | each (start, count) pair becomes the interval (start, start + count − 1) |
| Almanac.SeedRangesCover | rust/solutions/day-05/src/lib.rs:92-94 | the intervals cover exactly the seeds that the pairs describe |
| Almanac.SplitRanges | rust/solutions/day-05/src/lib.rs:108-125 | the inner loop keeps the non-empty left and right pieces and sets aside the non-empty shifted overlaps |
| Almanac.ApplyMapsToRanges | rust/solutions/day-05/src/lib.rs:99-133 | the nested loops compute the overlaps moved by each spec in turn, followed by the pieces no spec matched |
| Almanac.PieceCover | rust/solutions/day-05/src/lib.rs:109-114 | the left and right pieces hold the interval's integers outside the spec's source range; the overlap holds the shifted integers inside it |
| Almanac.SplitAllCover | rust/solutions/day-05/src/lib.rs:108-125 | after one spec, the pieces that carry on are exactly the integers outside its range, and those set aside are exactly the integers inside it, shifted |
| Almanac.SplitAll | rust/solutions/day-05/src/lib.rs:108-125 | one spec applied to every interval: see Almanac.SplitAllCover and Almanac.SplitAppend |
| Almanac.ApplyCover | rust/solutions/day-05/src/lib.rs:99-133 | the interval version of a block computes the set image of part 1's point mapping: an integer is covered by the output exactly when it is the mapping of an integer covered by the input |
| Almanac.ApplyRanges | rust/solutions/day-05/src/lib.rs:99-133 | one block applied to the intervals: see Almanac.ApplyCover and Almanac.ApplyMapsToRanges |
| Almanac.PieceSize | rust/solutions/day-05/src/lib.rs:109-114 | with a non-negative length, the three pieces split the interval without loss or overlap |
| Almanac.ApplySize | rust/solutions/day-05/src/lib.rs:99-133 | when no spec has a negative length, the output counts as many integers as the input |
| Almanac.NegativeLengthOvercounts | rust/solutions/day-05/src/lib.rs:104-120 | a negative length makes the left and right pieces overlap: 0..9 comes out as (0, 4) and (3, 9) |
| Almanac.ApplyProper | rust/solutions/day-05/src/lib.rs:116-124 | once a spec has been applied, no empty interval remains |
| Almanac.FoldCover | rust/solutions/day-05/src/lib.rs:141-145 | folding the intervals through all blocks computes the image of the covered integers under part 1's fold |
| Almanac.FoldRanges | rust/solutions/day-05/src/lib.rs:141-145 | the intervals folded through the blocks: see Almanac.FoldCover |
| Almanac.FoldProper | rust/solutions/day-05/src/lib.rs:141-145 | after blocks with at least one spec each, every interval is non-empty |
| Almanac.Part2 | rust/solutions/day-05/src/lib.rs:147-151 | `min().unwrap()` fails exactly when no interval is left |
| Almanac.LeftEnds | rust/solutions/day-05/src/lib.rs:149 | the left end of each interval, in order |
| Almanac.Part2Least | rust/solutions/day-05/src/lib.rs:135-153 | part 2 is the least location of any seed in the seed ranges, and fails exactly when the ranges hold no seed |
| Almanac.SplitClear | rust/solutions/day-05/src/lib.rs:116-124 | an interval clear of the spec's range carries on unchanged |
| Almanac.SplitInside | rust/solutions/day-05/src/lib.rs:110-124 | an interval inside the spec's range moves whole by the offset |
| Almanac.SplitAppend | rust/solutions/day-05/src/lib.rs:108-125 | the inner loop treats each interval on its own |
| Almanac.FoldAppend | rust/solutions/day-05/src/lib.rs:141-145 | folding through two runs of blocks is folding through the first, then the second |
| Almanac.LocateSteps | rust/solutions/day-05/src/lib.rs:63-77 | a location computed one block at a time is the fold's location |
| Almanac.Locate | rust/solutions/day-05/src/lib.rs:63-77 | a seed folded through the blocks: see Almanac.LocateSteps and Almanac.MapValue |
| AlmanacExamples.ExamplePart1 | rust/solutions/day-05/src/lib.rs:156-201 | the example's seeds give 35 |
| AlmanacExamples.ExamplePart2 | rust/solutions/day-05/src/lib.rs:156-207 | the example's seed ranges give 46 |
| AlmanacExamples.ExampleTablePart1 | rust/solutions/day-05/src/temp2.rs:76-94 | the table draft gives 35 on the example blocks |
| AlmanacSingle.Step | rust/solutions/day-05/src/temp.rs:70-74 | a value changes only if it lies in the spec's source range; a spec whose length is not positive changes nothing |
| AlmanacSingle.StepIsPointMap | rust/solutions/day-05/src/temp.rs:60-75 | the draft's step is the first-match mapping of a one-spec block |
| AlmanacSingle.LocateAgrees | rust/solutions/day-05/src/temp.rs:59-76 | folding single specs is the final solution's fold over one-spec blocks |
| AlmanacSingle.Part1 | rust/solutions/day-05/src/temp.rs:54-79 | the draft's part 1 is the location of some seed, and no seed has a smaller location |
| AlmanacSingle.Part1Agrees | rust/solutions/day-05/src/temp.rs:54-79 | the draft's answer is the final solution's answer on one-spec blocks |
| AlmanacTable.Inserts | rust/solutions/day-05/src/temp2.rs:42-46 | one spec inserts exactly its source values, each mapped to the value shifted by its offset |
| AlmanacTable.BuildMap | rust/solutions/day-05/src/temp2.rs:30-50 | the nested loops build the table of all specs, inserted in order |
| AlmanacTable.LastMatch | rust/solutions/day-05/src/temp2.rs:35-47 | the last spec whose source range holds the value, with none after it |
| AlmanacTable.TableLastWins | rust/solutions/day-05/src/temp2.rs:35-47 | the table holds exactly the values some spec covers, each mapped by the last spec that covers it |
| AlmanacTable.EmptySpecInsertsNothing | rust/solutions/day-05/src/temp2.rs:43 | a spec whose length is not positive inserts nothing |
| AlmanacTable.Lookup | rust/solutions/day-05/src/temp2.rs:85-89 | a value with an entry is replaced by it; a value without one is kept |
| AlmanacTable.LookupAgrees | rust/solutions/day-05/src/temp2.rs:76-94 | with pairwise disjoint source ranges, the table lookup is the final solution's first-match mapping |
| AlmanacTable.OverlapLastWins | rust/solutions/day-05/src/temp2.rs:43-46 | where specs overlap, the table keeps the later spec while the final solution keeps the first: 0 goes to 20 here and to 10 there |
| AlmanacTable.Part1 | rust/solutions/day-05/src/temp2.rs:64-94 | the draft builds one table per block, and its part 1 is the location of some seed through those tables, with no seed at a smaller location |
| AlmanacTable.Tables | rust/solutions/day-05/src/temp2.rs:64-68 | one table per block, in order |
| AlmanacTable.Part1Agrees | rust/solutions/day-05/src/temp2.rs:64-94 | with pairwise disjoint blocks, the draft's answer on the same blocks is the final solution's answer |
| CamelCards.Rank | rust/solutions/day-07/src/lib.rs:11-20 | the derived order puts `Five` first (strongest) and `High` last |
| CamelCards.RankInjective | rust/solutions/day-07/src/lib.rs:11-20 | distinct types have distinct positions, so the derived order is total |
| CamelCards.Occurrences | rust/solutions/day-07/src/lib.rs:81 | the number of times a card occurs in the hand |
| CamelCards.Distinct | rust/solutions/day-07/src/lib.rs:25-26 | the group map's keys are the hand's cards, each once |
| CamelCards.Sizes | rust/solutions/day-07/src/lib.rs:27 | the group size of each key is the number of its cards in the hand |
| CamelCards.SortDesc | rust/solutions/day-07/src/lib.rs:28-29 | `sorted().rev()` is a descending permutation of the sizes |
| CamelCards.SortedDescUnique | rust/solutions/day-07/src/lib.rs:25-30 | a descending sequence is fixed by its values, so the order the group map yields its keys in does not matter |
| CamelCards.GroupsPermutation | rust/solutions/day-07/src/lib.rs:22-30 | the group sizes depend only on which cards the hand holds, not on their order |
| CamelCards.TypePermutation | rust/solutions/day-07/src/lib.rs:22-41 | permuting a hand never changes its type |
| CamelCards.GroupsPartition | rust/solutions/day-07/src/lib.rs:22-30 | the group sizes are positive, one per distinct card, descending, and add up to the number of cards |
| CamelCards.PartitionsOfFive | rust/solutions/day-07/src/lib.rs:32-40 | the seven patterns of the match are the only ways to split five cards into groups, so `_` is reached only by high cards |
| CamelCards.Classify | rust/solutions/day-07/src/lib.rs:32-40 | the `match` on the group sizes: see CamelCards.PartitionsOfFive and CamelCards.FiveCardTypes |
| CamelCards.TypeOf | rust/solutions/day-07/src/lib.rs:22-41 | a hand's type: see CamelCards.FiveCardTypes and CamelCards.TypePermutation |
| CamelCards.FiveCardTypes | rust/solutions/day-07/src/lib.rs:22-41 | a five-card hand's type is fixed by its largest group and its number of distinct cards, as the puzzle defines the types |
| CamelCards.WithoutJokers | rust/solutions/day-07/src/lib.rs:84 | the filtered hand keeps every card except `J`, as often as it occurs |
| CamelCards.AddJokers | rust/solutions/day-07/src/lib.rs:92-97 | the jokers join the largest group; with no other group there is one group of 5 |
| CamelCards.JokerHandType | rust/solutions/day-07/src/lib.rs:80-108 | the vector updated in place classifies as the joker type of the hand |
| CamelCards.PushJokers | rust/solutions/day-07/src/lib.rs:92-97 | the in-place update gives the groups with the jokers added |
| CamelCards.JokerCases | rust/solutions/day-07/src/lib.rs:92-97 | a hand without jokers keeps its plain type; a hand of jokers only is five of a kind |
| CamelCards.JokersOnly | rust/solutions/day-07/src/lib.rs:93-94 | a hand of jokers only is five of a kind, whatever its length |
| CamelCards.JokerTypePermutation | rust/solutions/day-07/src/lib.rs:80-108 | permuting a hand never changes its joker type |
| CamelCards.JokerTypeOf | rust/solutions/day-07/src/lib.rs:80-108 | a hand's type with jokers: see CamelCards.JokerCases, CamelCards.JokerHandType and CamelCards.JokerTypePermutation |
| CamelCards.CmpNat | rust/solutions/day-07/src/lib.rs:62 | `cmp` on positions: less, equal and greater exactly as the numbers compare |
| CamelCards.FirstDiff | rust/solutions/day-07/src/lib.rs:53-57 | the first position, within the shorter hand, where the hands differ, or none if they agree there |
| CamelCards.Compare | rust/solutions/day-07/src/lib.rs:43-66 | hands of different types compare by type; hands of one type compare by the positions in `order` of their first differing cards, the earlier position being the stronger; the result is never `Equal`; none stands for the panics |
| CamelCards.CompareSelf | rust/solutions/day-07/src/lib.rs:53-57 | comparing a hand with itself panics |
| CamelCards.CompareFlip | rust/solutions/day-07/src/lib.rs:43-66 | swapping the hands reverses the outcome, and the panics are symmetric |
| CamelCards.CompareTransitive | rust/solutions/day-07/src/lib.rs:43-66 | the comparison is transitive, so it orders the hands it can compare |
| CamelCards.InsertPlay | rust/solutions/day-07/src/lib.rs:70 | inserting adds exactly one play |
| CamelCards.SortPlays | rust/solutions/day-07/src/lib.rs:70 | the sort is a permutation of the plays |
| CamelCards.SortAscending | rust/solutions/day-07/src/lib.rs:70 | sorting plays that compare pairwise puts every play before the plays it beats |
| CamelCards.AscendingUnique | rust/solutions/day-07/src/lib.rs:70 | two orderings of the same plays, both strongest first, are the same list, so any correct sort gives the same order |
| CamelCards.Arrangement | rust/solutions/day-07/src/lib.rs:70 | plays can be arranged strongest first exactly when they compare pairwise, and the arrangement is the sort's |
| CamelCards.SumOfPermutation | rust/solutions/day-07/src/lib.rs:74 | a sum does not depend on the order of the list |
| CamelCards.WinningsReverse | rust/solutions/day-07/src/lib.rs:71-74 | `rev().enumerate()` weighs each bid by its distance from the end of the sorted list |
| CamelCards.ArrangementPayout | rust/solutions/day-07/src/lib.rs:70-74 | weighing any strongest-first arrangement gives the payout |
| CamelCards.WinningsArePayout | rust/solutions/day-07/src/lib.rs:68-76 | the total winnings are each bid times one plus the number of hands its hand beats, whatever order the plays come in |
| CamelCards.Winnings | rust/solutions/day-07/src/lib.rs:71-74 | each bid weighed by its place from the end: see CamelCards.WinningsReverse |
| CamelCards.TotalWinnings | rust/solutions/day-07/src/lib.rs:68-76 | the winnings of the sorted plays: see CamelCards.WinningsArePayout |
| CamelCards.Part1 | rust/solutions/day-07/src/lib.rs:68-76 | part 1 is each bid times one plus the number of hands its hand beats, for the plain types and card order |
| CamelCards.Part2 | rust/solutions/day-07/src/lib.rs:110-125 | part 2 is each bid times one plus the number of hands its hand beats, for the joker types and the card order with `J` last |
| CamelCardsExamples.PlainTypes | rust/solutions/day-07/src/lib.rs:22-41 | the example hands are a pair, three of a kind, two pairs, two pairs and three of a kind |
| CamelCardsExamples.JokerTypes | rust/solutions/day-07/src/lib.rs:80-108 | with jokers, the three hands holding one become four of a kind |
| CamelCardsExamples.ExamplePart1 | rust/solutions/day-07/src/lib.rs:128-144 | the example gives 6440 |
| CamelCardsExamples.ExamplePart2 | rust/solutions/day-07/src/lib.rs:128-150 | the example gives 5905 with jokers |
| Wasteland.Choose | rust/solutions/day-08/src/lib.rs:47-51 | `L` picks the first destination and `R` the second; any other instruction panics |
| Wasteland.Pos | rust/solutions/day-08/src/lib.rs:44 | `cycle()` reads the instructions cyclically, always within the list |
| Wasteland.Part1 | rust/solutions/day-08/src/lib.rs:35-61 | the loop computes the bounded walk: a panic on a missing `AAA`, a bad instruction or a missing tag, or the step count on reaching `ZZZ` |
| Wasteland.AtStaysNone | rust/solutions/day-08/src/lib.rs:47-57 | a walk that has failed stays failed |
| Wasteland.RunReaches | rust/solutions/day-08/src/lib.rs:44-58 | the loop from any reached node after i steps stops with n steps exactly when `ZZZ` is reached at step n, not at any step between i and n, and n is within the bound |
| Wasteland.WalkReaches | rust/solutions/day-08/src/lib.rs:35-61 | part 1 is n exactly when `ZZZ` is first reached with step n, within the bound |
| Wasteland.Run | rust/solutions/day-08/src/lib.rs:44-58 | the loop from one node: see Wasteland.RunReaches |
| Wasteland.Walk | rust/solutions/day-08/src/lib.rs:35-61 | the bounded walk from `AAA`: see Wasteland.WalkReaches and Wasteland.Part1 |
| Wasteland.WalkAtLeastOne | rust/solutions/day-08/src/lib.rs:45 | the step that reaches `ZZZ` is counted, so a completed walk takes at least one step |
| Wasteland.WalkFuelMonotone | rust/solutions/day-08/src/lib.rs:44-58 | a larger step bound does not change a completed walk |
| Wasteland.ExampleWalk | rust/solutions/day-08/src/lib.rs:68-84 | following `LLR` in the example network takes 6 steps |
| Mirage.Diff | rust/solutions/day-09/src/lib.rs:11-14 | the difference row is one shorter, and each entry is the difference of neighbouring values |
| Mirage.Pyramid | rust/solutions/day-09/src/lib.rs:7-24 | the pyramid starts with the history itself |
| Mirage.PyramidShape | rust/solutions/day-09/src/lib.rs:7-24 | each row is the difference row of the one above; the rows below the history are non-empty and not all zero; the bottom row's differences are all zero |
| Mirage.PyramidTail | rust/solutions/day-09/src/lib.rs:16-20 | below a row whose differences are not all zero comes the pyramid of those differences |
| Mirage.DiffRow | rust/solutions/day-09/src/lib.rs:11-14 | the inner loop builds the difference row |
| Mirage.HistoryPyramid | rust/solutions/day-09/src/lib.rs:7-24 | the outer loop builds the pyramid |
| Mirage.PyramidStops | rust/solutions/day-09/src/lib.rs:16-17 | a row whose differences are all zero is a pyramid on its own |
| Mirage.NextExtendsPyramid | rust/solutions/day-09/src/lib.rs:3-5 | appending the extrapolated next value extends every row of the pyramid by its own next value, and adds no row |
| Mirage.PrevExtendsPyramid | rust/solutions/day-09/src/lib.rs:37-44 | prepending the extrapolated previous value extends every row by its own previous value, and adds no row |
| Mirage.PyramidRowsNonEmpty | rust/solutions/day-09/src/lib.rs:4 | no row of the pyramid of a non-empty history is empty, so `last().unwrap()` succeeds |
| Mirage.NextValueIsNext | rust/solutions/day-09/src/lib.rs:3-5 | the sum of the last values of the pyramid is the extrapolated next value |
| Mirage.NextValue | rust/solutions/day-09/src/lib.rs:3-5 | the last values of the rows added up: see Mirage.NextValueIsNext |
| Mirage.Firsts | rust/solutions/day-09/src/lib.rs:40 | the first value of every row |
| Mirage.ReduceIsAlternating | rust/solutions/day-09/src/lib.rs:41-42 | reducing the reversed first values with `next - acc` gives f0 − (f1 − (… − fk)) |
| Mirage.PrevValueIsPrev | rust/solutions/day-09/src/lib.rs:37-44 | the reduction over the pyramid is the extrapolated previous value |
| Mirage.AlternatingIsPrev | rust/solutions/day-09/src/lib.rs:37-44 | the alternating sum of the first values is the extrapolated previous value |
| Mirage.PrevValue | rust/solutions/day-09/src/lib.rs:37-44 | the reduction over the first values: see Mirage.PrevValueIsPrev |
| Mirage.Part1Cons | rust/solutions/day-09/src/lib.rs:26-35 | part 1 adds the next value of each history's pyramid |
| Mirage.Part2Cons | rust/solutions/day-09/src/lib.rs:46-55 | part 2 adds the previous value of each history's pyramid |
| Mirage.Part1 | rust/solutions/day-09/src/lib.rs:26-35 | part 1 is the sum of the extrapolated next values of the histories, as the puzzle defines them |
| Mirage.Part2 | rust/solutions/day-09/src/lib.rs:46-55 | part 2 is the sum of the extrapolated previous values of the histories, as the puzzle defines them |
| Mirage.ExampleParts | rust/solutions/day-09/src/lib.rs:58-78 | the example histories give 114 forwards and 2 backwards |
| Mirage.ExampleAnswers | rust/solutions/day-09/src/lib.rs:58-78 | the example gives 114 and 2 |
| PipeMaze.Neighbour | rust/solutions/day-10/src/lib.rs:19-41 | one step in a direction; none where `usize` would underflow (up from row 0, left from column 0) |
| PipeMaze.Turn | rust/solutions/day-10/src/lib.rs:68-93 | a bend is entered only through one of its sides and left through the other; straight pipes (`-` and the vertical bar) pass every direction on; `S` ends the walk; anything else breaks it |
| PipeMaze.ClosedIffEntersStart | rust/solutions/day-10/src/lib.rs:43-96 | the walk returns n moves exactly when the walker keeps moving for the first n − 1 moves and enters `S` with the n-th |
| PipeMaze.PathLength | rust/solutions/day-10/src/lib.rs:43-96 | the recursive walk: see PipeMaze.ClosedIffEntersStart and PipeMaze.WalkEnds |
| PipeMaze.UnfinishedKeepsMoving | rust/solutions/day-10/src/lib.rs:43-96 | a walk that uses up its bound was moving after every move |
| PipeMaze.TrailBackwards | rust/solutions/day-10/src/lib.rs:68-93 | one move is reversible: the state before a moving state is fixed by it |
| PipeMaze.MovingInGrid | rust/solutions/day-10/src/lib.rs:67 | while moving, the walker stands on a cell of the grid |
| PipeMaze.TrailDistinct | rust/solutions/day-10/src/lib.rs:43-96 | started on `S`, the walker never revisits a state while it keeps moving |
| PipeMaze.WalkEnds | rust/solutions/day-10/src/lib.rs:43-96 | a walk from `S` ends, by re-entering `S` or breaking off, within four moves per grid cell, so the recursion terminates |
| PipeMaze.FuelMonotone | rust/solutions/day-10/src/lib.rs:43-96 | a larger bound never changes a walk that has ended |
| PipeMaze.GridOf | rust/solutions/day-10/src/lib.rs:99-107 | the grid maps (line, column) to the character there, and holds no other key |
| PipeMaze.FirstStartFrom | rust/solutions/day-10/src/lib.rs:105 | the first `S` at or after a line, in row-major order |
| PipeMaze.FirstStart | rust/solutions/day-10/src/lib.rs:105 | the start is the first `S` in row-major order; there is none exactly when the grid has no `S` |
| PipeMaze.Farthest | rust/solutions/day-10/src/lib.rs:109-121 | the candidate loop gives half the length of the first walk that closes, trying up, down, left and right in that order, or 0 when none closes |
| PipeMaze.Part1 | rust/solutions/day-10/src/lib.rs:98-124 | part 1 reads the grid from the lines of the input, walks from the first `S` and reports half the length of the first loop found, or 0 |
| PipeMaze.ExampleStart | rust/solutions/day-10/src/lib.rs:105 | the first `S` of the example grid is at (2, 0) |
| PipeMaze.ExampleWalk | rust/solutions/day-10/src/lib.rs:109-121 | on the example grid, from (2, 0), going up breaks off and going down closes after 16 moves |
| PipeMaze.ExamplePart1 | rust/solutions/day-10/src/lib.rs:131-147 | part 1 on the example starts at (2, 0), the first `S`, and gives 8 |
| PipeMaze.TurnChecked | rust/solutions/day-10/src/lib.rs:68-93 | the table with straight pipes checked: every tile but `S` is entered only through one of its sides and left through the other |
| PipeMaze.TurnCheckedAgrees | rust/solutions/day-10/src/lib.rs:89-90 | the two tables differ exactly on a straight pipe entered across its orientation |
| PipeMaze.CrossingMisread | rust/solutions/day-10/src/lib.rs:89-90 | on the three-row grid `Crossing` (`S` top left, `-` below it) the walk down crosses the `-` below `S` vertically and closes, so part 1 gives 4; the checked table breaks off at that move |
| PipeMaze.FarthestChecked | rust/solutions/day-10/src/lib.rs:109-121 | the candidate loop over the checked table: 0 when no remaining candidate closes |
| PipeMaze.CrossingWalksBreak | rust/solutions/day-10/src/lib.rs:43-96 | on any grid laid out like `Crossing` around `S`, all four walks over the checked table break off within seven moves |
| PipeMaze.CrossingChecked | rust/solutions/day-10/src/lib.rs:98-124 | on `Crossing` all four walks over the checked table break off, so the corrected part 1 gives 0 |

## Left out

- Input parsing for days 4, 5 and 8 (`nom`), day 7 (`split_once` and `parse`) and day 9 is not modelled. Day 9 reads each line with `split_ascii_whitespace` and `parse::<i64>().unwrap()`, which panics on a word that is not a number; an empty line gives an empty history, on which `last().unwrap()` panics, and Mirage.Part1 and Mirage.Part2 exclude it by their requires. These days are modelled on the parsed values: cards, seeds and blocks, plays, instructions and network, histories. Days 1, 2, 3 and 10 read their input line by line with `lines()`, and that reading is modelled (PipeMaze.Part1 takes the input text).
- Day 6 is not part of this model: it is not among the solutions modelled, and it works in floating point.
- The `process_part2` placeholders of days 1, 3, 8 and 10 and of the two day 5 drafts return constant strings and are not modelled. The same goes for the `dbg!` output of the day 5 drafts and the `to_string` of every answer.
- Lines 86–147 of `day-03/src/lib.rs` repeat part 1's body after its closing brace and are not modelled.
- Integer widths are not modelled: `u32`, `usize`, `i64` and `i128` are unbounded integers here, so overflow in the sums, in `2u32.pow` (day 4) and in the position arithmetic is left out.
- Gears.Part1: a line made only of digits makes `i - acc.len()` underflow in `usize`. A debug build panics on it and a release build wraps. The model returns none for such input in both cases.
- Text: strings are sequences of characters, and `line.len()` (a byte count) is taken to be the number of characters, as it is for ASCII input.
- Text.Lines follows `str::lines` as it strips line endings: a line feed, or a carriage return followed by a line feed. A carriage return at the very end of the text, with no line feed after it, stays in the last line.
- CubeGame.RenderAllLines, CubeGame.PartOneOfGames and CubeGame.PartTwoOfGames cover games whose colour names hold none of `,`, `;`, a line feed or a carriage return (CubeGame.WellFormed), because such names cannot be written back unambiguously. Part 1 and part 2 themselves are defined on every input.
- `HashMap`, `BTreeMap` and `into_group_map_by` are modelled as maps or as lists of distinct keys. Their iteration order is left open, and the results are proved not to depend on it (CamelCards.SortedDescUnique, CubeGame.MaximaSpec).
- Wasteland.Part1 and PipeMaze.PathLength take a step bound. An unbounded `cycle()` loop or recursion is not expressible directly. PipeMaze.WalkEnds shows that four moves per cell always suffice. For day 8 the bound is a parameter: a walk that never reaches `ZZZ` loops forever in Rust and is `OutOfFuel` here.
- The `sorted_by` implementation of day 7 (a stable merge sort) is not modelled. The model proves that any ordering of the plays, strongest first, is the same list, so the total does not depend on how the sort proceeds (CamelCards.AscendingUnique, CamelCards.WinningsArePayout).
- CubeGame: the part 2 answer of the day 2 example (2286) is not worked out, because computing the grouping maxima on literal games is too costly for the verifier. Part 1's example (8) is worked.
- Gears: the ten-line example of day 3 (4361) is not worked out, because it is too costly for the verifier. The three-line example (8) is worked.
- AlmanacSingle: the draft `temp.rs` reads one spec per block. Its test input has several specs per block and is not modelled, because the parser is left out.
- Almanac: the `clone` calls and vector moves in `apply_maps_to_ranges` carry no behaviour and are not modelled.

## Findings

| source | as written | input that shows it | evidently intended | confidence | as-written member | corrected member |
|---|---|---|---|---|---|---|
| rust/solutions/day-03/src/lib.rs:32-37 | a digit run that reaches the last column is recorded with start `i - len` and end `i - 1`, one column left of where it sits | the one-line input `*.12`: `12` sits in columns 2–3 but is recorded at 1–2, so the `*` in column 0 counts as adjacent and part 1 gives 12 | start `i + 1 - len` and end `i`, as for a run closed by a non-digit; `*.12` gives 0 | high; not executed | GearsExamples.EndOfLineShift | Gears.FixedIsAdjacent |
| rust/solutions/day-10/src/lib.rs:89-90 | `-` and the vertical bar pass on any direction of travel, so the walker can cross a straight pipe sideways | the three-row grid `Crossing` (`S-7`, then `-.` and a vertical bar, then `L-J`): going down from `S` crosses the `-` below it and closes a loop of 8 moves, so part 1 gives 4 | `-` passes only left and right travel and the vertical bar only up and down; the walk down breaks off at once, and no loop through `S` is found | medium; not executed | PipeMaze.CrossingMisread | PipeMaze.CrossingChecked |
