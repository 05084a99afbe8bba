# Advent of Code 2023, days 3, 5 and 6, in Dafny

A model of three puzzle solutions from the 2023 C# solutions, with their
contracts proved:

- **Day 5, the seed almanac** (`almanac.dfy`, module `Almanac`). A `Range` is a
  rule that moves the half-open interval `[inputStart, inputStart + span)` so
  that it starts at `outputStart`; asking it to translate a value it does not
  cover is an `ArgumentOutOfRange` error. A `Map` is one stage of the almanac.
  It is a class holding its rules in insertion order (`ranges`, appended to by
  `AddRange`) and an optional `next` stage. `GetResult` translates a value with
  the first rule that covers it, or passes it through unchanged, and hands the
  outcome to `next`. Its contract says that a chain of stages computes the
  composition of the single-stage functions, in chain order (`Chain`). The
  per-seed-range scan of the second part keeps a running minimum that starts
  at `long.MaxValue`. The minimum over all seed ranges is taken at the end.
- **Day 3, the engine schematic** (`schematic.dfy`, module `Schematic`).
  `IsPartNumber` collects the characters around a number, in three rows, and
  asks whether one of them is in the symbol set. Its result is specified
  declaratively by `PartNumberResult`. The set of inspected cells is stated
  over row and column. Every exception the collection can raise is included:
  a single-character read outside a row is `IndexOutOfRange`, and a row slice
  that does not fit is `ArgumentOutOfRange`. The line scan (`SumPartNumbers`)
  is specified by `ScanFrom`, the list of candidates it evaluates, and by
  `SumLines`, the sum of those that are part numbers.
- **Day 6, the boat race** (`boat_race.dfy`, module `BoatRace`).
  `GetPossibilities` searches for the first winning hold time `i0` and returns
  `time - 2 * i0 + 1`. For a non-negative record, this is proved to equal the
  number of winning hold times. The answer is the product of the
  possibilities of all races; it is 781200 for the four races of the puzzle.

`outcomes.dfy` (module `Outcomes`) holds the `Result` and `Option` types that
stand for the exceptions of the original code.

The Day 3 code is modelled as written, including these quirks:
- '@' is not in the symbol set.
- Only a '.' or the last column ends a candidate. A run broken by another
  symbol joins the next run (`BrokenRunExample`).
- The start index passed on is `j - candidate.Length`. A run that ends in the
  last column is therefore passed a start index one column too far to the
  left (`RunAtEndExample`). A line made only of digits gets index -1
  (`AllDigitsExample`). Its right border column is the last one, and it is
  read in the non-blank rows above and below before any slice is taken. If
  either of those rows is shorter than the line, the scan fails with
  `IndexOutOfRange` (`AllDigitsUnderShortRowFails` for the row above,
  `AllDigitsOverShortRowFails` for the row below). Otherwise, if a
  neighbouring row is non-blank, the slice starting at -1 makes it fail with
  `ArgumentOutOfRange` (`AllDigitsUnderRowFails`).

## Model

| member | source | states |
|---|---|---|
| `Almanac.Range.GetOutput` | 2023/src/Day5.cs:78-86 | an error (ArgumentOutOfRange) exactly when the rule does not cover the input; otherwise the output lies in [outputStart, outputStart + span) at the same offset from outputStart as the input from inputStart |
| `Almanac.Range.HasInput` | 2023/src/Day5.cs:76 | a rule covers a value exactly when it lies in the half-open interval [inputStart, inputStart + span); the bounds are pinned down by RangeBoundaries |
| `Almanac.RangeBoundaries` | 2023/src/Day5.cs:76 | a rule covers its inputStart but not inputStart + span nor inputStart - 1; inputStart goes to outputStart; translating inputStart + span is an error |
| `Almanac.GetOutputIsCorrectFirst` | 2023/src/Day5.cs:9-17 | the unit case Range(0, 0, 1) translates 0 to 0 |
| `Almanac.GetOutputIsCorrectSecond` | 2023/src/Day5.cs:10-17 | the unit case Range(0, 0, 2) translates 1 to 1 |
| `Almanac.FirstOrDefault` | 2023/src/Day5.cs:97 | a rule found is one of the stage's rules and covers the input |
| `Almanac.FirstOrDefaultIsFirstMatch` | 2023/src/Day5.cs:97 | the rule found is the first covering rule in insertion order; nothing is found when no rule covers the input |
| `Almanac.StageOutput` | 2023/src/Day5.cs:97-98 | one stage: the value translated by the rule FirstOrDefault finds, or the value itself when no rule is found |
| `Almanac.StageOutputIsFirstMatch` | 2023/src/Day5.cs:97-98 | with no covering rule the value passes through unchanged; otherwise it is translated by the first covering rule in insertion order, even when later rules overlap |
| `Almanac.Chain` | 2023/src/Day5.cs:100 | a list of stages applied in order, each to the output of the one before; a stage without a next stage returns its own output, so the empty list is the identity |
| `Almanac.ChainAppend` | 2023/src/Day5.cs:100 | running a chain split in two is running the front part and then the back part (chain resolution is composition) |
| `Almanac.Map.constructor` | 2023/src/Day5.cs:89-91 | a new stage has no rules and the given next stage; its stages are an empty rule list followed by those of next |
| `Almanac.Map.AddRange` | 2023/src/Day5.cs:93 | the rule is appended after the existing ones, in order; next and the later stages are unchanged |
| `Almanac.Map.GetResult` | 2023/src/Day5.cs:95-101 | the result is the composition, in chain order, of the single-stage functions of this stage and all stages after it |
| `Almanac.BuildExampleChain` | 2023/src/Day5.cs:104-117 | a chain built last stage first with AddRange has the expected stages and resolves 3 to 1003 through both stages, 7 to 107 and 10 to 10 |
| `Almanac.LowestInSeedRange` | 2023/src/Day5.cs:57-66 | the result is at most long.MaxValue and at most every location in [start, start + span); it is long.MaxValue or the location of some seed in that range; it is long.MaxValue for an empty range |
| `Almanac.MinOf` | 2023/src/Day5.cs:71 | the minimum of an empty collection is an error (InvalidOperation); otherwise it is an element and at most every element |
| `Almanac.LowestOverSeedRanges` | 2023/src/Day5.cs:53-71 | fails exactly when there are no seed ranges, with ArgumentOutOfRange (a degree of parallelism of 0 is refused before Min is reached); otherwise the result is at most every location of every seed range, and it is long.MaxValue or the location of some seed |
| `Almanac.MinKeepsBounds` | 2023/src/Day5.cs:68-71 | the minimum of the per-range minima is at most long.MaxValue, bounds the locations of every range and is long.MaxValue or attained in one of them |
| `BoatRace.SearchFrom` | 2023/src/Day6.cs:20-30 | searching from hold time i returns 0 when no hold time in [i, time) wins, and time - 2 * i0 + 1 for the first winning i0 at or after i |
| `BoatRace.Wins` | 2023/src/Day6.cs:22-24 | holding for `hold` of a race of `time` beats the record: the distance (time - hold) * hold exceeds it |
| `BoatRace.Possibilities` | 2023/src/Day6.cs:18-31 | 0 when no hold time in [0, time) wins; otherwise time - 2 * i0 + 1 for the first winning i0 |
| `BoatRace.GetPossibilities` | 2023/src/Day6.cs:18-31 | the loop with its early return computes Possibilities |
| `BoatRace.WinsSymmetric` | 2023/src/Day6.cs:22-24 | hold time h wins exactly when time - h wins |
| `BoatRace.WinningInterval` | 2023/src/Day6.cs:20-27 | for a non-negative record and first win i0: 1 <= i0 <= time - i0, and the winning hold times are exactly [i0, time - i0] |
| `BoatRace.PossibilitiesCountsWins` | 2023/src/Day6.cs:18-31 | for a non-negative record, the value returned is the number of winning hold times in [0, time) |
| `BoatRace.FirstWinAtCrossing` | 2023/src/Day6.cs:20-27 | on the rising half, the hold time where the distance first beats the record is the first win, which fixes the value returned |
| `BoatRace.PuzzlePossibilities` | 2023/src/Day6.cs:11-33 | the four races (63, 411), (78, 1274), (94, 2047), (68, 1035) have 48, 31, 25 and 21 possibilities |
| `BoatRace.Aggregate` | 2023/src/Day6.cs:33 | the left fold that multiplies the accumulator by the possibilities of each race, in race order |
| `BoatRace.Product` | 2023/src/Day6.cs:33 | the fold started from 1, the answer of the puzzle |
| `BoatRace.AggregateIsZero` | 2023/src/Day6.cs:33 | the product fold is 0 exactly when its start value is 0 or some race has 0 possibilities |
| `BoatRace.ProductIsZero` | 2023/src/Day6.cs:33 | the answer is 0 exactly when some race has 0 possibilities |
| `BoatRace.PuzzleAnswer` | 2023/src/Day6.cs:11-35 | the races (63, 411), (78, 1274), (94, 2047), (68, 1035) give 781200 |
| `Schematic.IsSymbol` | 2023/src/Day3.cs:60 | a symbol is never '.', '@' or a digit |
| `Schematic.IsDigit` | 2023/src/Day3.cs:110 | a digit is one of '0' to '9' |
| `Schematic.IsWhiteSpace` | 2023/src/Day3.cs:66-67 | the characters char.IsWhiteSpace accepts: space, tab to carriage return, and the Unicode separators |
| `Schematic.IsNullOrWhiteSpace` | 2023/src/Day3.cs:66-67 | a row is blank when every character of it is white space (the empty row included) |
| `Schematic.Rows.Present` | 2023/src/Day3.cs:66-67 | the current row is always read; the rows above and below only when they are not blank (hasPrevious, hasNext) |
| `Schematic.Rows.Inspected` | 2023/src/Day3.cs:64-88 | the cells looked at: the left border column when the index is positive and the right one when it is inside the current row, in every present row, and the number's own columns in the present rows above and below |
| `Schematic.PartNumberResult` | 2023/src/Day3.cs:62-91 | what IsPartNumber answers, over cells: IndexOutOfRange when an inspected border cell lies outside its row, else ArgumentOutOfRange when a slice of the row above or below does not fit, else whether an inspected cell holds a symbol |
| `Schematic.BorderCellsAreInspected` | 2023/src/Day3.cs:64-84 | the border cells read are exactly the inspected cells in the border columns: left only when the index is positive, right only when inside the current row, each in the present rows |
| `Schematic.CollectedCellsAreInspected` | 2023/src/Day3.cs:64-88 | the cells collected are exactly the inspected cells; the number's own columns are read in the rows above and below but not in the current row, and a blank row contributes nothing |
| `Schematic.ReadColumn` | 2023/src/Day3.cs:71-84 | reads one border column in the present rows, in order; IndexOutOfRange exactly when a present row is too short |
| `Schematic.ReadBorder` | 2023/src/Day3.cs:64-84 | IndexOutOfRange exactly when some inspected border cell lies outside its row; otherwise the characters of the border cells, in reading order |
| `Schematic.AnySymbol` | 2023/src/Day3.cs:90 | true exactly when some collected character is a symbol |
| `Schematic.IsPartNumber` | 2023/src/Day3.cs:62-91 | IndexOutOfRange when an inspected border cell lies outside its row; else ArgumentOutOfRange when a slice of the row above or below does not fit; else true exactly when an inspected cell holds a symbol |
| `Schematic.NoSymbolIsNotPartNumber` | 2023/src/Day3.cs:13-18 | ".123." with only dots around is not a part number |
| `Schematic.DollarAroundIsPartNumber` | 2023/src/Day3.cs:20-58 | a '$' in any inspected cell around "123" in ".123." between rows of dots makes it a part number |
| `Schematic.LeftBoundaryIsPartNumber` | 2023/src/Day3.cs:20-27 | a '$' in column 0 of the previous, current or next row makes ".123." a part number |
| `Schematic.RightBoundaryIsPartNumber` | 2023/src/Day3.cs:29-36 | a '$' in column 4 of the next, current or previous row makes ".123." a part number |
| `Schematic.PreviousRowIsPartNumber` | 2023/src/Day3.cs:38-47 | a '$' in any of the five columns of the previous row makes ".123." a part number |
| `Schematic.NextRowIsPartNumber` | 2023/src/Day3.cs:49-58 | a '$' in any of the five columns of the next row makes ".123." a part number |
| `Schematic.ScanFrom` | 2023/src/Day3.cs:106-129 | the candidates the inner loop evaluates from column j on, given the candidate read so far: a digit is appended; at a '.' or the last column a non-empty candidate is evaluated at index j - its length and reset |
| `Schematic.Evaluations` | 2023/src/Day3.cs:106-129 | the candidates evaluated on a whole line, from column 0 with an empty candidate |
| `Schematic.EvaluationsCoverDigits` | 2023/src/Day3.cs:106-129 | the evaluated candidates, concatenated, are exactly the digits of the line in order: no digit is lost or read twice |
| `Schematic.EvaluationShape` | 2023/src/Day3.cs:110-123 | each evaluated candidate is a non-empty run of digits, and its index plus its length is the column of a '.' or the last column |
| `Schematic.Pending` | 2023/src/Day3.cs:110-113 | the digits read since the last '.' before a column, up to and including that column, worked out from the line alone |
| `Schematic.EvaluatedAt` | 2023/src/Day3.cs:115-116 | a column evaluates a candidate when it is a '.' or the last column and digits are pending there |
| `Schematic.Expected` | 2023/src/Day3.cs:106-129 | the evaluations each column makes, judged column by column, in column order |
| `Schematic.ScanMatchesExpected` | 2023/src/Day3.cs:106-129 | the scan, reaching a column with the digits read since the last '.', makes exactly the column-by-column evaluations from there on |
| `Schematic.EvaluationsAreExpected` | 2023/src/Day3.cs:106-129 | the scan of a line makes exactly the column-by-column evaluations, in column order: a '.' or the last column with pending digits evaluates them, and no other column evaluates anything |
| `Schematic.EvaluatedIffPending` | 2023/src/Day3.cs:115-126 | a candidate is evaluated if and only if some '.' or last column has pending digits, the candidate is those digits, and its start index is that column minus their number |
| `Schematic.BrokenRunExample` | 2023/src/Day3.cs:110-116 | in "12*34." the runs join into one candidate "1234" at index 1 |
| `Schematic.DotSplitsRunsExample` | 2023/src/Day3.cs:115-128 | in "1.2." each '.' evaluates the digit before it: the candidates are "1" at index 0 and "2" at index 2 |
| `Schematic.RunAtEndExample` | 2023/src/Day3.cs:116-123 | in ".12" the candidate "12" is passed index 0 |
| `Schematic.AllDigitsExample` | 2023/src/Day3.cs:116-123 | in "42" the candidate "42" is passed index -1 |
| `Schematic.AllDigitsUnderRowFails` | 2023/src/Day3.cs:87 | the lines "..", "42" make the scan fail with ArgumentOutOfRange |
| `Schematic.AllDigitsUnderShortRowFails` | 2023/src/Day3.cs:81 | the lines ".", "42" make the scan fail with IndexOutOfRange at the right border cell of the row above |
| `Schematic.AllDigitsOverShortRowFails` | 2023/src/Day3.cs:83 | the lines "..", "42", "." make the scan fail with IndexOutOfRange at the right border cell of the row below, before the slice of the row above is taken |
| `Schematic.DecimalValue` | 2023/src/Day3.cs:125 | the value of a run of decimal digits, most significant digit first, as Int32.Parse reads it |
| `Schematic.Above` | 2023/src/Day3.cs:119 | the row above line i: the previous line, or the empty string for the first line |
| `Schematic.Below` | 2023/src/Day3.cs:121 | the row below line i: the next line, or the empty string for the last line |
| `Schematic.SumEvaluations` | 2023/src/Day3.cs:118-128 | the running sum over a line's evaluated candidates, in order: each adds its value when it is a part number, and the first exception ends the sum |
| `Schematic.SumLines` | 2023/src/Day3.cs:99-133 | the running sum over the lines from line i, each line's candidates evaluated with the row above and below it; the first exception ends the sum |
| `Schematic.Evaluate` | 2023/src/Day3.cs:118-126 | evaluating a candidate gives IsPartNumber's exception, or the running sum plus the candidate's value exactly when it is a part number; the sum never decreases |
| `Schematic.ScanColumn` | 2023/src/Day3.cs:108-129 | one column of the scan leaves the rest of the line's sum unchanged: the candidate it carries on and the total it reaches lead to the same sum, or it raises the exception the sum would end with |
| `Schematic.SumEvaluationsGrows` | 2023/src/Day3.cs:125 | the sum never decreases while a line is scanned |
| `Schematic.SumLinesGrows` | 2023/src/Day3.cs:99-133 | the sum never decreases over the lines |
| `Schematic.SumLine` | 2023/src/Day3.cs:103-130 | the inner loop computes the sum over the candidates ScanFrom evaluates on line i, with the empty row above the first line and below the last |
| `Schematic.SumPartNumbers` | 2023/src/Day3.cs:93-134 | the result is SumLines over all lines, and it is non-negative |

## Left out

- Concurrency. `Parallel.ForEach` and `ConcurrentBag` in the second Day 5 part are modelled as a sequential loop over the seed ranges. The per-range minima are kept in a sequence, so the order in which workers finish is not modelled.
- The rule tables of `GenerateMap` and the seed lists of Day 5. Resolving billions of seeds is out of reach of the verifier, so the chain is a parameter. The expected answers of the Day 5 tests are not proved.
- The first Day 5 part (`Main`, a `Select` and `Min` over single seeds) is not part of this model.
- Integer widths. `long` in Day 5 and `int` in Days 3 and 6 are unbounded integers here. Overflow of `inputStart + span`, `timeRemaining * i`, `Int32.Parse` and `result +=` is not modelled; the puzzle data fit in those widths.
- The Day 3 puzzle input literal and its expected sum (445234) are too large to evaluate.
- Splitting the input text into lines by `Environment.NewLine`. `SumPartNumbers` takes the lines as a sequence.
- Strings are sequences of Unicode scalar values here, while C# indexes strings by UTF-16 code units. On a line holding a character outside the Basic Multilingual Plane, the columns, lengths, `j - candidate.Length`, `hasRight` and the inspected cells of this model differ from those of the C# code.
- `char.IsDigit` is modelled for '0' to '9' only. It also accepts other Unicode decimal digits, which `Int32.Parse` would reject.
- `string.IsNullOrWhiteSpace`: strings are never null here, and white space is the set of characters `char.IsWhiteSpace` accepts.
- `Int32.Parse` is modelled by a decimal fold over the digits (`DecimalValue`). Its sign and white-space handling is not needed for runs of digits. A run above 2147483647 makes it throw `OverflowException`, which `DecimalValue` does not; this is part of the integer-width gap above.
- The xUnit attributes (`[Fact]`, `[Theory]`, `[InlineData]`). Their cases appear as lemmas.
