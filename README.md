# Advent of Code 2024, days 1 and 2: a verified model

This project models three small puzzle solvers in Dafny and proves properties about them.

- **Day 2, "Red-Nosed Reports" (Rust).** Each input line is a report: its
  whitespace-separated tokens that parse as `i32`, with other tokens silently
  dropped. `validate_sequence` decides whether a report is safe. A report is
  safe when it is strictly increasing or strictly decreasing. Each adjacent
  step must have magnitude 1 to 3, and the first pair fixes the direction.
  `main` counts the safe reports.
- **Day 1, part one (Rust).** A hand-written byte scanner reads up to two
  tokens per line into the vectors `left_numbers` and `right_numbers`. Each
  token is parsed with `parse::<i64>().unwrap()`. Both vectors are sorted
  with `sort_unstable`. The program then adds up `|left[i] - right[i]|` for
  every index of the left vector.
- **Day 1, part two (Go).** `calculateSimilarityScore` makes two passes over
  the lines. Only lines with exactly two fields take part. Pass one builds a
  frequency map of the right values. Pass two adds each left value times its
  frequency.

Modules:

- `Text` (text.dfy) holds the shared pieces:
  - ASCII whitespace, as `u8::is_ascii_whitespace` defines it;
  - the field splitter, with its round trip and coverage lemmas;
  - decimal parsing with the range check of `i32` or `i64`;
  - formatting, the inverse of parsing.
- `RedNosedReports` (reports.dfy) holds the validator, a declarative rule it
  is proved equal to, report parsing, and the counting loop.
- `Sorting` (sorting.dfy) holds an insertion sort. A lemma proves that every
  sorted permutation equals it, so it stands for any sorting algorithm,
  `sort_unstable` included.
- `LocationDistance` (distance.dfy) holds the scanner's loops as methods,
  proved against a specification that works on fields. Panics are modelled
  as an `Outcome` value.
- `SimilarityScore` (similarity.dfy) holds both passes as loop methods,
  proved against a reference definition of the score.

Input lines are parameters: `seq<string>` for the day-2 and Go programs, and
`seq<seq<byte>>` (each line with its line terminator) for the day-1 Rust
scanner.

## Model

| member | source | states |
|---|---|---|
| `Text.FieldsFrom` | day-02/rs/src/main.rs:116 | every field produced is a non-empty run of non-whitespace characters |
| `Text.FieldSpan` | day-02/rs/src/main.rs:116 | field `j` of `s[i..]` is a slice `s[a..b]` that starts at `i` or after whitespace and ends at the end of `s` or before whitespace |
| `Text.FieldsAreMaximalRuns` | day-01/go/main.go:37 | every field of a line is a maximal run of non-whitespace characters of the line: whitespace or a line edge on both sides |
| `Text.FieldsCoverLine` | day-02/rs/src/main.rs:115-116 | the fields of a line, joined, are exactly its non-whitespace characters in order: splitting loses and invents nothing |
| `Text.FieldsEmptyIffBlank` | day-01/go/main.go:37-40 | a line has no fields exactly when it is empty or all whitespace |
| `Text.FieldsJoinRoundTrip` | day-01/go/main.go:37 | splitting tokens joined by single spaces gives back the same tokens |
| `Text.SkipSpace` | day-01/rs/src/main.rs:53-55 | the result is the first index at or after the start that is not whitespace, or the end of the line |
| `Text.TokenEnd` | day-01/rs/src/main.rs:58-62 | the result is the first whitespace index at or after the start, or the end of the line |
| `Text.SkipSpaceAt` | day-01/rs/src/main.rs:53-55 | any index that ends a run of whitespace starting at `i` is the value of `SkipSpace` |
| `Text.TokenEndAt` | day-01/rs/src/main.rs:58-62 | any index that ends a run of non-whitespace starting at `i` is the value of `TokenEnd` |
| `Text.ParseDecimal` | day-02/rs/src/main.rs:117 | text that parses as an integer is a single token |
| `Text.ParseIntFormat` | day-01/go/main.go:42-45 | a range-checked parse of an integer's decimal text gives back the integer exactly when it lies in the type's range, and fails otherwise |
| `Text.ParseFormatRoundTrip` | day-01/rs/src/main.rs:65 | parsing the decimal text of any integer gives back the integer |
| `RedNosedReports.ValidateSequence` | day-02/rs/src/main.rs:59-86 | reports shorter than two are valid; a first pair that is equal or more than 3 apart makes the report invalid |
| `RedNosedReports.AllPairsFromMeaning` | day-02/rs/src/main.rs:73-83 | the `windows(2).skip(k).all` test holds exactly when every adjacent pair from index `k` on steps in the fixed direction by 1 to 3 |
| `RedNosedReports.ValidIffSafeSteps` | day-02/rs/src/main.rs:37-39 | a report is valid exactly when all its adjacent steps are in 1..3, or all are in -3..-1 |
| `RedNosedReports.PlateauInvalid` | day-02/rs/src/main.rs:38 | two equal adjacent numbers anywhere make the report invalid |
| `RedNosedReports.DirectionChangeInvalid` | day-02/rs/src/main.rs:70-83 | a later step against the direction of the first pair makes the report invalid |
| `RedNosedReports.ReverseKeepsOutcome` | day-02/rs/src/main.rs:37-39 | reading a report backwards never changes its validity |
| `RedNosedReports.ExampleReports` | day-02/rs/src/main.rs:59-86 | on the puzzle's six sample reports the validator accepts exactly the first and the last |
| `RedNosedReports.WrapI32` | day-02/rs/src/main.rs:65 | two's-complement wrap-around: the result is in the `i32` range and congruent to the input modulo 2^32 |
| `RedNosedReports.WrappingAbsIsWrappedAbs` | day-02/rs/src/main.rs:66 | release-build `abs` is the true magnitude wrapped into `i32`, and it is negative exactly for `i32::MIN` |
| `RedNosedReports.ValidateSequenceWrapping` | day-02/rs/src/main.rs:59-86 | `validate_sequence` as a release build runs it, with wrapping `i32` subtraction and `abs`: short reports are valid and a plateau is still rejected; its relation to the exact validator is given by `WrappingAgreesWithoutOverflow` and `WrappingAcceptsHugeSteps` |
| `RedNosedReports.WrappingAcceptsHugeSteps` | day-02/rs/src/main.rs:65-66 | with wrapping arithmetic, `[i32::MIN, i32::MAX]` and `[0, i32::MIN]` are reported valid; the exact validator rejects both |
| `RedNosedReports.AllPairsFromWrappingAgrees` | day-02/rs/src/main.rs:77-82 | when no later difference overflows, the wrapping pair test equals the exact one |
| `RedNosedReports.WrappingAgreesWithoutOverflow` | day-02/rs/src/main.rs:59-86 | when no adjacent difference leaves the `i32` range and the first one is not `i32::MIN`, the wrapping and the exact validators agree on every report |
| `RedNosedReports.KeepParsed` | day-02/rs/src/main.rs:117 | the kept numbers are no more than the tokens, and each lies in the `i32` range |
| `RedNosedReports.KeepParsedDropsBadToken` | day-02/rs/src/main.rs:115-118 | a token that is not an `i32` is dropped without error, wherever it stands |
| `RedNosedReports.KeepParsedAllParse` | day-02/rs/src/main.rs:115-118 | when every token parses, the report is their values, one per token and in order |
| `RedNosedReports.SafeReports` | day-02/rs/src/main.rs:109-123 | the count never exceeds the number of lines |
| `RedNosedReports.SafeReportsCountsLines` | day-02/rs/src/main.rs:119-122 | the count is the number of line positions whose report is valid |
| `RedNosedReports.CountSafeReports` | day-02/rs/src/main.rs:109-123 | the loop's final `safe_count` equals the number of safe reports among the lines |
| `Sorting.Insert` | day-01/rs/src/main.rs:93-94 | inserting into a sorted sequence keeps it sorted and adds exactly one occurrence of the element |
| `Sorting.Sort` | day-01/rs/src/main.rs:93-94 | the result is ascending and a permutation of the input |
| `Sorting.SortedPermutationUnique` | day-01/rs/src/main.rs:91-94 | two ascending sequences with the same elements are equal, so an unstable sort gives the same result as any other |
| `Sorting.SortIsTheSortedPermutation` | day-01/rs/src/main.rs:93-94 | every ascending permutation of a sequence is `Sort` of it |
| `LocationDistance.FirstTwoFields` | day-01/rs/src/main.rs:52-78 | the scanner's skip/take/skip/take indices delimit the first and second fields of the line, and show when there are none, one, or at least two |
| `LocationDistance.SkipWhitespace` | day-01/rs/src/main.rs:53-55 | the whitespace loop stops at the first non-whitespace byte at or after its start |
| `LocationDistance.TakeToken` | day-01/rs/src/main.rs:58-62 | the token loop stops at the next whitespace byte and appends exactly the bytes it passed to `number_buffer` |
| `LocationDistance.ScanLine` | day-01/rs/src/main.rs:49-82 | one pass of the line loop appends the first field to the left column and the second to the right one; a first or second field that is not an `i64` panics |
| `LocationDistance.ReadColumns` | day-01/rs/src/main.rs:48-86 | the read loop's result is the line-by-line scan of the whole input, stopping at the first panic |
| `LocationDistance.LineEffectGrowth` | day-01/rs/src/main.rs:57-82 | a line only appends, at most one number per column, and never to the right column without the left |
| `LocationDistance.BlankLineAddsNothing` | day-01/rs/src/main.rs:63-67 | a blank or whitespace-only line leaves both columns unchanged |
| `LocationDistance.SingleTokenLineAddsLeftOnly` | day-01/rs/src/main.rs:79-82 | a line with a single number adds it to the left column only |
| `LocationDistance.LaterFieldsIgnored` | day-01/rs/src/main.rs:74-82 | two lines that share their first two fields have the same effect; later fields are never read |
| `LocationDistance.NonNumberAborts` | day-01/rs/src/main.rs:65 | a first or second field that is not an `i64` aborts the program with a parse panic |
| `LocationDistance.ColumnsAligned` | day-01/rs/src/main.rs:57-82 | after reading, the right column is never longer than the left, and the left has at most one entry per line |
| `LocationDistance.ColumnsCanMisalign` | day-01/rs/src/main.rs:79-82 | the input "7\n" leaves a left column `[7]` and an empty right column |
| `LocationDistance.Distance` | day-01/rs/src/main.rs:101-104 | a sum of absolute differences is never negative |
| `LocationDistance.DistanceZeroIffEqual` | day-01/rs/src/main.rs:101-104 | the total is zero exactly when the columns agree position by position |
| `LocationDistance.TotalDistance` | day-01/rs/src/main.rs:101-104 | the summation loop yields the sum of distances, or panics on an index past the end of the right column when that column is shorter |
| `LocationDistance.SolveDistance` | day-01/rs/src/main.rs:48-104 | scanning, sorting both columns and summing gives the program's result or its panic |
| `LocationDistance.TotalDistanceMeaning` | day-01/rs/src/main.rs:91-104 | the result is the distance between any ascending arrangements of the two columns, whatever sort produced them |
| `LocationDistance.MisalignedColumnsPanic` | day-01/rs/src/main.rs:102-103 | when the right column ends up shorter, the summation loop panics |
| `LocationDistance.ExampleSortedLeft` | day-01/rs/src/main.rs:93 | the sample left column `3 4 2 1 3 3` sorts to `1 2 3 3 3 4` |
| `LocationDistance.ExampleSortedRight` | day-01/rs/src/main.rs:94 | the sample right column `4 3 5 3 9 3` sorts to `3 3 3 4 5 9` |
| `LocationDistance.ExampleSortedDistance` | day-01/rs/src/main.rs:101-104 | the sorted sample columns are at total distance 11 |
| `LocationDistance.ExampleDistance` | day-01/rs/src/main.rs:93-104 | the puzzle's sample columns give a total distance of 11 |
| `SimilarityScore.PairField` | day-01/go/main.go:37-45 | a field is used only on lines with exactly two fields and only when it parses into the 64-bit range; `PairFieldsOfJoin` gives its value on a two-token line |
| `SimilarityScore.BuildFrequencies` | day-01/go/main.go:36-47 | after pass one, the map gives each value the number of two-field lines whose right field parses to it; every stored count is positive |
| `SimilarityScore.ScoreLines` | day-01/go/main.go:64-77 | pass two yields the sum, over two-field lines with a parsable left value, of that value times its map lookup (0 when missing) |
| `SimilarityScore.CalculateSimilarityScore` | day-01/go/main.go:15-83 | the two passes together compute the similarity score: each usable left value times the number of lines whose right value equals it |
| `SimilarityScore.ScoreWithPointwise` | day-01/go/main.go:76 | the score depends only on the weight each value is given |
| `SimilarityScore.SumOfPermutation` | day-01/go/main.go:64-77 | a sum of per-line terms does not depend on the order of the lines |
| `SimilarityScore.SimilarityOrderIndependent` | day-01/go/main.go:36-77 | shuffling the input lines does not change the score |
| `SimilarityScore.OtherLinesIgnored` | day-01/go/main.go:36-68 | a line without exactly two fields adds to no right count and scores 0 under any weights, so neither pass and not the score changes |
| `SimilarityScore.AbsentLeftScoresZero` | day-01/go/main.go:76 | a left value that never occurs on the right has a count of 0 and contributes 0 |
| `SimilarityScore.PairFieldsOfJoin` | day-01/go/main.go:37-45 | a line of two tokens joined by a space yields those two tokens' values as its left and right fields |
| `SimilarityScore.ExampleLines` | day-01/go/main.go:37-45 | the pair fields of four sample lines, including ones with an unparsable field |
| `SimilarityScore.RightUnparsedStillScores` | day-01/go/main.go:64-77 | a line whose right field does not parse still scores with its left value: lines "3 x", "1 3" score 3 |
| `SimilarityScore.LeftUnparsedStillCounted` | day-01/go/main.go:36-47 | a line whose left field does not parse is still counted on the right: lines "x 3", "3 4" score 3 |

## Left out

- File opening and reading, `BufReader`/`bufio.Scanner` buffering, timing and printing are not modelled. The lines are given as parameters. The file-error paths (`?` in Rust, the returned `error` in Go) are left out with them.
- The Go scanner's 64 KiB line limit and `scanner.Err()` are not modelled, because they are I/O.
- Text.IsAsciiWhitespace: Rust's `split_whitespace` and Go's `strings.Fields` also split on vertical tab and on non-ASCII Unicode spaces. All three programs are modelled with the ASCII set of `u8::is_ascii_whitespace`, which is exact only for the day-1 Rust byte scanner.
- Text.ParseDecimal: it accepts the syntax that Rust's `str::parse` and Go's `strconv.Atoi` share (optional sign, then ASCII digits). The error values are collapsed to "no value".
- Sorting.Sort: `sort_unstable` sorts the vector in place. It is modelled on values by an insertion sort. `Sorting.SortedPermutationUnique` shows that any ascending permutation is the same sequence, so the algorithm does not matter.
- LocationDistance.TotalDistance: the `i64` total and the difference `left[i] - right[i]` are unbounded integers here. Overflow checks (debug build) or wrap-around (release build) on totals beyond `i64` are not modelled.
- SimilarityScore.PairField: Go's `int` is taken to be 64 bits wide, as on 64-bit platforms, so `strconv.Atoi` is modelled by the `i64` range check. The 32-bit platform range is not modelled.
- SimilarityScore.ScoreLines: the `int64` product and total are unbounded integers here. Go's wrap-around beyond 64 bits is not modelled.
- SimilarityScore.BuildFrequencies: counts are unbounded, and Go's `int` counter overflow is not modelled.
- RedNosedReports.CountSafeReports: `safe_count` is unbounded. Overflow after more than 2^31 - 1 safe lines is not modelled.
- The day-2 "problem dampener" variant (removing one number from a report) is not part of the modelled source file and is left out.
- The day-1 Rust program does not require both columns to have the same length. A line with one number grows only the left column, and the program then panics in the summation loop. The model follows the code (`LocationDistance.ColumnsAligned`, `LocationDistance.ColumnsCanMisalign`, `LocationDistance.MisalignedColumnsPanic`) rather than assuming the columns line up.
- The reuse of `line` and `number_buffer` across iterations is modelled as fresh values per line. The buffers are always cleared before reuse, so nothing carries over.

## Findings

| source | as written | input that shows it | evidently intended | confidence | as-written member | corrected member |
|---|---|---|---|---|---|---|
| day-02/rs/src/main.rs:65-77 | the differences `numbers[1] - numbers[0]`, `first_diff.abs()` and `pair[1] - pair[0]` are computed in `i32`; a release build wraps them | `[-2147483648, 2147483647]` (the difference wraps to -1) and `[0, -2147483648]` (the difference is `i32::MIN`, whose `abs` stays negative) are both reported valid | steps are compared by their true size, so both reports are invalid, as the doc comment's rules say | low, not executed; a debug build panics on these inputs instead | `RedNosedReports.WrappingAcceptsHugeSteps` | `RedNosedReports.ValidateSequence` |
