/** Day 2, "Red-Nosed Reports": a report is a line of integers; it is safe
    when it is strictly monotone with adjacent steps of magnitude 1 to 3.
    The program counts the safe reports of its input. */
module RedNosedReports {
  import opened Text

  /** The outcome of validating one report. */
  datatype ValidationResult = Valid | Invalid

  /** The test applied to each later adjacent pair: the step must go in the
      direction fixed by the first pair and be at most 3 in magnitude. */
  predicate StepOk(diff: int, shouldIncrease: bool) {
    if shouldIncrease then diff > 0 && diff <= 3 else diff < 0 && diff >= -3
  }

  /** `numbers.windows(2).skip(k).all(...)`: every adjacent pair from index
      `k` on passes `StepOk`. */
  predicate AllPairsFrom(numbers: seq<int>, k: nat, shouldIncrease: bool)
    decreases |numbers| - k
  {
    k + 1 >= |numbers| ||
    (StepOk(numbers[k + 1] - numbers[k], shouldIncrease) && AllPairsFrom(numbers, k + 1, shouldIncrease))
  }

  /** The validator: sequences shorter than two are valid; the first pair
      must differ by 1 to 3 in either direction and fixes the direction; every
      later pair must step the same way by 1 to 3. */
  function ValidateSequence(numbers: seq<int>): (r: ValidationResult)
    ensures |numbers| < 2 ==> r == Valid
    ensures |numbers| >= 2 && (numbers[1] == numbers[0] || Abs(numbers[1] - numbers[0]) > 3) ==> r == Invalid
  {
    if |numbers| < 2 then Valid
    else
      var firstDiff := numbers[1] - numbers[0];
      if firstDiff == 0 || Abs(firstDiff) > 3 then Invalid
      else
        var shouldIncrease := firstDiff > 0;
        if AllPairsFrom(numbers, 1, shouldIncrease) then Valid else Invalid
  }

  // ---------------------------------------------------------------------
  // The declarative rule, and the validator's agreement with it

  /** Every adjacent step of `s` lies in `lo..hi`. */
  predicate StepsWithin(s: seq<int>, lo: int, hi: int) {
    forall i :: 0 <= i < |s| - 1 ==> lo <= s[i + 1] - s[i] <= hi
  }

  /** Strictly increasing by 1 to 3 at every step. */
  predicate SafelyIncreasing(s: seq<int>) {
    StepsWithin(s, 1, 3)
  }

  /** Strictly decreasing by 1 to 3 at every step. */
  predicate SafelyDecreasing(s: seq<int>) {
    StepsWithin(s, -3, -1)
  }

  lemma {:induction false} AllPairsFromMeaning(numbers: seq<int>, k: nat, shouldIncrease: bool)
    ensures AllPairsFrom(numbers, k, shouldIncrease) <==>
            forall i :: k <= i < |numbers| - 1 ==> StepOk(numbers[i + 1] - numbers[i], shouldIncrease)
    decreases |numbers| - k
  {
    if k + 1 < |numbers| {
      AllPairsFromMeaning(numbers, k + 1, shouldIncrease);
    }
  }

  /** A report is valid exactly when all its adjacent differences lie in
      {1, 2, 3}, or all lie in {-3, -2, -1}. */
  lemma ValidIffSafeSteps(s: seq<int>)
    ensures ValidateSequence(s) == Valid <==> SafelyIncreasing(s) || SafelyDecreasing(s)
  {
    if |s| >= 2 {
      var firstDiff := s[1] - s[0];
      if firstDiff != 0 && Abs(firstDiff) <= 3 {
        AllPairsFromMeaning(s, 1, firstDiff > 0);
      }
      StepAt(s, 0);
    }
  }

  /** The step at index `i`, as the declarative rule sees it. */
  lemma StepAt(s: seq<int>, i: nat)
    requires i + 1 < |s|
    ensures SafelyIncreasing(s) ==> 1 <= s[i + 1] - s[i] <= 3
    ensures SafelyDecreasing(s) ==> -3 <= s[i + 1] - s[i] <= -1
  {
  }

  /** A plateau anywhere makes the report invalid. */
  lemma PlateauInvalid(s: seq<int>, i: nat)
    requires i + 1 < |s| && s[i] == s[i + 1]
    ensures ValidateSequence(s) == Invalid
  {
    ValidIffSafeSteps(s);
    StepAt(s, i);
  }

  /** The first pair fixes the direction: a later step that goes the other
      way makes the report invalid. */
  lemma DirectionChangeInvalid(s: seq<int>, i: nat)
    requires 1 <= i && i + 1 < |s|
    requires (s[1] > s[0] && s[i + 1] < s[i]) || (s[1] < s[0] && s[i + 1] > s[i])
    ensures ValidateSequence(s) == Invalid
  {
    ValidIffSafeSteps(s);
    StepAt(s, 0);
    StepAt(s, i);
  }

  function Reverse(s: seq<int>): (r: seq<int>)
    ensures |r| == |s|
    ensures forall k :: 0 <= k < |s| ==> r[k] == s[|s| - 1 - k]
  {
    if s == [] then [] else Reverse(s[1..]) + [s[0]]
  }

  /** Reversal turns each step into its negation, in the opposite order. */
  lemma ReverseSteps(s: seq<int>, lo: int, hi: int)
    ensures StepsWithin(Reverse(s), -hi, -lo) <==> StepsWithin(s, lo, hi)
  {
    var r := Reverse(s);
    var n := |s|;
    if StepsWithin(s, lo, hi) {
      forall i | 0 <= i < n - 1 ensures -hi <= r[i + 1] - r[i] <= -lo {
        var j := n - 2 - i;
        assert r[i + 1] == s[j] && r[i] == s[j + 1];
      }
    }
    if StepsWithin(r, -hi, -lo) {
      forall j | 0 <= j < n - 1 ensures lo <= s[j + 1] - s[j] <= hi {
        var i := n - 2 - j;
        assert r[i + 1] == s[j] && r[i] == s[j + 1];
      }
    }
  }

  /** Reading a report backwards does not change whether it is valid: the
      rule is symmetric in the two directions. */
  lemma ReverseKeepsOutcome(s: seq<int>)
    ensures ValidateSequence(Reverse(s)) == ValidateSequence(s)
  {
    ValidIffSafeSteps(s);
    ValidIffSafeSteps(Reverse(s));
    ReverseSteps(s, 1, 3);
    ReverseSteps(s, -3, -1);
  }

  /** The six reports of the puzzle's example: two are valid. */
  lemma ExampleReports()
    ensures ValidateSequence([7, 6, 4, 2, 1]) == Valid
    ensures ValidateSequence([1, 2, 7, 8, 9]) == Invalid
    ensures ValidateSequence([9, 7, 6, 2, 1]) == Invalid
    ensures ValidateSequence([1, 3, 2, 4, 5]) == Invalid
    ensures ValidateSequence([8, 6, 4, 4, 1]) == Invalid
    ensures ValidateSequence([1, 3, 6, 7, 9]) == Valid
  {
  }

  // ---------------------------------------------------------------------
  // The validator with 32-bit arithmetic, as compiled in a release build

  /** `x` reduced into the `i32` range by two's-complement wrap-around. */
  function WrapI32(x: int): (r: int)
    ensures I32Min <= r <= I32Max
    ensures (x - r) % 0x1_0000_0000 == 0
  {
    (x - I32Min) % 0x1_0000_0000 + I32Min
  }

  /** `i32::abs` without overflow checks: the magnitude, except that
      `i32::MIN` stays `i32::MIN`. */
  function WrappingAbsI32(x: int): (r: int)
    requires I32Min <= x <= I32Max
    ensures x != I32Min ==> r == Abs(x)
    ensures x == I32Min ==> r == I32Min
  {
    if x == I32Min then I32Min else Abs(x)
  }

  /** Release-build `abs` is the true magnitude wrapped into `i32`: only
      `i32::MIN`, whose magnitude is `i32::MAX + 1`, comes out wrong. */
  lemma WrappingAbsIsWrappedAbs(x: int)
    requires I32Min <= x <= I32Max
    ensures WrappingAbsI32(x) == WrapI32(Abs(x))
    ensures WrappingAbsI32(x) < 0 <==> x == I32Min
  {
    if x == I32Min {
      assert WrapI32(-I32Min) == I32Min;
    } else {
      assert WrapI32(Abs(x)) == Abs(x);
    }
  }

  predicate AllI32(numbers: seq<int>) {
    forall k :: 0 <= k < |numbers| ==> I32Min <= numbers[k] <= I32Max
  }

  /** The later-pair test with the subtraction done in wrapping `i32`. */
  predicate AllPairsFromWrapping(numbers: seq<int>, k: nat, shouldIncrease: bool)
    decreases |numbers| - k
  {
    k + 1 >= |numbers| ||
    (StepOk(WrapI32(numbers[k + 1] - numbers[k]), shouldIncrease) &&
     AllPairsFromWrapping(numbers, k + 1, shouldIncrease))
  }

  lemma {:induction false} AllPairsFromWrappingMeaning(numbers: seq<int>, k: nat, shouldIncrease: bool)
    ensures AllPairsFromWrapping(numbers, k, shouldIncrease) ==>
            forall i :: k <= i < |numbers| - 1 ==> StepOk(WrapI32(numbers[i + 1] - numbers[i]), shouldIncrease)
    decreases |numbers| - k
  {
    if k + 1 < |numbers| {
      AllPairsFromWrappingMeaning(numbers, k + 1, shouldIncrease);
    }
  }

  /** `validate_sequence` on `i32` values with wrapping subtraction and
      `abs`, the behaviour of a build without overflow checks (a debug build
      panics on the same inputs instead). */
  function ValidateSequenceWrapping(numbers: seq<int>): (r: ValidationResult)
    requires AllI32(numbers)
    ensures |numbers| < 2 ==> r == Valid
    ensures forall i :: 0 <= i < |numbers| - 1 && numbers[i] == numbers[i + 1] ==> r == Invalid
  {
    AllPairsFromWrappingMeaning(numbers, 1, |numbers| >= 2 && WrapI32(numbers[1] - numbers[0]) > 0);
    if |numbers| < 2 then Valid
    else
      var firstDiff := WrapI32(numbers[1] - numbers[0]);
      if firstDiff == 0 || WrappingAbsI32(firstDiff) > 3 then Invalid
      else if AllPairsFromWrapping(numbers, 1, firstDiff > 0) then Valid else Invalid
  }

  /** Inputs on which the 32-bit subtraction or `abs` overflows: the wrapping
      validator accepts them although their steps are far larger than 3. */
  lemma WrappingAcceptsHugeSteps()
    ensures ValidateSequenceWrapping([I32Min, I32Max]) == Valid
    ensures ValidateSequence([I32Min, I32Max]) == Invalid
    ensures ValidateSequenceWrapping([0, I32Min]) == Valid
    ensures ValidateSequence([0, I32Min]) == Invalid
  {
    assert WrapI32(I32Max - I32Min) == -1;
    assert WrapI32(I32Min - 0) == I32Min;
  }

  lemma {:induction false} AllPairsFromWrappingAgrees(numbers: seq<int>, k: nat, shouldIncrease: bool)
    requires forall i :: k <= i < |numbers| - 1 ==> I32Min <= numbers[i + 1] - numbers[i] <= I32Max
    ensures AllPairsFromWrapping(numbers, k, shouldIncrease) == AllPairsFrom(numbers, k, shouldIncrease)
    decreases |numbers| - k
  {
    if k + 1 < |numbers| {
      assert WrapI32(numbers[k + 1] - numbers[k]) == numbers[k + 1] - numbers[k];
      AllPairsFromWrappingAgrees(numbers, k + 1, shouldIncrease);
    }
  }

  /** Where no adjacent difference overflows `i32` (and the first is not
      `i32::MIN`), the wrapping validator and the validator on unbounded
      integers agree. */
  lemma WrappingAgreesWithoutOverflow(numbers: seq<int>)
    requires AllI32(numbers)
    requires |numbers| >= 2 ==> I32Min < numbers[1] - numbers[0]
    requires forall i :: 0 <= i < |numbers| - 1 ==> I32Min <= numbers[i + 1] - numbers[i] <= I32Max
    ensures ValidateSequenceWrapping(numbers) == ValidateSequence(numbers)
  {
    if |numbers| >= 2 {
      assert numbers[0 + 1] - numbers[0] <= I32Max;
      assert WrapI32(numbers[1] - numbers[0]) == numbers[1] - numbers[0];
      AllPairsFromWrappingAgrees(numbers, 1, numbers[1] - numbers[0] > 0);
    }
  }

  // ---------------------------------------------------------------------
  // Parsing a report line

  /** `filter_map(|n| n.parse().ok())`: the tokens that parse as `i32`, in
      order; the others are dropped. */
  function KeepParsed(tokens: seq<string>): (r: seq<int>)
    ensures |r| <= |tokens|
    ensures forall x :: x in r ==> I32Min <= x <= I32Max
  {
    if tokens == [] then []
    else
      match ParseI32(tokens[0])
      case Some(n) => [n] + KeepParsed(tokens[1..])
      case None => KeepParsed(tokens[1..])
  }

  /** The numbers of a report line: its whitespace-separated tokens that
      parse as `i32`. */
  function ParseReport(line: string): seq<int> {
    KeepParsed(Fields(line))
  }

  lemma {:induction false} KeepParsedAppend(a: seq<string>, b: seq<string>)
    ensures KeepParsed(a + b) == KeepParsed(a) + KeepParsed(b)
    decreases |a|
  {
    if a != [] {
      assert (a + b)[1..] == a[1..] + b;
      KeepParsedAppend(a[1..], b);
    } else {
      assert a + b == b;
    }
  }

  /** A token that does not parse is dropped without error: the numbers are
      those of the remaining tokens. */
  lemma KeepParsedDropsBadToken(a: seq<string>, t: string, b: seq<string>)
    requires ParseI32(t).None?
    ensures KeepParsed(a + [t] + b) == KeepParsed(a + b)
  {
    KeepParsedAppend(a + [t], b);
    KeepParsedAppend(a, [t]);
    KeepParsedAppend(a, b);
    assert KeepParsed([t]) == KeepParsed([]);
  }

  /** When every token parses, the numbers are the tokens' values, one per
      token and in the same order. */
  lemma {:induction false} KeepParsedAllParse(tokens: seq<string>)
    requires forall k :: 0 <= k < |tokens| ==> ParseI32(tokens[k]).Some?
    ensures |KeepParsed(tokens)| == |tokens|
    ensures forall k :: 0 <= k < |tokens| ==> KeepParsed(tokens)[k] == ParseI32(tokens[k]).value
  {
    if tokens != [] {
      KeepParsedAllParse(tokens[1..]);
    }
  }

  /** Whether the report on this line is safe. */
  predicate IsSafe(line: string) {
    ValidateSequence(ParseReport(line)) == Valid
  }

  /** The number of safe reports among `lines`. */
  function SafeReports(lines: seq<string>): (r: nat)
    ensures r <= |lines|
  {
    if lines == [] then 0
    else SafeReports(lines[..|lines| - 1]) + (if IsSafe(lines[|lines| - 1]) then 1 else 0)
  }

  /** The positions among the first `n` elements of `xs` that satisfy `p`. */
  function IndicesWhere<T>(xs: seq<T>, p: T -> bool, n: nat): set<nat>
    requires n <= |xs|
  {
    set i: nat | i < n && p(xs[i])
  }

  lemma IndicesWhereStep<T>(xs: seq<T>, p: T -> bool, n: nat)
    requires 0 < n <= |xs|
    ensures |IndicesWhere(xs, p, n)| == |IndicesWhere(xs, p, n - 1)| + (if p(xs[n - 1]) then 1 else 0)
  {
    var before, after := IndicesWhere(xs, p, n - 1), IndicesWhere(xs, p, n);
    var last: set<nat> := if p(xs[n - 1]) then {n - 1} else {};
    assert after == before + last;
    assert before !! last;
  }

  /** The positions among the first `n` lines whose report is safe. */
  function SafeIndices(lines: seq<string>, n: nat): set<nat>
    requires n <= |lines|
  {
    IndicesWhere(lines, IsSafe, n)
  }

  lemma {:induction false} SafeReportsPrefix(lines: seq<string>, n: nat)
    requires n <= |lines|
    ensures SafeReports(lines[..n]) == |SafeIndices(lines, n)|
  {
    if n > 0 {
      SafeReportsPrefix(lines, n - 1);
      assert lines[..n][..n - 1] == lines[..n - 1];
      IndicesWhereStep(lines, IsSafe, n);
    } else {
      assert IndicesWhere(lines, IsSafe, 0) == {};
    }
  }

  /** The count of safe reports is the number of line positions whose
      report is safe. */
  lemma SafeReportsCountsLines(lines: seq<string>)
    ensures SafeReports(lines) == |SafeIndices(lines, |lines|)|
  {
    SafeReportsPrefix(lines, |lines|);
    assert lines[..|lines|] == lines;
  }

  /** The loop of `main`: split each line, keep what parses, validate, and
      count the valid reports. */
  method CountSafeReports(lines: seq<string>) returns (safeCount: nat)
    ensures safeCount == SafeReports(lines)
    ensures safeCount <= |lines|
  {
    safeCount := 0;
    for n := 0 to |lines|
      invariant safeCount == SafeReports(lines[..n])
    {
      var numbers := KeepParsed(Fields(lines[n]));
      if ValidateSequence(numbers) == Valid {
        safeCount := safeCount + 1;
      }
      assert lines[..n + 1][..n] == lines[..n];
    }
    assert lines[..|lines|] == lines;
  }
}
