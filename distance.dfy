/** Day 1, part one, "Historian Hysteria" (Rust): read two columns of `i64`
    with a hand-written byte scanner, sort each column, and add up the
    distances between the aligned entries. */
module LocationDistance {
  import opened Text
  import opened Sorting

  newtype byte = b: int | 0 <= b < 256

  /** `bytes[i] as char`: the character whose code is the byte. */
  function ByteChar(b: byte): char {
    b as int as char
  }

  /** The line's bytes read one character per byte (this is what the
      scanner's `number_buffer` is built from). */
  function AsChars(bytes: seq<byte>): (s: string)
    ensures |s| == |bytes|
    ensures forall k :: 0 <= k < |bytes| ==> s[k] == ByteChar(bytes[k])
  {
    seq(|bytes|, k requires 0 <= k < |bytes| => ByteChar(bytes[k]))
  }

  /** `u8::is_ascii_whitespace` */
  predicate IsWhitespaceByte(b: byte) {
    IsAsciiWhitespace(ByteChar(b))
  }

  /** Why the program aborts: `unwrap` on a failed parse, or indexing past
      the end of `right_numbers`. */
  datatype Panic = ParseIntError | IndexOutOfBounds

  datatype Outcome<T> = Done(value: T) | Panicked(reason: Panic)

  /** The two vectors the scanner fills. */
  datatype Columns = Columns(left: seq<int>, right: seq<int>)

  // ---------------------------------------------------------------------
  // What one line contributes

  /** The effect of one line, in terms of its whitespace-separated fields:
      the first field goes to the left column and the second to the right
      one; further fields are never looked at; a field that is not an `i64`
      aborts the program. */
  function LineEffect(cols: Columns, line: seq<byte>): Outcome<Columns> {
    var fields := Fields(AsChars(line));
    if |fields| == 0 then Done(cols)
    else match ParseI64(fields[0])
      case None => Panicked(ParseIntError)
      case Some(a) =>
        if |fields| == 1 then Done(Columns(cols.left + [a], cols.right))
        else match ParseI64(fields[1])
          case None => Panicked(ParseIntError)
          case Some(b) => Done(Columns(cols.left + [a], cols.right + [b]))
  }

  /** The first two fields of a line, located by the scanner's four index
      walks: skip whitespace, take a token, skip whitespace, take a token. */
  lemma FirstTwoFields(s: string, a1: nat, b1: nat, a2: nat, b2: nat)
    requires a1 == SkipSpace(s, 0) && b1 == TokenEnd(s, a1)
    requires a2 == SkipSpace(s, b1) && b2 == TokenEnd(s, a2)
    ensures |Fields(s)| == 0 <==> a1 == b1
    ensures a1 == b1 ==> a2 == b2
    ensures a1 < b1 ==> Fields(s)[0] == s[a1..b1] && (|Fields(s)| == 1 <==> a2 == b2)
    ensures a1 < b1 && a2 < b2 ==> Fields(s)[1] == s[a2..b2]
  {
    if a1 < |s| {
      assert Fields(s) == [s[a1..b1]] + FieldsFrom(s, b1);
      if a2 < |s| {
        assert FieldsFrom(s, b1) == [s[a2..b2]] + FieldsFrom(s, b2);
      }
    }
  }

  /** `while i < bytes.len() && bytes[i].is_ascii_whitespace() { i += 1; }` */
  method SkipWhitespace(bytes: seq<byte>, start: nat) returns (i: nat)
    requires start <= |bytes|
    ensures i == SkipSpace(AsChars(bytes), start)
  {
    ghost var s := AsChars(bytes);
    i := start;
    while i < |bytes| && IsWhitespaceByte(bytes[i])
      invariant start <= i <= |bytes|
      invariant SkipSpace(s, i) == SkipSpace(s, start)
    {
      i := i + 1;
    }
  }

  /** The token loop: copies bytes into `number_buffer` up to the next
      whitespace byte. */
  method TakeToken(bytes: seq<byte>, start: nat, numberBuffer: string) returns (i: nat, buffer: string)
    requires start <= |bytes|
    ensures i == TokenEnd(AsChars(bytes), start)
    ensures buffer == numberBuffer + AsChars(bytes)[start..i]
  {
    ghost var s := AsChars(bytes);
    i, buffer := start, numberBuffer;
    while i < |bytes| && !IsWhitespaceByte(bytes[i])
      invariant start <= i <= |bytes|
      invariant TokenEnd(s, i) == TokenEnd(s, start)
      invariant buffer == numberBuffer + s[start..i]
    {
      buffer := buffer + [ByteChar(bytes[i])];
      i := i + 1;
    }
  }

  /** The body of the `read_line` loop: skip whitespace, copy a token into
      `number_buffer`, push it to `left`; then the same for `right`. */
  method ScanLine(bytes: seq<byte>, left: seq<int>, right: seq<int>) returns (r: Outcome<Columns>)
    ensures r == LineEffect(Columns(left, right), bytes)
  {
    ghost var s := AsChars(bytes);
    var leftNumbers, rightNumbers := left, right;
    var numberBuffer: string := [];
    var i := SkipWhitespace(bytes, 0);
    ghost var a1 := i;
    i, numberBuffer := TakeToken(bytes, i, numberBuffer);
    ghost var b1, first := i, numberBuffer;
    if numberBuffer != [] {
      var n := ParseI64(numberBuffer);
      if n.None? {
        FirstTwoFields(s, a1, b1, SkipSpace(s, b1), TokenEnd(s, SkipSpace(s, b1)));
        assert Fields(s)[0] == first;
        return Panicked(ParseIntError);
      }
      leftNumbers := leftNumbers + [n.value];
      numberBuffer := [];
    }
    i := SkipWhitespace(bytes, i);
    ghost var a2 := i;
    i, numberBuffer := TakeToken(bytes, i, numberBuffer);
    ghost var b2 := i;
    ghost var second := numberBuffer;
    FirstTwoFields(s, a1, b1, a2, b2);
    if first != [] {
      assert Fields(s)[0] == first;
    }
    if second != [] {
      assert Fields(s)[1] == second;
    }
    if numberBuffer != [] {
      var n := ParseI64(numberBuffer);
      if n.None? {
        return Panicked(ParseIntError);
      }
      rightNumbers := rightNumbers + [n.value];
      numberBuffer := [];
    }
    r := Done(Columns(leftNumbers, rightNumbers));
  }

  // ---------------------------------------------------------------------
  // The whole input

  /** The vectors after the lines `lines` have been scanned starting from
      `cols`; a panic ends the scan. */
  function ScanFrom(cols: Columns, lines: seq<seq<byte>>): Outcome<Columns>
    decreases |lines|
  {
    if lines == [] then Done(cols)
    else match LineEffect(cols, lines[0])
      case Panicked(p) => Panicked(p)
      case Done(next) => ScanFrom(next, lines[1..])
  }

  /** `left_numbers` and `right_numbers` after reading every line. */
  function ReadColumnsSpec(lines: seq<seq<byte>>): Outcome<Columns> {
    ScanFrom(Columns([], []), lines)
  }

  /** The `while reader.read_line(...)` loop. */
  method ReadColumns(lines: seq<seq<byte>>) returns (r: Outcome<Columns>)
    ensures r == ReadColumnsSpec(lines)
  {
    var left, right := [], [];
    for n := 0 to |lines|
      invariant ReadColumnsSpec(lines) == ScanFrom(Columns(left, right), lines[n..])
    {
      assert lines[n..][1..] == lines[n + 1..];
      var step := ScanLine(lines[n], left, right);
      if step.Panicked? {
        return step;
      }
      left, right := step.value.left, step.value.right;
    }
    r := Done(Columns(left, right));
  }

  // ---------------------------------------------------------------------
  // Properties of the scanner

  /** A line adds at most one number to each column, only ever appends, and
      adds to the right column only when it also adds to the left one. */
  lemma LineEffectGrowth(cols: Columns, line: seq<byte>)
    requires LineEffect(cols, line).Done?
    ensures var next := LineEffect(cols, line).value;
      |cols.left| <= |next.left| <= |cols.left| + 1 &&
      next.left[..|cols.left|] == cols.left &&
      next.right[..|cols.right|] == cols.right &&
      |next.right| - |cols.right| <= |next.left| - |cols.left|
  {
    var next := LineEffect(cols, line).value;
    assert (cols.left + [0])[..|cols.left|] == cols.left;
    assert (cols.right + [0])[..|cols.right|] == cols.right;
    if |Fields(AsChars(line))| > 0 {
      assert next.left[..|cols.left|] == cols.left;
    }
  }

  /** A blank or whitespace-only line leaves both columns as they are. */
  lemma BlankLineAddsNothing(cols: Columns, line: seq<byte>)
    requires forall k :: 0 <= k < |line| ==> IsWhitespaceByte(line[k])
    ensures LineEffect(cols, line) == Done(cols)
  {
    FieldsEmptyIffBlank(AsChars(line));
  }

  /** A line with one number adds it to the left column only. */
  lemma SingleTokenLineAddsLeftOnly(cols: Columns, line: seq<byte>, a: int)
    requires |Fields(AsChars(line))| == 1 && ParseI64(Fields(AsChars(line))[0]) == Some(a)
    ensures LineEffect(cols, line) == Done(Columns(cols.left + [a], cols.right))
  {
  }

  /** Only the first two fields of a line matter. */
  lemma LaterFieldsIgnored(cols: Columns, line1: seq<byte>, line2: seq<byte>)
    requires |Fields(AsChars(line1))| >= 2 && |Fields(AsChars(line2))| >= 2
    requires Fields(AsChars(line1))[..2] == Fields(AsChars(line2))[..2]
    ensures LineEffect(cols, line1) == LineEffect(cols, line2)
  {
    assert Fields(AsChars(line1))[0] == Fields(AsChars(line1))[..2][0];
    assert Fields(AsChars(line1))[1] == Fields(AsChars(line1))[..2][1];
    assert Fields(AsChars(line2))[0] == Fields(AsChars(line2))[..2][0];
    assert Fields(AsChars(line2))[1] == Fields(AsChars(line2))[..2][1];
  }

  /** A first or second field that is not an `i64` aborts the program: it is
      never skipped. */
  lemma NonNumberAborts(cols: Columns, line: seq<byte>, k: nat)
    requires k < 2 && k < |Fields(AsChars(line))|
    requires ParseI64(Fields(AsChars(line))[k]).None?
    ensures LineEffect(cols, line) == Panicked(ParseIntError)
  {
  }

  lemma {:induction false} ScanFromAligned(cols: Columns, lines: seq<seq<byte>>)
    requires |cols.right| <= |cols.left|
    requires ScanFrom(cols, lines).Done?
    ensures var final := ScanFrom(cols, lines).value;
      |final.right| <= |final.left| <= |cols.left| + |lines|
    decreases |lines|
  {
    if lines != [] {
      LineEffectGrowth(cols, lines[0]);
      ScanFromAligned(LineEffect(cols, lines[0]).value, lines[1..]);
    }
  }

  /** After reading the input the right column is never longer than the left
      one, and the left one has at most one entry per line. */
  lemma ColumnsAligned(lines: seq<seq<byte>>)
    requires ReadColumnsSpec(lines).Done?
    ensures var cols := ReadColumnsSpec(lines).value;
      |cols.right| <= |cols.left| <= |lines|
  {
    ScanFromAligned(Columns([], []), lines);
  }

  /** The bytes of "7\n". */
  const SingleNumberLine: seq<byte> := [55, 10]

  /** The right column can end up strictly shorter: a single line "7\n"
      gives a left column [7] and an empty right column. */
  lemma ColumnsCanMisalign()
    ensures ReadColumnsSpec([SingleNumberLine]) == Done(Columns([7], []))
  {
    var s := AsChars(SingleNumberLine);
    assert s[0] == '7' && s[1] == '\n';
    assert SkipSpace(s, 0) == 0;
    assert TokenEnd(s, 0) == 1;
    assert SkipSpace(s, 1) == 2;
    FirstTwoFields(s, 0, 1, 2, 2);
    var token := Fields(s)[0];
    assert token == ['7'];
    assert DigitsValue(token) == 7 by {
      assert token[..0] == [];
    }
    assert ParseI64(token) == Some(7);
    SingleTokenLineAddsLeftOnly(Columns([], []), SingleNumberLine, 7);
    assert [] + [7] == [7];
    assert LineEffect(Columns([], []), SingleNumberLine) == Done(Columns([7], []));
    var lines := [SingleNumberLine];
    assert lines[0] == SingleNumberLine && lines[1..] == [];
    assert ScanFrom(Columns([7], []), lines[1..]) == Done(Columns([7], []));
    assert ScanFrom(Columns([], []), lines) == Done(Columns([7], []));
  }

  // ---------------------------------------------------------------------
  // Sorting and the total distance

  /** `Σ_{i < |left|} |left[i] - right[i]|` */
  function Distance(left: seq<int>, right: seq<int>): (r: int)
    requires |left| <= |right|
    ensures r >= 0
  {
    if left == [] then 0
    else
      var n := |left| - 1;
      Distance(left[..n], right) + Abs(left[n] - right[n])
  }

  /** The total is zero exactly when the two columns agree position by
      position. */
  lemma {:induction false} DistanceZeroIffEqual(left: seq<int>, right: seq<int>)
    requires |left| <= |right|
    ensures Distance(left, right) == 0 <==> left == right[..|left|]
  {
    if left != [] {
      var n := |left| - 1;
      DistanceZeroIffEqual(left[..n], right);
      if left == right[..|left|] {
        assert left[..n] == right[..n];
      }
      if Distance(left, right) == 0 {
        assert left[..n] == right[..n];
        assert left == left[..n] + [left[n]];
        assert right[..|left|] == right[..n] + [right[n]];
      }
    }
  }

  /** The `for i in 0..left_numbers.len()` loop: adds up the distances, and
      panics at the first index that `right` does not have. */
  method TotalDistance(left: seq<int>, right: seq<int>) returns (r: Outcome<int>)
    ensures |right| < |left| ==> r == Panicked(IndexOutOfBounds)
    ensures |left| <= |right| ==> r == Done(Distance(left, right))
  {
    var total := 0;
    for i := 0 to |left|
      invariant i <= |right|
      invariant total == Distance(left[..i], right)
    {
      if i >= |right| {
        return Panicked(IndexOutOfBounds);
      }
      assert left[..i + 1][..i] == left[..i];
      total := total + Abs(left[i] - right[i]);
    }
    assert left[..|left|] == left;
    r := Done(total);
  }

  /** The program's result: the distance between the sorted columns, or the
      panic that ends it. */
  function TotalDistanceSpec(lines: seq<seq<byte>>): Outcome<int> {
    match ReadColumnsSpec(lines)
    case Panicked(p) => Panicked(p)
    case Done(cols) =>
      var left, right := Sort(cols.left), Sort(cols.right);
      if |right| < |left| then Panicked(IndexOutOfBounds) else Done(Distance(left, right))
  }

  /** `main` without its I/O: scan, `sort_unstable` both columns, sum. */
  method SolveDistance(lines: seq<seq<byte>>) returns (r: Outcome<int>)
    ensures r == TotalDistanceSpec(lines)
  {
    var cols := ReadColumns(lines);
    if cols.Panicked? {
      return Panicked(cols.reason);
    }
    var leftNumbers := Sort(cols.value.left);
    var rightNumbers := Sort(cols.value.right);
    r := TotalDistance(leftNumbers, rightNumbers);
  }

  /** When the program finishes, its total is non-negative and is the sum of
      distances between the columns in ascending order; whatever order the
      columns were in, sorting them by any algorithm gives the same total. */
  lemma TotalDistanceMeaning(lines: seq<seq<byte>>, sortedLeft: seq<int>, sortedRight: seq<int>)
    requires ReadColumnsSpec(lines).Done?
    requires Sorted(sortedLeft) && multiset(sortedLeft) == multiset(ReadColumnsSpec(lines).value.left)
    requires Sorted(sortedRight) && multiset(sortedRight) == multiset(ReadColumnsSpec(lines).value.right)
    requires |sortedLeft| <= |sortedRight|
    ensures TotalDistanceSpec(lines) == Done(Distance(sortedLeft, sortedRight))
  {
    var cols := ReadColumnsSpec(lines).value;
    SortIsTheSortedPermutation(cols.left, sortedLeft);
    SortIsTheSortedPermutation(cols.right, sortedRight);
  }

  /** A line with a single number, and no unparsable field, leaves the
      right column short, so the summation loop panics. */
  lemma MisalignedColumnsPanic(lines: seq<seq<byte>>)
    requires ReadColumnsSpec(lines).Done?
    requires |ReadColumnsSpec(lines).value.right| < |ReadColumnsSpec(lines).value.left|
    ensures TotalDistanceSpec(lines) == Panicked(IndexOutOfBounds)
  {
  }

  lemma ExampleSortedLeft(left: seq<int>)
    requires left == [3, 4, 2, 1, 3, 3]
    ensures Sort(left) == [1, 2, 3, 3, 3, 4]
  {
    var sorted := [1, 2, 3, 3, 3, 4];
    assert Sorted(sorted) by {
      forall i, j | 0 <= i < j < 6 ensures sorted[i] <= sorted[j] { }
    }
    assert multiset(sorted) == multiset(left) by {
      calc {
        multiset(left);
        multiset{3, 4, 2, 1, 3, 3};
        multiset{1, 2, 3, 3, 3, 4};
        multiset(sorted);
      }
    }
    SortIsTheSortedPermutation(left, sorted);
  }

  lemma ExampleSortedRight(right: seq<int>)
    requires right == [4, 3, 5, 3, 9, 3]
    ensures Sort(right) == [3, 3, 3, 4, 5, 9]
  {
    var sorted := [3, 3, 3, 4, 5, 9];
    assert Sorted(sorted) by {
      forall i, j | 0 <= i < j < 6 ensures sorted[i] <= sorted[j] { }
    }
    assert multiset(sorted) == multiset(right) by {
      calc {
        multiset(right);
        multiset{4, 3, 5, 3, 9, 3};
        multiset{3, 3, 3, 4, 5, 9};
        multiset(sorted);
      }
    }
    SortIsTheSortedPermutation(right, sorted);
  }

  lemma ExampleSortedDistance()
    ensures Distance([1, 2, 3, 3, 3, 4], [3, 3, 3, 4, 5, 9]) == 11
  {
    var r := [3, 3, 3, 4, 5, 9];
    assert Distance([1], r) == 2 by { assert [1][..0] == []; }
    assert Distance([1, 2], r) == 3 by { assert [1, 2][..1] == [1]; }
    assert Distance([1, 2, 3], r) == 3 by { assert [1, 2, 3][..2] == [1, 2]; }
    assert Distance([1, 2, 3, 3], r) == 4 by { assert [1, 2, 3, 3][..3] == [1, 2, 3]; }
    assert Distance([1, 2, 3, 3, 3], r) == 6 by { assert [1, 2, 3, 3, 3][..4] == [1, 2, 3, 3]; }
    assert [1, 2, 3, 3, 3, 4][..5] == [1, 2, 3, 3, 3];
  }

  /** The puzzle's example columns give a total distance of 11. */
  lemma ExampleDistance(left: seq<int>, right: seq<int>)
    requires left == [3, 4, 2, 1, 3, 3] && right == [4, 3, 5, 3, 9, 3]
    ensures Distance(Sort(left), Sort(right)) == 11
  {
    ExampleSortedLeft(left);
    ExampleSortedRight(right);
    ExampleSortedDistance();
  }
}
