/** Day 1, part two, "Historian Hysteria" (Go): the similarity score. A
    first pass counts how often each right-hand number occurs; a second pass
    adds up each left-hand number times that count. Only lines with exactly
    two fields take part. */
module SimilarityScore {
  import opened Text

  /** Go's `m[k]` on a `map[int]int`: zero for a key that is not present. */
  function Lookup(m: map<int, int>, k: int): int {
    if k in m then m[k] else 0
  }

  /** Field `idx` of a line, as a Go `int`, when the line has exactly two
      fields and that field parses. */
  function PairField(line: string, idx: nat): (r: Option<int>)
    requires idx < 2
    ensures r.Some? ==> |Fields(line)| == 2 && I64Min <= r.value <= I64Max
  {
    var nums := Fields(line);
    if |nums| != 2 then None else ParseI64(nums[idx])
  }

  /** The sum of `f` over `lines`, accumulated front to back. */
  function SumOf(lines: seq<string>, f: string -> int): int {
    if lines == [] then 0 else SumOf(lines[..|lines| - 1], f) + f(lines[|lines| - 1])
  }

  /** 1 when the line's right field is `v`, else 0. */
  function RightMatch(line: string, v: int): int {
    if PairField(line, 1) == Some(v) then 1 else 0
  }

  /** How many two-field lines have a right field that parses to `v`. */
  function RightCount(lines: seq<string>, v: int): int {
    SumOf(lines, line => RightMatch(line, v))
  }

  /** A line's term of the score: its left value times `count` of it, or 0
      when the line has no usable left value. */
  function LineScore(line: string, count: int -> int): int {
    match PairField(line, 0)
    case Some(left) => left * count(left)
    case None => 0
  }

  /** The score of `lines` when each left value `l` is weighted by `count(l)`. */
  function ScoreWith(lines: seq<string>, count: int -> int): int {
    SumOf(lines, line => LineScore(line, count))
  }

  /** The similarity score the program computes: each usable left value
      times the number of lines whose right value equals it. */
  function Similarity(lines: seq<string>): int {
    ScoreWith(lines, v => RightCount(lines, v))
  }

  // ---------------------------------------------------------------------
  // The two passes

  lemma RightCountSnoc(lines: seq<string>, n: nat, v: int)
    requires n < |lines|
    ensures RightCount(lines[..n + 1], v) == RightCount(lines[..n], v) + RightMatch(lines[n], v)
  {
    assert lines[..n + 1][..n] == lines[..n];
  }

  /** Pass one: `rightFreq[rightNum]++` for every two-field line whose right
      field parses. */
  method BuildFrequencies(lines: seq<string>) returns (rightFreq: map<int, int>)
    ensures forall v :: Lookup(rightFreq, v) == RightCount(lines, v)
    ensures forall v :: v in rightFreq ==> rightFreq[v] > 0
  {
    rightFreq := map[];
    for n := 0 to |lines|
      invariant forall v :: Lookup(rightFreq, v) == RightCount(lines[..n], v)
      invariant forall v :: v in rightFreq ==> rightFreq[v] > 0
    {
      forall v ensures RightCount(lines[..n + 1], v) == RightCount(lines[..n], v) + RightMatch(lines[n], v) {
        RightCountSnoc(lines, n, v);
      }
      var nums := Fields(lines[n]);
      if |nums| != 2 {
        continue;
      }
      var rightNum := ParseI64(nums[1]);
      if rightNum.None? {
        continue;
      }
      rightFreq := rightFreq[rightNum.value := Lookup(rightFreq, rightNum.value) + 1];
    }
    assert lines[..|lines|] == lines;
  }

  /** Pass two: `totalScore += leftNum * rightFreq[leftNum]` for every
      two-field line whose left field parses. */
  method ScoreLines(lines: seq<string>, rightFreq: map<int, int>) returns (totalScore: int)
    ensures totalScore == ScoreWith(lines, v => Lookup(rightFreq, v))
  {
    ghost var count := v => Lookup(rightFreq, v);
    totalScore := 0;
    for n := 0 to |lines|
      invariant totalScore == ScoreWith(lines[..n], count)
    {
      assert lines[..n + 1][..n] == lines[..n];
      var nums := Fields(lines[n]);
      if |nums| != 2 {
        continue;
      }
      var leftNum := ParseI64(nums[0]);
      if leftNum.None? {
        continue;
      }
      totalScore := totalScore + leftNum.value * Lookup(rightFreq, leftNum.value);
    }
    assert lines[..|lines|] == lines;
  }

  /** `calculateSimilarityScore` without its I/O: both passes over the same
      lines. */
  method CalculateSimilarityScore(lines: seq<string>) returns (score: int)
    ensures score == Similarity(lines)
  {
    var rightFreq := BuildFrequencies(lines);
    score := ScoreLines(lines, rightFreq);
    ScoreWithPointwise(lines, v => Lookup(rightFreq, v), v => RightCount(lines, v));
  }

  // ---------------------------------------------------------------------
  // Properties of the score

  lemma {:induction false} SumOfPointwise(lines: seq<string>, f: string -> int, g: string -> int)
    requires forall k :: 0 <= k < |lines| ==> f(lines[k]) == g(lines[k])
    ensures SumOf(lines, f) == SumOf(lines, g)
  {
    if lines != [] {
      SumOfPointwise(lines[..|lines| - 1], f, g);
    }
  }

  /** The score only depends on the weights of the values it meets. */
  lemma ScoreWithPointwise(lines: seq<string>, c: int -> int, d: int -> int)
    requires forall v :: c(v) == d(v)
    ensures ScoreWith(lines, c) == ScoreWith(lines, d)
  {
    SumOfPointwise(lines, line => LineScore(line, c), line => LineScore(line, d));
  }

  lemma {:induction false} SumOfAppend(a: seq<string>, b: seq<string>, f: string -> int)
    ensures SumOf(a + b, f) == SumOf(a, f) + SumOf(b, f)
    decreases |b|
  {
    if b == [] {
      assert a + b == a;
    } else {
      var n := |b| - 1;
      assert (a + b)[..|a + b| - 1] == a + b[..n];
      SumOfAppend(a, b[..n], f);
    }
  }

  /** A sum of per-line terms does not depend on the order of the lines. */
  lemma {:induction false} SumOfPermutation(a: seq<string>, b: seq<string>, f: string -> int)
    requires multiset(a) == multiset(b)
    ensures SumOf(a, f) == SumOf(b, f)
    decreases |a|
  {
    if a == [] {
      assert |multiset(b)| == 0;
    } else {
      var n := |a| - 1;
      var x := a[n];
      assert x in multiset(b);
      var k :| 0 <= k < |b| && b[k] == x;
      var rest := b[..k] + b[k + 1..];
      assert b == b[..k] + [x] + b[k + 1..];
      assert a == a[..n] + [x];
      assert multiset(b) == multiset(b[..k]) + multiset{x} + multiset(b[k + 1..]);
      assert multiset(rest) == multiset(b[..k]) + multiset(b[k + 1..]);
      assert multiset(rest) == multiset(b) - multiset{x};
      assert multiset(a[..n]) == multiset(a) - multiset{x};
      assert multiset(a[..n]) == multiset(rest);
      SumOfPermutation(a[..n], rest, f);
      SumOfAppend(b[..k] + [x], b[k + 1..], f);
      SumOfAppend(b[..k], [x], f);
      SumOfAppend(b[..k], b[k + 1..], f);
      assert SumOf([x], f) == f(x) by {
        assert [x][..0] == [];
      }
    }
  }

  /** The score does not depend on the order of the lines: the frequency
      map is fixed after pass one and the score is a sum of per-line terms. */
  lemma SimilarityOrderIndependent(lines: seq<string>, shuffled: seq<string>)
    requires multiset(lines) == multiset(shuffled)
    ensures Similarity(shuffled) == Similarity(lines)
  {
    forall v ensures RightCount(shuffled, v) == RightCount(lines, v) {
      SumOfPermutation(lines, shuffled, line => RightMatch(line, v));
    }
    ScoreWithPointwise(shuffled, v => RightCount(shuffled, v), v => RightCount(lines, v));
    SumOfPermutation(lines, shuffled, line => LineScore(line, v => RightCount(lines, v)));
  }

  /** Lines without exactly two fields take part in neither pass. */
  lemma OtherLinesIgnored(lines: seq<string>, line: string)
    requires |Fields(line)| != 2
    ensures forall v :: RightCount(lines + [line], v) == RightCount(lines, v)
    ensures forall c: int -> int :: LineScore(line, c) == 0
    ensures Similarity(lines + [line]) == Similarity(lines)
  {
    var all := lines + [line];
    assert all[..|all| - 1] == lines;
    forall v ensures RightCount(all, v) == RightCount(lines, v) {
    }
    ScoreWithPointwise(lines, v => RightCount(all, v), v => RightCount(lines, v));
  }

  /** A left value that never occurs on the right contributes nothing: the
      frequency map answers 0 for a missing key. */
  lemma AbsentLeftScoresZero(lines: seq<string>, line: string, left: int)
    requires PairField(line, 0) == Some(left)
    requires forall k :: 0 <= k < |lines| ==> PairField(lines[k], 1) != Some(left)
    ensures RightCount(lines, left) == 0
    ensures LineScore(line, v => RightCount(lines, v)) == 0
  {
    SumOfPointwise(lines, line => RightMatch(line, left), line => 0);
    SumOfZero(lines);
  }

  lemma {:induction false} SumOfZero(lines: seq<string>)
    ensures SumOf(lines, line => 0) == 0
  {
    if lines != [] {
      SumOfZero(lines[..|lines| - 1]);
    }
  }

  lemma SumOfTwo(a: string, b: string, f: string -> int)
    ensures SumOf([a, b], f) == f(a) + f(b)
  {
    assert [a][..0] == [];
    assert SumOf([a], f) == f(a);
    assert [a, b][..1] == [a];
  }

  /** The pair fields of a line made of two tokens joined by a space. */
  lemma PairFieldsOfJoin(l: string, r: string)
    requires IsToken(l) && IsToken(r)
    ensures PairField(JoinFields([l, r]), 0) == ParseI64(l)
    ensures PairField(JoinFields([l, r]), 1) == ParseI64(r)
  {
    FieldsJoinRoundTrip([l, r]);
  }

  lemma ExampleLines()
    ensures PairField("3 x", 0) == Some(3) && PairField("3 x", 1) == None
    ensures PairField("1 3", 0) == Some(1) && PairField("1 3", 1) == Some(3)
    ensures PairField("x 3", 0) == None && PairField("x 3", 1) == Some(3)
    ensures PairField("3 4", 0) == Some(3) && PairField("3 4", 1) == Some(4)
  {
    assert JoinFields(["3", "x"]) == "3 x";
    assert JoinFields(["1", "3"]) == "1 3";
    assert JoinFields(["x", "3"]) == "x 3";
    assert JoinFields(["3", "4"]) == "3 4";
    assert ParseI64("1") == Some(1);
    assert ParseI64("3") == Some(3);
    assert ParseI64("4") == Some(4);
    assert ParseI64("x") == None;
    PairFieldsOfJoin("3", "x");
    PairFieldsOfJoin("1", "3");
    PairFieldsOfJoin("x", "3");
    PairFieldsOfJoin("3", "4");
  }

  /** The two passes look at different fields: a line whose right field does
      not parse can still score with its left value. */
  lemma RightUnparsedStillScores()
    ensures Similarity(["3 x", "1 3"]) == 3
  {
    ExampleLines();
    var lines := ["3 x", "1 3"];
    SumOfTwo("3 x", "1 3", line => RightMatch(line, 3));
    SumOfTwo("3 x", "1 3", line => RightMatch(line, 1));
    assert RightCount(lines, 3) == 1;
    assert RightCount(lines, 1) == 0;
    SumOfTwo("3 x", "1 3", line => LineScore(line, v => RightCount(lines, v)));
  }

  /** A line whose left field does not parse can still be counted on the
      right. */
  lemma LeftUnparsedStillCounted()
    ensures Similarity(["x 3", "3 4"]) == 3
  {
    ExampleLines();
    var lines := ["x 3", "3 4"];
    SumOfTwo("x 3", "3 4", line => RightMatch(line, 3));
    assert RightCount(lines, 3) == 1;
    SumOfTwo("x 3", "3 4", line => LineScore(line, v => RightCount(lines, v)));
  }
}
