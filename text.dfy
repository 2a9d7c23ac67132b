/** Text handling shared by the three programs: ASCII whitespace, splitting a
    line into whitespace-separated fields, and decimal integer parsing with
    the range check of a fixed-width integer type. */
module Text {

  datatype Option<T> = None | Some(value: T)

  /** The magnitude of an integer. */
  function Abs(x: int): nat {
    if x < 0 then -x else x
  }

  /** Rust's `u8::is_ascii_whitespace`: space, tab, line feed, form feed and
      carriage return (vertical tab is not included). */
  predicate IsAsciiWhitespace(c: char) {
    c == ' ' || c == '\t' || c == '\n' || c == '\U{0C}' || c == '\r'
  }

  /** The first index at or after `i` that does not hold whitespace
      (`|s|` when there is none). */
  function SkipSpace(s: string, i: nat): (r: nat)
    requires i <= |s|
    ensures i <= r <= |s|
    ensures forall k :: i <= k < r ==> IsAsciiWhitespace(s[k])
    ensures r < |s| ==> !IsAsciiWhitespace(s[r])
    decreases |s| - i
  {
    if i == |s| || !IsAsciiWhitespace(s[i]) then i else SkipSpace(s, i + 1)
  }

  /** The first index at or after `i` that holds whitespace (`|s|` when
      there is none): the end of the token starting at `i`. */
  function TokenEnd(s: string, i: nat): (r: nat)
    requires i <= |s|
    ensures i <= r <= |s|
    ensures forall k :: i <= k < r ==> !IsAsciiWhitespace(s[k])
    ensures r < |s| ==> IsAsciiWhitespace(s[r])
    decreases |s| - i
  {
    if i == |s| || IsAsciiWhitespace(s[i]) then i else TokenEnd(s, i + 1)
  }

  /** A non-empty string with no whitespace in it. */
  predicate IsToken(t: string) {
    t != [] && forall k :: 0 <= k < |t| ==> !IsAsciiWhitespace(t[k])
  }

  /** The maximal runs of non-whitespace characters of `s[i..]`, in order. */
  function FieldsFrom(s: string, i: nat): (r: seq<string>)
    requires i <= |s|
    ensures forall j :: 0 <= j < |r| ==> IsToken(r[j])
    decreases |s| - i
  {
    var a := SkipSpace(s, i);
    if a == |s| then []
    else
      var b := TokenEnd(s, a);
      [s[a..b]] + FieldsFrom(s, b)
  }

  /** Splitting a line on runs of whitespace, as `split_whitespace` and
      `strings.Fields` do: no empty fields, leading and trailing whitespace
      ignored. */
  function Fields(s: string): seq<string> {
    FieldsFrom(s, 0)
  }

  /** The characters of `s` that are not whitespace, in order: a reference
      for what the fields of `s` are made of. */
  function NonWhitespace(s: string): (r: string)
    ensures |r| <= |s|
  {
    if s == [] then []
    else (if IsAsciiWhitespace(s[0]) then [] else [s[0]]) + NonWhitespace(s[1..])
  }

  function Concat(ts: seq<string>): string {
    if ts == [] then [] else ts[0] + Concat(ts[1..])
  }

  lemma {:induction false} NonWhitespaceSkip(s: string, i: nat, a: nat)
    requires i <= a <= |s|
    requires forall k :: i <= k < a ==> IsAsciiWhitespace(s[k])
    ensures NonWhitespace(s[i..]) == NonWhitespace(s[a..])
    decreases a - i
  {
    if i < a {
      assert s[i..][1..] == s[i + 1..];
      NonWhitespaceSkip(s, i + 1, a);
    }
  }

  lemma {:induction false} NonWhitespaceToken(s: string, a: nat, b: nat)
    requires a <= b <= |s|
    requires forall k :: a <= k < b ==> !IsAsciiWhitespace(s[k])
    ensures NonWhitespace(s[a..]) == s[a..b] + NonWhitespace(s[b..])
    decreases b - a
  {
    if a < b {
      assert s[a..][1..] == s[a + 1..];
      NonWhitespaceToken(s, a + 1, b);
      assert s[a..b] == [s[a]] + s[a + 1..b];
    }
  }

  lemma {:induction false} FieldsFromCover(s: string, i: nat)
    requires i <= |s|
    ensures Concat(FieldsFrom(s, i)) == NonWhitespace(s[i..])
    decreases |s| - i
  {
    var a := SkipSpace(s, i);
    NonWhitespaceSkip(s, i, a);
    if a < |s| {
      var b := TokenEnd(s, a);
      NonWhitespaceToken(s, a, b);
      FieldsFromCover(s, b);
      var r := FieldsFrom(s, i);
      assert r[0] == s[a..b] && r[1..] == FieldsFrom(s, b);
    } else {
      assert s[a..] == [];
    }
  }

  /** Joining the fields of a line gives back every non-whitespace
      character of the line, in order: no character is lost or invented. */
  lemma FieldsCoverLine(s: string)
    ensures Concat(Fields(s)) == NonWhitespace(s)
  {
    FieldsFromCover(s, 0);
    assert s[0..] == s;
  }

  /** Where field `j` of `s[i..]` lies: a span that starts at `i` or just
      after whitespace and ends at the end of `s` or just before whitespace. */
  lemma {:induction false} FieldSpan(s: string, i: nat, j: nat) returns (a: nat, b: nat)
    requires i <= |s| && j < |FieldsFrom(s, i)|
    ensures i <= a < b <= |s| && FieldsFrom(s, i)[j] == s[a..b]
    ensures a == i || IsAsciiWhitespace(s[a - 1])
    ensures b == |s| || IsAsciiWhitespace(s[b])
    decreases |s| - i
  {
    var a0 := SkipSpace(s, i);
    var b0 := TokenEnd(s, a0);
    assert FieldsFrom(s, i) == [s[a0..b0]] + FieldsFrom(s, b0);
    if j == 0 {
      a, b := a0, b0;
      if a > i {
        assert IsAsciiWhitespace(s[a - 1]);
      }
    } else {
      assert FieldsFrom(s, i)[j] == FieldsFrom(s, b0)[j - 1];
      a, b := FieldSpan(s, b0, j - 1);
    }
  }

  /** Every field of a line is a maximal run of non-whitespace characters of
      it: it is a slice of the line, preceded by the start of the line or by
      whitespace, and followed by the end of the line or by whitespace. */
  lemma FieldsAreMaximalRuns(s: string, j: nat)
    requires j < |Fields(s)|
    ensures exists a: nat, b: nat ::
      && a < b <= |s| && Fields(s)[j] == s[a..b]
      && (a == 0 || IsAsciiWhitespace(s[a - 1]))
      && (b == |s| || IsAsciiWhitespace(s[b]))
  {
    var a, b := FieldSpan(s, 0, j);
  }

  /** A line has no fields exactly when it is blank or whitespace only. */
  lemma FieldsEmptyIffBlank(s: string)
    ensures Fields(s) == [] <==> forall k :: 0 <= k < |s| ==> IsAsciiWhitespace(s[k])
  {
    var a := SkipSpace(s, 0);
    if a < |s| {
      assert !IsAsciiWhitespace(s[a]);
    }
  }

  /** `SkipSpace` is the first non-whitespace index at or after `i`. */
  lemma {:induction false} SkipSpaceAt(s: string, i: nat, r: nat)
    requires i <= r <= |s|
    requires forall k :: i <= k < r ==> IsAsciiWhitespace(s[k])
    requires r < |s| ==> !IsAsciiWhitespace(s[r])
    ensures SkipSpace(s, i) == r
    decreases r - i
  {
    if i < r {
      SkipSpaceAt(s, i + 1, r);
    }
  }

  /** `TokenEnd` is the first whitespace index at or after `i`. */
  lemma {:induction false} TokenEndAt(s: string, i: nat, r: nat)
    requires i <= r <= |s|
    requires forall k :: i <= k < r ==> !IsAsciiWhitespace(s[k])
    requires r < |s| ==> IsAsciiWhitespace(s[r])
    ensures TokenEnd(s, i) == r
    decreases r - i
  {
    if i < r {
      TokenEndAt(s, i + 1, r);
    }
  }

  /** Tokens joined by single spaces. */
  function JoinFields(ts: seq<string>): string {
    if ts == [] then []
    else if |ts| == 1 then ts[0]
    else ts[0] + " " + JoinFields(ts[1..])
  }

  /** At the start of a token, `FieldsFrom` yields that token first. */
  lemma FieldsFromAtToken(s: string, a: nat, e: nat)
    requires a < e <= |s|
    requires forall k :: a <= k < e ==> !IsAsciiWhitespace(s[k])
    requires e < |s| ==> IsAsciiWhitespace(s[e])
    ensures FieldsFrom(s, a) == [s[a..e]] + FieldsFrom(s, e)
  {
    SkipSpaceAt(s, a, a);
    TokenEndAt(s, a, e);
  }

  /** A whitespace character before index `e + 1` changes nothing. */
  lemma FieldsFromSpace(s: string, e: nat)
    requires e < |s| && IsAsciiWhitespace(s[e])
    ensures FieldsFrom(s, e) == FieldsFrom(s, e + 1)
  {
    assert SkipSpace(s, e) == SkipSpace(s, e + 1);
  }

  /** The last token of a join: it runs to the end of the line. */
  lemma FieldsFromLastToken(p: string, t: string)
    requires IsToken(t)
    ensures FieldsFrom(p + t, |p|) == [t]
  {
    var s := p + t;
    assert forall k :: |p| <= k < |s| ==> s[k] == t[k - |p|];
    FieldsFromAtToken(s, |p|, |s|);
    assert s[|p|..|s|] == t;
    SkipSpaceAt(s, |s|, |s|);
  }

  /** A token followed by a space: the fields continue after the space. */
  lemma FieldsFromTokenSpace(p: string, t: string, rest: string)
    requires IsToken(t)
    ensures FieldsFrom(p + t + " " + rest, |p|) == [t] + FieldsFrom(p + t + " " + rest, |p + t + " "|)
  {
    var s := p + t + " " + rest;
    var e := |p| + |t|;
    assert forall k :: |p| <= k < e ==> s[k] == t[k - |p|];
    assert s[e] == ' ';
    FieldsFromAtToken(s, |p|, e);
    assert s[|p|..e] == t;
    FieldsFromSpace(s, e);
  }

  lemma {:induction false} FieldsFromJoin(p: string, ts: seq<string>)
    requires forall j :: 0 <= j < |ts| ==> IsToken(ts[j])
    ensures FieldsFrom(p + JoinFields(ts), |p|) == ts
    decreases |ts|
  {
    if ts == [] {
      assert p + JoinFields(ts) == p;
      SkipSpaceAt(p, |p|, |p|);
    } else if |ts| == 1 {
      FieldsFromLastToken(p, ts[0]);
    } else {
      var t, rest := ts[0], JoinFields(ts[1..]);
      assert JoinFields(ts) == t + " " + rest;
      assert p + JoinFields(ts) == p + t + " " + rest;
      FieldsFromTokenSpace(p, t, rest);
      var p' := p + t + " ";
      assert p + t + " " + rest == p' + rest;
      FieldsFromJoin(p', ts[1..]);
      assert ts == [t] + ts[1..];
    }
  }

  /** Splitting tokens joined by spaces gives the tokens back. */
  lemma FieldsJoinRoundTrip(ts: seq<string>)
    requires forall j :: 0 <= j < |ts| ==> IsToken(ts[j])
    ensures Fields(JoinFields(ts)) == ts
  {
    FieldsFromJoin([], ts);
    assert [] + JoinFields(ts) == JoinFields(ts);
  }

  // ---------------------------------------------------------------------
  // Decimal integers

  predicate IsDigit(c: char) {
    '0' <= c <= '9'
  }

  predicate AllDigits(s: string) {
    forall k :: 0 <= k < |s| ==> IsDigit(s[k])
  }

  /** The value of a string of decimal digits, most significant first. */
  function DigitsValue(s: string): nat
    requires AllDigits(s)
  {
    if s == [] then 0
    else DigitsValue(s[..|s| - 1]) * 10 + (s[|s| - 1] as int - '0' as int)
  }

  /** The decimal text of a signed integer, as `str::parse` and
      `strconv.Atoi` read it: an optional `+` or `-`, then one or more ASCII
      digits, and nothing else. The value is not range-checked here. */
  function ParseDecimal(s: string): (r: Option<int>)
    ensures r.Some? ==> IsToken(s)
  {
    if |s| > 0 && (s[0] == '+' || s[0] == '-') then
      var digits := s[1..];
      if digits != [] && AllDigits(digits) then
        var magnitude: int := DigitsValue(digits);
        Some(if s[0] == '-' then -magnitude else magnitude)
      else None
    else if s != [] && AllDigits(s) then Some(DigitsValue(s))
    else None
  }

  /** Parsing into an integer type with range `lo..hi`: text that is not a
      decimal integer, or whose value is out of range, is an error. */
  function ParseInt(s: string, lo: int, hi: int): (r: Option<int>)
    ensures r.Some? ==> lo <= r.value <= hi && ParseDecimal(s) == Some(r.value)
    ensures r.None? ==> ParseDecimal(s).None? || ParseDecimal(s).value < lo || hi < ParseDecimal(s).value
  {
    match ParseDecimal(s)
    case Some(n) => if lo <= n <= hi then Some(n) else None
    case None => None
  }

  const I32Min: int := -0x8000_0000
  const I32Max: int := 0x7FFF_FFFF
  const I64Min: int := -0x8000_0000_0000_0000
  const I64Max: int := 0x7FFF_FFFF_FFFF_FFFF

  /** `s.parse::<i32>().ok()` */
  function ParseI32(s: string): Option<int> {
    ParseInt(s, I32Min, I32Max)
  }

  /** `s.parse::<i64>().ok()`, and `strconv.Atoi` on a 64-bit platform. */
  function ParseI64(s: string): Option<int> {
    ParseInt(s, I64Min, I64Max)
  }

  // ---------------------------------------------------------------------
  // Formatting, the inverse of parsing

  function DigitChar(d: nat): (c: char)
    requires d < 10
    ensures IsDigit(c) && c as int - '0' as int == d
  {
    ('0' as int + d) as char
  }

  /** The shortest decimal text of a natural number. */
  function NatDigits(n: nat): string
    decreases n
  {
    if n < 10 then [DigitChar(n)] else NatDigits(n / 10) + [DigitChar(n % 10)]
  }

  function FormatInt(n: int): string {
    if n < 0 then "-" + NatDigits(-n) else NatDigits(n)
  }

  lemma {:induction false} NatDigitsValue(n: nat)
    ensures NatDigits(n) != [] && AllDigits(NatDigits(n))
    ensures DigitsValue(NatDigits(n)) == n
    decreases n
  {
    if n >= 10 {
      NatDigitsValue(n / 10);
      var s := NatDigits(n);
      assert s[..|s| - 1] == NatDigits(n / 10);
    }
  }

  /** A range-checked parse of an integer's decimal text gives the integer
      back exactly when it lies in the range, and fails otherwise. */
  lemma ParseIntFormat(n: int, lo: int, hi: int)
    ensures ParseInt(FormatInt(n), lo, hi) == if lo <= n <= hi then Some(n) else None
  {
    ParseFormatRoundTrip(n);
  }

  /** Parsing the formatted text of any integer gives the integer back. */
  lemma ParseFormatRoundTrip(n: int)
    ensures ParseDecimal(FormatInt(n)) == Some(n)
  {
    if n < 0 {
      NatDigitsValue(-n);
      assert FormatInt(n)[1..] == NatDigits(-n);
    } else {
      NatDigitsValue(n);
      assert IsDigit(NatDigits(n)[0]);
    }
  }
}
