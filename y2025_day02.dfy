/** 2025 day 2: product IDs whose decimal form is a digit pattern repeated
    exactly twice (part 1) or at least twice (part 2) are invalid; the answer
    sums the invalid IDs of every inclusive ID range. */
module RepeatedIds {
  import opened Common

  /** `t` written `k` times in a row (`pattern * repeats`). */
  function Repeat(t: string, k: nat): string {
    if k == 0 then [] else Repeat(t, k - 1) + t
  }

  lemma {:induction false} RepeatLength(t: string, k: nat)
    ensures |Repeat(t, k)| == k * |t|
  {
    if k > 0 {
      RepeatLength(t, k - 1);
      assert k * |t| == (k - 1) * |t| + |t|;
    }
  }

  /** Block `q` of `Repeat(t, k)` is `t` again. */
  lemma {:induction false} RepeatAt(t: string, k: nat, q: nat, r: nat)
    requires q < k && r < |t|
    ensures q * |t| + r < |Repeat(t, k)| && Repeat(t, k)[q * |t| + r] == t[r]
  {
    RepeatLength(t, k - 1);
    RepeatLength(t, k);
    assert k * |t| == (k - 1) * |t| + |t|;
    if q < k - 1 {
      RepeatAt(t, k - 1, q, r);
      assert q * |t| + r < (k - 1) * |t|;
    } else {
      assert q * |t| == (k - 1) * |t|;
    }
  }

  lemma LemmaHalfDivisor(len: nat, p: nat)
    requires 1 <= p <= len / 2
    ensures len / p >= 2
  {
    var q := len / p;
    assert len == q * p + len % p;
  }

  /** `is_invalid_id_part1`: the decimal string has even length and equal halves. */
  predicate IsInvalidPart1(n: int)
    ensures IsInvalidPart1(n) <==> exists t: string :: t != [] && t + t == IntToString(n)
  {
    var s := IntToString(n);
    EqualHalvesMeaning(s);
    |s| % 2 == 0 && s[..|s| / 2] == s[|s| / 2..]
  }

  /** Equal halves are exactly a non-empty text written twice. */
  lemma EqualHalvesMeaning(s: string)
    requires |s| >= 1
    ensures (|s| % 2 == 0 && s[..|s| / 2] == s[|s| / 2..]) <==> exists t: string :: t != [] && t + t == s
  {
    if |s| % 2 == 0 && s[..|s| / 2] == s[|s| / 2..] {
      var t := s[..|s| / 2];
      assert t + t == s;
    }
    if exists t: string :: t != [] && t + t == s {
      var t: string :| t != [] && t + t == s;
      assert s[..|s| / 2] == t && s[|s| / 2..] == t;
    }
  }

  /** The prefix of length `p` repeated `|s| / p` times is exactly `s`. */
  predicate PatternFits(s: string, p: int) {
    1 <= p <= |s| && |s| % p == 0 && Repeat(s[..p], |s| / p) == s
  }

  /** Part 2 in the terms of its search: some pattern length up to half the
      string divides the length, and the prefix of that length repeated fills it. */
  ghost predicate RepeatsSomePrefix(s: string) {
    exists p :: p <= |s| / 2 && PatternFits(s, p)
  }

  ghost predicate IsInvalidPart2(n: int) {
    RepeatsSomePrefix(IntToString(n))
  }

  /** `is_invalid_id_part2`: tries every pattern length from 1 to half the
      length and returns as soon as one repeats to the whole string. */
  method IsInvalidIdPart2(n: int) returns (invalid: bool)
    ensures invalid == IsInvalidPart2(n)
  {
    var s := IntToString(n);
    var length := |s|;
    for patternLen := 1 to length / 2 + 1
      invariant forall p :: p < patternLen ==> !PatternFits(s, p)
    {
      if length % patternLen == 0 {
        var pattern := s[..patternLen];
        var repeats := length / patternLen;
        assert repeats >= 2 by { LemmaHalfDivisor(length, patternLen); }
        if repeats >= 2 && Repeat(pattern, repeats) == s {
          assert PatternFits(s, patternLen);
          return true;
        }
      }
    }
    return false;
  }

  /** Part 2's search finds a pattern exactly when the string is some string
      repeated at least twice. */
  lemma RepeatsSomePrefixMeaning(s: string)
    ensures RepeatsSomePrefix(s) <==> exists t: string, k: nat :: k >= 2 && t != [] && Repeat(t, k) == s
  {
    if RepeatsSomePrefix(s) {
      var p :| p <= |s| / 2 && PatternFits(s, p);
      LemmaHalfDivisor(|s|, p);
      assert Repeat(s[..p], |s| / p) == s;
    }
    if exists t: string, k: nat :: k >= 2 && t != [] && Repeat(t, k) == s {
      var t: string, k: nat :| k >= 2 && t != [] && Repeat(t, k) == s;
      RepetitionFits(t, k);
    }
  }

  /** A pattern repeated `k >= 2` times is found by the search, at the
      pattern's own length. */
  lemma RepetitionFits(t: string, k: nat)
    requires k >= 2 && t != []
    ensures |t| <= |Repeat(t, k)| / 2 && PatternFits(Repeat(t, k), |t|)
    ensures RepeatsSomePrefix(Repeat(t, k))
  {
    var s := Repeat(t, k);
    RepeatCount(t, k);
    RepeatPrefix(t, k);
    assert s[..|t|] == t && |s| / |t| == k;
    assert Repeat(s[..|t|], |s| / |t|) == s;
    assert PatternFits(s, |t|);
  }

  lemma RepeatCount(t: string, k: nat)
    requires k >= 2 && t != []
    ensures |Repeat(t, k)| % |t| == 0 && |Repeat(t, k)| / |t| == k && |t| <= |Repeat(t, k)| / 2
  {
    RepeatLength(t, k);
    LemmaMulDiv(k, |t|);
  }

  /** The first block of a repetition is the pattern. */
  lemma RepeatPrefix(t: string, k: nat)
    requires k >= 1
    ensures |t| <= |Repeat(t, k)| && Repeat(t, k)[..|t|] == t
  {
    var s := Repeat(t, k);
    RepeatLength(t, k);
    assert |t| <= |s| by { assert k * |t| >= |t|; }
    forall i | 0 <= i < |t| ensures s[i] == t[i] {
      RepeatAt(t, k, 0, i);
    }
  }

  lemma LemmaMulDiv(k: nat, p: nat)
    requires k >= 2 && p >= 1
    ensures (k * p) % p == 0 && (k * p) / p == k && p <= (k * p) / 2
  {
    DivModUnique(k * p, p, k, 0);
    assert k * p >= 2 * p;
  }

  /** A number that is a pattern repeated exactly twice is also invalid under
      part 2, with the pattern length half the length. */
  lemma Part1ImpliesPart2(n: int)
    requires IsInvalidPart1(n)
    ensures IsInvalidPart2(n)
  {
    EqualHalvesRepeat(IntToString(n));
  }

  lemma EqualHalvesRepeat(s: string)
    requires |s| >= 1 && |s| % 2 == 0 && s[..|s| / 2] == s[|s| / 2..]
    ensures RepeatsSomePrefix(s)
  {
    var p := |s| / 2;
    assert s == s[..p] + s[p..];
    assert Repeat(s[..p], 2) == Repeat(s[..p], 1) + s[..p] == s[..p] + s[..p];
    DivModUnique(|s|, p, 2, 0);
    assert PatternFits(s, p);
  }

  /** A string whose first character never occurs again is not a repetition:
      the second copy would start with that character. */
  lemma UniqueHeadNoRepeat(s: string)
    requires |s| >= 1 && forall i :: 1 <= i < |s| ==> s[i] != s[0]
    ensures !RepeatsSomePrefix(s)
    ensures |s| % 2 == 0 ==> s[..|s| / 2] != s[|s| / 2..]
  {
    forall p | p <= |s| / 2
      ensures !PatternFits(s, p)
    {
      SecondCopyHead(s, p);
    }
    if |s| % 2 == 0 {
      var h := |s| / 2;
      assert s[h..][0] != s[..h][0];
    }
  }

  /** A fitting pattern of at most half the length repeats at least twice,
      so the character after the first copy is the first character again. */
  lemma SecondCopyHead(s: string, p: int)
    requires p <= |s| / 2
    ensures PatternFits(s, p) ==> 1 <= p < |s| && s[p] == s[0]
  {
    if PatternFits(s, p) {
      LemmaHalfDivisor(|s|, p);
      RepeatAt(s[..p], |s| / p, 1, 0);
      assert s[p] == s[0];
    }
  }

  /** One-digit numbers and negative numbers are never invalid: a one-character
      string has no pattern, and a leading '-' can never repeat. */
  lemma SmallAndNegativeValid(n: int)
    requires n < 10
    ensures !IsInvalidPart1(n) && !IsInvalidPart2(n)
  {
    var s := IntToString(n);
    if n < 0 {
      var digits := NatToString(-n);
      assert s == "-" + digits;
      assert forall i :: 1 <= i < |s| ==> s[i] == digits[i - 1];
    }
    UniqueHeadNoRepeat(s);
  }

  /** Which checker a range scan uses. */
  datatype Checker = RepeatedTwice | RepeatedAtLeastTwice

  ghost predicate Accepts(checker: Checker, n: int) {
    match checker
    case RepeatedTwice => IsInvalidPart1(n)
    case RepeatedAtLeastTwice => IsInvalidPart2(n)
  }

  /** `checker(n)` */
  method RunChecker(checker: Checker, n: int) returns (invalid: bool)
    ensures invalid == Accepts(checker, n)
  {
    match checker {
      case RepeatedTwice => invalid := IsInvalidPart1(n);
      case RepeatedAtLeastTwice => invalid := IsInvalidIdPart2(n);
    }
  }

  /** `find_invalid_ids_in_range`: the accepted numbers of `[start, end]`,
      ascending. */
  method FindInvalidIdsInRange(start: int, end: int, checker: Checker) returns (ids: seq<int>)
    ensures forall i, j :: 0 <= i < j < |ids| ==> ids[i] < ids[j]
    ensures forall n :: n in ids <==> start <= n <= end && Accepts(checker, n)
    ensures ids == InvalidIds(start, end, checker)
  {
    ids := [];
    var n := start;
    while n < end + 1
      invariant n == start || start <= n <= end + 1
      invariant ids == InvalidIds(start, n - 1, checker)
    {
      var invalid := RunChecker(checker, n);
      ScanStep(start, n, checker, invalid);
      if invalid {
        ids := ids + [n];
      }
      n := n + 1;
    }
    assert n - 1 == end || end < start;
    assert InvalidIds(start, n - 1, checker) == InvalidIds(start, end, checker) by {
      if end < start { assert n - 1 < start; }
    }
    InvalidIdsMeaning(start, end, checker);
  }

  lemma ScanStep(start: int, n: int, checker: Checker, invalid: bool)
    requires start <= n && invalid == Accepts(checker, n)
    ensures InvalidIds(start, n, checker) == InvalidIds(start, n - 1, checker) + (if invalid then [n] else [])
  {
  }

  /** The specification of the range scan. */
  ghost function InvalidIds(start: int, end: int, checker: Checker): seq<int> {
    Select(start, end, n => Accepts(checker, n))
  }

  /** The integers of `[start, end]` that satisfy `p`, ascending. */
  ghost function Select(start: int, end: int, p: int -> bool): seq<int>
    decreases end - start
  {
    if end < start then [] else Select(start, end - 1, p) + (if p(end) then [end] else [])
  }

  lemma {:induction false} SelectMeaning(start: int, end: int, p: int -> bool)
    ensures var ids := Select(start, end, p);
      && (forall i, j :: 0 <= i < j < |ids| ==> ids[i] < ids[j])
      && (forall n :: n in ids <==> start <= n <= end && p(n))
      && (forall i :: 0 <= i < |ids| ==> ids[i] <= end)
    decreases end - start
  {
    if end >= start {
      SelectMeaning(start, end - 1, p);
      var prev := Select(start, end - 1, p);
      var ids := Select(start, end, p);
      if p(end) {
        assert ids == prev + [end];
        assert forall i :: 0 <= i < |prev| ==> ids[i] == prev[i];
      } else {
        assert ids == prev;
      }
    }
  }

  lemma InvalidIdsMeaning(start: int, end: int, checker: Checker)
    ensures var ids := InvalidIds(start, end, checker);
      && (forall i, j :: 0 <= i < j < |ids| ==> ids[i] < ids[j])
      && (forall n :: n in ids <==> start <= n <= end && Accepts(checker, n))
  {
    SelectMeaning(start, end, n => Accepts(checker, n));
  }

  /** `solve_part1` / `solve_part2` over parsed ranges: the sum of the invalid
      IDs of each range, range after range. */
  method SumInvalidIds(ranges: seq<(int, int)>, checker: Checker) returns (total: int)
    ensures total == TotalInvalid(ranges, checker)
  {
    total := 0;
    for i := 0 to |ranges|
      invariant total == TotalInvalid(ranges[..i], checker)
    {
      assert ranges[..i + 1][..i] == ranges[..i];
      var ids := FindInvalidIdsInRange(ranges[i].0, ranges[i].1, checker);
      total := total + Sum(ids);
    }
    assert ranges[..|ranges|] == ranges;
  }

  ghost function TotalInvalid(ranges: seq<(int, int)>, checker: Checker): int {
    if ranges == [] then 0
    else
      var last := ranges[|ranges| - 1];
      TotalInvalid(ranges[..|ranges| - 1], checker) + Sum(InvalidIds(last.0, last.1, checker))
  }

  /** Every ID that is invalid under part 1 is invalid under part 2, so on
      ranges of non-negative IDs part 2's total is at least part 1's. */
  lemma {:induction false} Part1TotalAtMostPart2(ranges: seq<(int, int)>)
    requires forall i :: 0 <= i < |ranges| ==> ranges[i].0 >= 0
    ensures TotalInvalid(ranges, RepeatedTwice) <= TotalInvalid(ranges, RepeatedAtLeastTwice)
  {
    if ranges != [] {
      var last := ranges[|ranges| - 1];
      Part1TotalAtMostPart2(ranges[..|ranges| - 1]);
      RangeSumMonotone(last.0, last.1);
    }
  }

  lemma {:induction false} RangeSumMonotone(start: int, end: int)
    requires start >= 0
    ensures Sum(InvalidIds(start, end, RepeatedTwice)) <= Sum(InvalidIds(start, end, RepeatedAtLeastTwice))
    decreases end - start
  {
    if end >= start {
      RangeSumMonotone(start, end - 1);
      var p1 := n => Accepts(RepeatedTwice, n);
      var p2 := n => Accepts(RepeatedAtLeastTwice, n);
      var a := Select(start, end - 1, p1);
      var b := Select(start, end - 1, p2);
      var ea := if p1(end) then [end] else [];
      var eb := if p2(end) then [end] else [];
      assert InvalidIds(start, end, RepeatedTwice) == a + ea;
      assert InvalidIds(start, end, RepeatedAtLeastTwice) == b + eb;
      SumAppend(a, ea);
      SumAppend(b, eb);
      if p1(end) { Part1ImpliesPart2(end); }
    }
  }

  /** The worked examples of the tests for the exactly-twice checker. */
  lemma Part1Examples()
    ensures IsInvalidPart1(55) && IsInvalidPart1(6464) && IsInvalidPart1(123123) && IsInvalidPart1(1010)
  {
    AppendDigit(5, 5);
    assert IntToString(55) == "55";
    Numeral6464();
    Numeral123123();
    Numeral1010();
  }

  lemma Numeral6464()
    ensures IntToString(6464) == "6464"
  {
    AppendDigit(6, 4); AppendDigit(64, 6); AppendDigit(646, 4);
  }

  lemma Numeral123123()
    ensures IntToString(123123) == "123123"
  {
    AppendDigit(1, 2); AppendDigit(12, 3); AppendDigit(123, 1); AppendDigit(1231, 2); AppendDigit(12312, 3);
  }

  lemma Numeral1010()
    ensures IntToString(1010) == "1010"
  {
    AppendDigit(1, 0); AppendDigit(10, 1); AppendDigit(101, 0);
  }

  lemma Part1CounterExamples()
    ensures !IsInvalidPart1(101) && !IsInvalidPart1(12) && !IsInvalidPart1(111)
  {
    AppendDigit(1, 0); AppendDigit(10, 1); AppendDigit(1, 2); AppendDigit(1, 1); AppendDigit(11, 1);
    assert IntToString(101) == "101" && IntToString(12) == "12" && IntToString(111) == "111";
  }

  /** The worked examples of the tests for the at-least-twice checker. */
  lemma Part2Examples()
    ensures IsInvalidPart2(55) && IsInvalidPart2(111) && IsInvalidPart2(999)
  {
    RepdigitInvalid(5, 2);
    assert RepdigitValue(5, 2) == 55;
    RepdigitInvalid(1, 3);
    assert RepdigitValue(1, 3) == 111;
    RepdigitInvalid(9, 3);
    assert RepdigitValue(9, 3) == 999;
  }

  /** A digit written two or more times is invalid under part 2. */
  lemma RepdigitInvalid(d: nat, k: nat)
    requires 1 <= d < 10 && k >= 2
    ensures IsInvalidPart2(RepdigitValue(d, k))
  {
    Repdigit(d, k);
    RepetitionFits([DigitChar(d)], k);
  }

  /** The number whose text is the digit `d` written `k` times. */
  function RepdigitValue(d: nat, k: nat): nat {
    if k == 0 then 0 else 10 * RepdigitValue(d, k - 1) + d
  }

  lemma {:induction false} Repdigit(d: nat, k: nat)
    requires 1 <= d < 10 && k >= 1
    ensures IntToString(RepdigitValue(d, k)) == Repeat([DigitChar(d)], k)
  {
    if k > 1 {
      Repdigit(d, k - 1);
      RepdigitPositive(d, k - 1);
      AppendDigit(RepdigitValue(d, k - 1), d);
    }
  }

  lemma {:induction false} RepdigitPositive(d: nat, k: nat)
    requires 1 <= d < 10 && k >= 1
    ensures RepdigitValue(d, k) >= 1
  {
    if k > 1 { RepdigitPositive(d, k - 1); }
  }

  lemma Part2SevenOnesExample()
    ensures IsInvalidPart2(1111111)
  {
    RepdigitInvalid(1, 7);
    assert RepdigitValue(1, 7) == 1111111;
  }

  lemma Part2NineDigitExample()
    ensures IsInvalidPart2(123123123)
  {
    Numeral123123123();
    assert Repeat("123", 2) == "123123";
    assert Repeat("123", 3) == "123123123";
    RepetitionFits("123", 3);
  }

  lemma Numeral123123123()
    ensures IntToString(123123123) == "123123123"
  {
    Numeral123123();
    AppendDigit(123123, 1); AppendDigit(1231231, 2); AppendDigit(12312312, 3);
  }

  lemma Numeral12341234()
    ensures IntToString(12341234) == "12341234"
  {
    AppendDigit(1, 2); AppendDigit(12, 3); AppendDigit(123, 4);
    AppendDigit(1234, 1); AppendDigit(12341, 2); AppendDigit(123412, 3); AppendDigit(1234123, 4);
  }

  lemma Part2EightDigitExample()
    ensures IsInvalidPart2(12341234)
  {
    Numeral12341234();
    assert Repeat("1234", 2) == "12341234";
    RepetitionFits("1234", 2);
  }

  lemma Numeral1212121212()
    ensures IntToString(1212121212) == "1212121212"
  {
    AppendDigit(1, 2); AppendDigit(12, 1); AppendDigit(121, 2); AppendDigit(1212, 1); AppendDigit(12121, 2);
    AppendDigit(121212, 1); AppendDigit(1212121, 2); AppendDigit(12121212, 1); AppendDigit(121212121, 2);
  }

  lemma Part2LongExample()
    ensures IsInvalidPart2(1212121212)
  {
    Numeral1212121212();
    assert Repeat("12", 2) == "1212";
    assert Repeat("12", 3) == "121212";
    assert Repeat("12", 4) == "12121212";
    assert Repeat("12", 5) == "1212121212";
    RepetitionFits("12", 5);
  }

  lemma Part2CounterExamples()
    ensures !IsInvalidPart2(1234) && !IsInvalidPart2(101) && !IsInvalidPart2(12)
  {
    AppendDigit(1, 2); AppendDigit(12, 3); AppendDigit(123, 4);
    var s := "1234";
    assert IntToString(1234) == s;
    forall p | 1 <= p <= |s| / 2 && |s| % p == 0 ensures Repeat(s[..p], |s| / p) != s {
      if p == 1 {
        assert s[..1] == "1";
        RepeatAt("1", 4, 1, 0);
      } else {
        assert s[..2] == "12";
        RepeatAt("12", 2, 1, 0);
      }
    }
    AppendDigit(1, 0); AppendDigit(10, 1);
    assert IntToString(101) == "101";
    assert IntToString(12) == "12";
    UniqueHeadNoRepeat("12");
  }

  // ---------------------------------------------------------------------
  // The range scans of the tests

  /** In a fitting pattern every character repeats the one at the same
      offset of the first copy. */
  lemma PeriodAt(s: string, p: int, i: int)
    requires PatternFits(s, p) && 0 <= i < |s|
    ensures s[i] == s[i % p]
  {
    var k := |s| / p;
    var q, r := i / p, i % p;
    QuotientBelow(i, p, k);
    RepeatAt(s[..p], k, q, r);
  }

  lemma QuotientBelow(i: int, p: int, k: int)
    requires p >= 1 && 0 <= i < k * p
    ensures i / p < k && (i / p) * p + i % p == i
  {
    var q := i / p;
    assert q * p <= i;
    assert (k - q) * p > 0;
  }

  /** A repetition of two or three characters is one character throughout. */
  lemma ShortRepeats(s: string)
    requires 2 <= |s| <= 3 && RepeatsSomePrefix(s)
    ensures s[1] == s[0] && s[|s| - 1] == s[0]
  {
    var p :| p <= |s| / 2 && PatternFits(s, p);
    assert p == 1;
    PeriodAt(s, 1, 1);
    PeriodAt(s, 1, |s| - 1);
  }

  /** A repetition of four characters has period two. */
  lemma FourRepeats(s: string)
    requires |s| == 4 && RepeatsSomePrefix(s)
    ensures s[2] == s[0] && s[3] == s[1]
  {
    var p :| p <= 2 && PatternFits(s, p);
    if p == 1 {
      PeriodAt(s, 1, 1); PeriodAt(s, 1, 2); PeriodAt(s, 1, 3);
    } else {
      PeriodAt(s, 2, 2); PeriodAt(s, 2, 3);
    }
  }

  /** A repetition of six characters has period two or period three. */
  lemma SixRepeats(s: string)
    requires |s| == 6 && RepeatsSomePrefix(s)
    ensures || (s[2] == s[0] && s[3] == s[1] && s[4] == s[0] && s[5] == s[1])
            || (s[3] == s[0] && s[4] == s[1] && s[5] == s[2])
  {
    var p :| p <= 3 && PatternFits(s, p);
    if p == 1 {
      PeriodAt(s, 1, 1); PeriodAt(s, 1, 2); PeriodAt(s, 1, 3); PeriodAt(s, 1, 4); PeriodAt(s, 1, 5);
    } else if p == 2 {
      PeriodAt(s, 2, 2); PeriodAt(s, 2, 3); PeriodAt(s, 2, 4); PeriodAt(s, 2, 5);
    } else {
      PeriodAt(s, 3, 3); PeriodAt(s, 3, 4); PeriodAt(s, 3, 5);
    }
  }

  /** A repetition of nine characters has period three. */
  lemma NineRepeats(s: string)
    requires |s| == 9 && RepeatsSomePrefix(s)
    ensures s[3] == s[0] && s[4] == s[1] && s[5] == s[2] && s[6] == s[0] && s[7] == s[1] && s[8] == s[2]
  {
    var p :| p <= 4 && PatternFits(s, p);
    assert p != 2 && p != 4 by {
      assert 9 % 2 == 1 && 9 % 4 == 1;
    }
    if p == 1 {
      PeriodAt(s, 1, 1); PeriodAt(s, 1, 2); PeriodAt(s, 1, 3); PeriodAt(s, 1, 4);
      PeriodAt(s, 1, 5); PeriodAt(s, 1, 6); PeriodAt(s, 1, 7); PeriodAt(s, 1, 8);
    } else {
      PeriodAt(s, 3, 3); PeriodAt(s, 3, 4); PeriodAt(s, 3, 5);
      PeriodAt(s, 3, 6); PeriodAt(s, 3, 7); PeriodAt(s, 3, 8);
    }
  }

  /** A repetition of ten characters has period two or period five. */
  lemma TenRepeats(s: string)
    requires |s| == 10 && RepeatsSomePrefix(s)
    ensures || (s[2] == s[0] && s[4] == s[0] && s[6] == s[0] && s[8] == s[0]
                && s[3] == s[1] && s[5] == s[1] && s[7] == s[1] && s[9] == s[1])
            || (s[5] == s[0] && s[6] == s[1] && s[7] == s[2] && s[8] == s[3] && s[9] == s[4])
  {
    var p :| p <= 5 && PatternFits(s, p);
    assert p != 3 && p != 4 by {
      assert 10 % 3 == 1 && 10 % 4 == 2;
    }
    if p == 1 {
      PeriodAt(s, 1, 1); PeriodAt(s, 1, 2); PeriodAt(s, 1, 3); PeriodAt(s, 1, 4); PeriodAt(s, 1, 5);
      PeriodAt(s, 1, 6); PeriodAt(s, 1, 7); PeriodAt(s, 1, 8); PeriodAt(s, 1, 9);
    } else if p == 2 {
      PeriodAt(s, 2, 2); PeriodAt(s, 2, 3); PeriodAt(s, 2, 4); PeriodAt(s, 2, 5);
      PeriodAt(s, 2, 6); PeriodAt(s, 2, 7); PeriodAt(s, 2, 8); PeriodAt(s, 2, 9);
    } else {
      PeriodAt(s, 5, 5); PeriodAt(s, 5, 6); PeriodAt(s, 5, 7); PeriodAt(s, 5, 8); PeriodAt(s, 5, 9);
    }
  }

  /** `str(n)` of a number with two or more digits: `str(n // 10)`, then the last digit. */
  lemma LastDigitText(n: int)
    requires n >= 10
    ensures IntToString(n) == IntToString(n / 10) + [DigitChar(n % 10)]
  {
    AppendDigit(n / 10, n % 10);
    assert 10 * (n / 10) + n % 10 == n;
  }

  /** The members of an ascending list after its first are the others. */
  lemma AscendingTail(a: seq<int>)
    requires a != [] && forall i, j :: 0 <= i < j < |a| ==> a[i] < a[j]
    ensures forall n :: n in a[1..] <==> n in a && n != a[0]
  {
    forall n | n in a && n != a[0] ensures n in a[1..] {
      var i :| 0 <= i < |a| && a[i] == n;
      assert a[1..][i - 1] == n;
    }
  }

  lemma HeadMember(a: seq<int>)
    ensures a != [] ==> a[0] in a
  {
  }

  /** The first member of an ascending list is its least. */
  lemma AscendingLeast(a: seq<int>, x: int)
    requires forall i, j :: 0 <= i < j < |a| ==> a[i] < a[j]
    ensures x in a ==> a[0] <= x
  {
    if x in a {
      var i :| 0 <= i < |a| && a[i] == x;
      if i > 0 { assert a[0] < a[i]; }
    }
  }

  /** Two ascending lists with the same members are the same list. */
  lemma {:induction false} AscendingUnique(a: seq<int>, b: seq<int>)
    requires forall i, j :: 0 <= i < j < |a| ==> a[i] < a[j]
    requires forall i, j :: 0 <= i < j < |b| ==> b[i] < b[j]
    requires forall n :: n in a <==> n in b
    ensures a == b
    decreases |a|
  {
    HeadMember(a);
    HeadMember(b);
    if a != [] && b != [] {
      AscendingLeast(a, b[0]);
      AscendingLeast(b, a[0]);
      AscendingTail(a);
      AscendingTail(b);
      AscendingUnique(a[1..], b[1..]);
      assert a == [a[0]] + a[1..] && b == [b[0]] + b[1..];
    }
  }

  /** The scan of `[start, end]` is `ids` when `ids` ascends and holds exactly
      the accepted numbers of the range. */
  lemma InvalidIdsAre(start: int, end: int, checker: Checker, ids: seq<int>)
    requires forall i, j :: 0 <= i < j < |ids| ==> ids[i] < ids[j]
    requires forall n :: n in ids ==> start <= n <= end
    requires forall n :: start <= n <= end ==> (Accepts(checker, n) <==> n in ids)
    ensures InvalidIds(start, end, checker) == ids
  {
    InvalidIdsMeaning(start, end, checker);
    AscendingUnique(InvalidIds(start, end, checker), ids);
  }

  /** A two-digit number is invalid, under either checker, exactly when its
      two digits agree. */
  lemma TwoDigits(n: int)
    requires 10 <= n < 100
    ensures IsInvalidPart1(n) <==> n / 10 == n % 10
    ensures IsInvalidPart2(n) <==> n / 10 == n % 10
  {
    LastDigitText(n);
    var s := IntToString(n);
    assert s == [DigitChar(n / 10), DigitChar(n % 10)];
    assert s[..1] == [s[0]] && s[1..] == [s[1]];
    if n / 10 == n % 10 {
      assert Repeat(s[..1], 1) == s[..1];
      assert s == Repeat(s[..1], 2);
      RepetitionFits(s[..1], 2);
    }
    if IsInvalidPart2(n) { ShortRepeats(s); }
  }

  /** `find_invalid_ids_in_range(11, 22, is_invalid_id_part1)` is `[11, 22]`. */
  lemma RangeExample11To22()
    ensures InvalidIds(11, 22, RepeatedTwice) == [11, 22]
  {
    forall n | 11 <= n <= 22 ensures IsInvalidPart1(n) <==> n in [11, 22] {
      TwoDigits(n);
    }
    InvalidIdsAre(11, 22, RepeatedTwice, [11, 22]);
  }

  /** Three-digit text: never two equal halves; a repetition only of one digit. */
  lemma ThreeDigits(n: int)
    requires 100 <= n < 1000
    ensures !IsInvalidPart1(n)
    ensures IsInvalidPart2(n) ==> n / 10 / 10 == n / 10 % 10 == n % 10
  {
    LastDigitText(n);
    LastDigitText(n / 10);
    var s := IntToString(n);
    assert s == [DigitChar(n / 10 / 10), DigitChar(n / 10 % 10), DigitChar(n % 10)];
    if IsInvalidPart2(n) { ShortRepeats(s); }
  }

  lemma Range95To115Member(n: int)
    requires 95 <= n <= 115
    ensures IsInvalidPart1(n) <==> n == 99
    ensures IsInvalidPart2(n) <==> n == 99 || n == 111
  {
    if n < 100 {
      TwoDigits(n);
    } else {
      ThreeDigits(n);
      if n == 111 { Part2Examples(); }
    }
  }

  /** `find_invalid_ids_in_range(95, 115, is_invalid_id_part1)` is `[99]`. */
  lemma RangeExample95To115Part1()
    ensures InvalidIds(95, 115, RepeatedTwice) == [99]
  {
    forall n | 95 <= n <= 115 ensures IsInvalidPart1(n) <==> n in [99] {
      Range95To115Member(n);
    }
    InvalidIdsAre(95, 115, RepeatedTwice, [99]);
  }

  /** `find_invalid_ids_in_range(95, 115, is_invalid_id_part2)` is `[99, 111]`. */
  lemma RangeExample95To115Part2()
    ensures InvalidIds(95, 115, RepeatedAtLeastTwice) == [99, 111]
  {
    forall n | 95 <= n <= 115 ensures IsInvalidPart2(n) <==> n in [99, 111] {
      Range95To115Member(n);
    }
    InvalidIdsAre(95, 115, RepeatedAtLeastTwice, [99, 111]);
  }

  lemma Numeral1010Example()
    ensures IsInvalidPart2(1010)
  {
    Numeral1010();
    assert IntToString(1010) == Repeat("10", 2);
    RepetitionFits("10", 2);
  }

  lemma Range998Member(n: int)
    requires 998 <= n <= 1012
    ensures IsInvalidPart2(n) <==> n == 999 || n == 1010
  {
    if n < 1000 {
      ThreeDigits(n);
      if n == 999 { Part2Examples(); }
    } else {
      Range1000Member(n);
    }
  }

  lemma Range1000Member(n: int)
    requires 1000 <= n <= 1012
    ensures IsInvalidPart2(n) <==> n == 1010
  {
    var m := if n < 1010 then 100 else 101;
    DivModUnique(n, 10, m, n - 10 * m);
    DivModUnique(m, 10, 10, m - 100);
    AppendDigit(1, 0);
    AppendDigit(10, m - 100);
    LastDigitText(n);
    var s := IntToString(n);
    assert s == "10" + [DigitChar(m - 100), DigitChar(n - 10 * m)];
    if IsInvalidPart2(n) { FourRepeats(s); }
    if n == 1010 { Numeral1010Example(); }
  }

  /** `find_invalid_ids_in_range(998, 1012, is_invalid_id_part2)` is `[999, 1010]`. */
  lemma RangeExample998To1012()
    ensures InvalidIds(998, 1012, RepeatedAtLeastTwice) == [999, 1010]
  {
    forall n | 998 <= n <= 1012 ensures IsInvalidPart2(n) <==> n in [999, 1010] {
      Range998Member(n);
    }
    InvalidIdsAre(998, 1012, RepeatedAtLeastTwice, [999, 1010]);
  }

  lemma Numeral56565()
    ensures IntToString(56565) == "56565"
  {
    AppendDigit(5, 6); AppendDigit(56, 5); AppendDigit(565, 6); AppendDigit(5656, 5);
  }

  lemma Numeral565656Example()
    ensures IsInvalidPart2(565656)
  {
    Numeral56565();
    AppendDigit(56565, 6);
    assert Repeat("56", 2) == "5656";
    assert IntToString(565656) == Repeat("56", 3);
    RepetitionFits("56", 3);
  }

  lemma Range565653Member(n: int)
    requires 565653 <= n <= 565659
    ensures IsInvalidPart2(n) <==> n == 565656
  {
    var d := n - 565650;
    DivModUnique(n, 10, 56565, d);
    LastDigitText(n);
    Numeral56565();
    var s := IntToString(n);
    assert s == "56565" + [DigitChar(d)];
    if IsInvalidPart2(n) { SixRepeats(s); }
    if n == 565656 { Numeral565656Example(); }
  }

  /** `find_invalid_ids_in_range(565653, 565659, is_invalid_id_part2)` is `[565656]`. */
  lemma RangeExample565653To565659()
    ensures InvalidIds(565653, 565659, RepeatedAtLeastTwice) == [565656]
  {
    forall n | 565653 <= n <= 565659 ensures IsInvalidPart2(n) <==> n in [565656] {
      Range565653Member(n);
    }
    InvalidIdsAre(565653, 565659, RepeatedAtLeastTwice, [565656]);
  }

  lemma Numeral82482482()
    ensures IntToString(82482482) == "82482482"
  {
    AppendDigit(8, 2); AppendDigit(82, 4); AppendDigit(824, 8); AppendDigit(8248, 2);
    AppendDigit(82482, 4); AppendDigit(824824, 8); AppendDigit(8248248, 2);
  }

  lemma Numeral824824824Example()
    ensures IsInvalidPart2(824824824)
  {
    Numeral82482482();
    AppendDigit(82482482, 4);
    assert IntToString(824824824) == "824824824";
    assert Repeat("824", 2) == "824824";
    assert Repeat("824", 3) == "824824824";
    RepetitionFits("824", 3);
  }

  lemma Range824824821Member(n: int)
    requires 824824821 <= n <= 824824827
    ensures IsInvalidPart2(n) <==> n == 824824824
  {
    var d := n - 824824820;
    DivModUnique(n, 10, 82482482, d);
    LastDigitText(n);
    Numeral82482482();
    var s := IntToString(n);
    assert s == "82482482" + [DigitChar(d)];
    if IsInvalidPart2(n) { NineRepeats(s); }
    if n == 824824824 { Numeral824824824Example(); }
  }

  /** `find_invalid_ids_in_range(824824821, 824824827, is_invalid_id_part2)`
      is `[824824824]`. */
  lemma RangeExample824824821To824824827()
    ensures InvalidIds(824824821, 824824827, RepeatedAtLeastTwice) == [824824824]
  {
    forall n | 824824821 <= n <= 824824827 ensures IsInvalidPart2(n) <==> n in [824824824] {
      Range824824821Member(n);
    }
    InvalidIdsAre(824824821, 824824827, RepeatedAtLeastTwice, [824824824]);
  }

  lemma Numeral21212121()
    ensures IntToString(21212121) == "21212121"
  {
    AppendDigit(2, 1); AppendDigit(21, 2); AppendDigit(212, 1); AppendDigit(2121, 2);
    AppendDigit(21212, 1); AppendDigit(212121, 2); AppendDigit(2121212, 1);
  }

  lemma Numeral2121212121()
    ensures IntToString(2121212121) == "2121212121"
  {
    Numeral21212121();
    AppendDigit(21212121, 2);
    AppendDigit(212121212, 1);
  }

  lemma Numeral2121212121Example()
    ensures IsInvalidPart2(2121212121)
  {
    Numeral2121212121();
    assert Repeat("21", 2) == "2121";
    assert Repeat("21", 3) == "212121";
    assert Repeat("21", 4) == "21212121";
    assert IntToString(2121212121) == Repeat("21", 5);
    RepetitionFits("21", 5);
  }

  lemma Range2121212118Member(n: int)
    requires 2121212118 <= n <= 2121212124
    ensures IsInvalidPart2(n) <==> n == 2121212121
  {
    Numeral21212121();
    var m, d := if n < 2121212120 then 212121211 else 212121212, n % 10;
    DivModUnique(n, 10, m, n - 10 * m);
    DivModUnique(m, 10, 21212121, m - 212121210);
    AppendDigit(21212121, m - 212121210);
    LastDigitText(n);
    var s := IntToString(n);
    assert s == "21212121" + [DigitChar(m - 212121210), DigitChar(d)];
    if IsInvalidPart2(n) { TenRepeats(s); }
    if n == 2121212121 { Numeral2121212121Example(); }
  }

  /** `find_invalid_ids_in_range(2121212118, 2121212124, is_invalid_id_part2)`
      is `[2121212121]`. */
  lemma RangeExample2121212118To2121212124()
    ensures InvalidIds(2121212118, 2121212124, RepeatedAtLeastTwice) == [2121212121]
  {
    forall n | 2121212118 <= n <= 2121212124 ensures IsInvalidPart2(n) <==> n in [2121212121] {
      Range2121212118Member(n);
    }
    InvalidIdsAre(2121212118, 2121212124, RepeatedAtLeastTwice, [2121212121]);
  }
}
