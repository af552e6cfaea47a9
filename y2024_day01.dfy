/** 2024 day 1: two lists of location ids, read as two text columns.  Part 1
    sorts both columns and sums the distances between entries at the same
    position; part 2 weighs each left entry by how often it occurs on the
    right. */
module LocationLists {
  import opened Common

  // ---------------------------------------------------------------------
  // The column split of main

  /** Field `j` (0 or 1) of every row that has at least two fields, in order. */
  function Column(rows: seq<seq<string>>, j: nat): (col: seq<string>)
    requires j < 2
  {
    if rows == [] then []
    else
      var last := rows[|rows| - 1];
      Column(rows[..|rows| - 1], j) + (if |last| >= 2 then [last[j]] else [])
  }

  lemma {:induction false} ColumnsSameLength(rows: seq<seq<string>>)
    ensures |Column(rows, 0)| == |Column(rows, 1)|
  {
    if rows != [] {
      ColumnsSameLength(rows[..|rows| - 1]);
    }
  }

  /** The parsing loop of main over already-split lines: rows with fewer
      than two fields are skipped, the others give one entry to each column. */
  method SplitColumns(rows: seq<seq<string>>) returns (col1: seq<string>, col2: seq<string>)
    ensures col1 == Column(rows, 0) && col2 == Column(rows, 1)
    ensures |col1| == |col2|
  {
    col1, col2 := [], [];
    for k := 0 to |rows|
      invariant col1 == Column(rows[..k], 0) && col2 == Column(rows[..k], 1)
    {
      assert rows[..k + 1][..k] == rows[..k];
      var data := rows[k];
      if |data| >= 2 {
        col1 := col1 + [data[0]];
        col2 := col2 + [data[1]];
      }
    }
    assert rows[..|rows|] == rows;
    ColumnsSameLength(rows);
  }

  // ---------------------------------------------------------------------
  // Python's string order and list.sort()

  /** Python's `a < b` on strings: the first differing character decides,
      and a proper prefix comes first. */
  predicate StrLess(a: string, b: string) {
    if a == [] then b != []
    else if b == [] then false
    else if a[0] != b[0] then a[0] < b[0]
    else StrLess(a[1..], b[1..])
  }

  predicate StrLe(a: string, b: string) {
    a == b || StrLess(a, b)
  }

  lemma {:induction false} StrLessTotal(a: string, b: string)
    ensures StrLe(a, b) || StrLe(b, a)
  {
    if a != [] && b != [] && a[0] == b[0] {
      StrLessTotal(a[1..], b[1..]);
      if a[1..] == b[1..] {
        assert a == [a[0]] + a[1..] && b == [b[0]] + b[1..];
      }
    }
  }

  /** Each string is at most the next. */
  predicate SortedStrings(xs: seq<string>) {
    forall i :: 0 < i < |xs| ==> StrLe(xs[i - 1], xs[i])
  }

  /** Inserts `x` before the first element it does not exceed. */
  function InsertString(x: string, xs: seq<string>): (r: seq<string>)
    ensures |r| == |xs| + 1
  {
    if xs == [] then [x]
    else if StrLe(x, xs[0]) then [x] + xs
    else [xs[0]] + InsertString(x, xs[1..])
  }

  lemma {:induction false} InsertStringSorted(x: string, xs: seq<string>)
    requires SortedStrings(xs)
    ensures SortedStrings(InsertString(x, xs))
    ensures InsertString(x, xs)[0] == x || InsertString(x, xs)[0] == xs[0]
  {
    if xs != [] && !StrLe(x, xs[0]) {
      var rest := InsertString(x, xs[1..]);
      assert SortedStrings(xs[1..]);
      InsertStringSorted(x, xs[1..]);
      StrLessTotal(x, xs[0]);
      var r := [xs[0]] + rest;
      forall i | 0 < i < |r| ensures StrLe(r[i - 1], r[i]) {
        if i > 1 {
          assert r[i - 1] == rest[i - 2] && r[i] == rest[i - 1];
        }
      }
    }
  }

  lemma {:induction false} InsertStringContents(x: string, xs: seq<string>)
    ensures multiset(InsertString(x, xs)) == multiset(xs) + multiset{x}
  {
    if xs != [] && !StrLe(x, xs[0]) {
      InsertStringContents(x, xs[1..]);
      assert xs == [xs[0]] + xs[1..];
    }
  }

  /** `list.sort()` on strings: the ascending rearrangement. */
  function SortStrings(xs: seq<string>): (r: seq<string>)
    ensures |r| == |xs|
  {
    if xs == [] then [] else InsertString(xs[0], SortStrings(xs[1..]))
  }

  lemma {:induction false} SortStringsMeaning(xs: seq<string>)
    ensures SortedStrings(SortStrings(xs))
    ensures multiset(SortStrings(xs)) == multiset(xs)
  {
    if xs != [] {
      SortStringsMeaning(xs[1..]);
      InsertStringSorted(xs[0], SortStrings(xs[1..]));
      InsertStringContents(xs[0], SortStrings(xs[1..]));
      assert xs == [xs[0]] + xs[1..];
    }
  }

  // ---------------------------------------------------------------------
  // Text order against numeric order

  function Pow10(n: nat): (p: nat)
    ensures p >= 1
  {
    if n == 0 then 1 else 10 * Pow10(n - 1)
  }

  predicate AllDigits(s: string) {
    forall i :: 0 <= i < |s| ==> IsDigit(s[i])
  }

  /** A numeral's value is its first digit's place value plus the rest. */
  lemma {:induction false} DigitsValueFront(s: string)
    requires |s| >= 1 && AllDigits(s)
    ensures DigitsValue(s) == DigitValue(s[0]) * Pow10(|s| - 1) + DigitsValue(s[1..])
  {
    var n := |s| - 1;
    if n > 0 {
      DigitsValueFront(s[..n]);
      var t, m := s[1..], n - 1;
      assert s[..n][1..] == t[..m];
      assert s[..n][0] == s[0] && t[m] == s[n];
      var d0, p, u, last := DigitValue(s[0]), Pow10(m), DigitsValue(t[..m]), DigitValue(s[n]);
      assert DigitsValue(s[..n]) == d0 * p + u;
      assert DigitsValue(s) == 10 * (d0 * p + u) + last;
      assert DigitsValue(t) == 10 * u + last;
      Pow10Step(m);
      MulTen(d0, p);
    }
  }

  lemma MulTen(a: int, b: int)
    ensures 10 * (a * b) == a * (10 * b)
  {
  }

  lemma Pow10Step(m: nat)
    ensures Pow10(m + 1) == 10 * Pow10(m)
  {
  }

  /** A numeral of `n` digits is below 10^n. */
  lemma {:induction false} DigitsValueBound(s: string)
    requires AllDigits(s)
    ensures DigitsValue(s) < Pow10(|s|)
  {
    if s != [] {
      DigitsValueBound(s[..|s| - 1]);
    }
  }

  lemma PlaceValueDominates(da: int, db: int, ra: int, rb: int, p: int)
    requires 0 <= da < db && 0 <= ra < p && 0 <= rb
    ensures da * p + ra < db * p + rb
  {
    assert db * p - da * p == (db - da) * p;
    MulAtLeast(db - da, p);
  }

  /** For numerals of the same width, text order is numeric order. */
  lemma {:induction false} EqualWidthOrder(a: string, b: string)
    requires |a| == |b| && AllDigits(a) && AllDigits(b)
    ensures StrLess(a, b) <==> DigitsValue(a) < DigitsValue(b)
  {
    if a != [] {
      var n := |a| - 1;
      DigitsValueFront(a);
      DigitsValueFront(b);
      DigitsValueBound(a[1..]);
      DigitsValueBound(b[1..]);
      var da, db := DigitValue(a[0]), DigitValue(b[0]);
      if a[0] == b[0] {
        EqualWidthOrder(a[1..], b[1..]);
      } else if a[0] < b[0] {
        PlaceValueDominates(da, db, DigitsValue(a[1..]), DigitsValue(b[1..]), Pow10(n));
      } else {
        PlaceValueDominates(db, da, DigitsValue(b[1..]), DigitsValue(a[1..]), Pow10(n));
      }
    }
  }

  /** Widths differ, and text order is not numeric order: "10" sorts
      before "9". */
  lemma TextOrderIsNotNumeric()
    ensures StrLess("10", "9") && ParseInt("10") == Some(10) && ParseInt("9") == Some(9)
  {
    assert "10"[0] == '1' && "9"[0] == '9';
    assert DigitsValue("10") == 10 by {
      assert "10"[..1] == "1";
    }
  }

  // ---------------------------------------------------------------------
  // CalculateDifference and CalculateSimilarity

  /** `int(s)`, for a string that reads as an integer. */
  function Value(s: string): int
    requires ParseInt(s).Some?
  {
    ParseInt(s).value
  }

  /** Every step of CalculateDifference can read both entries: the right
      column is long enough and both entries are integers. */
  predicate Paired(col1: seq<string>, col2: seq<string>) {
    |col1| <= |col2| && forall i :: 0 <= i < |col1| ==> ParseInt(col1[i]).Some? && ParseInt(col2[i]).Some?
  }

  function Distance(a: string, b: string): int
    requires ParseInt(a).Some? && ParseInt(b).Some?
  {
    if Value(a) >= Value(b) then Value(a) - Value(b) else Value(b) - Value(a)
  }

  /** The sum of the distances between entries at the same position. */
  function DiffSum(col1: seq<string>, col2: seq<string>): (d: int)
    requires Paired(col1, col2)
    ensures d >= 0
  {
    if col1 == [] then 0
    else
      var n := |col1| - 1;
      DiffSum(col1[..n], col2) + Distance(col1[n], col2[n])
  }

  /** The difference is 0 exactly when the two columns hold the same
      numbers position by position. */
  lemma {:induction false} DiffSumZero(col1: seq<string>, col2: seq<string>)
    requires Paired(col1, col2)
    ensures DiffSum(col1, col2) == 0 <==> forall i :: 0 <= i < |col1| ==> Value(col1[i]) == Value(col2[i])
  {
    if col1 != [] {
      var n := |col1| - 1;
      DiffSumZero(col1[..n], col2);
      assert forall i :: 0 <= i < n ==> col1[..n][i] == col1[i];
    }
  }

  /** CalculateDifference: None where an entry is missing (IndexError) or
      not an integer (ValueError). */
  method CalculateDifference(col1: seq<string>, col2: seq<string>) returns (diffScore: Option<int>)
    ensures diffScore.Some? <==> Paired(col1, col2)
    ensures diffScore.Some? ==> diffScore.value == DiffSum(col1, col2)
  {
    var score := 0;
    for i := 0 to |col1|
      invariant Paired(col1[..i], col2)
      invariant score == DiffSum(col1[..i], col2)
    {
      assert col1[..i + 1][..i] == col1[..i];
      var a := ParseInt(col1[i]);
      if a.None? || i >= |col2| {
        return None;
      }
      var b := ParseInt(col2[i]);
      if b.None? {
        return None;
      }
      var diff := if a.value >= b.value then a.value - b.value else b.value - a.value;
      score := score + diff;
    }
    assert col1[..|col1|] == col1;
    return Some(score);
  }

  predicate AllNumbers(col: seq<string>) {
    forall i :: 0 <= i < |col| ==> ParseInt(col[i]).Some?
  }

  /** Each left entry times its number of textual copies on the right. */
  function SimSum(col1: seq<string>, col2: seq<string>): int
    requires AllNumbers(col1)
  {
    if col1 == [] then 0
    else
      var n := |col1| - 1;
      SimSum(col1[..n], col2) + Value(col1[n]) * Count(col2, col1[n])
  }

  /** CalculateSimilarity: `col2.count` compares text, so only the left
      entries need to be integers. */
  method CalculateSimilarity(col1: seq<string>, col2: seq<string>) returns (simScore: Option<int>)
    ensures simScore.Some? <==> AllNumbers(col1)
    ensures simScore.Some? ==> simScore.value == SimSum(col1, col2)
  {
    var score := 0;
    for i := 0 to |col1|
      invariant AllNumbers(col1[..i])
      invariant score == SimSum(col1[..i], col2)
    {
      assert col1[..i + 1][..i] == col1[..i];
      var count := CountOf(col2, col1[i]);
      var a := ParseInt(col1[i]);
      if a.None? {
        return None;
      }
      score := score + a.value * count;
    }
    assert col1[..|col1|] == col1;
    return Some(score);
  }

  /** `list.count(x)`. */
  method CountOf(s: seq<string>, x: string) returns (c: nat)
    ensures c == Count(s, x)
  {
    c := 0;
    for k := 0 to |s|
      invariant c == Count(s[..k], x)
    {
      assert s[..k + 1][..k] == s[..k];
      if s[k] == x {
        c := c + 1;
      }
    }
    assert s[..|s|] == s;
  }

  /** With no left entry appearing on the right, the similarity is 0. */
  lemma {:induction false} NothingSharedNoSimilarity(col1: seq<string>, col2: seq<string>)
    requires AllNumbers(col1)
    requires forall i :: 0 <= i < |col1| ==> col1[i] !in col2
    ensures SimSum(col1, col2) == 0
  {
    if col1 != [] {
      var n := |col1| - 1;
      NothingSharedNoSimilarity(col1[..n], col2);
      CountZero(col2, col1[n]);
    }
  }

  /** Copies are matched as text: "7" on the left and "07" on the right
      are the same number, yet add nothing. */
  lemma TextualMatching()
    ensures Value("7") == Value("07") && SimSum(["7"], ["07"]) == 0
  {
    assert "07"[..1] == "0";
    assert ["7"][..0] == [];
    NothingSharedNoSimilarity(["7"], ["07"]);
  }

  /** `list.count` depends only on the multiset of the list. */
  lemma {:induction false} CountIsMultiplicity(s: seq<string>, x: string)
    ensures Count(s, x) == multiset(s)[x]
  {
    if s != [] {
      var n := |s| - 1;
      CountIsMultiplicity(s[..n], x);
      assert s == s[..n] + [s[n]];
    }
  }

  lemma {:induction false} SimSumAppend(a: seq<string>, b: seq<string>, col2: seq<string>)
    requires AllNumbers(a) && AllNumbers(b)
    ensures AllNumbers(a + b)
    ensures SimSum(a + b, col2) == SimSum(a, col2) + SimSum(b, col2)
    decreases |b|
  {
    if b == [] {
      assert a + b == a;
    } else {
      var n := |b| - 1;
      assert (a + b)[..|a + b| - 1] == a + b[..n];
      SimSumAppend(a, b[..n], col2);
    }
  }

  lemma NumbersPermutation(a: seq<string>, b: seq<string>)
    requires AllNumbers(a) && multiset(a) == multiset(b)
    ensures AllNumbers(b)
  {
    forall i | 0 <= i < |b| ensures ParseInt(b[i]).Some? {
      assert b[i] in multiset(b);
      var k :| 0 <= k < |a| && a[k] == b[i];
    }
  }

  /** Taking out the entry at `j` takes out its term. */
  lemma SimSumRemove(b: seq<string>, j: nat, d: seq<string>)
    requires AllNumbers(b) && j < |b|
    ensures AllNumbers(b[..j] + b[j + 1..])
    ensures SimSum(b, d) == SimSum(b[..j] + b[j + 1..], d) + Value(b[j]) * Count(d, b[j])
  {
    var x := b[j];
    assert b == b[..j] + [x] + b[j + 1..];
    assert [x][..0] == [];
    SimSumAppend(b[..j], [x], d);
    SimSumAppend(b[..j] + [x], b[j + 1..], d);
    SimSumAppend(b[..j], b[j + 1..], d);
  }

  lemma MultisetRemove(b: seq<string>, j: nat)
    requires j < |b|
    ensures multiset(b[..j] + b[j + 1..]) == multiset(b) - multiset{b[j]}
  {
    assert b == b[..j] + [b[j]] + b[j + 1..];
  }

  /** Matches the last entry of `a` with an equal entry of `b` and takes
      that entry out of `b`. */
  lemma PermutationStep(a: seq<string>, b: seq<string>, c: seq<string>, d: seq<string>) returns (rest: seq<string>)
    requires a != [] && AllNumbers(a) && multiset(a) == multiset(b) && multiset(c) == multiset(d)
    ensures AllNumbers(a[..|a| - 1]) && multiset(a[..|a| - 1]) == multiset(rest)
    ensures AllNumbers(b) && AllNumbers(rest)
    ensures SimSum(a[..|a| - 1], c) == SimSum(rest, d) ==> SimSum(a, c) == SimSum(b, d)
  {
    NumbersPermutation(a, b);
    var n := |a| - 1;
    var x := a[n];
    assert x in multiset(b) by {
      assert x in multiset(a);
    }
    var j :| 0 <= j < |b| && b[j] == x;
    rest := b[..j] + b[j + 1..];
    assert multiset(a[..n]) == multiset(rest) by {
      MultisetRemove(b, j);
      MultisetRemove(a, n);
      assert a[..n] + a[n + 1..] == a[..n];
    }
    assert AllNumbers(rest) && SimSum(b, d) == SimSum(rest, d) + Value(x) * Count(d, x) by {
      SimSumRemove(b, j, d);
    }
    assert Count(c, x) == Count(d, x) by {
      CountIsMultiplicity(c, x);
      CountIsMultiplicity(d, x);
    }
    assert SimSum(a, c) == SimSum(a[..n], c) + Value(x) * Count(c, x);
  }

  /** The similarity does not depend on the order of either column. */
  lemma {:induction false} SimSumPermutation(a: seq<string>, b: seq<string>, c: seq<string>, d: seq<string>)
    requires AllNumbers(a) && multiset(a) == multiset(b) && multiset(c) == multiset(d)
    ensures AllNumbers(b)
    ensures SimSum(a, c) == SimSum(b, d)
    decreases |a|
  {
    NumbersPermutation(a, b);
    if a == [] {
      assert |multiset(b)| == 0;
    } else {
      var rest := PermutationStep(a, b, c, d);
      SimSumPermutation(a[..|a| - 1], rest, c, d);
    }
  }

  /** main: splits the lines into two columns, sorts both as text, and
      reports the difference of the sorted columns, then their similarity,
      which is that of the columns in their original order.  An exception
      in the first ends the run before the second. */
  method LocationTotals(rows: seq<seq<string>>) returns (colDiff: Option<int>, simScore: Option<int>)
    ensures colDiff.Some? <==> Paired(SortStrings(Column(rows, 0)), SortStrings(Column(rows, 1)))
    ensures colDiff.Some? ==> colDiff.value == DiffSum(SortStrings(Column(rows, 0)), SortStrings(Column(rows, 1)))
    ensures simScore.Some? <==> colDiff.Some?
    ensures simScore.Some? ==> AllNumbers(Column(rows, 0)) && simScore.value == SimSum(Column(rows, 0), Column(rows, 1))
  {
    var col1, col2 := SplitColumns(rows);
    var sorted1, sorted2 := SortStrings(col1), SortStrings(col2);
    colDiff := CalculateDifference(sorted1, sorted2);
    if colDiff.None? {
      return colDiff, None;
    }
    simScore := CalculateSimilarity(sorted1, sorted2);
    SortStringsMeaning(col1);
    SortStringsMeaning(col2);
    SimSumPermutation(sorted1, col1, sorted2, col2);
  }
}
