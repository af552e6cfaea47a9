/** 2025 day 5: fresh-ingredient id ranges. Part 1 counts the available ids
    that fall in some inclusive range; part 2 sorts the ranges, fuses the ones
    that overlap or touch, and counts every id the ranges cover. */
module FreshRanges {

  /** An inclusive id range `(start, end)`, as parsed from `start-end`. */
  type Range = (int, int)

  predicate InRange(id: int, r: Range) {
    r.0 <= id <= r.1
  }

  /** The ids a list of ranges covers. */
  ghost predicate Covered(id: int, ranges: seq<Range>) {
    exists i :: 0 <= i < |ranges| && InRange(id, ranges[i])
  }

  /** `is_fresh`: the first range holding the id answers True. */
  method IsFresh(id: int, ranges: seq<Range>) returns (isFresh: bool)
    ensures isFresh <==> Covered(id, ranges)
  {
    for i := 0 to |ranges|
      invariant forall k :: 0 <= k < i ==> !InRange(id, ranges[k])
    {
      var (start, end) := ranges[i];
      if start <= id <= end {
        return true;
      }
    }
    return false;
  }

  /** How many entries of `ids` are fresh (repeated ids count each time). */
  ghost function FreshCount(ids: seq<int>, ranges: seq<Range>): nat {
    if ids == [] then 0
    else FreshCount(ids[..|ids| - 1], ranges) + (if Covered(ids[|ids| - 1], ranges) then 1 else 0)
  }

  /** The counting loop of `solve_part1`. */
  method SolvePart1(ranges: seq<Range>, ids: seq<int>) returns (freshCount: nat)
    ensures freshCount == FreshCount(ids, ranges)
  {
    freshCount := 0;
    for i := 0 to |ids|
      invariant freshCount == FreshCount(ids[..i], ranges)
    {
      assert ids[..i + 1][..i] == ids[..i];
      var isFresh := IsFresh(ids[i], ranges);
      if isFresh {
        freshCount := freshCount + 1;
      }
    }
    assert ids[..|ids|] == ids;
  }

  lemma {:induction false} FreshCountBounds(ids: seq<int>, ranges: seq<Range>)
    ensures FreshCount(ids, ranges) <= |ids|
    ensures FreshCount(ids, ranges) == |ids| <==> forall i :: 0 <= i < |ids| ==> Covered(ids[i], ranges)
  {
    if ids != [] {
      var prefix := ids[..|ids| - 1];
      FreshCountBounds(prefix, ranges);
      assert forall i :: 0 <= i < |prefix| ==> prefix[i] == ids[i];
    }
  }

  // ---------------------------------------------------------------------
  // `sorted(ranges)`: Python orders tuples lexicographically.

  predicate TupleLe(a: Range, b: Range) {
    a.0 < b.0 || (a.0 == b.0 && a.1 <= b.1)
  }

  predicate SortedRanges(s: seq<Range>) {
    forall i, j :: 0 <= i < j < |s| ==> TupleLe(s[i], s[j])
  }

  function Insert(x: Range, s: seq<Range>): (r: seq<Range>)
    ensures multiset(r) == multiset(s) + multiset{x}
  {
    if s == [] then [x]
    else if TupleLe(x, s[0]) then [x] + s
    else
      assert s == [s[0]] + s[1..];
      [s[0]] + Insert(x, s[1..])
  }

  lemma {:induction false} InsertSorted(x: Range, s: seq<Range>)
    requires SortedRanges(s)
    ensures SortedRanges(Insert(x, s))
  {
    if s != [] && !TupleLe(x, s[0]) {
      var rest := Insert(x, s[1..]);
      InsertSorted(x, s[1..]);
      InsertAbove(s[0], x, s[1..]);
      var r := [s[0]] + rest;
      forall i, j | 0 <= i < j < |r| ensures TupleLe(r[i], r[j]) {
        assert r[j] == rest[j - 1];
        if i > 0 {
          assert r[i] == rest[i - 1];
        }
      }
    }
  }

  /** Inserting an element no smaller than `lo` among elements no smaller
      than `lo` keeps every element no smaller than `lo`. */
  lemma {:induction false} InsertAbove(lo: Range, x: Range, s: seq<Range>)
    requires TupleLe(lo, x) && forall k :: 0 <= k < |s| ==> TupleLe(lo, s[k])
    ensures forall k :: 0 <= k < |Insert(x, s)| ==> TupleLe(lo, Insert(x, s)[k])
  {
    if s != [] && !TupleLe(x, s[0]) {
      InsertAbove(lo, x, s[1..]);
      var rest := Insert(x, s[1..]);
      forall k | 0 <= k < |rest| + 1 ensures TupleLe(lo, ([s[0]] + rest)[k]) {
        if k > 0 {
          assert ([s[0]] + rest)[k] == rest[k - 1];
        }
      }
    }
  }

  /** `sorted(ranges)` */
  function Sort(ranges: seq<Range>): (s: seq<Range>)
    ensures multiset(s) == multiset(ranges)
  {
    if ranges == [] then []
    else
      assert ranges == ranges[..|ranges| - 1] + [ranges[|ranges| - 1]];
      Insert(ranges[|ranges| - 1], Sort(ranges[..|ranges| - 1]))
  }

  /** `sorted` returns the same ranges in tuple order. */
  lemma {:induction false} SortSorted(ranges: seq<Range>)
    ensures SortedRanges(Sort(ranges))
  {
    if ranges != [] {
      SortSorted(ranges[..|ranges| - 1]);
      InsertSorted(ranges[|ranges| - 1], Sort(ranges[..|ranges| - 1]));
    }
  }

  // ---------------------------------------------------------------------
  // Merging

  /** The merged list's shape: each range starts more than one past the
      previous range's end, so no two of them overlap or touch. */
  predicate Separated(ms: seq<Range>) {
    forall k :: 0 <= k < |ms| - 1 ==> ms[k].1 + 1 < ms[k + 1].0
  }

  predicate AllValid(ranges: seq<Range>) {
    forall i :: 0 <= i < |ranges| ==> ranges[i].0 <= ranges[i].1
  }

  /** The merge loop of `merge_ranges` over the sorted, non-empty list. */
  method MergeSorted(sorted: seq<Range>) returns (merged: seq<Range>)
    requires sorted != [] && SortedRanges(sorted)
    ensures merged != [] && Separated(merged)
    ensures forall id :: Covered(id, merged) <==> Covered(id, sorted)
    ensures AllValid(sorted) ==> AllValid(merged)
  {
    merged := [sorted[0]];
    for i := 1 to |sorted|
      invariant merged != [] && Separated(merged)
      invariant forall k :: i <= k < |sorted| ==> merged[|merged| - 1].0 <= sorted[k].0
      invariant forall id :: Covered(id, merged) <==> Covered(id, sorted[..i])
      invariant AllValid(sorted) ==> AllValid(merged)
    {
      var (currentStart, currentEnd) := sorted[i];
      var (lastStart, lastEnd) := merged[|merged| - 1];
      ghost var before := merged;
      CoveredSnoc(sorted[..i], sorted[i]);
      assert sorted[..i + 1] == sorted[..i] + [sorted[i]];
      if currentStart <= lastEnd + 1 {
        merged := merged[|merged| - 1 := (lastStart, if lastEnd >= currentEnd then lastEnd else currentEnd)];
        CoveredReplaceLast(before, merged, sorted[i]);
      } else {
        merged := merged + [(currentStart, currentEnd)];
        CoveredSnoc(before, sorted[i]);
      }
    }
    assert sorted[..|sorted|] == sorted;
  }

  lemma CoveredSnoc(rs: seq<Range>, r: Range)
    ensures forall id :: Covered(id, rs + [r]) <==> Covered(id, rs) || InRange(id, r)
  {
    forall id | Covered(id, rs + [r]) ensures Covered(id, rs) || InRange(id, r) {
      var i :| 0 <= i < |rs + [r]| && InRange(id, (rs + [r])[i]);
      if i < |rs| { assert InRange(id, rs[i]); }
    }
    forall id | Covered(id, rs) ensures Covered(id, rs + [r]) {
      var i :| 0 <= i < |rs| && InRange(id, rs[i]);
      assert (rs + [r])[i] == rs[i];
    }
    forall id | InRange(id, r) ensures Covered(id, rs + [r]) {
      assert (rs + [r])[|rs|] == r;
    }
  }

  /** Fusing `r` into the last range, which starts no later than `r` and ends
      at most one before it, covers what the two covered. */
  lemma CoveredReplaceLast(before: seq<Range>, after: seq<Range>, r: Range)
    requires before != [] && |after| == |before|
    requires after[..|after| - 1] == before[..|before| - 1]
    requires var last := before[|before| - 1];
      last.0 <= r.0 <= last.1 + 1 && after[|after| - 1] == (last.0, if last.1 >= r.1 then last.1 else r.1)
    ensures forall id :: Covered(id, after) <==> Covered(id, before) || InRange(id, r)
  {
    var n := |before| - 1;
    assert before == before[..n] + [before[n]] && after == after[..n] + [after[n]];
    CoveredSnoc(before[..n], before[n]);
    CoveredSnoc(after[..n], after[n]);
  }

  /** The ids in one inclusive range. */
  ghost function Interval(r: Range): set<int> {
    set id | r.0 <= id <= r.1 && InRange(id, r)
  }

  lemma {:induction false} IntervalSize(start: int, end: int)
    requires start <= end + 1
    ensures |Interval((start, end))| == end - start + 1
    decreases end - start
  {
    if start <= end {
      IntervalSize(start, end - 1);
      assert Interval((start, end)) == Interval((start, end - 1)) + {end};
    } else {
      assert Interval((start, end)) == {};
    }
  }

  /** Every id a list of ranges covers, as a finite set. */
  ghost function CoveredSet(ranges: seq<Range>): set<int> {
    if ranges == [] then {}
    else CoveredSet(ranges[..|ranges| - 1]) + Interval(ranges[|ranges| - 1])
  }

  lemma {:induction false} CoveredSetMeaning(ranges: seq<Range>)
    ensures forall id :: id in CoveredSet(ranges) <==> Covered(id, ranges)
  {
    if ranges != [] {
      var n := |ranges| - 1;
      CoveredSetMeaning(ranges[..n]);
      assert ranges == ranges[..n] + [ranges[n]];
      CoveredSnoc(ranges[..n], ranges[n]);
    }
  }

  /** The total length of the ranges, as `merge_ranges` adds it up. */
  function TotalLength(ms: seq<Range>): int {
    if ms == [] then 0 else TotalLength(ms[..|ms| - 1]) + (ms[|ms| - 1].1 - ms[|ms| - 1].0 + 1)
  }

  /** Ranges that are valid and separated cover exactly their total length. */
  lemma {:induction false} SeparatedCount(ms: seq<Range>)
    requires Separated(ms) && AllValid(ms)
    ensures |CoveredSet(ms)| == TotalLength(ms)
  {
    if ms != [] {
      var n := |ms| - 1;
      var prefix := ms[..n];
      assert Separated(prefix) && AllValid(prefix);
      SeparatedCount(prefix);
      SeparatedBelow(prefix, ms[n].0);
      IntervalSize(ms[n].0, ms[n].1);
      assert CoveredSet(prefix) * Interval(ms[n]) == {};
    }
  }

  /** Every id a separated list covers lies before the end of its last range. */
  lemma {:induction false} SeparatedBelow(ms: seq<Range>, next: int)
    requires Separated(ms) && AllValid(ms)
    requires ms != [] ==> ms[|ms| - 1].1 < next
    ensures forall id :: id in CoveredSet(ms) ==> id < next
  {
    if ms != [] {
      var n := |ms| - 1;
      if n > 0 {
        assert ms[n - 1].1 < ms[n].0;
      }
      SeparatedBelow(ms[..n], next);
    }
  }

  /** `merge_ranges`: sort, fuse, and add up the lengths of the fused ranges. */
  method MergeRanges(ranges: seq<Range>) returns (total: int)
    ensures ranges == [] ==> total == 0
    ensures AllValid(ranges) ==> total == |CoveredSet(ranges)|
  {
    if |ranges| == 0 {
      return 0;
    }
    var sorted := Sort(ranges);
    SortSorted(ranges);
    var merged := MergeSorted(sorted);
    total := 0;
    for i := 0 to |merged|
      invariant total == TotalLength(merged[..i])
    {
      assert merged[..i + 1][..i] == merged[..i];
      var (start, end) := merged[i];
      total := total + (end - start + 1);
    }
    assert merged[..|merged|] == merged;
    if AllValid(ranges) {
      SortKeepsRanges(ranges, sorted);
      MergedCount(ranges, merged);
    }
  }

  lemma MergedCount(ranges: seq<Range>, merged: seq<Range>)
    requires Separated(merged) && AllValid(merged)
    requires forall id :: Covered(id, merged) <==> Covered(id, ranges)
    ensures TotalLength(merged) == |CoveredSet(ranges)|
  {
    SeparatedCount(merged);
    CoveredSetMeaning(merged);
    CoveredSetMeaning(ranges);
    assert CoveredSet(merged) == CoveredSet(ranges);
  }

  /** Sorting neither adds nor drops a range, so validity and coverage stay. */
  lemma SortKeepsRanges(ranges: seq<Range>, sorted: seq<Range>)
    requires multiset(sorted) == multiset(ranges)
    ensures AllValid(ranges) ==> AllValid(sorted)
    ensures forall id :: Covered(id, sorted) <==> Covered(id, ranges)
  {
    forall i | 0 <= i < |sorted| ensures sorted[i] in ranges {
      assert sorted[i] in multiset(ranges);
    }
    forall i | 0 <= i < |ranges| ensures ranges[i] in sorted {
      assert ranges[i] in multiset(sorted);
    }
  }

  /** The part-2 total depends only on which ranges there are, not on their
      order: any reordering covers the same ids. */
  lemma CoverageIgnoresOrder(a: seq<Range>, b: seq<Range>)
    requires multiset(a) == multiset(b)
    ensures CoveredSet(a) == CoveredSet(b)
  {
    SortKeepsRanges(b, a);
    CoveredSetMeaning(a);
    CoveredSetMeaning(b);
  }

  /** Part 1 and part 2 agree on what "fresh" means: an id is fresh exactly
      when it is among the ids part 2 counts. */
  lemma FreshMeansCounted(id: int, ranges: seq<Range>)
    ensures Covered(id, ranges) <==> id in CoveredSet(ranges)
  {
    CoveredSetMeaning(ranges);
  }
}
