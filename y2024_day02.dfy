/** 2024 day 2: reactor reports.  A report is a list of levels; it is safe
    when the levels move in one direction by 1 to 3 at every step.  Part 2's
    problem dampener lets one bad level go. */
module ReportSafety {
  import opened Common

  /** `reportDiff` at step `i`: `report[i] - report[i + 1]`. */
  function Diff(report: seq<int>, i: nat): int
    requires i + 1 < |report|
  {
    report[i] - report[i + 1]
  }

  /** The direction the first pair sets: rising unless the first level is
      above the second, so equal first levels count as rising. */
  predicate Increasing(report: seq<int>)
    requires |report| >= 2
  {
    !(report[0] - report[1] > 0)
  }

  /** Step `i` breaks the rule: it goes against the direction of the first
      pair, or by 0, or by more than 3. */
  predicate Offends(report: seq<int>, i: nat)
    requires |report| >= 2 && i + 1 < |report|
  {
    var d := Diff(report, i);
    if Increasing(report) then d < -3 || d > -1 else d > 3 || d < 1
  }

  /** What IsReportSafePart1 decides on a report of two or more levels. */
  predicate SafePart1(report: seq<int>)
    requires |report| >= 2
  {
    forall i :: 0 <= i < |report| - 1 ==> !Offends(report, i)
  }

  /** IsReportSafePart1: takes the direction from the first pair, then
      rejects at the first step that breaks the rule.  A report of fewer
      than two levels makes `report[1]` raise IndexError, here None. */
  method IsReportSafePart1(report: seq<int>) returns (safe: Option<bool>)
    ensures safe.None? <==> |report| < 2
    ensures safe.Some? ==> (safe.value <==> SafePart1(report))
  {
    if |report| < 2 {
      return None;
    }
    var doesIncrease := true;
    if report[0] - report[1] > 0 {
      doesIncrease := false;
    }
    for i := 0 to |report|
      invariant forall k :: 0 <= k < i && k + 1 < |report| ==> !Offends(report, k)
    {
      if i + 1 < |report| {
        var reportDiff := report[i] - report[i + 1];
        if doesIncrease {
          if reportDiff < -3 || reportDiff > -1 {
            assert Offends(report, i);
            return Some(false);
          }
        } else {
          if reportDiff > 3 || reportDiff < 1 {
            assert Offends(report, i);
            return Some(false);
          }
        }
      }
    }
    return Some(true);
  }

  /** `diffs` of check_safety: `a[i + 1] - a[i]`. */
  function Rise(a: seq<int>, i: nat): int
    requires i + 1 < |a|
  {
    a[i + 1] - a[i]
  }

  /** check_safety: every difference lies in `range(-3, 0)`, or every one
      lies in `range(1, 4)`.  With no differences both hold. */
  function CheckSafety(a: seq<int>): (safe: bool)
    ensures |a| <= 1 ==> safe
  {
    (forall i :: 0 <= i < |a| - 1 ==> -3 <= Rise(a, i) < 0)
    || (forall i :: 0 <= i < |a| - 1 ==> 1 <= Rise(a, i) < 4)
  }

  /** On reports of two or more levels the two safety tests agree. */
  lemma Part1AgreesWithCheckSafety(report: seq<int>)
    requires |report| >= 2
    ensures SafePart1(report) <==> CheckSafety(report)
  {
    if SafePart1(report) {
      if Increasing(report) {
        forall i | 0 <= i < |report| - 1 ensures 1 <= Rise(report, i) < 4 {
          assert !Offends(report, i);
        }
      } else {
        forall i | 0 <= i < |report| - 1 ensures -3 <= Rise(report, i) < 0 {
          assert !Offends(report, i);
        }
      }
    }
    if CheckSafety(report) {
      assert Rise(report, 0) == -Diff(report, 0);
      forall i | 0 <= i < |report| - 1 ensures !Offends(report, i) {
        assert Rise(report, i) == -Diff(report, i);
      }
    }
  }

  /** The first step at or after `k` that breaks the rule, if any. */
  function FirstOffense(report: seq<int>, k: nat): (r: Option<nat>)
    requires |report| >= 2
    ensures r.Some? ==> r.value + 1 < |report|
    decreases |report| - k
  {
    if k + 1 >= |report| then None
    else if Offends(report, k) then Some(k)
    else FirstOffense(report, k + 1)
  }

  lemma {:induction false} FirstOffenseMeaning(report: seq<int>, k: nat)
    requires |report| >= 2
    ensures FirstOffense(report, k).None? <==> forall i :: k <= i < |report| - 1 ==> !Offends(report, i)
    ensures FirstOffense(report, k).Some? ==>
      k <= FirstOffense(report, k).value < |report| - 1 && Offends(report, FirstOffense(report, k).value)
      && forall j :: k <= j < FirstOffense(report, k).value ==> !Offends(report, j)
    decreases |report| - k
  {
    if k + 1 < |report| && !Offends(report, k) {
      FirstOffenseMeaning(report, k + 1);
    }
  }

  /** A report passes part 1 exactly when no step breaks the rule. */
  lemma SafeWhenNoOffense(report: seq<int>)
    requires |report| >= 2
    ensures SafePart1(report) <==> FirstOffense(report, 0).None?
  {
    FirstOffenseMeaning(report, 0);
  }

  /** Python's `list.pop(i)`: the list without its element `i`. */
  function Remove(s: seq<int>, i: nat): (r: seq<int>)
    requires i < |s|
    ensures |r| == |s| - 1
  {
    s[..i] + s[i + 1..]
  }

  /** The list IsReportSafePart2(report, True) leaves behind: it pops, in
      place, the first level of the first bad step. */
  function AfterPop(report: seq<int>): seq<int>
    requires |report| >= 2
  {
    match FirstOffense(report, 0)
    case None => report
    case Some(i) => Remove(report, i)
  }

  /** What IsReportSafePart2(report, True) returns: True with no bad step;
      otherwise whether the report passes part 1 without the first level,
      or without the second level, of the first bad step.  A two-level
      report leaves one level, and the recursive call's `report[1]` raises
      IndexError, here None. */
  function Dampened(report: seq<int>): Option<bool>
    requires |report| >= 2
  {
    match FirstOffense(report, 0)
    case None => Some(true)
    case Some(i) =>
      if |report| == 2 then None
      else Some(SafePart1(Remove(report, i)) || SafePart1(Remove(report, i + 1)))
  }

  /** Finding the first bad step at `i` with no bad step before it names it. */
  lemma FirstOffenseAt(report: seq<int>, i: nat)
    requires |report| >= 2 && i + 1 < |report| && Offends(report, i)
    requires forall k :: 0 <= k < i ==> !Offends(report, k)
    ensures FirstOffense(report, 0) == Some(i)
  {
    FirstOffenseMeaning(report, 0);
  }

  /** IsReportSafePart2: part 2's test written out again.  Without
      tolerance it is part 1.  With tolerance, at the first bad step `i` it
      pops level `i` from the list itself, pops level `i + 1` from a copy,
      and accepts when either passes without tolerance.  `after` is the
      argument list as the call leaves it. */
  method IsReportSafePart2(report: seq<int>, tolerate: bool) returns (result: Option<bool>, after: seq<int>)
    decreases tolerate
    ensures |report| < 2 ==> result == None
    ensures |report| >= 2 && !tolerate ==> result == Some(SafePart1(report)) && after == report
    ensures |report| >= 2 && tolerate ==> result == Dampened(report) && after == AfterPop(report)
  {
    after := report;
    if |report| < 2 {
      return None, report;
    }
    var flagRecord := false;
    var doesIncrease := true;
    if report[0] - report[1] > 0 {
      doesIncrease := false;
    }
    for i := 0 to |report|
      invariant !flagRecord
      invariant forall k :: 0 <= k < i && k + 1 < |report| ==> !Offends(report, k)
    {
      if i + 1 < |report| {
        var reportDiff := report[i] - report[i + 1];
        var size := if reportDiff < 0 then -reportDiff else reportDiff;
        if size < 4 && size > 0 {
          if (doesIncrease && reportDiff > 0) || (!doesIncrease && reportDiff < 0) {
            flagRecord := true;
          }
        } else {
          flagRecord := true;
        }
        if flagRecord {
          FirstOffenseAt(report, i);
          if tolerate {
            var popped := Remove(report, i);
            var currPop := Remove(report, i + 1);
            var first, _ := IsReportSafePart2(popped, false);
            if first != Some(false) {
              return first, popped;
            }
            var second, _ := IsReportSafePart2(currPop, false);
            return second, popped;
          }
          assert Offends(report, i);
          return Some(false), report;
        }
      }
    }
    SafeWhenNoOffense(report);
    return Some(true), report;
  }

  /** A report safe under part 1 is accepted by the dampener, and the
      dampener pops nothing from it. */
  lemma Part1ImpliesDampened(report: seq<int>)
    requires |report| >= 2 && SafePart1(report)
    ensures Dampened(report) == Some(true) && AfterPop(report) == report
  {
    SafeWhenNoOffense(report);
  }

  // ---------------------------------------------------------------------
  // ReportsSafe

  /** Every report can be judged: it has two levels, and the dampener's
      recursive call does not raise. */
  predicate Judgeable(reports: seq<seq<int>>) {
    forall k :: 0 <= k < |reports| ==> |reports[k]| >= 2 && Dampened(reports[k]).Some?
  }

  /** `safe`: the reports that pass part 1, in order. */
  function SafeReports(reports: seq<seq<int>>): (r: seq<seq<int>>)
    requires forall k :: 0 <= k < |reports| ==> |reports[k]| >= 2
    ensures |r| <= |reports|
  {
    if reports == [] then []
    else
      var last := reports[|reports| - 1];
      SafeReports(reports[..|reports| - 1]) + (if SafePart1(last) then [last] else [])
  }

  /** `safe2`: the reports the dampener accepts, each as its pop left it. */
  function DampenedReports(reports: seq<seq<int>>): (r: seq<seq<int>>)
    requires Judgeable(reports)
    ensures |r| <= |reports|
  {
    if reports == [] then []
    else
      var last := reports[|reports| - 1];
      DampenedReports(reports[..|reports| - 1]) + (if Dampened(last) == Some(true) then [AfterPop(last)] else [])
  }

  /** ReportsSafe over parsed reports: None where a report raises. */
  method ReportsSafe(reports: seq<seq<int>>) returns (r: Option<(seq<seq<int>>, seq<seq<int>>)>)
    ensures r.Some? <==> Judgeable(reports)
    ensures r.Some? ==> r.value.0 == SafeReports(reports) && r.value.1 == DampenedReports(reports)
  {
    var safe: seq<seq<int>> := [];
    var safe2: seq<seq<int>> := [];
    for k := 0 to |reports|
      invariant Judgeable(reports[..k])
      invariant safe == SafeReports(reports[..k]) && safe2 == DampenedReports(reports[..k])
    {
      var report := reports[k];
      ReportStep(reports, k);
      var part1 := IsReportSafePart1(report);
      if part1.None? {
        return None;
      }
      if part1.value {
        safe := safe + [report];
      }
      var part2, after := IsReportSafePart2(report, true);
      if part2.None? {
        return None;
      }
      if part2.value {
        safe2 := safe2 + [after];
      }
    }
    assert reports[..|reports|] == reports;
    return Some((safe, safe2));
  }

  lemma ReportStep(reports: seq<seq<int>>, k: nat)
    requires k < |reports|
    ensures Judgeable(reports[..k + 1]) <==>
      Judgeable(reports[..k]) && |reports[k]| >= 2 && Dampened(reports[k]).Some?
    ensures !Judgeable(reports[..k]) ==> !Judgeable(reports)
    ensures Judgeable(reports[..k + 1]) ==>
      SafeReports(reports[..k + 1]) == SafeReports(reports[..k]) + (if SafePart1(reports[k]) then [reports[k]] else [])
      && DampenedReports(reports[..k + 1])
         == DampenedReports(reports[..k]) + (if Dampened(reports[k]) == Some(true) then [AfterPop(reports[k])] else [])
  {
    assert reports[..k + 1][..k] == reports[..k];
    if !Judgeable(reports[..k]) {
      var j :| 0 <= j < k && !(|reports[..k][j]| >= 2 && Dampened(reports[..k][j]).Some?);
      assert reports[j] == reports[..k][j];
    }
  }

  /** Part 2 counts at least as many safe reports as part 1. */
  lemma {:induction false} DampenedCountsMore(reports: seq<seq<int>>)
    requires Judgeable(reports)
    ensures |SafeReports(reports)| <= |DampenedReports(reports)|
  {
    if reports != [] {
      var last := reports[|reports| - 1];
      DampenedCountsMore(reports[..|reports| - 1]);
      if SafePart1(last) {
        Part1ImpliesDampened(last);
      }
    }
  }

  // ---------------------------------------------------------------------
  // The dampener as the puzzle states it

  /** Safe, or safe once some single level is dropped. */
  ghost predicate Tolerable(report: seq<int>) {
    CheckSafety(report) || exists k :: 0 <= k < |report| && CheckSafety(Remove(report, k))
  }

  /** The intended part 2 test: try the report as it is, then without each
      level in turn. */
  method SafeWithDampener(report: seq<int>) returns (ok: bool)
    ensures ok <==> Tolerable(report)
  {
    if CheckSafety(report) {
      return true;
    }
    for k := 0 to |report|
      invariant forall j :: 0 <= j < k ==> !CheckSafety(Remove(report, j))
    {
      if CheckSafety(Remove(report, k)) {
        return true;
      }
    }
    return false;
  }

  /** Whatever the dampener as written accepts, the intended test accepts. */
  lemma DampenedSound(report: seq<int>)
    requires |report| >= 2 && Dampened(report) == Some(true)
    ensures Tolerable(report)
  {
    FirstOffenseMeaning(report, 0);
    match FirstOffense(report, 0)
    case None =>
      SafeWhenNoOffense(report);
      Part1AgreesWithCheckSafety(report);
    case Some(i) =>
      if SafePart1(Remove(report, i)) {
        Part1AgreesWithCheckSafety(Remove(report, i));
      } else {
        Part1AgreesWithCheckSafety(Remove(report, i + 1));
      }
  }

  /** Any two-level report is tolerable: one level alone is safe. */
  lemma TwoLevelsTolerable(report: seq<int>)
    requires |report| == 2
    ensures Tolerable(report)
  {
    assert CheckSafety(Remove(report, 0));
  }

  /** The dampener only drops a level of the first bad step, with the
      direction still taken from the first pair: [3, 1, 2, 3, 4] is
      rejected, although dropping the 3 leaves the safe [1, 2, 3, 4]. */
  lemma DampenerMissesFirstLevel()
    ensures Dampened([3, 1, 2, 3, 4]) == Some(false)
    ensures Tolerable([3, 1, 2, 3, 4])
  {
    var r := [3, 1, 2, 3, 4];
    DampenerRejectsExample(r);
    assert Remove(r, 0) == [1, 2, 3, 4];
    StraightRunSafe();
  }

  lemma DampenerRejectsExample(r: seq<int>)
    requires r == [3, 1, 2, 3, 4]
    ensures Dampened(r) == Some(false)
  {
    assert !Offends(r, 0) && Offends(r, 1);
    FirstOffenseAt(r, 1);
    var left, right := Remove(r, 1), Remove(r, 2);
    assert left == [3, 2, 3, 4] && Offends(left, 1);
    assert right == [3, 1, 3, 4] && Offends(right, 1);
  }

  lemma StraightRunSafe()
    ensures CheckSafety([1, 2, 3, 4])
  {
    var a := [1, 2, 3, 4];
    forall i | 0 <= i < |a| - 1 ensures 1 <= Rise(a, i) < 4 {
      assert a[i + 1] == a[i] + 1;
    }
  }

  /** A two-level report with a bad step makes the dampener raise. */
  lemma TwoLevelReportRaises()
    ensures Dampened([1, 1]) == None
    ensures Tolerable([1, 1])
  {
    var r := [1, 1];
    assert Offends(r, 0);
    FirstOffenseAt(r, 0);
    TwoLevelsTolerable(r);
  }
}
