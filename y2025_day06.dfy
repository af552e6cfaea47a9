/** 2025 day 6: a worksheet of arithmetic problems laid out in columns.
    Problems are separated by columns that are blank on every line. Part 1
    reads each problem row by row (numbers on top, the operator on the last
    line); part 2 reads "cephalopod" style, one number per column, right to
    left, each number's digits top to bottom. */
module Worksheet {
  import opened Common

  // ---------------------------------------------------------------------
  // Padding

  function Spaces(n: nat): (s: string)
    ensures |s| == n && forall i :: 0 <= i < n ==> s[i] == ' '
  {
    seq(n, _ => ' ')
  }

  /** `line.ljust(width)`: the line, then spaces up to `width`. */
  function LJust(line: string, width: nat): (r: string)
    ensures |r| == if |line| >= width then |line| else width
    ensures r[..|line|] == line && forall i :: |line| <= i < |r| ==> r[i] == ' '
  {
    if |line| >= width then line else line + Spaces(width - |line|)
  }

  /** `max(len(line) for line in lines)` (0 for no lines, where Python raises;
      the solvers return before that). */
  function MaxLen(lines: seq<string>): nat {
    if lines == [] then 0
    else
      var m := MaxLen(lines[..|lines| - 1]);
      if |lines[|lines| - 1]| > m then |lines[|lines| - 1]| else m
  }

  lemma {:induction false} MaxLenIsMax(lines: seq<string>)
    ensures forall i :: 0 <= i < |lines| ==> |lines[i]| <= MaxLen(lines)
    ensures lines != [] ==> exists i :: 0 <= i < |lines| && |lines[i]| == MaxLen(lines)
  {
    if lines != [] {
      var n := |lines| - 1;
      var prefix := lines[..n];
      MaxLenIsMax(prefix);
      forall i | 0 <= i < |lines| ensures |lines[i]| <= MaxLen(lines) {
        if i < n { assert lines[i] == prefix[i]; }
      }
      if |lines[n]| > MaxLen(prefix) || prefix == [] {
        assert |lines[n]| == MaxLen(lines);
      } else {
        var j :| 0 <= j < |prefix| && |prefix[j]| == MaxLen(prefix);
        assert lines[j] == prefix[j];
      }
    }
  }

  /** `[line.ljust(max_width) for line in lines]` */
  function Pad(lines: seq<string>): seq<string> {
    seq(|lines|, i requires 0 <= i < |lines| => LJust(lines[i], MaxLen(lines)))
  }

  predicate Rectangular(p: seq<string>, width: int) {
    forall i :: 0 <= i < |p| ==> |p[i]| == width
  }

  /** Padding gives every line the width of the longest one, keeps the text of
      each line and adds only spaces. */
  lemma PadMeaning(lines: seq<string>)
    ensures |Pad(lines)| == |lines| && Rectangular(Pad(lines), MaxLen(lines))
    ensures forall i :: 0 <= i < |lines| ==> Pad(lines)[i][..|lines[i]|] == lines[i]
    ensures forall i, c :: 0 <= i < |lines| && |lines[i]| <= c < MaxLen(lines) ==> Pad(lines)[i][c] == ' '
  {
    MaxLenIsMax(lines);
  }

  // ---------------------------------------------------------------------
  // Column runs

  /** `all(line[col] == ' ' for line in padded_lines)` */
  predicate SpaceColumn(p: seq<string>, col: int) {
    p == [] || (0 <= col < |p[0]| && p[0][col] == ' ' && SpaceColumn(p[1..], col))
  }

  /** A blank column is a space on every line. */
  lemma {:induction false} SpaceColumnMeaning(p: seq<string>, col: int)
    ensures SpaceColumn(p, col) <==> forall i :: 0 <= i < |p| ==> 0 <= col < |p[i]| && p[i][col] == ' '
  {
    if p != [] {
      SpaceColumnMeaning(p[1..], col);
      if forall i :: 0 <= i < |p| ==> 0 <= col < |p[i]| && p[i][col] == ' ' {
        forall i | 0 <= i < |p| - 1 ensures 0 <= col < |p[1..][i]| && p[1..][i][col] == ' ' {
          assert p[1..][i] == p[i + 1];
        }
      }
    }
  }

  /** The first column at or after `c` that is blank on every line, or `width`. */
  function RunEnd(p: seq<string>, width: int, c: int): (e: int)
    requires c <= width
    ensures c <= e <= width
    decreases width - c
  {
    if c == width || SpaceColumn(p, c) then c else RunEnd(p, width, c + 1)
  }

  lemma {:induction false} RunEndMeaning(p: seq<string>, width: int, c: int)
    requires c <= width
    ensures forall k :: c <= k < RunEnd(p, width, c) ==> !SpaceColumn(p, k)
    ensures RunEnd(p, width, c) == width || SpaceColumn(p, RunEnd(p, width, c))
    decreases width - c
  {
    if c < width && !SpaceColumn(p, c) {
      RunEndMeaning(p, width, c + 1);
    }
  }

  lemma {:induction false} RunEndIs(p: seq<string>, width: int, c: int, e: int)
    requires c <= e <= width
    requires forall k :: c <= k < e ==> !SpaceColumn(p, k)
    requires e == width || SpaceColumn(p, e)
    ensures RunEnd(p, width, c) == e
    decreases e - c
  {
    if c < e {
      RunEndIs(p, width, c + 1, e);
    }
  }

  /** The problems' column ranges `[start, end)`, scanning from `col` as the
      outer loop of `parse_worksheet` does. */
  function Runs(p: seq<string>, width: int, col: nat): seq<(int, int)>
    decreases width - col
  {
    if col >= width then []
    else if SpaceColumn(p, col) then Runs(p, width, col + 1)
    else
      var e := RunEnd(p, width, col);
      [(col, e)] + Runs(p, width, e + 1)
  }

  /** The ranges lie in `[col, width)`, left to right, with a gap between any two. */
  ghost predicate RunsOrdered(width: int, col: int, rs: seq<(int, int)>) {
    (forall k :: 0 <= k < |rs| ==> col <= rs[k].0 < rs[k].1 <= width)
    && (forall k :: 0 <= k < |rs| - 1 ==> rs[k].1 < rs[k + 1].0)
  }

  /** Each range is non-blank throughout and bounded by blank columns or the edges. */
  ghost predicate RunsMaximal(p: seq<string>, width: int, rs: seq<(int, int)>) {
    (forall k, c :: 0 <= k < |rs| && rs[k].0 <= c < rs[k].1 ==> !SpaceColumn(p, c))
    && (forall k :: 0 <= k < |rs| ==> rs[k].1 == width || SpaceColumn(p, rs[k].1))
    && (forall k :: 0 <= k < |rs| ==> rs[k].0 == 0 || SpaceColumn(p, rs[k].0 - 1))
  }

  /** Every non-blank column of `[col, width)` lies in one of the ranges. */
  ghost predicate RunsCover(p: seq<string>, width: int, col: int, rs: seq<(int, int)>) {
    forall c :: col <= c < width && !SpaceColumn(p, c) ==> exists k :: 0 <= k < |rs| && rs[k].0 <= c < rs[k].1
  }

  /** `rs` lists, left to right, the maximal runs of non-blank columns of
      `[col, width)`. */
  ghost predicate RunsFrom(p: seq<string>, width: int, col: int, rs: seq<(int, int)>) {
    RunsOrdered(width, col, rs) && RunsMaximal(p, width, rs) && RunsCover(p, width, col, rs)
  }

  /** The column ranges are exactly the maximal runs of non-blank columns:
      each is non-blank throughout, bounded by blank columns or the edges, and
      every non-blank column lies in one of them. */
  lemma {:induction false} RunsAreMaximal(p: seq<string>, width: int, col: nat)
    requires col == 0 || SpaceColumn(p, col - 1)
    ensures RunsFrom(p, width, col, Runs(p, width, col))
    decreases width - col
  {
    if col >= width {
    } else if SpaceColumn(p, col) {
      var rs := Runs(p, width, col + 1);
      assert Runs(p, width, col) == rs;
      RunsAreMaximal(p, width, col + 1);
      RunsCoverSkip(p, width, col, rs);
    } else {
      var e := RunEnd(p, width, col);
      RunEndMeaning(p, width, col);
      var tail := Runs(p, width, e + 1);
      if e < width {
        RunsAreMaximal(p, width, e + 1);
      } else {
        assert tail == [];
      }
      assert Runs(p, width, col) == [(col, e)] + tail;
      RunsOrderedCons(width, col, e, tail);
      RunsMaximalCons(p, width, col, e, tail);
      RunsCoverCons(p, width, col, e, tail);
    }
  }

  lemma RunsCoverSkip(p: seq<string>, width: int, col: int, rs: seq<(int, int)>)
    requires SpaceColumn(p, col) && RunsCover(p, width, col + 1, rs) && RunsOrdered(width, col + 1, rs)
    ensures RunsCover(p, width, col, rs) && RunsOrdered(width, col, rs)
  {
  }

  lemma RunsOrderedCons(width: int, col: int, e: int, tail: seq<(int, int)>)
    requires 0 <= col < e <= width && RunsOrdered(width, e + 1, tail)
    ensures RunsOrdered(width, col, [(col, e)] + tail)
  {
  }

  lemma RunsMaximalCons(p: seq<string>, width: int, col: int, e: int, tail: seq<(int, int)>)
    requires col == 0 || SpaceColumn(p, col - 1)
    requires forall k :: col <= k < e ==> !SpaceColumn(p, k)
    requires e == width || SpaceColumn(p, e)
    requires RunsMaximal(p, width, tail)
    ensures RunsMaximal(p, width, [(col, e)] + tail)
  {
    var rs := [(col, e)] + tail;
    assert forall k :: 1 <= k < |rs| ==> rs[k] == tail[k - 1];
  }

  lemma RunsCoverCons(p: seq<string>, width: int, col: int, e: int, tail: seq<(int, int)>)
    requires col < e && RunsCover(p, width, e + 1, tail)
    requires e == width || SpaceColumn(p, e)
    ensures RunsCover(p, width, col, [(col, e)] + tail)
  {
    var rs := [(col, e)] + tail;
    forall c | col <= c < width && !SpaceColumn(p, c)
      ensures exists k :: 0 <= k < |rs| && rs[k].0 <= c < rs[k].1
    {
      if c < e {
        assert rs[0].0 <= c < rs[0].1;
      } else {
        var k :| 0 <= k < |tail| && tail[k].0 <= c < tail[k].1;
        assert rs[k + 1] == tail[k];
      }
    }
  }

  // ---------------------------------------------------------------------
  // Part 1: problems read row by row

  /** The stripped, non-empty pieces of columns `[start, end)` of each line:
      `line[problem_start:problem_end].strip()` kept when non-empty. */
  function ProblemLines(p: seq<string>, start: int, end: int): seq<string> {
    if p == [] then []
    else
      var text := Strip(Slice(p[|p| - 1], start, end));
      ProblemLines(p[..|p| - 1], start, end) + (if text != [] then [text] else [])
  }

  lemma ProblemLinesStep(p: seq<string>, i: int, start: int, end: int)
    requires 0 <= i < |p|
    ensures var text := Strip(Slice(p[i], start, end));
      ProblemLines(p[..i + 1], start, end) == ProblemLines(p[..i], start, end) + (if text != [] then [text] else [])
  {
    assert p[..i + 1][..i] == p[..i];
  }

  /** The problems of the column ranges `rs`, leaving out those with no text. */
  function Kept(p: seq<string>, rs: seq<(int, int)>): seq<seq<string>> {
    if rs == [] then []
    else
      var problem := ProblemLines(p, rs[0].0, rs[0].1);
      (if problem != [] then [problem] else []) + Kept(p, rs[1..])
  }

  /** What `parse_worksheet` returns. */
  function Problems(lines: seq<string>): seq<seq<string>> {
    if lines == [] then [] else Kept(Pad(lines), Runs(Pad(lines), MaxLen(lines), 0))
  }

  /** The inner scan of `parse_worksheet`: from a column with text to the
      next blank column, or the edge. */
  method FindRunEnd(padded: seq<string>, maxWidth: int, col: int) returns (problemEnd: int)
    requires 0 <= col <= maxWidth
    ensures problemEnd == RunEnd(padded, maxWidth, col)
  {
    problemEnd := col;
    while problemEnd < maxWidth
      invariant col <= problemEnd <= maxWidth
      invariant RunEnd(padded, maxWidth, problemEnd) == RunEnd(padded, maxWidth, col)
      decreases maxWidth - problemEnd
    {
      var isSeparator := SpaceColumn(padded, problemEnd);
      if isSeparator {
        break;
      }
      problemEnd := problemEnd + 1;
    }
  }

  /** The `problem_lines` loop of `parse_worksheet`. */
  method ExtractProblem(padded: seq<string>, problemStart: int, problemEnd: int) returns (problemLines: seq<string>)
    ensures problemLines == ProblemLines(padded, problemStart, problemEnd)
  {
    problemLines := [];
    for i := 0 to |padded|
      invariant problemLines == ProblemLines(padded[..i], problemStart, problemEnd)
    {
      ProblemLinesStep(padded, i, problemStart, problemEnd);
      var problemText := Strip(Slice(padded[i], problemStart, problemEnd));
      if problemText != [] {
        problemLines := problemLines + [problemText];
      }
    }
    assert padded[..|padded|] == padded;
  }

  /** One step of the outer loop of `parse_worksheet` over a column with text. */
  lemma RunsStep(p: seq<string>, width: int, col: nat)
    requires col < width && !SpaceColumn(p, col)
    ensures Runs(p, width, col) == [(col, RunEnd(p, width, col))] + Runs(p, width, RunEnd(p, width, col) + 1)
  {
  }

  /** The outer loop of `parse_worksheet` steps over a blank column. */
  lemma RunsSkip(p: seq<string>, width: int, col: nat)
    requires col < width && SpaceColumn(p, col)
    ensures Runs(p, width, col) == Runs(p, width, col + 1)
  {
  }

  lemma KeptCons(p: seq<string>, r: (int, int), rs: seq<(int, int)>)
    ensures var problem := ProblemLines(p, r.0, r.1);
      Kept(p, [r] + rs) == (if problem != [] then [problem] else []) + Kept(p, rs)
  {
    assert ([r] + rs)[1..] == rs;
  }

  /** The body of the outer loop of `parse_worksheet` at a column with text:
      the problem found there is appended when it has any text, and the scan
      goes on after its end. */
  method TakeProblem(padded: seq<string>, maxWidth: int, col: nat, problems: seq<seq<string>>)
    returns (problemEnd: nat, extended: seq<seq<string>>)
    requires col < maxWidth && !SpaceColumn(padded, col)
    ensures problemEnd == RunEnd(padded, maxWidth, col)
    ensures extended + Kept(padded, Runs(padded, maxWidth, problemEnd + 1))
      == problems + Kept(padded, Runs(padded, maxWidth, col))
  {
    problemEnd := FindRunEnd(padded, maxWidth, col);
    var problemLines := ExtractProblem(padded, col, problemEnd);
    ghost var rest := Kept(padded, Runs(padded, maxWidth, problemEnd + 1));
    RunsStep(padded, maxWidth, col);
    KeptCons(padded, (col, problemEnd), Runs(padded, maxWidth, problemEnd + 1));
    ghost var todo := Kept(padded, Runs(padded, maxWidth, col));
    assert todo == (if problemLines != [] then [problemLines] else []) + rest;
    if problemLines != [] {
      AppendAssoc(problems, [problemLines], rest);
      extended := problems + [problemLines];
      assert extended + rest == problems + todo;
    } else {
      assert todo == rest;
      extended := problems;
      assert extended + rest == problems + todo;
    }
  }

  /** One pass of the outer loop of `parse_worksheet`: a column with text
      yields its problem and the scan resumes after the run; a blank column is
      stepped over. */
  method ScanColumn(padded: seq<string>, maxWidth: int, col: nat, problems: seq<seq<string>>)
    returns (next: nat, extended: seq<seq<string>>)
    requires col < maxWidth
    ensures col < next
    ensures extended + Kept(padded, Runs(padded, maxWidth, next)) == problems + Kept(padded, Runs(padded, maxWidth, col))
  {
    var hasContent := !SpaceColumn(padded, col);
    if hasContent {
      var problemEnd;
      problemEnd, extended := TakeProblem(padded, maxWidth, col, problems);
      next := problemEnd + 1;
    } else {
      RunsSkip(padded, maxWidth, col);
      next, extended := col + 1, problems;
    }
  }

  /** Past the last column nothing is left to find. */
  lemma ScanDone(p: seq<string>, width: int, col: nat, problems: seq<seq<string>>)
    requires col >= width
    ensures problems + Kept(p, Runs(p, width, col)) == problems
  {
    assert Runs(p, width, col) == [];
    assert problems + [] == problems;
  }

  /** The outer loop of `parse_worksheet` over the padded lines. */
  method ScanProblems(padded: seq<string>, maxWidth: int) returns (problems: seq<seq<string>>)
    ensures problems == Kept(padded, Runs(padded, maxWidth, 0))
  {
    ghost var target := Kept(padded, Runs(padded, maxWidth, 0));
    problems := [];
    var col: nat := 0;
    assert problems + target == target;
    while col < maxWidth
      invariant problems + Kept(padded, Runs(padded, maxWidth, col)) == target
      decreases maxWidth - col
    {
      col, problems := ScanColumn(padded, maxWidth, col, problems);
    }
    ScanDone(padded, maxWidth, col, problems);
  }

  /** `parse_worksheet` */
  method ParseWorksheet(lines: seq<string>) returns (problems: seq<seq<string>>)
    ensures problems == Problems(lines)
  {
    if |lines| == 0 {
      return [];
    }
    var maxWidth := MaxLen(lines);
    var padded := Pad(lines);
    problems := ScanProblems(padded, maxWidth);
  }

  /** What `strip()` leaves when it leaves something. */
  predicate Stripped(l: string) {
    l != [] && !IsSpace(l[0]) && !IsSpace(l[|l| - 1])
  }

  predicate AllStripped(ls: seq<string>) {
    forall j :: 0 <= j < |ls| ==> Stripped(ls[j])
  }

  /** Every line kept for a problem is stripped and non-empty. */
  lemma {:induction false} ProblemLinesStripped(p: seq<string>, start: int, end: int)
    ensures AllStripped(ProblemLines(p, start, end))
  {
    if p != [] {
      ProblemLinesStripped(p[..|p| - 1], start, end);
    }
  }

  /** Every problem is non-empty and made of stripped, non-empty lines. */
  predicate CleanProblems(ps: seq<seq<string>>) {
    forall k :: 0 <= k < |ps| ==> ps[k] != [] && AllStripped(ps[k])
  }

  lemma CleanConcat(a: seq<seq<string>>, b: seq<seq<string>>)
    requires CleanProblems(a) && CleanProblems(b)
    ensures CleanProblems(a + b)
  {
    forall k | 0 <= k < |a + b| ensures (a + b)[k] != [] && AllStripped((a + b)[k]) {
      if k >= |a| {
        assert (a + b)[k] == b[k - |a|];
      } else {
        assert (a + b)[k] == a[k];
      }
    }
  }

  /** Every kept problem is non-empty and made of stripped, non-empty lines. */
  lemma {:induction false} KeptStripped(p: seq<string>, rs: seq<(int, int)>)
    ensures CleanProblems(Kept(p, rs))
  {
    if rs != [] {
      var problem := ProblemLines(p, rs[0].0, rs[0].1);
      var head := if problem != [] then [problem] else [];
      assert CleanProblems(head) by {
        ProblemLinesStripped(p, rs[0].0, rs[0].1);
      }
      KeptStripped(p, rs[1..]);
      CleanConcat(head, Kept(p, rs[1..]));
    }
  }

  lemma ProblemsMeaning(lines: seq<string>)
    requires lines != []
    ensures RunsFrom(Pad(lines), MaxLen(lines), 0, Runs(Pad(lines), MaxLen(lines), 0))
    ensures CleanProblems(Problems(lines))
  {
    RunsAreMaximal(Pad(lines), MaxLen(lines), 0);
    KeptStripped(Pad(lines), Runs(Pad(lines), MaxLen(lines), 0));
  }

  /** `result = 1; for num in numbers: result *= num` */
  method MultiplyAll(numbers: seq<int>) returns (result: int)
    ensures result == Product(numbers)
  {
    result := 1;
    for i := 0 to |numbers|
      invariant result == Product(numbers[..i])
    {
      assert numbers[..i + 1][..i] == numbers[..i];
      result := result * numbers[i];
    }
    assert numbers[..|numbers|] == numbers;
  }

  /** A list comprehension whose element function may fail: the list of
      results, or `None` as soon as one element fails. */
  function MapAll<T>(xs: seq<T>, f: T -> Option<int>): (r: Option<seq<int>>)
    ensures r.Some? ==> |r.value| == |xs|
  {
    if xs == [] then Some([])
    else
      match (MapAll(xs[..|xs| - 1], f), f(xs[|xs| - 1]))
      case (Some(ns), Some(n)) => Some(ns + [n])
      case _ => None
  }

  /** The comprehension fails exactly when some element fails. */
  lemma {:induction false} MapAllFails<T>(xs: seq<T>, f: T -> Option<int>)
    ensures MapAll(xs, f).Some? <==> forall i :: 0 <= i < |xs| ==> f(xs[i]).Some?
  {
    if xs != [] {
      var n := |xs| - 1;
      var prefix := xs[..n];
      MapAllFails(prefix, f);
      assert forall i :: 0 <= i < n ==> prefix[i] == xs[i];
    }
  }

  /** Otherwise it holds each element's result, in order. */
  lemma {:induction false} MapAllValues<T>(xs: seq<T>, f: T -> Option<int>)
    requires MapAll(xs, f).Some?
    ensures forall i :: 0 <= i < |xs| ==> f(xs[i]).Some? && MapAll(xs, f).value[i] == f(xs[i]).value
  {
    if xs != [] {
      var n := |xs| - 1;
      var prefix := xs[..n];
      MapAllValues(prefix, f);
      assert forall i :: 0 <= i < n ==> prefix[i] == xs[i];
    }
  }

  /** The number a line of a problem reads as: `int(line.strip())`, with
      `None` for the `ValueError` that `int` raises on anything else. */
  function LineNumber(line: string): Option<int> {
    ParseInt(Strip(line))
  }

  /** `[int(line.strip()) for line in ls]` */
  function ParseNumbers(ls: seq<string>): Option<seq<int>> {
    MapAll(ls, LineNumber)
  }

  /** `solve_problem`: the last line is the operator, the others the numbers;
      '+' adds them, '*' multiplies them, any other operator and a problem
      with no numbers give 0, and a line that is not a number fails. */
  method SolveProblem(problemLines: seq<string>) returns (result: Option<int>)
    ensures problemLines == [] ==> result == Some(0)
    ensures problemLines != [] ==>
      (result.None? <==> ParseNumbers(problemLines[..|problemLines| - 1]).None?)
    ensures problemLines != [] && result.Some? ==>
      var operator := Strip(problemLines[|problemLines| - 1]);
      var numbers := ParseNumbers(problemLines[..|problemLines| - 1]).value;
      result.value == if numbers == [] then 0
                      else if operator == "+" then Sum(numbers)
                      else if operator == "*" then Product(numbers)
                      else 0
  {
    if |problemLines| == 0 {
      return Some(0);
    }
    var operator := Strip(problemLines[|problemLines| - 1]);
    var parsed := ParseNumbers(problemLines[..|problemLines| - 1]);
    if parsed.None? {
      return None;
    }
    var numbers := parsed.value;
    if |numbers| == 0 {
      return Some(0);
    }
    if operator == "+" {
      result := Some(Sum(numbers));
    } else if operator == "*" {
      var product := MultiplyAll(numbers);
      result := Some(product);
    } else {
      result := Some(0);
    }
  }

  // ---------------------------------------------------------------------
  // Part 2: cephalopod reading

  /** The columns below `n` that are blank on every line, in increasing order. */
  function SpaceColumnsBelow(p: seq<string>, n: nat): seq<int> {
    if n == 0 then []
    else SpaceColumnsBelow(p, n - 1) + (if SpaceColumn(p, n - 1) then [n - 1] else [])
  }

  predicate Increasing(s: seq<int>) {
    forall i, j :: 0 <= i < j < |s| ==> s[i] < s[j]
  }

  lemma {:induction false} SpaceColumnsMeaning(p: seq<string>, n: nat)
    ensures forall c :: c in SpaceColumnsBelow(p, n) <==> 0 <= c < n && SpaceColumn(p, c)
    ensures Increasing(SpaceColumnsBelow(p, n))
  {
    if n > 0 {
      var prev := SpaceColumnsBelow(p, n - 1);
      SpaceColumnsMeaning(p, n - 1);
      var cur := SpaceColumnsBelow(p, n);
      var add := if SpaceColumn(p, n - 1) then [n - 1] else [];
      assert cur == prev + add;
      forall i, j | 0 <= i < j < |cur| ensures cur[i] < cur[j] {
        assert cur[i] == prev[i] && prev[i] in prev;
        if j < |prev| {
          assert cur[j] == prev[j];
        }
      }
    }
  }

  /** Between two consecutive separators, and after the last, every column
      has text. */
  lemma NoSeparatorBetween(p: seq<string>, width: nat, scs: seq<int>, i: int)
    requires scs == SpaceColumnsBelow(p, width) && 0 <= i <= |scs|
    ensures var lo, hi := (if i == 0 then 0 else scs[i - 1] + 1), (if i == |scs| then width else scs[i]);
      forall c :: lo <= c < hi ==> !SpaceColumn(p, c)
  {
    SpaceColumnsMeaning(p, width);
    var lo := if i == 0 then 0 else scs[i - 1] + 1;
    var hi := if i == |scs| then width else scs[i];
    if i > 0 { assert scs[i - 1] in scs; }
    if i < |scs| { assert scs[i] in scs; }
    forall c | lo <= c < hi ensures !SpaceColumn(p, c) {
      forall j | 0 <= j < |scs| ensures scs[j] != c {
        if j < i - 1 {
          assert scs[j] < scs[i - 1];
        } else if i < j {
          assert scs[i] < scs[j];
        }
      }
      assert c !in scs;
    }
  }

  /** One step of the separator loop of `parse_worksheet_cephalopod`: the
      ranges it emits up to separator `sc` are the runs `Runs` finds there. */
  lemma RunsAtSeparator(p: seq<string>, width: int, start: nat, sc: int)
    requires start <= sc < width && SpaceColumn(p, sc)
    requires forall c :: start <= c < sc ==> !SpaceColumn(p, c)
    ensures Runs(p, width, start) == (if sc > start then [(start, sc)] else []) + Runs(p, width, sc + 1)
  {
    if sc > start {
      RunEndIs(p, width, start, sc);
    }
  }

  lemma RunsAfterLastSeparator(p: seq<string>, width: int, start: nat)
    requires forall c :: start <= c < width ==> !SpaceColumn(p, c)
    ensures Runs(p, width, start) == if start < width then [(start, width)] else []
  {
    if start < width {
      RunEndIs(p, width, start, width);
    }
  }

  /** The first '*' or '+' on the operator line within `[start, end)`. */
  function FirstOperator(opLine: string, start: int, end: int): (r: Option<char>)
    requires 0 <= start && end <= |opLine|
    ensures r.Some? ==> r.value == '*' || r.value == '+'
    decreases end - start
  {
    if start >= end then None
    else if opLine[start] == '*' || opLine[start] == '+' then Some(opLine[start])
    else FirstOperator(opLine, start + 1, end)
  }

  predicate IsOperator(ch: char) {
    ch == '*' || ch == '+'
  }

  /** No '*' or '+' in `opLine[start..end]`. */
  predicate NoOperatorIn(opLine: string, start: int, end: int)
    requires 0 <= start && end <= |opLine|
  {
    forall c :: start <= c < end ==> !IsOperator(opLine[c])
  }

  /** `FirstOperator` finds the leftmost operator of the range, and finds none
      only when the range has none. */
  lemma {:induction false} FirstOperatorMeaning(opLine: string, start: int, end: int)
    requires 0 <= start && end <= |opLine|
    ensures FirstOperator(opLine, start, end).None? <==> NoOperatorIn(opLine, start, end)
    ensures FirstOperator(opLine, start, end).Some? ==>
      exists c :: start <= c < end && opLine[c] == FirstOperator(opLine, start, end).value && NoOperatorIn(opLine, start, c)
    decreases end - start
  {
    if start < end {
      if IsOperator(opLine[start]) {
        assert NoOperatorIn(opLine, start, start);
        assert !NoOperatorIn(opLine, start, end);
      } else {
        FirstOperatorMeaning(opLine, start + 1, end);
        if FirstOperator(opLine, start, end).Some? {
          var c :| start + 1 <= c < end && opLine[c] == FirstOperator(opLine, start, end).value && NoOperatorIn(opLine, start + 1, c);
          assert NoOperatorIn(opLine, start, c);
        } else {
          assert NoOperatorIn(opLine, start, end);
        }
      }
    }
  }

  /** The operator loop of `parse_worksheet_cephalopod`. */
  method FindOperator(opLine: string, start: int, end: int) returns (operator: Option<char>)
    requires 0 <= start && end <= |opLine|
    ensures operator == FirstOperator(opLine, start, end)
  {
    operator := None;
    var c := start;
    while c < end
      invariant start <= c
      invariant FirstOperator(opLine, c, end) == FirstOperator(opLine, start, end)
      decreases end - c
    {
      if opLine[c] == '*' || opLine[c] == '+' {
        operator := Some(opLine[c]);
        return;
      }
      c := c + 1;
    }
  }

  /** Every row has at least `w` characters. */
  predicate WideRows(rows: seq<string>, w: int) {
    forall r :: 0 <= r < |rows| ==> w <= |rows[r]|
  }

  predicate DigitString(s: string) {
    forall i :: 0 <= i < |s| ==> IsDigit(s[i])
  }

  /** The digits of column `col`, top to bottom, skipping everything else. */
  function ColumnDigits(rows: seq<string>, col: int): (d: string)
    requires 0 <= col && WideRows(rows, col + 1)
    ensures DigitString(d)
  {
    if rows == [] then []
    else
      var last := rows[|rows| - 1][col];
      ColumnDigits(rows[..|rows| - 1], col) + (if IsDigit(last) then [last] else [])
  }

  /** The characters of column `col` that are digits, top to bottom. */
  lemma {:induction false} ColumnDigitsMeaning(rows: seq<string>, col: int)
    requires 0 <= col && WideRows(rows, col + 1)
    ensures |ColumnDigits(rows, col)| <= |rows|
    ensures ColumnDigits(rows, col) == [] <==> forall r :: 0 <= r < |rows| ==> !IsDigit(rows[r][col])
  {
    if rows != [] {
      var init := rows[..|rows| - 1];
      ColumnDigitsMeaning(init, col);
      if ColumnDigits(rows, col) == [] {
        forall r | 0 <= r < |rows| ensures !IsDigit(rows[r][col]) {
          if r < |rows| - 1 {
            assert rows[r] == init[r];
          }
        }
      }
    }
  }

  /** The digit loop of `parse_worksheet_cephalopod` for one column. */
  method ReadColumn(rows: seq<string>, col: int) returns (digits: string)
    requires 0 <= col && WideRows(rows, col + 1)
    ensures digits == ColumnDigits(rows, col)
  {
    digits := [];
    for rowIdx := 0 to |rows|
      invariant digits == ColumnDigits(rows[..rowIdx], col)
    {
      assert rows[..rowIdx + 1][..rowIdx] == rows[..rowIdx];
      var ch := rows[rowIdx][col];
      if IsDigit(ch) {
        digits := digits + [ch];
      }
    }
    assert rows[..|rows|] == rows;
  }

  /** The numbers of columns `[start, end)`, right to left: each column with
      at least one digit gives one number. */
  function ColumnNumbers(rows: seq<string>, start: int, end: int): seq<int>
    requires 0 <= start && WideRows(rows, end)
    decreases end - start
  {
    if end <= start then []
    else
      var digits := ColumnDigits(rows, end - 1);
      (if digits != [] then [DigitsValue(digits) as int] else []) + ColumnNumbers(rows, start, end - 1)
  }

  /** The column loop of `parse_worksheet_cephalopod`, right to left. */
  method ReadNumbers(rows: seq<string>, start: int, end: int) returns (numbers: seq<int>)
    requires 0 <= start && WideRows(rows, end)
    ensures numbers == ColumnNumbers(rows, start, end)
  {
    ghost var target := ColumnNumbers(rows, start, end);
    numbers := [];
    var col: int := end - 1;
    assert numbers + target == target;
    while col >= start
      invariant col < end && (col == end - 1 || start - 1 <= col)
      invariant WideRows(rows, col + 1)
      invariant numbers + ColumnNumbers(rows, start, col + 1) == target
      decreases col
    {
      numbers := TakeColumn(rows, start, col, numbers);
      col := col - 1;
    }
    NoColumnsLeft(rows, start, col + 1, numbers);
  }

  lemma NoColumnsLeft(rows: seq<string>, start: int, end: int, numbers: seq<int>)
    requires 0 <= start && end <= start && WideRows(rows, end)
    ensures numbers + ColumnNumbers(rows, start, end) == numbers
  {
    assert numbers + [] == numbers;
  }

  /** One pass of the column loop of `parse_worksheet_cephalopod`: a column
      with digits adds its number, any other column adds nothing. */
  method TakeColumn(rows: seq<string>, start: int, col: int, numbers: seq<int>) returns (extended: seq<int>)
    requires 0 <= start <= col && WideRows(rows, col + 1)
    ensures extended + ColumnNumbers(rows, start, col) == numbers + ColumnNumbers(rows, start, col + 1)
  {
    var digits := ReadColumn(rows, col);
    ghost var tail := ColumnNumbers(rows, start, col);
    assert ColumnNumbers(rows, start, col + 1) == (if digits != [] then [DigitsValue(digits) as int] else []) + tail;
    if digits != [] {
      var number: int := DigitsValue(digits);
      AppendAssoc(numbers, [number], tail);
      extended := numbers + [number];
    } else {
      assert [] + tail == tail;
      extended := numbers;
    }
  }

  /** Every range lies within `[0, width)`. */
  predicate RangesWithin(rs: seq<(int, int)>, width: int) {
    forall k :: 0 <= k < |rs| ==> 0 <= rs[k].0 && rs[k].1 <= width
  }

  /** The problems of the column ranges `rs`: ranges with no operator or no
      number are left out. */
  function CephalopodOf(opLine: string, rows: seq<string>, rs: seq<(int, int)>): seq<(char, seq<int>)>
    requires WideRows(rows, |opLine|) && RangesWithin(rs, |opLine|)
  {
    if rs == [] then []
    else
      var op := FirstOperator(opLine, rs[0].0, rs[0].1);
      var numbers := ColumnNumbers(rows, rs[0].0, rs[0].1);
      (if op.Some? && numbers != [] then [(op.value, numbers)] else []) + CephalopodOf(opLine, rows, rs[1..])
  }

  lemma RunsInBounds(p: seq<string>, width: int)
    ensures RangesWithin(Runs(p, width, 0), width)
  {
    RunsAreMaximal(p, width, 0);
  }

  /** The operator line and the number lines of a padded worksheet. */
  lemma RectangularSplit(p: seq<string>, width: int)
    requires p != [] && Rectangular(p, width)
    ensures |p[|p| - 1]| == width && WideRows(p[..|p| - 1], width)
  {
  }

  /** What `parse_worksheet_cephalopod` returns. */
  function CephalopodProblems(lines: seq<string>): seq<(char, seq<int>)> {
    if lines == [] then []
    else
      var p := Pad(lines);
      PadMeaning(lines);
      RectangularSplit(p, MaxLen(lines));
      RunsInBounds(p, MaxLen(lines));
      CephalopodOf(p[|p| - 1], p[..|p| - 1], Runs(p, MaxLen(lines), 0))
  }

  /** The separator loop of `parse_worksheet_cephalopod`. */
  method FindSpaceColumns(padded: seq<string>, maxWidth: nat) returns (spaceColumns: seq<int>)
    ensures spaceColumns == SpaceColumnsBelow(padded, maxWidth)
  {
    spaceColumns := [];
    for col := 0 to maxWidth
      invariant spaceColumns == SpaceColumnsBelow(padded, col)
    {
      if SpaceColumn(padded, col) {
        spaceColumns := spaceColumns + [col];
      }
    }
  }

  /** The range loop of `parse_worksheet_cephalopod`: cutting at the blank
      columns gives the same ranges `parse_worksheet` scans. */
  method SplitRanges(padded: seq<string>, maxWidth: nat, spaceColumns: seq<int>)
    returns (problemRanges: seq<(int, int)>)
    requires spaceColumns == SpaceColumnsBelow(padded, maxWidth)
    ensures problemRanges == Runs(padded, maxWidth, 0)
  {
    problemRanges := [];
    var start: nat := 0;
    for i := 0 to |spaceColumns|
      invariant start == if i == 0 then 0 else spaceColumns[i - 1] + 1
      invariant problemRanges + Runs(padded, maxWidth, start) == Runs(padded, maxWidth, 0)
    {
      var spaceCol := spaceColumns[i];
      SplitStep(padded, maxWidth, spaceColumns, i, start, problemRanges);
      if spaceCol > start {
        problemRanges := problemRanges + [(start, spaceCol)];
      }
      start := spaceCol + 1;
    }
    NoSeparatorBetween(padded, maxWidth, spaceColumns, |spaceColumns|);
    RunsAfterLastSeparator(padded, maxWidth, start);
    if start < maxWidth {
      problemRanges := problemRanges + [(start, maxWidth)];
    }
  }

  /** One pass of the range loop of `parse_worksheet_cephalopod`: the range
      ending at the next separator, when not empty, is the next run. */
  lemma SplitStep(p: seq<string>, width: nat, scs: seq<int>, i: int, start: int, ranges: seq<(int, int)>)
    requires scs == SpaceColumnsBelow(p, width) && 0 <= i < |scs|
    requires start == if i == 0 then 0 else scs[i - 1] + 1
    requires 0 <= start && ranges + Runs(p, width, start) == Runs(p, width, 0)
    ensures start <= scs[i] < width
    ensures (if scs[i] > start then ranges + [(start, scs[i])] else ranges) + Runs(p, width, scs[i] + 1) == Runs(p, width, 0)
  {
    var sc := scs[i];
    assert start <= sc < width && SpaceColumn(p, sc) by {
      SpaceColumnsMeaning(p, width);
      assert sc in scs;
      if i > 0 {
        assert scs[i - 1] < scs[i];
      }
    }
    NoSeparatorBetween(p, width, scs, i);
    RunsAtSeparator(p, width, start, sc);
    if sc > start {
      AppendAssoc(ranges, [(start, sc)], Runs(p, width, sc + 1));
    }
  }

  lemma CephalopodCons(opLine: string, rows: seq<string>, rs: seq<(int, int)>)
    requires WideRows(rows, |opLine|) && RangesWithin(rs, |opLine|) && rs != []
    ensures RangesWithin(rs[1..], |opLine|)
    ensures var op := FirstOperator(opLine, rs[0].0, rs[0].1);
      var numbers := ColumnNumbers(rows, rs[0].0, rs[0].1);
      CephalopodOf(opLine, rows, rs)
        == (if op.Some? && numbers != [] then [(op.value, numbers)] else []) + CephalopodOf(opLine, rows, rs[1..])
  {
  }

  /** `parse_worksheet_cephalopod` */
  method ParseWorksheetCephalopod(lines: seq<string>) returns (problems: seq<(char, seq<int>)>)
    ensures problems == CephalopodProblems(lines)
  {
    if |lines| == 0 {
      return [];
    }
    var maxWidth := MaxLen(lines);
    var padded := Pad(lines);
    PadMeaning(lines);
    RectangularSplit(padded, maxWidth);
    var operatorLine := padded[|padded| - 1];
    var numberLines := padded[..|padded| - 1];

    var spaceColumns := FindSpaceColumns(padded, maxWidth);
    var problemRanges := SplitRanges(padded, maxWidth, spaceColumns);
    RunsInBounds(padded, maxWidth);

    ghost var target := CephalopodOf(operatorLine, numberLines, problemRanges);
    problems := [];
    var k := 0;
    assert problemRanges[0..] == problemRanges;
    assert problems + target == target;
    while k < |problemRanges|
      invariant 0 <= k <= |problemRanges|
      invariant RangesWithin(problemRanges[k..], maxWidth)
      invariant problems + CephalopodOf(operatorLine, numberLines, problemRanges[k..]) == target
    {
      var (problemStart, problemEnd) := problemRanges[k];
      CephalopodCons(operatorLine, numberLines, problemRanges[k..]);
      assert problemRanges[k..][1..] == problemRanges[k + 1..];
      ghost var rest := CephalopodOf(operatorLine, numberLines, problemRanges[k + 1..]);
      ghost var op := FirstOperator(operatorLine, problemStart, problemEnd);
      ghost var nums := ColumnNumbers(numberLines, problemStart, problemEnd);
      assert CephalopodOf(operatorLine, numberLines, problemRanges[k..])
        == (if op.Some? && nums != [] then [(op.value, nums)] else []) + rest;
      var operator := FindOperator(operatorLine, problemStart, problemEnd);
      if operator.Some? {
        var numbers := ReadNumbers(numberLines, problemStart, problemEnd);
        if numbers != [] {
          AppendAssoc(problems, [(operator.value, numbers)], rest);
          problems := problems + [(operator.value, numbers)];
        } else {
          assert [] + rest == rest;
        }
      } else {
        assert [] + rest == rest;
      }
      assert problems + rest == target;
      k := k + 1;
    }
    assert problemRanges[|problemRanges|..] == [];
    assert problems + [] == problems;
  }

  /** Every cephalopod problem has a '*' or '+' operator and at least one number. */
  lemma {:induction false} CephalopodProblemsWellFormed(opLine: string, rows: seq<string>, rs: seq<(int, int)>)
    requires WideRows(rows, |opLine|) && RangesWithin(rs, |opLine|)
    ensures forall k :: 0 <= k < |CephalopodOf(opLine, rows, rs)| ==>
      var (op, numbers) := CephalopodOf(opLine, rows, rs)[k]; (op == '*' || op == '+') && numbers != []
  {
    if rs != [] {
      CephalopodCons(opLine, rows, rs);
      CephalopodProblemsWellFormed(opLine, rows, rs[1..]);
    }
  }

  /** When every column of `[start, end)` has a digit, the k-th number is read
      from column `end - 1 - k`: columns right to left. */
  lemma {:induction false} ColumnNumbersRightToLeft(rows: seq<string>, start: int, end: int)
    requires 0 <= start <= end && WideRows(rows, end)
    requires forall c :: start <= c < end ==> ColumnDigits(rows, c) != []
    ensures |ColumnNumbers(rows, start, end)| == end - start
    ensures forall k :: 0 <= k < end - start ==>
      ColumnNumbers(rows, start, end)[k] == DigitsValue(ColumnDigits(rows, end - 1 - k))
    decreases end - start
  {
    if start < end {
      ColumnNumbersRightToLeft(rows, start, end - 1);
      var nums := ColumnNumbers(rows, start, end);
      var tail := ColumnNumbers(rows, start, end - 1);
      var d := ColumnDigits(rows, end - 1);
      assert nums == [DigitsValue(d) as int] + tail;
      forall k | 0 <= k < end - start ensures nums[k] == DigitsValue(ColumnDigits(rows, end - 1 - k)) {
        if k > 0 {
          var j := k - 1;
          var c := end - 1 - k;
          assert c == end - 1 - 1 - j;
          assert tail[j] == DigitsValue(ColumnDigits(rows, c));
          assert nums[k] == tail[j];
        }
      }
    }
  }

  /** `solve_problem_cephalopod`: no numbers give 0 (not the empty product 1),
      '+' the sum, '*' the product, any other operator 0. */
  method SolveProblemCephalopod(operator: char, numbers: seq<int>) returns (result: int)
    ensures numbers == [] ==> result == 0
    ensures numbers != [] && operator == '+' ==> result == Sum(numbers)
    ensures numbers != [] && operator == '*' ==> result == Product(numbers)
    ensures operator != '+' && operator != '*' ==> result == 0
  {
    if |numbers| == 0 {
      return 0;
    }
    if operator == '+' {
      return Sum(numbers);
    } else if operator == '*' {
      result := MultiplyAll(numbers);
      return result;
    }
    return 0;
  }
}
