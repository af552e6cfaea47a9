/** 2022 day 1: the input lists the calories of each elf's food items, one
    per line, with a blank line between elves.  The answers are the largest
    elf total and the sum of the three largest. */
module CalorieCounting {
  import opened Common

  // ---------------------------------------------------------------------
  // Grouping the lines

  predicate Blank(line: string) {
    |Strip(line)| == 0
  }

  /** The groups the reading loop has built after `lines`: the closed groups
      followed by the open one, which the final append closes.  None when a
      line is not a number (ValueError). */
  function Groups(lines: seq<string>): (r: Option<seq<seq<int>>>)
    ensures r.Some? ==> |r.value| >= 1
  {
    if lines == [] then Some([[]])
    else
      var n := |lines| - 1;
      match Groups(lines[..n])
      case None => None
      case Some(gs) =>
        if Blank(lines[n]) then Some(gs + [[]])
        else
          match ParseInt(Strip(lines[n]))
          case None => None
          case Some(v) => Some(gs[..|gs| - 1] + [gs[|gs| - 1] + [v]])
  }

  /** The numbers on the non-blank lines, in order. */
  function Values(lines: seq<string>): Option<seq<int>> {
    if lines == [] then Some([])
    else
      var n := |lines| - 1;
      match Values(lines[..n])
      case None => None
      case Some(vs) =>
        if Blank(lines[n]) then Some(vs)
        else
          match ParseInt(Strip(lines[n]))
          case None => None
          case Some(v) => Some(vs + [v])
  }

  function BlankCount(lines: seq<string>): nat {
    if lines == [] then 0
    else BlankCount(lines[..|lines| - 1]) + (if Blank(lines[|lines| - 1]) then 1 else 0)
  }

  function Flatten(gs: seq<seq<int>>): seq<int> {
    if gs == [] then [] else Flatten(gs[..|gs| - 1]) + gs[|gs| - 1]
  }

  lemma FlattenExtendLast(gs: seq<seq<int>>, v: int)
    requires |gs| >= 1
    ensures Flatten(gs[..|gs| - 1] + [gs[|gs| - 1] + [v]]) == Flatten(gs) + [v]
  {
    var k := |gs| - 1;
    var hs := gs[..k] + [gs[k] + [v]];
    assert hs[..k] == gs[..k];
  }

  lemma FlattenAppendEmpty(gs: seq<seq<int>>)
    ensures Flatten(gs + [[]]) == Flatten(gs)
  {
    assert (gs + [[]])[..|gs|] == gs;
  }

  /** The groups hold every number in order, split at each blank line: one
      group more than there are blank lines. */
  lemma {:induction false} GroupsMeaning(lines: seq<string>)
    ensures Groups(lines).Some? <==> Values(lines).Some?
    ensures Groups(lines).Some? ==>
      Flatten(Groups(lines).value) == Values(lines).value &&
      |Groups(lines).value| == BlankCount(lines) + 1
  {
    if lines != [] {
      var n := |lines| - 1;
      GroupsMeaning(lines[..n]);
      if Groups(lines[..n]).Some? {
        var gs := Groups(lines[..n]).value;
        if Blank(lines[n]) {
          FlattenAppendEmpty(gs);
        } else if ParseInt(Strip(lines[n])).Some? {
          FlattenExtendLast(gs, ParseInt(Strip(lines[n])).value);
        }
      }
    }
  }

  /** The reading loop of main. */
  method ReadElves(lines: seq<string>) returns (elfList: Option<seq<seq<int>>>)
    ensures elfList == Groups(lines)
  {
    var elves: seq<seq<int>> := [];
    var calorieList: seq<int> := [];
    assert lines[..0] == [] && elves + [calorieList] == [[]];
    for i := 0 to |lines|
      invariant Groups(lines[..i]) == Some(elves + [calorieList])
    {
      var line := lines[i];
      assert lines[..i + 1][..i] == lines[..i];
      if |Strip(line)| == 0 {
        elves := elves + [calorieList];
        calorieList := [];
      } else {
        var v := ParseInt(Strip(line));
        if v.None? {
          GroupsNoneStays(lines, i + 1);
          return None;
        }
        assert (elves + [calorieList])[..|elves|] == elves;
        calorieList := calorieList + [v.value];
      }
    }
    assert lines[..|lines|] == lines;
    elves := elves + [calorieList];
    return Some(elves);
  }

  lemma {:induction false} GroupsNoneStays(lines: seq<string>, i: nat)
    requires i <= |lines| && Groups(lines[..i]).None?
    ensures Groups(lines).None?
    decreases |lines| - i
  {
    if i < |lines| {
      assert lines[..i + 1][..i] == lines[..i];
      GroupsNoneStays(lines, i + 1);
    } else {
      assert lines[..i] == lines;
    }
  }

  // ---------------------------------------------------------------------
  // Elf totals and the largest

  /** `[elfIndex, sum(elf)]` */
  datatype ElfTotal = ElfTotal(elf: nat, calories: int)

  /** The numbering loop: elves are numbered from 1 in input order. */
  method NumberElves(elfList: seq<seq<int>>) returns (totals: seq<ElfTotal>)
    ensures |totals| == |elfList|
    ensures forall i :: 0 <= i < |totals| ==> totals[i] == ElfTotal(i + 1, Sum(elfList[i]))
  {
    totals := [];
    var elfIndex := 1;
    for k := 0 to |elfList|
      invariant elfIndex == k + 1 && |totals| == k
      invariant forall i :: 0 <= i < k ==> totals[i] == ElfTotal(i + 1, Sum(elfList[i]))
    {
      totals := totals + [ElfTotal(elfIndex, Sum(elfList[k]))];
      elfIndex := elfIndex + 1;
    }
  }

  /** The `maxValue` loop: starting from [0, 0], a strictly larger total
      replaces it, so the first elf with the largest positive total wins,
      and [0, 0] stays when no total is positive. */
  method MaxElf(totals: seq<ElfTotal>) returns (maxValue: ElfTotal)
    ensures maxValue.calories >= 0
    ensures forall i :: 0 <= i < |totals| ==> totals[i].calories <= maxValue.calories
    ensures (forall i :: 0 <= i < |totals| ==> totals[i].calories <= 0) ==> maxValue == ElfTotal(0, 0)
    ensures (exists i :: 0 <= i < |totals| && totals[i].calories > 0) ==>
      exists k :: 0 <= k < |totals| && maxValue == totals[k] &&
        forall j :: 0 <= j < k ==> totals[j].calories < maxValue.calories
  {
    maxValue := ElfTotal(0, 0);
    ghost var at := -1;
    for n := 0 to |totals|
      invariant maxValue.calories >= 0
      invariant forall i :: 0 <= i < n ==> totals[i].calories <= maxValue.calories
      invariant -1 <= at < n
      invariant at == -1 ==> maxValue == ElfTotal(0, 0)
      invariant at >= 0 ==> maxValue == totals[at] && maxValue.calories > 0
      invariant at >= 0 ==> forall j :: 0 <= j < at ==> totals[j].calories < maxValue.calories
    {
      if totals[n].calories > maxValue.calories {
        maxValue := totals[n];
        at := n;
      }
    }
    if exists i :: 0 <= i < |totals| && totals[i].calories > 0 {
      assert at >= 0;
    }
  }

  // ---------------------------------------------------------------------
  // The three largest

  /** Each total is at least the next one. */
  predicate Descending(xs: seq<ElfTotal>) {
    forall i :: 0 < i < |xs| ==> xs[i - 1].calories >= xs[i].calories
  }

  lemma {:induction false} DescendingAll(xs: seq<ElfTotal>, i: nat, j: nat)
    requires Descending(xs) && i <= j < |xs|
    ensures xs[i].calories >= xs[j].calories
    decreases j - i
  {
    if i < j {
      DescendingAll(xs, i + 1, j);
    }
  }

  /** Places `x` before the first entry that is not larger, so equal totals
      keep their input order. */
  function InsertDescending(x: ElfTotal, xs: seq<ElfTotal>): (r: seq<ElfTotal>)
    ensures |r| == |xs| + 1
  {
    if xs == [] then [x]
    else if xs[0].calories <= x.calories then [x] + xs
    else [xs[0]] + InsertDescending(x, xs[1..])
  }

  lemma {:induction false} InsertDescendingSorted(x: ElfTotal, xs: seq<ElfTotal>)
    requires Descending(xs)
    ensures Descending(InsertDescending(x, xs))
    ensures InsertDescending(x, xs)[0] == x || InsertDescending(x, xs)[0] == xs[0]
  {
    if xs != [] && xs[0].calories > x.calories {
      var rest := InsertDescending(x, xs[1..]);
      assert Descending(xs[1..]);
      InsertDescendingSorted(x, xs[1..]);
      var r := [xs[0]] + rest;
      forall i | 0 < i < |r| ensures r[i - 1].calories >= r[i].calories {
        if i > 1 {
          assert r[i - 1] == rest[i - 2] && r[i] == rest[i - 1];
        }
      }
    }
  }

  lemma {:induction false} InsertDescendingContents(x: ElfTotal, xs: seq<ElfTotal>)
    ensures multiset(InsertDescending(x, xs)) == multiset(xs) + multiset{x}
  {
    if xs != [] && xs[0].calories > x.calories {
      InsertDescendingContents(x, xs[1..]);
      assert xs == [xs[0]] + xs[1..];
    }
  }

  /** `sorted(totalCalorieList, key=lambda x: x[1], reverse=True)` */
  function SortDescending(xs: seq<ElfTotal>): (r: seq<ElfTotal>)
    ensures |r| == |xs|
  {
    if xs == [] then [] else InsertDescending(xs[0], SortDescending(xs[1..]))
  }

  lemma {:induction false} SortDescendingMeaning(xs: seq<ElfTotal>)
    ensures Descending(SortDescending(xs))
    ensures multiset(SortDescending(xs)) == multiset(xs)
  {
    if xs != [] {
      SortDescendingMeaning(xs[1..]);
      InsertDescendingSorted(xs[0], SortDescending(xs[1..]));
      InsertDescendingContents(xs[0], SortDescending(xs[1..]));
      assert xs == [xs[0]] + xs[1..];
    }
  }

  /** `[:3]` of the sorted list. */
  function TopThree(totals: seq<ElfTotal>): seq<ElfTotal> {
    var sorted := SortDescending(totals);
    if |sorted| <= 3 then sorted else sorted[..3]
  }

  function CalorieSum(xs: seq<ElfTotal>): int {
    if xs == [] then 0 else CalorieSum(xs[..|xs| - 1]) + xs[|xs| - 1].calories
  }

  lemma {:induction false} CalorieSumFront(x: ElfTotal, xs: seq<ElfTotal>)
    ensures CalorieSum([x] + xs) == x.calories + CalorieSum(xs)
  {
    if xs != [] {
      var n := |xs| - 1;
      assert ([x] + xs)[..n + 1] == [x] + xs[..n];
      CalorieSumFront(x, xs[..n]);
    }
  }

  lemma {:induction false} InsertKeepsSum(x: ElfTotal, xs: seq<ElfTotal>)
    ensures CalorieSum(InsertDescending(x, xs)) == x.calories + CalorieSum(xs)
  {
    if xs == [] {
      assert [x] == [x] + [];
      CalorieSumFront(x, []);
    } else if xs[0].calories <= x.calories {
      CalorieSumFront(x, xs);
    } else {
      InsertKeepsSum(x, xs[1..]);
      CalorieSumFront(xs[0], InsertDescending(x, xs[1..]));
      CalorieSumFront(xs[0], xs[1..]);
      assert xs == [xs[0]] + xs[1..];
    }
  }

  lemma {:induction false} SortKeepsSum(xs: seq<ElfTotal>)
    ensures CalorieSum(SortDescending(xs)) == CalorieSum(xs)
  {
    if xs != [] {
      SortKeepsSum(xs[1..]);
      InsertKeepsSum(xs[0], SortDescending(xs[1..]));
      CalorieSumFront(xs[0], xs[1..]);
      assert xs == [xs[0]] + xs[1..];
    }
  }

  /** The loop over topThreeList. */
  method TopThreeSum(totals: seq<ElfTotal>) returns (topThreeSum: int)
    ensures topThreeSum == CalorieSum(TopThree(totals))
  {
    var topThreeList := TopThree(totals);
    topThreeSum := 0;
    for i := 0 to |topThreeList|
      invariant topThreeSum == CalorieSum(topThreeList[..i])
    {
      assert topThreeList[..i + 1][..i] == topThreeList[..i];
      topThreeSum := topThreeSum + topThreeList[i].calories;
    }
    assert topThreeList[..|topThreeList|] == topThreeList;
  }

  /** The chosen totals are a permutation's first three, none smaller than
      any total left out, and with three elves or fewer all are chosen. */
  lemma TopThreeMeaning(totals: seq<ElfTotal>)
    ensures |TopThree(totals)| == if |totals| < 3 then |totals| else 3
    ensures forall i, j :: 0 <= i < |TopThree(totals)| <= j < |totals| ==>
      TopThree(totals)[i].calories >= SortDescending(totals)[j].calories
    ensures multiset(SortDescending(totals)) == multiset(totals)
    ensures |totals| <= 3 ==> CalorieSum(TopThree(totals)) == CalorieSum(totals)
  {
    SortDescendingMeaning(totals);
    SortKeepsSum(totals);
    var sorted := SortDescending(totals);
    forall i, j | 0 <= i < |TopThree(totals)| <= j < |totals|
      ensures TopThree(totals)[i].calories >= sorted[j].calories
    {
      assert TopThree(totals)[i] == sorted[i];
      DescendingAll(sorted, i, j);
    }
  }

  lemma {:induction false} CalorieSumAtLeastHead(xs: seq<ElfTotal>)
    requires |xs| >= 1 && forall i :: 0 <= i < |xs| ==> xs[i].calories >= 0
    ensures CalorieSum(xs) >= xs[0].calories
  {
    if |xs| > 1 {
      CalorieSumAtLeastHead(xs[..|xs| - 1]);
    }
  }

  /** With no negative totals, the top-three sum is at least every single
      elf's total, the largest included. */
  lemma TopThreeAtLeastEach(totals: seq<ElfTotal>, k: nat)
    requires k < |totals| && forall i :: 0 <= i < |totals| ==> totals[i].calories >= 0
    ensures totals[k].calories <= CalorieSum(TopThree(totals))
  {
    var sorted := SortDescending(totals);
    SortDescendingMeaning(totals);
    assert totals[k] in multiset(sorted) by {
      assert totals[k] in multiset(totals);
    }
    var j :| 0 <= j < |sorted| && sorted[j] == totals[k];
    var top := TopThree(totals);
    forall i | 0 <= i < |top| ensures top[i].calories >= 0 {
      assert top[i] == sorted[i];
      assert sorted[i] in multiset(totals);
    }
    CalorieSumAtLeastHead(top);
    assert top[0] == sorted[0];
    DescendingAll(sorted, 0, j);
  }

  // ---------------------------------------------------------------------
  // main

  /** The two printed answers: the largest total and the top-three sum. */
  method CalorieAnswers(lines: seq<string>) returns (r: Option<(int, int)>)
    ensures r.Some? <==> Groups(lines).Some?
    ensures r.Some? ==> exists totals: seq<ElfTotal> ::
      |totals| == |Groups(lines).value| &&
      (forall i :: 0 <= i < |totals| ==> totals[i] == ElfTotal(i + 1, Sum(Groups(lines).value[i]))) &&
      (forall i :: 0 <= i < |totals| ==> totals[i].calories <= r.value.0) &&
      r.value.0 >= 0 &&
      (r.value.0 == 0 || exists i :: 0 <= i < |totals| && totals[i].calories == r.value.0) &&
      r.value.1 == CalorieSum(TopThree(totals))
  {
    var elfList := ReadElves(lines);
    if elfList.None? {
      return None;
    }
    var totals := NumberElves(elfList.value);
    var maxValue := MaxElf(totals);
    var topThreeSum := TopThreeSum(totals);
    r := Some((maxValue.calories, topThreeSum));
  }
}
