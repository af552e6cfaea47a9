/** 2022 day 4: each line gives the section ranges "a-b,c-d" of two elves.
    Part 1 counts the pairs where one range contains the other; part 2 the
    pairs whose ranges overlap, found as all lines minus the disjoint ones. */
module CampCleanup {
  import opened Common

  /** The sections `lo` through `hi` of one elf. */
  datatype Assignment = Assignment(lo: int, hi: int)

  datatype Pair = Pair(first: Assignment, second: Assignment)

  /** One elf's "a-b": None for a missing field or a non-number. */
  function ParseRange(s: string): (r: Option<Assignment>)
    ensures '-' !in s ==> r.None?
  {
    SplitWithout(s, '-');
    var bounds := Split(s, '-');
    if |bounds| < 2 then None
    else
      match (ParseInt(bounds[0]), ParseInt(bounds[1]))
      case (Some(lo), Some(hi)) => Some(Assignment(lo, hi))
      case _ => None
  }

  /** One line: split at ',' and each half at '-'; None for the IndexError
      of a missing field or the ValueError of a non-number.  Every field is
      read on every line, whichever way the comparisons go, so any bad
      field ends the run. */
  function ParsePair(line: string): (r: Option<Pair>)
    ensures ',' !in line ==> r.None?
  {
    SplitWithout(line, ',');
    var sections := Split(line, ',');
    if |sections| < 2 then None
    else
      match (ParseRange(sections[0]), ParseRange(sections[1]))
      case (Some(a), Some(b)) => Some(Pair(a, b))
      case _ => None
  }

  /** How one elf's range is written in the puzzle text. */
  function FormatRange(a: Assignment): string
    requires a.lo >= 0 && a.hi >= 0
  {
    Join([NatToString(a.lo), NatToString(a.hi)], '-')
  }

  /** How a pair is written in the puzzle text. */
  function FormatPair(p: Pair): string
    requires p.first.lo >= 0 && p.first.hi >= 0 && p.second.lo >= 0 && p.second.hi >= 0
  {
    Join([FormatRange(p.first), FormatRange(p.second)], ',')
  }

  lemma NumeralHasNo(n: nat, c: char)
    requires !IsDigit(c)
    ensures c !in NatToString(n)
  {
    var s := NatToString(n);
    forall i | 0 <= i < |s| ensures s[i] != c {
      assert IsDigit(s[i]);
    }
  }

  lemma JoinTwo(x: string, y: string, sep: char)
    ensures Join([x, y], sep) == x + [sep] + y
  {
    assert [x, y][..1] == [x];
  }

  /** Reading a written range gives back the range; its text has no ','. */
  lemma ParseFormatRange(a: Assignment)
    requires a.lo >= 0 && a.hi >= 0
    ensures ParseRange(FormatRange(a)) == Some(a)
    ensures ',' !in FormatRange(a)
  {
    NumeralHasNo(a.lo, '-');
    NumeralHasNo(a.hi, '-');
    assert Split(FormatRange(a), '-') == [NatToString(a.lo), NatToString(a.hi)] by {
      JoinSplit([NatToString(a.lo), NatToString(a.hi)], '-');
    }
    ParseNatToString(a.lo);
    ParseNatToString(a.hi);
    NumeralHasNo(a.lo, ',');
    NumeralHasNo(a.hi, ',');
    JoinTwo(NatToString(a.lo), NatToString(a.hi), '-');
  }

  /** Reading a written pair gives back the pair. */
  lemma ParseFormatPair(p: Pair)
    requires p.first.lo >= 0 && p.first.hi >= 0 && p.second.lo >= 0 && p.second.hi >= 0
    ensures ParsePair(FormatPair(p)) == Some(p)
  {
    ParseFormatRange(p.first);
    ParseFormatRange(p.second);
    assert Split(FormatPair(p), ',') == [FormatRange(p.first), FormatRange(p.second)] by {
      JoinSplit([FormatRange(p.first), FormatRange(p.second)], ',');
    }
  }

  /** The `if`/`elif` of part 1: either range includes the other. */
  predicate Contained(p: Pair) {
    (p.first.lo <= p.second.lo && p.first.hi >= p.second.hi) ||
    (p.first.lo >= p.second.lo && p.first.hi <= p.second.hi)
  }

  /** The `if`/`elif` of part 2: one range ends before the other starts. */
  predicate Disjoint(p: Pair) {
    (p.first.lo < p.second.lo && p.first.hi < p.second.lo) ||
    (p.second.lo < p.first.lo && p.second.hi < p.first.lo)
  }

  predicate WellFormed(a: Assignment) {
    a.lo <= a.hi
  }

  predicate Covers(a: Assignment, s: int) {
    a.lo <= s <= a.hi
  }

  function Swap(p: Pair): Pair {
    Pair(p.second, p.first)
  }

  /** Both tests are symmetric in the two elves. */
  lemma TestsSymmetric(p: Pair)
    ensures Contained(p) == Contained(Swap(p)) && Disjoint(p) == Disjoint(Swap(p))
  {
  }

  /** For real ranges, containment means one elf's sections include the
      other's. */
  lemma ContainedMeaning(p: Pair)
    requires WellFormed(p.first) && WellFormed(p.second)
    ensures Contained(p) <==>
      (forall s :: Covers(p.second, s) ==> Covers(p.first, s)) ||
      (forall s :: Covers(p.first, s) ==> Covers(p.second, s))
  {
    if (forall s :: Covers(p.second, s) ==> Covers(p.first, s)) {
      assert Covers(p.second, p.second.lo) && Covers(p.second, p.second.hi);
    }
    if (forall s :: Covers(p.first, s) ==> Covers(p.second, s)) {
      assert Covers(p.first, p.first.lo) && Covers(p.first, p.first.hi);
    }
  }

  /** For real ranges, a pair is disjoint exactly when no section is shared. */
  lemma DisjointMeaning(p: Pair)
    requires WellFormed(p.first) && WellFormed(p.second)
    ensures !Disjoint(p) <==> exists s :: Covers(p.first, s) && Covers(p.second, s)
  {
    if !Disjoint(p) {
      var s := if p.first.lo <= p.second.lo then p.second.lo else p.first.lo;
      assert Covers(p.first, s) && Covers(p.second, s);
    }
  }

  /** Containment implies overlap, and identical ranges are both. */
  lemma ContainedOverlaps(p: Pair)
    requires WellFormed(p.first) && WellFormed(p.second)
    ensures Contained(p) ==> !Disjoint(p)
    ensures p.first == p.second ==> Contained(p) && !Disjoint(p)
  {
  }

  function ParseAll(data: seq<string>): (r: Option<seq<Pair>>)
    ensures r.Some? ==> |r.value| == |data|
  {
    if data == [] then Some([])
    else
      match (ParseAll(data[..|data| - 1]), ParsePair(data[|data| - 1]))
      case (Some(pairs), Some(p)) => Some(pairs + [p])
      case _ => None
  }

  function ContainedCount(pairs: seq<Pair>): (n: nat)
    ensures n <= |pairs|
  {
    if pairs == [] then 0
    else ContainedCount(pairs[..|pairs| - 1]) + (if Contained(pairs[|pairs| - 1]) then 1 else 0)
  }

  function DisjointCount(pairs: seq<Pair>): (n: nat)
    ensures n <= |pairs|
  {
    if pairs == [] then 0
    else DisjointCount(pairs[..|pairs| - 1]) + (if Disjoint(pairs[|pairs| - 1]) then 1 else 0)
  }

  /** With real ranges, every contained pair is among the overlapping ones. */
  lemma {:induction false} ContainedAtMostOverlapping(pairs: seq<Pair>)
    requires forall i :: 0 <= i < |pairs| ==> WellFormed(pairs[i].first) && WellFormed(pairs[i].second)
    ensures ContainedCount(pairs) <= |pairs| - DisjointCount(pairs)
  {
    if pairs != [] {
      var n := |pairs| - 1;
      ContainedAtMostOverlapping(pairs[..n]);
      ContainedOverlaps(pairs[n]);
    }
  }

  /** The loop of main: counts the contained pairs and the disjoint pairs,
      and reports the overlapping pairs as all lines minus the disjoint
      ones. */
  method CountPairs(data: seq<string>) returns (r: Option<(nat, int)>)
    ensures r.Some? <==> ParseAll(data).Some?
    ensures r.Some? ==> r.value == (ContainedCount(ParseAll(data).value), |data| - DisjointCount(ParseAll(data).value))
  {
    var matchSum, overlapSum := 0, 0;
    ghost var pairs := [];
    for i := 0 to |data|
      invariant ParseAll(data[..i]) == Some(pairs)
      invariant matchSum == ContainedCount(pairs) && overlapSum == DisjointCount(pairs)
    {
      var p := ParsePair(data[i]);
      if p.None? {
        BadLineFails(data, i);
        return None;
      }
      var x := p.value;
      matchSum, overlapSum := Tally(x, matchSum, overlapSum);
      assert ParseAll(data[..i + 1]) == Some(pairs + [x]) by {
        ParseAllStep(data, i);
      }
      CountStep(pairs, x);
      pairs := pairs + [x];
    }
    assert data[..|data|] == data;
    return Some((matchSum, |data| - overlapSum));
  }

  /** The two `if`/`elif` tests of the loop body for one pair. */
  method Tally(x: Pair, matchSum: nat, overlapSum: nat) returns (m: nat, o: nat)
    ensures m == matchSum + (if Contained(x) then 1 else 0)
    ensures o == overlapSum + (if Disjoint(x) then 1 else 0)
  {
    m, o := matchSum, overlapSum;
    if x.first.lo <= x.second.lo && x.first.hi >= x.second.hi {
      m := m + 1;
    } else if x.first.lo >= x.second.lo && x.first.hi <= x.second.hi {
      m := m + 1;
    }
    if x.first.lo < x.second.lo && x.first.hi < x.second.lo {
      o := o + 1;
    } else if x.second.lo < x.first.lo && x.second.hi < x.first.lo {
      o := o + 1;
    }
  }

  lemma ParseAllStep(data: seq<string>, i: nat)
    requires i < |data|
    ensures ParseAll(data[..i + 1]) ==
      match (ParseAll(data[..i]), ParsePair(data[i]))
      case (Some(pairs), Some(p)) => Some(pairs + [p])
      case _ => None
  {
    assert data[..i + 1][..i] == data[..i];
  }

  lemma CountStep(pairs: seq<Pair>, p: Pair)
    ensures ContainedCount(pairs + [p]) == ContainedCount(pairs) + (if Contained(p) then 1 else 0)
    ensures DisjointCount(pairs + [p]) == DisjointCount(pairs) + (if Disjoint(p) then 1 else 0)
  {
    assert (pairs + [p])[..|pairs|] == pairs;
  }

  /** One unreadable line makes the whole run fail. */
  lemma BadLineFails(data: seq<string>, i: nat)
    requires i < |data| && ParsePair(data[i]).None?
    ensures ParseAll(data).None?
  {
    ParseAllStep(data, i);
    ParseAllNoneStays(data, i + 1);
  }

  lemma {:induction false} ParseAllNoneStays(data: seq<string>, i: nat)
    requires i <= |data| && ParseAll(data[..i]).None?
    ensures ParseAll(data).None?
    decreases |data| - i
  {
    if i < |data| {
      assert data[..i + 1][..i] == data[..i];
      ParseAllNoneStays(data, i + 1);
    } else {
      assert data[..i] == data;
    }
  }
}
