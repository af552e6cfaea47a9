/** Advent of Code 2025, day 12: fitting presents (polyomino shapes drawn
    with '#') into rectangular regions under a tree, in any rotation or
    mirror image, by backtracking over a shared mutable grid. */
module PresentPacking {
  import opened Common

  /** A (row, column) pair; also used for the (size, shape index) pairs
      that order the presents. */
  type Pair = (int, int)
  type Cell = Pair

  // ---------------------------------------------------------------------
  // Lexicographic order on pairs (Python's tuple comparison) and sorting

  predicate PairLess(a: Pair, b: Pair) {
    a.0 < b.0 || (a.0 == b.0 && a.1 < b.1)
  }

  predicate PairLe(a: Pair, b: Pair) {
    a.0 < b.0 || (a.0 == b.0 && a.1 <= b.1)
  }

  predicate Ascending(xs: seq<Pair>) {
    forall i, j :: 0 <= i < j < |xs| ==> PairLe(xs[i], xs[j])
  }

  predicate Descending(xs: seq<Pair>) {
    forall i, j :: 0 <= i < j < |xs| ==> PairLe(xs[j], xs[i])
  }

  predicate StrictlyAscending(xs: seq<Pair>) {
    forall i, j :: 0 <= i < j < |xs| ==> PairLess(xs[i], xs[j])
  }

  /** Inserts `x` into a list before the first element it does not exceed. */
  function InsertPair(x: Pair, xs: seq<Pair>): (r: seq<Pair>)
    ensures |r| == |xs| + 1
  {
    if xs == [] then [x]
    else if PairLe(x, xs[0]) then [x] + xs
    else [xs[0]] + InsertPair(x, xs[1..])
  }

  /** Inserting into an ascending list keeps it ascending and adds `x`. */
  lemma {:induction false} InsertPairMeaning(x: Pair, xs: seq<Pair>)
    requires Ascending(xs)
    ensures Ascending(InsertPair(x, xs))
    ensures multiset(InsertPair(x, xs)) == multiset(xs) + multiset{x}
  {
    if xs == [] {
    } else if PairLe(x, xs[0]) {
      AscendingCons(x, xs);
    } else {
      var rest := InsertPair(x, xs[1..]);
      assert Ascending(xs[1..]);
      InsertPairMeaning(x, xs[1..]);
      assert xs == [xs[0]] + xs[1..];
      assert multiset(rest) == multiset(xs[1..]) + multiset{x};
      forall y | y in rest ensures PairLe(xs[0], y) {
        assert y in multiset(rest);
        if y != x {
          var j :| 0 <= j < |xs[1..]| && xs[1..][j] == y;
          assert xs[j + 1] == y;
        }
      }
      AscendingCons(xs[0], rest);
      assert InsertPair(x, xs) == [xs[0]] + rest;
    }
  }

  /** An ascending list stays ascending behind an element no larger than
      any of its own. */
  lemma AscendingCons(h: Pair, rest: seq<Pair>)
    requires Ascending(rest) && forall y :: y in rest ==> PairLe(h, y)
    ensures Ascending([h] + rest)
  {
    var xs := [h] + rest;
    forall i, j | 0 <= i < j < |xs| ensures PairLe(xs[i], xs[j]) {
      assert xs[j] == rest[j - 1];
      if i > 0 {
        assert xs[i] == rest[i - 1];
      }
    }
  }

  /** Python's `sorted` on a list of pairs, as an insertion sort. */
  function SortPairs(xs: seq<Pair>): (r: seq<Pair>)
    ensures |r| == |xs|
  {
    if xs == [] then [] else InsertPair(xs[|xs| - 1], SortPairs(xs[..|xs| - 1]))
  }

  /** `SortPairs` gives the ascending permutation of its input. */
  lemma {:induction false} SortPairsMeaning(xs: seq<Pair>)
    ensures Ascending(SortPairs(xs))
    ensures multiset(SortPairs(xs)) == multiset(xs)
  {
    if xs != [] {
      SortPairsMeaning(xs[..|xs| - 1]);
      InsertPairMeaning(xs[|xs| - 1], SortPairs(xs[..|xs| - 1]));
      assert xs == xs[..|xs| - 1] + [xs[|xs| - 1]];
    }
  }

  /** The list read back to front. */
  function Reversed(xs: seq<Pair>): (r: seq<Pair>)
    ensures |r| == |xs|
    ensures forall i :: 0 <= i < |xs| ==> r[i] == xs[|xs| - 1 - i]
  {
    if xs == [] then [] else [xs[|xs| - 1]] + Reversed(xs[..|xs| - 1])
  }

  lemma {:induction false} ReversedMultiset(xs: seq<Pair>)
    ensures multiset(Reversed(xs)) == multiset(xs)
  {
    if xs != [] {
      ReversedMultiset(xs[..|xs| - 1]);
      assert xs == xs[..|xs| - 1] + [xs[|xs| - 1]];
    }
  }

  /** `list.sort(reverse=True)` on pairs.  (Equal pairs are identical
      values, so stability does not show in the result.) */
  function SortPairsDescending(xs: seq<Pair>): (r: seq<Pair>)
    ensures |r| == |xs|
  {
    Reversed(SortPairs(xs))
  }

  /** The descending sort is the descending permutation of its input. */
  lemma SortPairsDescendingMeaning(xs: seq<Pair>)
    ensures Descending(SortPairsDescending(xs))
    ensures multiset(SortPairsDescending(xs)) == multiset(xs)
  {
    SortPairsMeaning(xs);
    ReversedMultiset(SortPairs(xs));
  }

  // ---------------------------------------------------------------------
  // The cells of a shape

  /** Cell `p` of the drawing is a '#'. */
  predicate IsShapeCell(lines: seq<string>, p: Cell) {
    0 <= p.0 < |lines| && 0 <= p.1 < |lines[p.0]| && lines[p.0][p.1] == '#'
  }

  /** The '#' cells among the first `n` characters of row `r`, left to right. */
  function RowCells(line: string, r: int, n: nat): seq<Cell>
    requires n <= |line|
  {
    if n == 0 then []
    else RowCells(line, r, n - 1) + (if line[n - 1] == '#' then [(r, n - 1)] else [])
  }

  /** The '#' cells of a drawing in row-major order. */
  function ShapeCells(lines: seq<string>): seq<Cell> {
    if lines == [] then []
    else
      var last := |lines| - 1;
      ShapeCells(lines[..last]) + RowCells(lines[last], last, |lines[last]|)
  }

  lemma {:induction false} RowCellsMeaning(line: string, r: int, n: nat)
    requires n <= |line|
    ensures forall p :: p in RowCells(line, r, n) <==> p.0 == r && 0 <= p.1 < n && line[p.1] == '#'
    ensures StrictlyAscending(RowCells(line, r, n))
  {
    if n > 0 {
      RowCellsMeaning(line, r, n - 1);
    }
  }

  /** `ShapeCells` lists exactly the '#' cells, each once, in row-major order. */
  lemma {:induction false} ShapeCellsMeaning(lines: seq<string>)
    ensures forall p :: p in ShapeCells(lines) <==> IsShapeCell(lines, p)
    ensures StrictlyAscending(ShapeCells(lines))
  {
    if lines != [] {
      var last := |lines| - 1;
      var prefix := lines[..last];
      ShapeCellsMeaning(prefix);
      RowCellsMeaning(lines[last], last, |lines[last]|);
      var a, b := ShapeCells(prefix), RowCells(lines[last], last, |lines[last]|);
      forall p ensures p in a <==> IsShapeCell(lines, p) && p.0 < last {
        if p in a {
          assert IsShapeCell(prefix, p);
        }
        if IsShapeCell(lines, p) && p.0 < last {
          assert IsShapeCell(prefix, p);
        }
      }
      forall i, j | 0 <= i < j < |a + b| ensures PairLess((a + b)[i], (a + b)[j]) {
        if j < |a| {
        } else if i < |a| {
          assert (a + b)[i] in a && (a + b)[j] in b;
        } else {
          assert (a + b)[i] == b[i - |a|] && (a + b)[j] == b[j - |a|];
        }
      }
    }
  }

  /** get_shape_cells: scans the drawing row by row, column by column. */
  method GetShapeCells(lines: seq<string>) returns (cells: seq<Cell>)
    ensures cells == ShapeCells(lines)
  {
    cells := [];
    for r := 0 to |lines|
      invariant cells == ShapeCells(lines[..r])
    {
      var line := lines[r];
      for c := 0 to |line|
        invariant cells == ShapeCells(lines[..r]) + RowCells(line, r, c)
      {
        if line[c] == '#' {
          cells := cells + [(r, c)];
        }
      }
      assert lines[..r + 1][..r] == lines[..r];
    }
    assert lines[..|lines|] == lines;
  }

  // ---------------------------------------------------------------------
  // Rotations, mirror images and normal form

  /** rotate_90: (r, c) becomes (c, -r), a quarter turn. */
  function Rotate90(cells: seq<Cell>): (r: seq<Cell>)
    ensures |r| == |cells|
    ensures forall i :: 0 <= i < |cells| ==> r[i] == (cells[i].1, -cells[i].0)
  {
    seq(|cells|, i requires 0 <= i < |cells| => (cells[i].1, -cells[i].0))
  }

  /** flip_horizontal: (r, c) becomes (r, -c), a mirror image. */
  function FlipHorizontal(cells: seq<Cell>): (r: seq<Cell>)
    ensures |r| == |cells|
    ensures forall i :: 0 <= i < |cells| ==> r[i] == (cells[i].0, -cells[i].1)
  {
    seq(|cells|, i requires 0 <= i < |cells| => (cells[i].0, -cells[i].1))
  }

  /** Four quarter turns bring every shape back to itself. */
  lemma RotateFourTimes(cells: seq<Cell>)
    ensures Rotate90(Rotate90(Rotate90(Rotate90(cells)))) == cells
  {
    var r4 := Rotate90(Rotate90(Rotate90(Rotate90(cells))));
    forall i | 0 <= i < |cells| ensures r4[i] == cells[i] {
    }
  }

  /** Mirroring twice is the identity. */
  lemma FlipTwice(cells: seq<Cell>)
    ensures FlipHorizontal(FlipHorizontal(cells)) == cells
  {
  }

  /** The shape after `k` quarter turns. */
  function RotateTimes(cells: seq<Cell>, k: nat): (r: seq<Cell>)
    ensures |r| == |cells|
  {
    if k == 0 then cells else Rotate90(RotateTimes(cells, k - 1))
  }

  function Rows(cells: seq<Cell>): seq<int> {
    seq(|cells|, i requires 0 <= i < |cells| => cells[i].0)
  }

  function Cols(cells: seq<Cell>): seq<int> {
    seq(|cells|, i requires 0 <= i < |cells| => cells[i].1)
  }

  /** Python's `min` over a non-empty sequence of numbers. */
  function Least(xs: seq<int>): int
    requires |xs| > 0
  {
    if |xs| == 1 then xs[0]
    else
      var m := Least(xs[..|xs| - 1]);
      if xs[|xs| - 1] < m then xs[|xs| - 1] else m
  }

  /** The least element occurs in the sequence and is at most every element. */
  lemma {:induction false} LeastMeaning(xs: seq<int>)
    requires |xs| > 0
    ensures exists i :: 0 <= i < |xs| && xs[i] == Least(xs)
    ensures forall i :: 0 <= i < |xs| ==> Least(xs) <= xs[i]
  {
    if |xs| > 1 {
      var prefix := xs[..|xs| - 1];
      LeastMeaning(prefix);
      var i :| 0 <= i < |prefix| && prefix[i] == Least(prefix);
      if xs[|xs| - 1] < Least(prefix) {
        assert xs[|xs| - 1] == Least(xs);
      } else {
        assert xs[i] == Least(xs);
      }
    } else {
      assert xs[0] == Least(xs);
    }
  }

  /** Python's `max` over a non-empty sequence of numbers. */
  function Greatest(xs: seq<int>): int
    requires |xs| > 0
  {
    if |xs| == 1 then xs[0]
    else
      var m := Greatest(xs[..|xs| - 1]);
      if xs[|xs| - 1] > m then xs[|xs| - 1] else m
  }

  /** The greatest element occurs in the sequence and is at least every element. */
  lemma {:induction false} GreatestMeaning(xs: seq<int>)
    requires |xs| > 0
    ensures exists i :: 0 <= i < |xs| && xs[i] == Greatest(xs)
    ensures forall i :: 0 <= i < |xs| ==> xs[i] <= Greatest(xs)
  {
    if |xs| > 1 {
      var prefix := xs[..|xs| - 1];
      GreatestMeaning(prefix);
      var i :| 0 <= i < |prefix| && prefix[i] == Greatest(prefix);
      if xs[|xs| - 1] > Greatest(prefix) {
        assert xs[|xs| - 1] == Greatest(xs);
      } else {
        assert xs[i] == Greatest(xs);
      }
    } else {
      assert xs[0] == Greatest(xs);
    }
  }

  /** Every cell moved up by `dr` rows and left by `dc` columns. */
  function Shift(cells: seq<Cell>, dr: int, dc: int): (r: seq<Cell>)
    ensures |r| == |cells|
    ensures forall i :: 0 <= i < |cells| ==> r[i] == (cells[i].0 - dr, cells[i].1 - dc)
  {
    seq(|cells|, i requires 0 <= i < |cells| => (cells[i].0 - dr, cells[i].1 - dc))
  }

  /** No cell has a negative coordinate, and some cell is on row 0 and some
      on column 0: the shape touches both axes. */
  predicate AtOrigin(cells: seq<Cell>) {
    (forall i :: 0 <= i < |cells| ==> cells[i].0 >= 0 && cells[i].1 >= 0)
    && (exists i :: 0 <= i < |cells| && cells[i].0 == 0)
    && (exists i :: 0 <= i < |cells| && cells[i].1 == 0)
  }

  /** No cell occurs twice. */
  predicate Distinct(cells: seq<Cell>) {
    forall i, j :: 0 <= i < j < |cells| ==> cells[i] != cells[j]
  }

  /** Turning and mirroring move distinct cells to distinct cells. */
  lemma TurnsKeepDistinct(cells: seq<Cell>)
    requires Distinct(cells)
    ensures Distinct(Rotate90(cells)) && Distinct(FlipHorizontal(cells))
  {
  }

  /** The two candidates of the `k`-th turn are orientations of the shape. */
  lemma TurnedOriented(cells: seq<Cell>, k: nat)
    requires cells != [] && Distinct(cells)
    ensures Oriented(NormalizeCells(RotateTimes(cells, k)), |cells|)
    ensures Oriented(NormalizeCells(FlipHorizontal(RotateTimes(cells, k))), |cells|)
  {
    var turned := RotateTimes(cells, k);
    TurnedDistinct(cells, k);
    NormalOriented(turned);
    NormalOriented(FlipHorizontal(turned));
  }

  /** A shape without repeated cells keeps none when turned and mirrored. */
  lemma TurnedDistinct(cells: seq<Cell>, k: nat)
    requires Distinct(cells)
    ensures Distinct(RotateTimes(cells, k)) && Distinct(FlipHorizontal(RotateTimes(cells, k)))
  {
    RotateTimesDistinct(cells, k);
    TurnsKeepDistinct(RotateTimes(cells, k));
  }

  lemma {:induction false} RotateTimesDistinct(cells: seq<Cell>, k: nat)
    requires Distinct(cells)
    ensures Distinct(RotateTimes(cells, k))
  {
    if k > 0 {
      RotateTimesDistinct(cells, k - 1);
      TurnsKeepDistinct(RotateTimes(cells, k - 1));
    }
  }

  /** A list without repeats holds each value at most once. */
  lemma {:induction false} AtMostOnce(b: seq<Cell>, x: Cell)
    requires Distinct(b)
    ensures multiset(b)[x] <= 1
  {
    if b != [] {
      var prefix := b[..|b| - 1];
      assert b == prefix + [b[|b| - 1]];
      AtMostOnce(prefix, x);
      if x == b[|b| - 1] {
        assert x !in prefix;
      }
    }
  }

  /** A value at two indices occurs at least twice. */
  lemma TwoCopies(a: seq<Cell>, i: nat, j: nat)
    requires i < j < |a|
    ensures a[i] == a[j] ==> multiset(a)[a[i]] >= 2
  {
    assert a == a[..i] + [a[i]] + a[i + 1..j] + [a[j]] + a[j + 1..];
  }

  /** A reordering of a list without repeats has none. */
  lemma PermutationDistinct(a: seq<Cell>, b: seq<Cell>)
    requires multiset(a) == multiset(b) && Distinct(b)
    ensures Distinct(a)
  {
    forall i, j | 0 <= i < j < |a| ensures a[i] != a[j] {
      TwoCopies(a, i, j);
      AtMostOnce(b, a[i]);
    }
  }

  /** normalize_cells: the shape shifted so its least row and least column
      are 0, then sorted; an empty shape stays empty. */
  function NormalizeCells(cells: seq<Cell>): seq<Cell> {
    if cells == [] then []
    else SortPairs(Shift(cells, Least(Rows(cells)), Least(Cols(cells))))
  }

  /** Shifting by the least row and least column puts a shape at the origin. */
  lemma ShiftedAtOrigin(cells: seq<Cell>)
    requires cells != []
    ensures AtOrigin(Shift(cells, Least(Rows(cells)), Least(Cols(cells))))
  {
    var shifted := Shift(cells, Least(Rows(cells)), Least(Cols(cells)));
    LeastMeaning(Rows(cells));
    LeastMeaning(Cols(cells));
    forall i | 0 <= i < |cells| ensures shifted[i].0 >= 0 && shifted[i].1 >= 0 {
      assert Rows(cells)[i] == cells[i].0 && Cols(cells)[i] == cells[i].1;
    }
    var i0 :| 0 <= i0 < |cells| && Rows(cells)[i0] == Least(Rows(cells));
    assert shifted[i0].0 == 0;
    var j0 :| 0 <= j0 < |cells| && Cols(cells)[j0] == Least(Cols(cells));
    assert shifted[j0].1 == 0;
  }

  /** Reordering a shape keeps it at the origin. */
  lemma PermutedAtOrigin(r: seq<Cell>, s: seq<Cell>)
    requires multiset(r) == multiset(s) && AtOrigin(s)
    ensures AtOrigin(r)
  {
    SameElements(r, s);
    forall i | 0 <= i < |r| ensures r[i].0 >= 0 && r[i].1 >= 0 {
      assert r[i] in s;
    }
    var i0 :| 0 <= i0 < |s| && s[i0].0 == 0;
    assert s[i0] in r;
    var j0 :| 0 <= j0 < |s| && s[j0].1 == 0;
    assert s[j0] in r;
  }

  /** The normal form keeps the number of cells, is sorted, touches both
      axes, and holds the same cells as the shifted shape. */
  lemma NormalizeCellsMeaning(cells: seq<Cell>)
    ensures |NormalizeCells(cells)| == |cells|
    ensures Ascending(NormalizeCells(cells))
    ensures cells != [] ==> AtOrigin(NormalizeCells(cells))
    ensures cells != [] ==>
      multiset(NormalizeCells(cells)) == multiset(Shift(cells, Least(Rows(cells)), Least(Cols(cells))))
  {
    if cells != [] {
      var shifted := Shift(cells, Least(Rows(cells)), Least(Cols(cells)));
      ShiftedAtOrigin(cells);
      SortPairsMeaning(shifted);
      PermutedAtOrigin(SortPairs(shifted), shifted);
    }
  }

  /** Lists with the same multiset hold the same elements. */
  lemma SameElements(r: seq<Cell>, s: seq<Cell>)
    requires multiset(r) == multiset(s)
    ensures forall x :: x in r <==> x in s
  {
    forall x ensures x in r <==> x in s {
      assert x in r <==> x in multiset(r);
      assert x in s <==> x in multiset(s);
    }
  }

  /** The candidates get_all_orientations forms in its first `k` turns, in
      the order it forms them: for each quarter turn, the normal form of the
      turned shape and then of its mirror image. */
  function CandidatesUpTo(cells: seq<Cell>, k: nat): (r: seq<seq<Cell>>)
    ensures |r| == 2 * k
  {
    if k == 0 then []
    else
      var turned := RotateTimes(cells, k - 1);
      CandidatesUpTo(cells, k - 1) + [NormalizeCells(turned), NormalizeCells(FlipHorizontal(turned))]
  }

  /** All eight candidates. */
  function Candidates(cells: seq<Cell>): (r: seq<seq<Cell>>)
    ensures |r| == 8
  {
    CandidatesUpTo(cells, 4)
  }

  /** An orientation of a shape of `n` cells as get_all_orientations
      produces it: `n` cells, sorted, touching both axes. */
  predicate Oriented(o: seq<Cell>, n: nat) {
    |o| == n && AtOrigin(o) && Ascending(o) && Distinct(o)
  }

  /** A set of orientations as a list, in whatever order the set yields
      them (Python's `list(set)`). */
  method ListOf(s: set<seq<Cell>>) returns (xs: seq<seq<Cell>>)
    ensures forall x :: x in xs <==> x in s
    ensures forall i, j :: 0 <= i < j < |xs| ==> xs[i] != xs[j]
    ensures |xs| == |s|
  {
    xs := [];
    var rest := s;
    while rest != {}
      invariant rest <= s
      invariant forall x :: x in xs <==> x in s - rest
      invariant forall i, j :: 0 <= i < j < |xs| ==> xs[i] != xs[j]
      invariant |xs| + |rest| == |s|
      decreases |rest|
    {
      NonEmpty(rest);
      var x :| x in rest;
      xs := xs + [x];
      rest := rest - {x};
    }
  }

  /** A set drawn from the elements of a list is no larger than the list. */
  lemma {:induction false} ElementsAtMost(s: set<seq<Cell>>, xs: seq<seq<Cell>>)
    requires forall x :: x in s ==> x in xs
    ensures |s| <= |xs|
  {
    if xs != [] {
      var last := xs[|xs| - 1];
      ElementsAtMost(s - {last}, xs[..|xs| - 1]);
    } else {
      assert s == {};
    }
  }

  /** get_all_orientations' set after `k` turns: the first `2 * k`
      candidates, each an orientation of the shape. */
  ghost predicate Collected(found: set<seq<Cell>>, cells: seq<Cell>, k: nat) {
    CollectedIn(found, CandidatesUpTo(cells, k), |cells|)
  }

  /** `found` holds the elements of `list`, each an orientation of a shape
      of `n` cells. */
  ghost predicate CollectedIn(found: set<seq<Cell>>, list: seq<seq<Cell>>, n: nat) {
    (forall o :: o in found <==> o in list)
    && (forall o :: o in found ==> Oriented(o, n))
  }

  lemma CollectStep(found: set<seq<Cell>>, cells: seq<Cell>, k: nat)
    requires cells != [] && Distinct(cells) && Collected(found, cells, k)
    ensures Collected(found + {NormalizeCells(RotateTimes(cells, k)), NormalizeCells(FlipHorizontal(RotateTimes(cells, k)))}, cells, k + 1)
  {
    var a, b := NormalizeCells(RotateTimes(cells, k)), NormalizeCells(FlipHorizontal(RotateTimes(cells, k)));
    var prev := CandidatesUpTo(cells, k);
    assert Oriented(a, |cells|) && Oriented(b, |cells|) by {
      TurnedOriented(cells, k);
    }
    AddTwo(found, prev, a, b, |cells|);
    CandidatesStep(cells, k);
  }

  lemma NormalOriented(cells: seq<Cell>)
    requires cells != [] && Distinct(cells)
    ensures Oriented(NormalizeCells(cells), |cells|)
  {
    NormalizeCellsMeaning(cells);
    NormalizeDistinct(cells);
  }

  /** Normalizing a shape without repeated cells leaves none. */
  lemma NormalizeDistinct(cells: seq<Cell>)
    requires cells != [] && Distinct(cells)
    ensures Distinct(NormalizeCells(cells))
  {
    var shifted := Shift(cells, Least(Rows(cells)), Least(Cols(cells)));
    SortPairsMeaning(shifted);
    PermutationDistinct(SortPairs(shifted), shifted);
  }

  /** Adding two orientations to a set and to a list keeps their elements
      the same. */
  lemma AddTwo(found: set<seq<Cell>>, prev: seq<seq<Cell>>, a: seq<Cell>, b: seq<Cell>, n: nat)
    requires CollectedIn(found, prev, n)
    requires Oriented(a, n) && Oriented(b, n)
    ensures CollectedIn(found + {a, b}, prev + [a, b], n)
  {
  }

  /** The set collected over all four turns holds between one and eight
      orientations. */
  lemma FoundAll(cells: seq<Cell>, found: set<seq<Cell>>)
    requires Collected(found, cells, 4)
    ensures 0 < |found| <= 8
  {
    ElementsAtMost(found, Candidates(cells));
    assert Candidates(cells)[0] in found;
  }

  /** A list of orientations for shape `lines`: exactly its candidates,
      at least one, each a normal form of the shape. */
  ghost predicate OrientationsOf(os: seq<seq<Cell>>, lines: seq<string>) {
    0 < |os| && (forall o :: o in os <==> o in Candidates(ShapeCells(lines)))
    && (forall o :: o in os ==> Oriented(o, |ShapeCells(lines)|))
  }

  /** get_all_orientations: the distinct normal forms of the shape's four
      rotations and their mirror images.  A drawing without any '#' makes
      Python add a list to a set, which raises, so one is required. */
  method GetAllOrientations(lines: seq<string>) returns (orientations: seq<seq<Cell>>)
    requires ShapeCells(lines) != []
    ensures OrientationsOf(orientations, lines)
    ensures forall i, j :: 0 <= i < j < |orientations| ==> orientations[i] != orientations[j]
    ensures |orientations| <= 8
  {
    var cells := GetShapeCells(lines);
    ShapeCellsMeaning(lines);
    var found := CollectOrientations(cells);
    FoundAll(cells, found);
    orientations := ListOf(found);
  }

  /** The loop of get_all_orientations: the normal forms of each quarter turn
      and of its mirror image, gathered in a set. */
  method CollectOrientations(cells: seq<Cell>) returns (found: set<seq<Cell>>)
    requires cells != [] && Distinct(cells)
    ensures Collected(found, cells, 4)
  {
    found := {};
    var current := cells;
    for k := 0 to 4
      invariant current == RotateTimes(cells, k)
      invariant Collected(found, cells, k)
    {
      CollectStep(found, cells, k);
      found := found + {NormalizeCells(current), NormalizeCells(FlipHorizontal(current))};
      current := Rotate90(current);
    }
  }


  // ---------------------------------------------------------------------
  // The grid: can_place, place_shape, remove_shape

  /** The region as rows of squares, each "." (empty) or the mark of the
      present covering it. */
  type Grid = seq<seq<string>>

  /** Every row has `width` squares. */
  predicate Rectangular(g: Grid, width: int) {
    forall r :: 0 <= r < |g| ==> |g[r]| == width
  }

  predicate OnGrid(g: Grid, r: int, c: int) {
    0 <= r < |g| && 0 <= c < |g[r]|
  }

  /** Every cell of the shape, moved to (row, col), lies on the grid. */
  predicate Covered(g: Grid, cells: seq<Cell>, row: int, col: int) {
    forall i :: 0 <= i < |cells| ==> OnGrid(g, row + cells[i].0, col + cells[i].1)
  }

  /** What can_place decides: the shape has a cell, and every cell, moved to
      (row, col), lies on the grid on an empty square. */
  predicate Fits(g: Grid, cells: seq<Cell>, row: int, col: int) {
    |cells| > 0 && Covered(g, cells, row, col)
    && forall i :: 0 <= i < |cells| ==> g[row + cells[i].0][col + cells[i].1] == "."
  }

  /** The grid with square (r, c) set to `v`. */
  function SetSquare(g: Grid, r: int, c: int, v: string): (h: Grid)
    requires OnGrid(g, r, c)
  {
    g[r := g[r][c := v]]
  }

  /** The grid with every square the shape covers at (row, col) set to
      `mark`, and every other square as it was. */
  function Stamp(g: Grid, cells: seq<Cell>, row: int, col: int, mark: string): (h: Grid)
    ensures |h| == |g| && forall r :: 0 <= r < |g| ==> |h[r]| == |g[r]|
  {
    seq(|g|, r requires 0 <= r < |g| =>
      seq(|g[r]|, c requires 0 <= c < |g[r]| =>
        if (r - row, c - col) in cells then mark else g[r][c]))
  }

  /** can_place: rejects a shape without cells, then one whose farthest row
      or column runs past the grid, then checks every cell in turn.  Python
      reads the width from the first row, so a grid without rows is
      required to have one when the shape has cells. */
  method CanPlace(g: Grid, cells: seq<Cell>, row: int, col: int) returns (ok: bool)
    requires cells == [] || (|g| > 0 && Rectangular(g, |g[0]|))
    ensures ok <==> Fits(g, cells, row, col)
  {
    if cells == [] {
      return false;
    }
    var height := |g|;
    var width := |g[0]|;
    var maxDr := Greatest(Rows(cells));
    var maxDc := Greatest(Cols(cells));
    if row + maxDr >= height || col + maxDc >= width {
      GreatestMeaning(Rows(cells));
      GreatestMeaning(Cols(cells));
      if row + maxDr >= height {
        var i :| 0 <= i < |cells| && Rows(cells)[i] == maxDr;
        assert !OnGrid(g, row + cells[i].0, col + cells[i].1);
      } else {
        var i :| 0 <= i < |cells| && Cols(cells)[i] == maxDc;
        assert !OnGrid(g, row + cells[i].0, col + cells[i].1);
      }
      return false;
    }
    for k := 0 to |cells|
      invariant forall i :: 0 <= i < k ==>
        OnGrid(g, row + cells[i].0, col + cells[i].1) && g[row + cells[i].0][col + cells[i].1] == "."
    {
      var r, c := row + cells[k].0, col + cells[k].1;
      if r < 0 || r >= height || c < 0 || c >= width {
        assert !OnGrid(g, r, c);
        return false;
      }
      if g[r][c] != "." {
        return false;
      }
    }
    return true;
  }

  /** Stamping one more cell is setting that one square. */
  lemma StampStep(g: Grid, cells: seq<Cell>, k: nat, row: int, col: int, mark: string)
    requires k < |cells| && OnGrid(g, row + cells[k].0, col + cells[k].1)
    ensures Stamp(g, cells[..k + 1], row, col, mark)
         == SetSquare(Stamp(g, cells[..k], row, col, mark), row + cells[k].0, col + cells[k].1, mark)
  {
    var a := Stamp(g, cells[..k + 1], row, col, mark);
    var b := SetSquare(Stamp(g, cells[..k], row, col, mark), row + cells[k].0, col + cells[k].1, mark);
    assert cells[..k + 1] == cells[..k] + [cells[k]];
    forall r | 0 <= r < |g| ensures a[r] == b[r] {
      forall c | 0 <= c < |g[r]| ensures a[r][c] == b[r][c] {
        assert (r - row, c - col) in cells[..k + 1] <==> (r - row, c - col) in cells[..k] || (r - row, c - col) == cells[k];
      }
    }
  }

  /** Stamping nothing leaves the grid as it was. */
  lemma StampNothing(g: Grid, row: int, col: int, mark: string)
    ensures Stamp(g, [], row, col, mark) == g
  {
    var a := Stamp(g, [], row, col, mark);
    forall r | 0 <= r < |g| ensures a[r] == g[r] {
    }
  }

  /** Removing a shape where it fitted restores the grid exactly: every square
      it covered was empty before. */
  lemma PlaceThenRemove(g: Grid, cells: seq<Cell>, row: int, col: int, mark: string)
    requires Fits(g, cells, row, col)
    ensures Stamp(Stamp(g, cells, row, col, mark), cells, row, col, ".") == g
  {
    var placed := Stamp(g, cells, row, col, mark);
    var back := Stamp(placed, cells, row, col, ".");
    forall r | 0 <= r < |g| ensures back[r] == g[r] {
      forall c | 0 <= c < |g[r]| ensures back[r][c] == g[r][c] {
        if (r - row, c - col) in cells {
          var i :| 0 <= i < |cells| && cells[i] == (r - row, c - col);
          assert g[row + cells[i].0][col + cells[i].1] == ".";
        }
      }
    }
  }

  // ---------------------------------------------------------------------
  // try_fit_presents: candidate positions and the backtracking search

  /** (orientation, row, col): a shape in one orientation with its (0, 0)
      at square (row, col). */
  datatype Placement = Placement(cells: seq<Cell>, row: int, col: int)

  /** The largest row offset of an orientation, 0 for an empty one. */
  function MaxRowOffset(o: seq<Cell>): int {
    if o == [] then 0 else Greatest(Rows(o))
  }

  function MaxColOffset(o: seq<Cell>): int {
    if o == [] then 0 else Greatest(Cols(o))
  }

  /** The positions try_fit_presents lists for an orientation: rows
      `range(height - max_dr)`, columns `range(width - max_dc)`. */
  predicate InRange(p: Placement, height: int, width: int) {
    0 <= p.row < height - MaxRowOffset(p.cells) && 0 <= p.col < width - MaxColOffset(p.cells)
  }

  /** An orientation at the origin that fits somewhere lies at one of the
      listed positions: the restriction loses no placement. */
  lemma FitsInRange(g: Grid, p: Placement, height: int, width: int)
    requires |g| == height && Rectangular(g, width) && AtOrigin(p.cells)
    requires Fits(g, p.cells, p.row, p.col)
    ensures InRange(p, height, width)
  {
    var o := p.cells;
    GreatestMeaning(Rows(o));
    GreatestMeaning(Cols(o));
    var i :| 0 <= i < |o| && Rows(o)[i] == MaxRowOffset(o);
    assert OnGrid(g, p.row + o[i].0, p.col + o[i].1);
    var j :| 0 <= j < |o| && Cols(o)[j] == MaxColOffset(o);
    assert OnGrid(g, p.row + o[j].0, p.col + o[j].1);
    var r0 :| 0 <= r0 < |o| && o[r0].0 == 0;
    assert OnGrid(g, p.row + o[r0].0, p.col + o[r0].1);
    var c0 :| 0 <= c0 < |o| && o[c0].1 == 0;
    assert OnGrid(g, p.row + o[c0].0, p.col + o[c0].1);
  }

  /** The positions of one orientation, row by row. */
  method PositionsFor(o: seq<Cell>, height: int, width: int) returns (ps: seq<Placement>)
    ensures forall p :: p in ps <==> p.cells == o && InRange(p, height, width)
  {
    var maxDr := MaxRowOffset(o);
    var maxDc := MaxColOffset(o);
    var rows := if height - maxDr > 0 then height - maxDr else 0;
    var cols := if width - maxDc > 0 then width - maxDc else 0;
    ps := [];
    for row := 0 to rows
      invariant forall p :: p in ps <==> p.cells == o && 0 <= p.row < row && 0 <= p.col < cols
    {
      for col := 0 to cols
        invariant forall p :: p in ps <==>
          p.cells == o && 0 <= p.col < cols && (0 <= p.row < row || (p.row == row && p.col < col))
      {
        ps := ps + [Placement(o, row, col)];
      }
    }
  }

  /** `p` is in one of the lists. */
  ghost predicate Listed(lists: seq<seq<Placement>>, p: Placement) {
    exists a :: 0 <= a < |lists| && p in lists[a]
  }

  /** valid_positions[shape_idx]: one list of positions per orientation. */
  method OrientationPositions(os: seq<seq<Cell>>, height: int, width: int) returns (lists: seq<seq<Placement>>)
    ensures forall p :: Listed(lists, p) <==> p.cells in os && InRange(p, height, width)
  {
    lists := [];
    for a := 0 to |os|
      invariant forall p :: Listed(lists, p) <==> p.cells in os[..a] && InRange(p, height, width)
    {
      var ps := PositionsFor(os[a], height, width);
      forall p ensures Listed(lists + [ps], p) <==> Listed(lists, p) || p in ps {
        if p in ps {
          assert p in (lists + [ps])[|lists|];
        }
        if Listed(lists + [ps], p) {
          var b :| 0 <= b < |lists + [ps]| && p in (lists + [ps])[b];
          if b < |lists| {
            assert p in lists[b];
          }
        }
        if Listed(lists, p) {
          var b :| 0 <= b < |lists| && p in lists[b];
          assert p in (lists + [ps])[b];
        }
      }
      assert os[..a + 1] == os[..a] + [os[a]];
      lists := lists + [ps];
    }
    assert os[..|os|] == os;
  }

  /** Placement `p` uses one of the orientations of shape `s`. */
  ghost predicate IsOption(options: map<int, set<seq<Cell>>>, s: int, p: Placement) {
    s in options && p.cells in options[s]
  }

  /** `final` is reached from `g` by placing presents `i`, `i + 1`, ... in
      turn, each in one of its shape's orientations somewhere it fits, and
      marking its squares with its index (Python's `str(present_idx)`). */
  ghost predicate PlacedFrom(options: map<int, set<seq<Cell>>>, presents: seq<int>, g: Grid, i: nat, final: Grid)
    decreases |presents| - i
  {
    if i >= |presents| then final == g
    else exists p: Placement :: (IsOption(options, presents[i], p) && Fits(g, p.cells, p.row, p.col)
      && PlacedFrom(options, presents, Stamp(g, p.cells, p.row, p.col, IntToString(i)), i + 1, final))
  }

  /** The state of one try_fit_presents call: the grid it fills in place,
      the presents in the order it places them, and each shape's lists of
      positions.  `backtrack` is the method of the same name. */
  class Packing {
    const height: nat
    const width: nat
    const presents: seq<int>
    const positions: map<int, seq<seq<Placement>>>
    ghost const options: map<int, set<seq<Cell>>>
    var grid: Grid

    ghost predicate Valid()
      reads this
    {
      |grid| == height && Rectangular(grid, width)
      && (forall i :: 0 <= i < |presents| ==> presents[i] in positions)
      && (forall s, p :: s in positions ==>
            (Listed(positions[s], p) <==> IsOption(options, s, p) && InRange(p, height, width)))
      && (forall s, o :: s in options && o in options[s] ==> AtOrigin(o))
    }

    constructor (height: nat, width: nat, presents: seq<int>, positions: map<int, seq<seq<Placement>>>,
                 ghost options: map<int, set<seq<Cell>>>, grid: Grid)
      requires |grid| == height && Rectangular(grid, width)
      requires forall i :: 0 <= i < |presents| ==> presents[i] in positions
      requires forall s, p :: s in positions ==>
        (Listed(positions[s], p) <==> IsOption(options, s, p) && InRange(p, height, width))
      requires forall s, o :: s in options && o in options[s] ==> AtOrigin(o)
      ensures Valid()
      ensures this.presents == presents && this.options == options && this.grid == grid
    {
      this.height := height;
      this.width := width;
      this.presents := presents;
      this.positions := positions;
      this.options := options;
      this.grid := grid;
    }

    /** place_shape: marks every square the shape covers. */
    method PlaceShape(cells: seq<Cell>, row: int, col: int, mark: string)
      requires Covered(grid, cells, row, col)
      modifies this
      ensures grid == Stamp(old(grid), cells, row, col, mark)
    {
      ghost var g0 := grid;
      StampNothing(g0, row, col, mark);
      for k := 0 to |cells|
        invariant grid == Stamp(g0, cells[..k], row, col, mark)
      {
        StampStep(g0, cells, k, row, col, mark);
        var r, c := row + cells[k].0, col + cells[k].1;
        grid := grid[r := grid[r][c := mark]];
      }
      assert cells[..|cells|] == cells;
    }

    /** remove_shape: empties every square the shape covers. */
    method RemoveShape(cells: seq<Cell>, row: int, col: int)
      requires Covered(grid, cells, row, col)
      modifies this
      ensures grid == Stamp(old(grid), cells, row, col, ".")
    {
      ghost var g0 := grid;
      StampNothing(g0, row, col, ".");
      for k := 0 to |cells|
        invariant grid == Stamp(g0, cells[..k], row, col, ".")
      {
        StampStep(g0, cells, k, row, col, ".");
        var r, c := row + cells[k].0, col + cells[k].1;
        grid := grid[r := grid[r][c := "."]];
      }
      assert cells[..|cells|] == cells;
    }

    /** Placement `p` of present `i` on grid `g` leads nowhere: it does not
        fit, or no way of placing the remaining presents follows it. */
    ghost predicate Dead(g: Grid, i: nat, p: Placement) {
      !(Fits(g, p.cells, p.row, p.col)
        && CanFinish(Stamp(g, p.cells, p.row, p.col, IntToString(i)), i + 1))
    }

    /** The presents from `i` on can be placed on `g`. */
    ghost predicate CanFinish(g: Grid, i: nat) {
      exists final :: PlacedFrom(options, presents, g, i, final)
    }

    /** Every listed placement of a present is one of its shape's options,
        and one with cells starts on a row of the grid. */
    lemma ListedOption(i: nat, a: nat, k: nat)
      requires Valid() && i < |presents|
      requires a < |positions[presents[i]]| && k < |positions[presents[i]][a]|
      ensures IsOption(options, presents[i], positions[presents[i]][a][k])
      ensures positions[presents[i]][a][k].cells == [] || 0 <= positions[presents[i]][a][k].row < height
    {
      var p := positions[presents[i]][a][k];
      assert p in positions[presents[i]][a];
      assert Listed(positions[presents[i]], p);
      if p.cells != [] {
        var o := p.cells;
        assert IsOption(options, presents[i], p);
        assert o in options[presents[i]];
        assert AtOrigin(o);
        GreatestMeaning(Rows(o));
        var r0 :| 0 <= r0 < |o| && o[r0].0 == 0;
        assert Rows(o)[r0] == 0;
      }
    }

    /** When every listed placement of present `i` leads nowhere, the
        presents from `i` on cannot be placed at all. */
    lemma AllDead(g: Grid, i: nat)
      requires Valid() && |g| == height && Rectangular(g, width) && i < |presents|
      requires forall a, k :: 0 <= a < |positions[presents[i]]| && 0 <= k < |positions[presents[i]][a]| ==>
        Dead(g, i, positions[presents[i]][a][k])
      ensures forall final :: !PlacedFrom(options, presents, g, i, final)
    {
      var lists := positions[presents[i]];
      forall final ensures !PlacedFrom(options, presents, g, i, final) {
        forall p | IsOption(options, presents[i], p) && Fits(g, p.cells, p.row, p.col)
          ensures !PlacedFrom(options, presents, Stamp(g, p.cells, p.row, p.col, IntToString(i)), i + 1, final)
        {
          FitsInRange(g, p, height, width);
          assert Listed(lists, p);
          var a :| 0 <= a < |lists| && p in lists[a];
          var k :| 0 <= k < |lists[a]| && lists[a][k] == p;
          assert Dead(g, i, lists[a][k]);
        }
      }
    }

    /** One pass of the placement loop of backtrack(present_idx): place
        `p` when it fits and recurse on the next present, undoing the
        placement when the rest cannot follow. */
    method TryPlacement(i: nat, p: Placement) returns (done: bool)
      requires Valid() && i < |presents|
      requires IsOption(options, presents[i], p)
      requires p.cells == [] || 0 <= p.row < height
      modifies this
      decreases |presents| - i, 0
      ensures Valid()
      ensures done ==> PlacedFrom(options, presents, old(grid), i, grid)
      ensures !done ==> grid == old(grid) && Dead(old(grid), i, p)
    {
      ghost var g0 := grid;
      var ok := CanPlace(grid, p.cells, p.row, p.col);
      if !ok {
        return false;
      }
      PlaceShape(p.cells, p.row, p.col, IntToString(i));
      done := Backtrack(i + 1);
      if !done {
        RemoveShape(p.cells, p.row, p.col);
        PlaceThenRemove(g0, p.cells, p.row, p.col, IntToString(i));
      }
    }

    /** backtrack(present_idx): tries every listed placement of present `i`
        that fits, recursing on the next present, and undoes the placement
        when the rest cannot follow. */
    method Backtrack(i: nat) returns (placed: bool)
      requires Valid() && i <= |presents|
      modifies this
      decreases |presents| - i, 1
      ensures Valid()
      ensures placed ==> PlacedFrom(options, presents, old(grid), i, grid)
      ensures !placed ==> grid == old(grid) && forall final :: !PlacedFrom(options, presents, old(grid), i, final)
    {
      if i >= |presents| {
        return true;
      }
      ghost var g0 := grid;
      var lists := positions[presents[i]];
      for a := 0 to |lists|
        invariant Valid() && grid == g0
        invariant forall a', k :: 0 <= a' < a && 0 <= k < |lists[a']| ==> Dead(g0, i, lists[a'][k])
      {
        var ps := lists[a];
        for k := 0 to |ps|
          invariant Valid() && grid == g0
          invariant forall a', k' :: 0 <= a' < a && 0 <= k' < |lists[a']| ==> Dead(g0, i, lists[a'][k'])
          invariant forall k' :: 0 <= k' < k ==> Dead(g0, i, ps[k'])
        {
          var p := ps[k];
          ListedOption(i, a, k);
          var done := TryPlacement(i, p);
          if done {
            return true;
          }
        }
      }
      AllDead(g0, i);
      return false;
    }
  }

  /** The empty region: `height` rows of `width` "." squares. */
  function EmptyGrid(height: nat, width: nat): (g: Grid)
    ensures |g| == height && Rectangular(g, width)
  {
    seq(height, _ => seq(width, _ => "."))
  }

  /** Each present's shape is known and has an orientation. */
  predicate PresentsKnown(presents: seq<int>, orientations: map<int, seq<seq<Cell>>>) {
    forall i :: 0 <= i < |presents| ==> presents[i] in orientations && |orientations[presents[i]]| > 0
  }

  /** The orientations of each shape as a set: what the search may use,
      whatever order `list(set)` gave them. */
  ghost function OptionSets(orientations: map<int, seq<seq<Cell>>>): map<int, set<seq<Cell>>> {
    map s | s in orientations :: set o | o in orientations[s]
  }

  /** The size of each shape, `len(shape_orientations[idx][0])`. */
  function SizesOf(orientations: map<int, seq<seq<Cell>>>): map<int, int> {
    map s | s in orientations && |orientations[s]| > 0 :: |orientations[s][0]|
  }

  /** presents_with_sizes before sorting: each present as (size, shape). */
  function Sized(presents: seq<int>, sizes: map<int, int>): (r: seq<Pair>)
    requires forall i :: 0 <= i < |presents| ==> presents[i] in sizes
    ensures |r| == |presents|
  {
    seq(|presents|, i requires 0 <= i < |presents| => (sizes[presents[i]], presents[i]))
  }

  /** The second component of every pair. */
  function Seconds(xs: seq<Pair>): (r: seq<int>)
    ensures |r| == |xs|
  {
    seq(|xs|, i requires 0 <= i < |xs| => xs[i].1)
  }

  /** sorted_presents: the presents, largest shape first (ties broken by the
      larger shape index). */
  function SortedPresents(presents: seq<int>, sizes: map<int, int>): seq<int>
    requires forall i :: 0 <= i < |presents| ==> presents[i] in sizes
  {
    Seconds(SortPairsDescending(Sized(presents, sizes)))
  }

  lemma SecondsAppend(a: seq<Pair>, b: seq<Pair>)
    ensures Seconds(a + b) == Seconds(a) + Seconds(b)
  {
  }

  /** Reordering pairs reorders their second components. */
  lemma {:induction false} SecondsPermutation(a: seq<Pair>, b: seq<Pair>)
    requires multiset(a) == multiset(b)
    ensures multiset(Seconds(a)) == multiset(Seconds(b))
    decreases |a|
  {
    if a == [] {
      assert |multiset(b)| == 0;
    } else {
      var init, x := a[..|a| - 1], a[|a| - 1];
      assert a == init + [x];
      assert multiset(init) == multiset(a) - multiset{x} && x in multiset(b);
      var j :| 0 <= j < |b| && b[j] == x;
      var rest := RemoveAt(b, j);
      SecondsPermutation(init, rest);
      var si := Seconds(init);
      assert Seconds(a) == si + [x.1] by {
        SecondsAppend(init, [x]);
        assert Seconds([x]) == [x.1];
      }
      assert multiset(si + [x.1]) == multiset(si) + multiset{x.1};
    }
  }

  /** `b` with its element at `j` taken out, as a multiset and in its second
      components. */
  lemma RemoveAt(b: seq<Pair>, j: int) returns (rest: seq<Pair>)
    requires 0 <= j < |b|
    ensures multiset(rest) == multiset(b) - multiset{b[j]}
    ensures multiset(Seconds(b)) == multiset(Seconds(rest)) + multiset{b[j].1}
  {
    var l, x, r := b[..j], b[j], b[j + 1..];
    rest := l + r;
    assert b == l + [x] + r;
    var sl, sr := Seconds(l), Seconds(r);
    assert Seconds(b) == sl + [x.1] + sr by {
      SecondsAppend(l + [x], r);
      SecondsAppend(l, [x]);
      assert Seconds([x]) == [x.1];
    }
    assert Seconds(rest) == sl + sr by {
      SecondsAppend(l, r);
    }
    assert multiset(sl + [x.1] + sr) == multiset(sl) + multiset{x.1} + multiset(sr);
  }

  /** The sorted order places every present of the list, each once. */
  lemma SortedPresentsPermutation(presents: seq<int>, sizes: map<int, int>)
    requires forall i :: 0 <= i < |presents| ==> presents[i] in sizes
    ensures multiset(SortedPresents(presents, sizes)) == multiset(presents)
  {
    SortPairsDescendingMeaning(Sized(presents, sizes));
    SecondsPermutation(SortPairsDescending(Sized(presents, sizes)), Sized(presents, sizes));
    assert Seconds(Sized(presents, sizes)) == presents;
  }

  /** Each listed shape's lists hold exactly its options at the listed
      positions. */
  ghost predicate PositionsListed(positions: map<int, seq<seq<Placement>>>,
                                  orientations: map<int, seq<seq<Cell>>>, height: int, width: int) {
    forall s, p :: s in positions ==>
      (Listed(positions[s], p) <==> IsOption(OptionSets(orientations), s, p) && InRange(p, height, width))
  }

  lemma PositionsListedStep(positions: map<int, seq<seq<Placement>>>, orientations: map<int, seq<seq<Cell>>>,
                            height: int, width: int, shape: int, lists: seq<seq<Placement>>)
    requires PositionsListed(positions, orientations, height, width) && shape in orientations
    requires forall p :: Listed(lists, p) <==> p.cells in orientations[shape] && InRange(p, height, width)
    ensures PositionsListed(positions[shape := lists], orientations, height, width)
  {
  }

  /** A non-empty set of shapes drawn from a list has an element at some
      index of the list. */
  lemma {:induction false} SomeIndex(sorted: seq<int>, todo: set<int>) returns (i: nat)
    requires todo != {} && forall s :: s in todo ==> s in sorted
    ensures i < |sorted| && sorted[i] in todo
  {
    if sorted == [] {
      forall s ensures s !in todo {
      }
      assert false;
    } else if sorted[|sorted| - 1] in todo {
      i := |sorted| - 1;
    } else {
      var prefix := sorted[..|sorted| - 1];
      forall s | s in todo ensures s in prefix {
        var k :| 0 <= k < |sorted| && sorted[k] == s;
        assert prefix[k] == s;
      }
      i := SomeIndex(prefix, todo);
    }
  }

  /** valid_positions: for each shape among the presents, its lists of
      positions, one list per orientation. */
  method ValidPositions(sorted: seq<int>, orientations: map<int, seq<seq<Cell>>>, height: int, width: int)
    returns (positions: map<int, seq<seq<Placement>>>)
    requires forall i :: 0 <= i < |sorted| ==> sorted[i] in orientations
    ensures forall i :: 0 <= i < |sorted| ==> sorted[i] in positions
    ensures PositionsListed(positions, orientations, height, width)
  {
    positions := map[];
    var todo: set<int> := set s | s in sorted;
    while todo != {}
      invariant forall s :: s in todo ==> s in sorted
      invariant forall i :: 0 <= i < |sorted| ==> sorted[i] in todo || sorted[i] in positions
      invariant PositionsListed(positions, orientations, height, width)
      decreases |todo|
    {
      ghost var someIndex := SomeIndex(sorted, todo);
      var i :| 0 <= i < |sorted| && sorted[i] in todo;
      var shape := sorted[i];
      var lists := OrientationPositions(orientations[shape], height, width);
      PositionsListedStep(positions, orientations, height, width, shape, lists);
      positions := positions[shape := lists];
      todo := todo - {shape};
    }
  }

  /** try_fit_presents: sorts the presents, lists the candidate positions and
      runs the search on an empty grid.  True exactly when the presents, in
      that order, can all be placed without overlap. */
  method TryFitPresents(width: nat, height: nat, presentsList: seq<int>, orientations: map<int, seq<seq<Cell>>>)
    returns (fits: bool)
    requires PresentsKnown(presentsList, orientations)
    requires forall s, o :: s in orientations && o in orientations[s] ==> AtOrigin(o)
    ensures fits <==> exists final :: PlacedFrom(OptionSets(orientations),
      SortedPresents(presentsList, SizesOf(orientations)), EmptyGrid(height, width), 0, final)
  {
    var grid := EmptyGrid(height, width);
    var withSizes: seq<Pair> := [];
    for k := 0 to |presentsList|
      invariant withSizes == Sized(presentsList[..k], SizesOf(orientations))
    {
      var s := presentsList[k];
      var size := |orientations[s][0]|;
      withSizes := withSizes + [(size, s)];
    }
    assert presentsList[..|presentsList|] == presentsList;
    withSizes := SortPairsDescending(withSizes);
    var sorted := Seconds(withSizes);
    SortedPresentsPermutation(presentsList, SizesOf(orientations));
    forall i | 0 <= i < |sorted| ensures sorted[i] in orientations {
      assert sorted[i] in multiset(presentsList);
    }
    var positions := ValidPositions(sorted, orientations, height, width);
    assert sorted == SortedPresents(presentsList, SizesOf(orientations));
    var packing := new Packing(height, width, sorted, positions, OptionSets(orientations), grid);
    fits := packing.Backtrack(0);
    if fits {
      assert PlacedFrom(OptionSets(orientations), sorted, grid, 0, packing.grid);
    }
  }

  // ---------------------------------------------------------------------
  // The pre-check of solve_part1: presents needing more squares than the
  // region has cannot all be placed

  /** Python's `sum(len(shape_orientations[idx][0]) for idx in presents)`:
      the squares the presents cover together. */
  function TotalSize(presents: seq<int>, sizes: map<int, int>): int
    requires forall i :: 0 <= i < |presents| ==> presents[i] in sizes
  {
    if presents == [] then 0 else sizes[presents[0]] + TotalSize(presents[1..], sizes)
  }

  lemma {:induction false} TotalSizeAppend(a: seq<int>, b: seq<int>, sizes: map<int, int>)
    requires forall i :: 0 <= i < |a| ==> a[i] in sizes
    requires forall i :: 0 <= i < |b| ==> b[i] in sizes
    ensures TotalSize(a + b, sizes) == TotalSize(a, sizes) + TotalSize(b, sizes)
    decreases |a|
  {
    if a == [] {
      assert a + b == b;
    } else {
      assert (a + b)[1..] == a[1..] + b;
      TotalSizeAppend(a[1..], b, sizes);
    }
  }

  /** Taking one present out of the list takes its size off the total. */
  lemma TotalSizeRemove(b: seq<int>, j: nat, sizes: map<int, int>)
    requires forall i :: 0 <= i < |b| ==> b[i] in sizes
    requires j < |b|
    ensures TotalSize(b, sizes) == sizes[b[j]] + TotalSize(b[..j] + b[j + 1..], sizes)
  {
    TotalSizeAppend(b[..j], b[j..], sizes);
    TotalSizeAppend(b[..j], b[j + 1..], sizes);
    assert b[..j] + b[j..] == b;
    assert b[j..][1..] == b[j + 1..];
  }

  /** The total does not depend on the order of the presents. */
  lemma {:induction false} TotalSizeMultiset(a: seq<int>, b: seq<int>, sizes: map<int, int>)
    requires forall i :: 0 <= i < |a| ==> a[i] in sizes
    requires multiset(a) == multiset(b)
    ensures forall i :: 0 <= i < |b| ==> b[i] in sizes
    ensures TotalSize(a, sizes) == TotalSize(b, sizes)
    decreases |a|
  {
    PermutationKeys(a, b, sizes);
    if a == [] {
      assert |multiset(b)| == 0;
      assert b == [];
    } else {
      var x := a[0];
      assert a == [x] + a[1..];
      assert multiset(a[1..]) == multiset(a) - multiset{x} && x in multiset(b);
      var j :| 0 <= j < |b| && b[j] == x;
      var rest := b[..j] + b[j + 1..];
      MultisetRemoveAt(b, j);
      TotalSizeMultiset(a[1..], rest, sizes);
      TotalSizeRemove(b, j, sizes);
      assert TotalSize(a, sizes) == sizes[x] + TotalSize(a[1..], sizes);
    }
  }

  lemma PermutationKeys(a: seq<int>, b: seq<int>, sizes: map<int, int>)
    requires forall i :: 0 <= i < |a| ==> a[i] in sizes
    requires multiset(a) == multiset(b)
    ensures forall i :: 0 <= i < |b| ==> b[i] in sizes
  {
    forall i | 0 <= i < |b| ensures b[i] in sizes {
      assert b[i] in multiset(b);
      var k :| 0 <= k < |a| && a[k] == b[i];
    }
  }

  lemma MultisetRemoveAt(b: seq<int>, j: int)
    requires 0 <= j < |b|
    ensures multiset(b[..j] + b[j + 1..]) == multiset(b) - multiset{b[j]}
  {
    assert b == b[..j] + [b[j]] + b[j + 1..];
  }

  /** The empty squares of the grid. */
  ghost function DotSet(g: Grid): set<Cell> {
    set r, c | 0 <= r < |g| && 0 <= c < |g[r]| && g[r][c] == "." :: (r, c)
  }

  /** The cells of a shape as a set. */
  ghost function Elements(cells: seq<Cell>): set<Cell> {
    set i | 0 <= i < |cells| :: cells[i]
  }

  /** A shape without repeated cells has as many distinct cells as entries. */
  lemma {:induction false} DistinctElements(cells: seq<Cell>)
    requires Distinct(cells)
    ensures |Elements(cells)| == |cells|
    decreases |cells|
  {
    if cells != [] {
      var n := |cells| - 1;
      var prefix := cells[..n];
      assert Distinct(prefix);
      DistinctElements(prefix);
      assert Elements(cells) == Elements(prefix) + {cells[n]};
      assert cells[n] !in Elements(prefix);
    }
  }

  /** Moving a shape keeps its cells distinct. */
  lemma ShiftDistinct(cells: seq<Cell>, dr: int, dc: int)
    requires Distinct(cells)
    ensures Distinct(Shift(cells, dr, dc))
  {
  }

  /** A mark is never ".": a placed present's squares stop being empty. */
  lemma MarkNotEmpty(i: nat)
    ensures IntToString(i) != "."
  {
    assert IntToString(i)[0] != '.';
  }

  /** Placing a shape where it fits takes exactly its squares off the empty
      ones. */
  lemma StampDots(g: Grid, cells: seq<Cell>, row: int, col: int, mark: string)
    requires Fits(g, cells, row, col) && mark != "."
    ensures Elements(Shift(cells, -row, -col)) <= DotSet(g)
    ensures DotSet(Stamp(g, cells, row, col, mark)) == DotSet(g) - Elements(Shift(cells, -row, -col))
  {
    var moved := Shift(cells, -row, -col);
    var h := Stamp(g, cells, row, col, mark);
    forall q | q in Elements(moved) ensures q in DotSet(g) {
      var i :| 0 <= i < |moved| && moved[i] == q;
      assert g[row + cells[i].0][col + cells[i].1] == ".";
    }
    forall q | q in DotSet(h) ensures q in DotSet(g) - Elements(moved) {
      assert h[q.0][q.1] == ".";
    }
  }

  /** Every orientation of shape `s` has `sizes[s]` distinct cells. */
  ghost predicate OptionsSized(options: map<int, set<seq<Cell>>>, sizes: map<int, int>) {
    forall s, o :: s in options && o in options[s] ==> s in sizes && |o| == sizes[s] && Distinct(o)
  }

  /** Placing presents `i`, `i + 1`, ... covers as many empty squares as
      they have cells, so there must be at least that many. */
  lemma {:induction false} PlacedUses(options: map<int, set<seq<Cell>>>, sizes: map<int, int>,
                                      presents: seq<int>, g: Grid, i: nat, final: Grid)
    requires OptionsSized(options, sizes)
    requires forall j :: 0 <= j < |presents| ==> presents[j] in sizes
    requires i <= |presents| && PlacedFrom(options, presents, g, i, final)
    ensures TotalSize(presents[i..], sizes) <= |DotSet(g)|
    decreases |presents| - i
  {
    if i < |presents| {
      var p := FirstPlacement(options, presents, g, i, final);
      var next := Stamp(g, p.cells, p.row, p.col, IntToString(i));
      PlacedUses(options, sizes, presents, next, i + 1, final);
      PlaceOneUses(options, sizes, presents[i], g, p, i);
      TotalSizeFrom(presents, sizes, i);
    }
  }

  /** The placement of present `i` that a way of placing the presents from
      `i` on starts with. */
  lemma FirstPlacement(options: map<int, set<seq<Cell>>>, presents: seq<int>, g: Grid, i: nat, final: Grid)
    returns (p: Placement)
    requires i < |presents| && PlacedFrom(options, presents, g, i, final)
    ensures IsOption(options, presents[i], p) && Fits(g, p.cells, p.row, p.col)
    ensures PlacedFrom(options, presents, Stamp(g, p.cells, p.row, p.col, IntToString(i)), i + 1, final)
  {
    p :| IsOption(options, presents[i], p) && Fits(g, p.cells, p.row, p.col)
      && PlacedFrom(options, presents, Stamp(g, p.cells, p.row, p.col, IntToString(i)), i + 1, final);
  }

  lemma TotalSizeFrom(presents: seq<int>, sizes: map<int, int>, i: nat)
    requires forall j :: 0 <= j < |presents| ==> presents[j] in sizes
    requires i < |presents|
    ensures TotalSize(presents[i..], sizes) == sizes[presents[i]] + TotalSize(presents[i + 1..], sizes)
  {
    assert presents[i..][1..] == presents[i + 1..];
  }

  /** Placing one present takes its size off the empty squares. */
  lemma PlaceOneUses(options: map<int, set<seq<Cell>>>, sizes: map<int, int>, s: int, g: Grid, p: Placement, i: nat)
    requires OptionsSized(options, sizes)
    requires IsOption(options, s, p) && Fits(g, p.cells, p.row, p.col)
    ensures s in sizes && |DotSet(Stamp(g, p.cells, p.row, p.col, IntToString(i)))| == |DotSet(g)| - sizes[s]
  {
    MarkNotEmpty(i);
    StampCount(g, p.cells, p.row, p.col, IntToString(i));
  }

  /** Placing a shape without repeated cells where it fits leaves as many
      fewer empty squares as it has cells. */
  lemma StampCount(g: Grid, cells: seq<Cell>, row: int, col: int, mark: string)
    requires Fits(g, cells, row, col) && mark != "." && Distinct(cells)
    ensures |DotSet(Stamp(g, cells, row, col, mark))| == |DotSet(g)| - |cells|
  {
    var moved := Shift(cells, -row, -col);
    StampDots(g, cells, row, col, mark);
    ShiftDistinct(cells, -row, -col);
    DistinctElements(moved);
    assert DotSet(g) == (DotSet(g) - Elements(moved)) + Elements(moved);
    DisjointUnionCount(DotSet(g) - Elements(moved), Elements(moved));
  }

  /** Every square of a `height` by `width` region, row by row. */
  ghost function Box(height: nat, width: nat): set<Cell> {
    if height == 0 then {} else Box(height - 1, width) + RowBox(height - 1, width)
  }

  /** The squares of row `r`. */
  ghost function RowBox(r: int, width: nat): set<Cell> {
    if width == 0 then {} else RowBox(r, width - 1) + {(r, width - 1)}
  }

  lemma {:induction false} RowBoxMembers(r: int, width: nat, q: Cell)
    ensures q in RowBox(r, width) <==> q.0 == r && 0 <= q.1 < width
    decreases width
  {
    if width > 0 {
      RowBoxMembers(r, width - 1, q);
    }
  }

  lemma {:induction false} BoxMembers(height: nat, width: nat, q: Cell)
    ensures q in Box(height, width) <==> 0 <= q.0 < height && 0 <= q.1 < width
    decreases height
  {
    if height > 0 {
      BoxMembers(height - 1, width, q);
      RowBoxMembers(height - 1, width, q);
    }
  }

  lemma {:induction false} RowBoxSize(r: int, width: nat)
    ensures |RowBox(r, width)| == width
    decreases width
  {
    if width > 0 {
      RowBoxSize(r, width - 1);
      RowBoxMembers(r, width - 1, (r, width - 1));
    }
  }

  /** The next row holds none of the squares above it. */
  lemma BoxRowDisjoint(height: nat, width: nat)
    ensures Box(height, width) * RowBox(height, width) == {}
  {
    forall q | q in RowBox(height, width) ensures q !in Box(height, width) {
      RowBoxMembers(height, width, q);
      BoxMembers(height, width, q);
    }
  }

  lemma NextRow(height: nat, width: nat)
    requires height > 0
    ensures (height - 1) * width + width == height * width
  {
  }

  /** A region has height times width squares. */
  lemma {:induction false} BoxSize(height: nat, width: nat)
    ensures |Box(height, width)| == height * width
    decreases height
  {
    if height > 0 {
      BoxSize(height - 1, width);
      RowBoxSize(height - 1, width);
      BoxRowDisjoint(height - 1, width);
      DisjointUnionCount(Box(height - 1, width), RowBox(height - 1, width));
      NextRow(height, width);
    }
  }

  /** The pre-check `total_needed > width * height` only skips regions the
      search could not fill: no placement of the presents exists there. */
  lemma PreCheckSound(options: map<int, set<seq<Cell>>>, sizes: map<int, int>,
                      presents: seq<int>, height: nat, width: nat)
    requires OptionsSized(options, sizes)
    requires forall j :: 0 <= j < |presents| ==> presents[j] in sizes
    requires TotalSize(presents, sizes) > height * width
    ensures forall final :: !PlacedFrom(options, presents, EmptyGrid(height, width), 0, final)
  {
    var g := EmptyGrid(height, width);
    forall q | q in DotSet(g) ensures q in Box(height, width) {
      BoxMembers(height, width, q);
    }
    SubsetCardinality(DotSet(g), Box(height, width));
    BoxSize(height, width);
    forall final | PlacedFrom(options, presents, g, 0, final) ensures false {
      PlacedUses(options, sizes, presents, g, 0, final);
    }
  }

  // ---------------------------------------------------------------------
  // solve_part1

  /** A region under a tree: its size and how many presents of each shape
      must go in it (`counts[k]` of shape `k`). */
  datatype Region = Region(width: nat, height: nat, counts: seq<int>)

  /** `[shape] * quantity`: nothing when the quantity is not positive, as
      Python's `range` gives. */
  function Repeat(shape: int, quantity: int): (r: seq<int>)
    decreases quantity
  {
    if quantity <= 0 then [] else Repeat(shape, quantity - 1) + [shape]
  }

  /** presents_list: shape 0 `counts[0]` times, then shape 1 `counts[1]`
      times, and so on. */
  function Expand(counts: seq<int>): seq<int> {
    if counts == [] then [] else Expand(counts[..|counts| - 1]) + Repeat(|counts| - 1, counts[|counts| - 1])
  }

  lemma {:induction false} RepeatCount(shape: int, quantity: int, x: int)
    ensures multiset(Repeat(shape, quantity))[x] == if x == shape && quantity > 0 then quantity else 0
    decreases quantity
  {
    if quantity > 0 {
      RepeatCount(shape, quantity - 1, x);
    }
  }

  /** The list holds each shape exactly as many times as its count asks,
      and no other shape. */
  lemma {:induction false} ExpandCount(counts: seq<int>, x: int)
    ensures multiset(Expand(counts))[x] == if 0 <= x < |counts| && counts[x] > 0 then counts[x] else 0
    decreases |counts|
  {
    if counts != [] {
      var n := |counts| - 1;
      ExpandCount(counts[..n], x);
      RepeatCount(n, counts[n], x);
    }
  }

  /** Building presents_list, one present at a time. */
  method PresentsList(counts: seq<int>) returns (presents: seq<int>)
    ensures presents == Expand(counts)
  {
    presents := [];
    for k := 0 to |counts|
      invariant presents == Expand(counts[..k])
    {
      var quantity := if counts[k] > 0 then counts[k] else 0;
      ghost var before := presents;
      for j := 0 to quantity
        invariant presents == before + Repeat(k, j)
      {
        presents := presents + [k];
      }
      assert Repeat(k, quantity) == Repeat(k, counts[k]);
      assert counts[..k + 1][..k] == counts[..k];
    }
    assert counts[..|counts|] == counts;
  }

  /** Every shape the region asks for is one of the shapes: otherwise
      Python's `shape_orientations[idx]` raises `KeyError`. */
  predicate ShapesKnown(counts: seq<int>, shapes: map<nat, seq<string>>) {
    forall k :: 0 <= k < |counts| && counts[k] > 0 ==> k in shapes
  }

  lemma ExpandKnown(counts: seq<int>, shapes: map<nat, seq<string>>)
    requires ShapesKnown(counts, shapes)
    ensures forall i :: 0 <= i < |Expand(counts)| ==> Expand(counts)[i] >= 0 && Expand(counts)[i] in shapes
  {
    forall i | 0 <= i < |Expand(counts)| ensures Expand(counts)[i] >= 0 && Expand(counts)[i] in shapes {
      ExpandCount(counts, Expand(counts)[i]);
    }
  }

  /** The cells of a shape are distinct. */
  lemma ShapeCellsDistinct(lines: seq<string>)
    ensures Distinct(ShapeCells(lines))
  {
    ShapeCellsMeaning(lines);
  }

  /** Every candidate orientation of a shape is a normal form of it. */
  lemma CandidatesOriented(cells: seq<Cell>, k: nat)
    requires cells != [] && Distinct(cells)
    ensures forall o :: o in CandidatesUpTo(cells, k) ==> Oriented(o, |cells|)
  {
    forall o | o in CandidatesUpTo(cells, k) ensures Oriented(o, |cells|) {
      assert 0 < |CandidatesUpTo(cells, k)|;
      CandidateOriented(cells, k, o);
    }
  }

  lemma {:induction false} CandidateOriented(cells: seq<Cell>, k: nat, o: seq<Cell>)
    requires cells != [] && Distinct(cells) && 0 < k && o in CandidatesUpTo(cells, k)
    ensures Oriented(o, |cells|)
    decreases k
  {
    var j: nat := k - 1;
    var prev := CandidatesUpTo(cells, j);
    var a, b := NormalizeCells(RotateTimes(cells, j)), NormalizeCells(FlipHorizontal(RotateTimes(cells, j)));
    CandidatesStep(cells, j);
    if o in prev {
      assert 0 < |prev|;
      CandidateOriented(cells, j, o);
    } else {
      assert o in [a, b];
      TurnedOriented(cells, j);
    }
  }

  lemma CandidatesStep(cells: seq<Cell>, j: nat)
    ensures CandidatesUpTo(cells, j + 1) == CandidatesUpTo(cells, j)
      + [NormalizeCells(RotateTimes(cells, j)), NormalizeCells(FlipHorizontal(RotateTimes(cells, j)))]
  {
  }

  /** Each shape's orientations as a set: what the search may use. */
  ghost function ShapeOptions(shapes: map<nat, seq<string>>): map<int, set<seq<Cell>>> {
    map s | s in shapes :: set o | o in Candidates(ShapeCells(shapes[s]))
  }

  /** Each shape's size: its number of '#' cells. */
  function ShapeSizes(shapes: map<nat, seq<string>>): map<int, int> {
    map s | s in shapes :: |ShapeCells(shapes[s])|
  }

  /** Every orientation of every shape has the shape's size in distinct
      cells, and touches both axes. */
  lemma ShapeOptionsSized(shapes: map<nat, seq<string>>)
    requires forall s :: s in shapes ==> ShapeCells(shapes[s]) != []
    ensures OptionsSized(ShapeOptions(shapes), ShapeSizes(shapes))
    ensures forall s, o :: s in ShapeOptions(shapes) && o in ShapeOptions(shapes)[s] ==> AtOrigin(o)
  {
    forall s | s in shapes
      ensures forall o :: o in Candidates(ShapeCells(shapes[s])) ==> Oriented(o, |ShapeCells(shapes[s])|)
    {
      ShapeCellsDistinct(shapes[s]);
      CandidatesOriented(ShapeCells(shapes[s]), 4);
    }
  }

  /** The loop over `shapes.items()` that fills shape_orientations. */
  method ShapeOrientations(shapes: map<nat, seq<string>>) returns (orientations: map<nat, seq<seq<Cell>>>)
    requires forall s :: s in shapes ==> ShapeCells(shapes[s]) != []
    ensures orientations.Keys == shapes.Keys
    ensures forall s :: s in shapes ==> OrientationsOf(orientations[s], shapes[s])
  {
    orientations := map[];
    var todo := shapes.Keys;
    while todo != {}
      invariant todo <= shapes.Keys
      invariant orientations.Keys == shapes.Keys - todo
      invariant forall s :: s in orientations ==> OrientationsOf(orientations[s], shapes[s])
      decreases |todo|
    {
      var s :| s in todo;
      var os := GetAllOrientations(shapes[s]);
      orientations := orientations[s := os];
      todo := todo - {s};
    }
  }

  /** What try_fit_presents sees through shape_orientations is the shapes'
      own orientations and sizes, whatever order each list is in. */
  lemma OrientationsAgree(orientations: map<nat, seq<seq<Cell>>>, shapes: map<nat, seq<string>>)
    requires orientations.Keys == shapes.Keys
    requires forall s :: s in shapes ==> OrientationsOf(orientations[s], shapes[s])
    ensures OptionSets(orientations) == ShapeOptions(shapes)
    ensures SizesOf(orientations) == ShapeSizes(shapes)
  {
    OptionSetsAgree(orientations, shapes);
    SizesAgree(orientations, shapes);
  }

  lemma OptionSetsAgree(orientations: map<nat, seq<seq<Cell>>>, shapes: map<nat, seq<string>>)
    requires orientations.Keys == shapes.Keys
    requires forall s :: s in shapes ==> OrientationsOf(orientations[s], shapes[s])
    ensures OptionSets(orientations) == ShapeOptions(shapes)
  {
    assert OptionSets(orientations).Keys == ShapeOptions(shapes).Keys;
    forall s | s in shapes ensures OptionSets(orientations)[s] == ShapeOptions(shapes)[s] {
      OneShapeAgrees(orientations[s], shapes[s]);
    }
  }

  lemma SizesAgree(orientations: map<nat, seq<seq<Cell>>>, shapes: map<nat, seq<string>>)
    requires orientations.Keys == shapes.Keys
    requires forall s :: s in shapes ==> OrientationsOf(orientations[s], shapes[s])
    ensures SizesOf(orientations) == ShapeSizes(shapes)
  {
    assert SizesOf(orientations).Keys == ShapeSizes(shapes).Keys;
    forall s | s in shapes ensures SizesOf(orientations)[s] == ShapeSizes(shapes)[s] {
      OneShapeAgrees(orientations[s], shapes[s]);
    }
  }

  lemma OneShapeAgrees(os: seq<seq<Cell>>, lines: seq<string>)
    requires OrientationsOf(os, lines)
    ensures (set o | o in os) == (set o | o in Candidates(ShapeCells(lines)))
    ensures |os[0]| == |ShapeCells(lines)|
  {
    assert os[0] in os;
  }

  /** The region can hold its presents: placed one after another, largest
      shape first, each in some orientation on empty squares. */
  ghost predicate Packable(shapes: map<nat, seq<string>>, region: Region) {
    ShapesKnown(region.counts, shapes)
    && (ExpandKnown(region.counts, shapes);
        exists final :: PlacedFrom(ShapeOptions(shapes), SortedPresents(Expand(region.counts), ShapeSizes(shapes)),
                                   EmptyGrid(region.height, region.width), 0, final))
  }

  /** How many of the regions can hold their presents. */
  ghost function CountPackable(shapes: map<nat, seq<string>>, regions: seq<Region>): nat {
    if regions == [] then 0
    else CountPackable(shapes, regions[..|regions| - 1]) + (if Packable(shapes, regions[|regions| - 1]) then 1 else 0)
  }

  /** A region skipped by the size check could not have held its presents. */
  lemma SkipSound(shapes: map<nat, seq<string>>, region: Region)
    requires forall s :: s in shapes ==> ShapeCells(shapes[s]) != []
    requires ShapesKnown(region.counts, shapes)
    requires (ExpandKnown(region.counts, shapes);
              TotalSize(Expand(region.counts), ShapeSizes(shapes)) > region.width * region.height)
    ensures !Packable(shapes, region)
  {
    var presents := Expand(region.counts);
    var sizes := ShapeSizes(shapes);
    ExpandKnown(region.counts, shapes);
    SortedPresentsPermutation(presents, sizes);
    TotalSizeMultiset(presents, SortedPresents(presents, sizes), sizes);
    ShapeOptionsSized(shapes);
    PreCheckSound(ShapeOptions(shapes), sizes, SortedPresents(presents, sizes), region.height, region.width);
  }

  /** solve_part1: the number of regions that can hold their presents.  A
      region whose presents need more squares than it has is skipped without
      a search; the count is the same as if every region were searched. */
  method SolvePart1(shapes: map<nat, seq<string>>, regions: seq<Region>) returns (count: nat)
    requires forall s :: s in shapes ==> ShapeCells(shapes[s]) != []
    requires forall j :: 0 <= j < |regions| ==> ShapesKnown(regions[j].counts, shapes)
    ensures count == CountPackable(shapes, regions)
  {
    var orientations := ShapeOrientations(shapes);
    count := 0;
    for j := 0 to |regions|
      invariant count == CountPackable(shapes, regions[..j])
    {
      CountStep(shapes, regions, j);
      var fits := FitRegion(shapes, orientations, regions[j]);
      if fits {
        count := count + 1;
      }
    }
    assert regions[..|regions|] == regions;
  }

  /** The body of the region loop of solve_part1: a region whose presents
      need more squares than it has is skipped, any other is searched. */
  method FitRegion(shapes: map<nat, seq<string>>, orientations: map<nat, seq<seq<Cell>>>, region: Region)
    returns (fits: bool)
    requires forall s :: s in shapes ==> ShapeCells(shapes[s]) != []
    requires orientations.Keys == shapes.Keys
    requires forall s :: s in shapes ==> OrientationsOf(orientations[s], shapes[s])
    requires ShapesKnown(region.counts, shapes)
    ensures fits == Packable(shapes, region)
  {
    OrientationsAgree(orientations, shapes);
    ShapeOptionsSized(shapes);
    var presents := PresentsList(region.counts);
    ExpandKnown(region.counts, shapes);
    var needed := TotalSize(presents, SizesOf(orientations));
    if needed > region.width * region.height {
      SkipSound(shapes, region);
      return false;
    }
    fits := TryFitPresents(region.width, region.height, presents, orientations);
    SearchDecides(shapes, orientations, region);
  }

  /** The search try_fit_presents runs decides exactly whether the region
      can hold its presents. */
  lemma SearchDecides(shapes: map<nat, seq<string>>, orientations: map<nat, seq<seq<Cell>>>, region: Region)
    requires OptionSets(orientations) == ShapeOptions(shapes) && SizesOf(orientations) == ShapeSizes(shapes)
    requires ShapesKnown(region.counts, shapes)
    requires forall i :: 0 <= i < |Expand(region.counts)| ==> Expand(region.counts)[i] in SizesOf(orientations)
    ensures Packable(shapes, region) <==> exists final :: PlacedFrom(OptionSets(orientations),
      SortedPresents(Expand(region.counts), SizesOf(orientations)), EmptyGrid(region.height, region.width), 0, final)
  {
    ExpandKnown(region.counts, shapes);
    var presents := Expand(region.counts);
    assert SortedPresents(presents, SizesOf(orientations)) == SortedPresents(presents, ShapeSizes(shapes));
    if Packable(shapes, region) {
      var final :| PlacedFrom(ShapeOptions(shapes), SortedPresents(presents, ShapeSizes(shapes)),
                              EmptyGrid(region.height, region.width), 0, final);
      assert PlacedFrom(OptionSets(orientations), SortedPresents(presents, SizesOf(orientations)),
                        EmptyGrid(region.height, region.width), 0, final);
      assert exists f :: PlacedFrom(OptionSets(orientations), SortedPresents(Expand(region.counts), SizesOf(orientations)),
                        EmptyGrid(region.height, region.width), 0, f);
    }
  }

  lemma CountStep(shapes: map<nat, seq<string>>, regions: seq<Region>, j: nat)
    requires j < |regions|
    ensures CountPackable(shapes, regions[..j + 1])
         == CountPackable(shapes, regions[..j]) + (if Packable(shapes, regions[j]) then 1 else 0)
  {
    assert regions[..j + 1][..j] == regions[..j];
  }

}
