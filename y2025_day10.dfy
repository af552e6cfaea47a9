/** 2025 day 10: machines with indicator lights and buttons. Part 1 solves
    `A x = target` over GF(2) (button `j` toggles the lights it lists) by
    Gauss-Jordan elimination and returns the fewest presses over every
    solution. Part 2 hands the integer version to an external solver and only
    accepts an answer it has re-checked exactly. */
module LightMachines {
  import opened Common

  /** 0 or 1: every entry of the augmented matrix and of a solution. */
  type Bit = b: int | 0 <= b <= 1

  /** Python's `a ^ b` on 0/1. */
  function Xor(a: Bit, b: Bit): Bit {
    if a == b then 0 else 1
  }

  /** Python's `a * b` on 0/1. */
  function Mul(a: Bit, b: Bit): Bit {
    if a == 0 then 0 else b
  }

  // ---------------------------------------------------------------------
  // Dot products over GF(2)
  // ---------------------------------------------------------------------

  /** `row[lo] * x[lo] ^ ... ^ row[hi-1] * x[hi-1]`. */
  function DotFrom(row: seq<Bit>, x: seq<Bit>, lo: nat, hi: nat): Bit
    requires lo <= hi <= |row| && hi <= |x|
    decreases hi - lo
  {
    if lo == hi then 0 else Xor(DotFrom(row, x, lo, hi - 1), Mul(row[hi - 1], x[hi - 1]))
  }

  /** Columns where the row is zero add nothing. */
  lemma {:induction false} DotFromZero(row: seq<Bit>, x: seq<Bit>, lo: nat, hi: nat)
    requires lo <= hi <= |row| && hi <= |x|
    requires forall c :: lo <= c < hi ==> row[c] == 0
    ensures DotFrom(row, x, lo, hi) == 0
    decreases hi - lo
  {
    if lo < hi {
      DotFromZero(row, x, lo, hi - 1);
    }
  }

  /** The product over `lo..hi` is the products over `lo..mid` and `mid..hi` combined. */
  lemma {:induction false} DotFromSplit(row: seq<Bit>, x: seq<Bit>, lo: nat, mid: nat, hi: nat)
    requires lo <= mid <= hi <= |row| && hi <= |x|
    ensures DotFrom(row, x, lo, hi) == Xor(DotFrom(row, x, lo, mid), DotFrom(row, x, mid, hi))
    decreases hi - mid
  {
    if mid < hi {
      DotFromSplit(row, x, lo, mid, hi - 1);
    }
  }

  /** Only the terms matter: equal terms give equal products. */
  lemma {:induction false} DotFromAgree(r1: seq<Bit>, x: seq<Bit>, r2: seq<Bit>, y: seq<Bit>, lo: nat, hi: nat)
    requires lo <= hi <= |r1| && hi <= |x| && hi <= |r2| && hi <= |y|
    requires forall c :: lo <= c < hi ==> Mul(r1[c], x[c]) == Mul(r2[c], y[c])
    ensures DotFrom(r1, x, lo, hi) == DotFrom(r2, y, lo, hi)
    decreases hi - lo
  {
    if lo < hi {
      DotFromAgree(r1, x, r2, y, lo, hi - 1);
    }
  }

  /** Row `r1 ^ r2`, entry by entry. */
  function XorRows(r1: seq<Bit>, r2: seq<Bit>): (r: seq<Bit>)
    requires |r1| == |r2|
    ensures |r| == |r1|
  {
    seq(|r1|, c requires 0 <= c < |r1| => Xor(r1[c], r2[c]))
  }

  /** The dot product is linear in the row. */
  lemma {:induction false} DotFromXor(r1: seq<Bit>, r2: seq<Bit>, x: seq<Bit>, lo: nat, hi: nat)
    requires |r1| == |r2| && lo <= hi <= |r1| && hi <= |x|
    ensures DotFrom(XorRows(r1, r2), x, lo, hi) == Xor(DotFrom(r1, x, lo, hi), DotFrom(r2, x, lo, hi))
    decreases hi - lo
  {
    if lo < hi {
      DotFromXor(r1, r2, x, lo, hi - 1);
    }
  }

  /** The presses a solution makes: `sum(solution)`. */
  function Weight(x: seq<Bit>): nat
  {
    if x == [] then 0 else Weight(x[..|x| - 1]) + x[|x| - 1]
  }

  lemma {:induction false} WeightBound(x: seq<Bit>)
    ensures Weight(x) <= |x|
  {
    if x != [] {
      WeightBound(x[..|x| - 1]);
    }
  }

  // ---------------------------------------------------------------------
  // The puzzle: which presses light the target
  // ---------------------------------------------------------------------

  /** `matrix[i][j]`: 1 exactly when button `j` lists light `i`. */
  function Entry(buttons: seq<seq<nat>>, i: nat, j: nat): Bit
    requires j < |buttons|
  {
    if i in buttons[j] then 1 else 0
  }

  /** Row `i` of the button matrix. */
  function MatrixRow(buttons: seq<seq<nat>>, i: nat): (row: seq<Bit>)
    ensures |row| == |buttons|
  {
    seq(|buttons|, j requires 0 <= j < |buttons| => Entry(buttons, i, j))
  }

  /** Pressing the buttons `j` with `x[j] == 1` once each, from all lights
      off, gives exactly the target. */
  ghost predicate IsSolution(target: seq<Bit>, buttons: seq<seq<nat>>, x: seq<Bit>)
  {
    |x| == |buttons|
    && forall i :: 0 <= i < |target| ==> DotFrom(MatrixRow(buttons, i), x, 0, |buttons|) == target[i]
  }

  /** `m` is the fewest presses of any solution. */
  ghost predicate IsFewest(target: seq<Bit>, buttons: seq<seq<nat>>, m: nat)
  {
    (exists x :: IsSolution(target, buttons, x) && Weight(x) == m)
    && forall x :: IsSolution(target, buttons, x) ==> Weight(x) >= m
  }

  /** Some solution needs at most `w` presses, so a fewest exists. */
  lemma {:induction false} FewestExists(target: seq<Bit>, buttons: seq<seq<nat>>, w: nat)
    requires exists x :: IsSolution(target, buttons, x) && Weight(x) <= w
    ensures exists m :: IsFewest(target, buttons, m)
    decreases w
  {
    if w > 0 && exists x :: IsSolution(target, buttons, x) && Weight(x) <= w - 1 {
      FewestExists(target, buttons, w - 1);
    } else {
      var x :| IsSolution(target, buttons, x) && Weight(x) <= w;
      assert IsFewest(target, buttons, Weight(x));
    }
  }

  /** The answer the machine should have: the fewest presses, or `None`
      when no combination of presses lights the target. */
  ghost function Fewest(target: seq<Bit>, buttons: seq<seq<nat>>): (r: Option<nat>)
    ensures r.None? <==> forall x :: !IsSolution(target, buttons, x)
    ensures r.Some? ==> IsFewest(target, buttons, r.value)
  {
    if exists x :: IsSolution(target, buttons, x) then
      var x :| IsSolution(target, buttons, x);
      FewestExists(target, buttons, Weight(x));
      var m :| IsFewest(target, buttons, m);
      Some(m)
    else None
  }

  /** The fewest presses is one number. */
  lemma FewestUnique(target: seq<Bit>, buttons: seq<seq<nat>>, m: nat, m': nat)
    requires IsFewest(target, buttons, m) && IsFewest(target, buttons, m')
    ensures m == m'
  {
    var x :| IsSolution(target, buttons, x) && Weight(x) == m;
    var x' :| IsSolution(target, buttons, x') && Weight(x') == m';
  }

  /** No machine needs more presses than it has buttons. */
  lemma FewestAtMostButtons(target: seq<Bit>, buttons: seq<seq<nat>>)
    requires Fewest(target, buttons).Some?
    ensures Fewest(target, buttons).value <= |buttons|
  {
    var m := Fewest(target, buttons).value;
    var x :| IsSolution(target, buttons, x) && Weight(x) == m;
    WeightBound(x);
  }

  /** With no buttons, the lights stay off: the answer is 0 when the target
      is all off and `None` otherwise. */
  lemma NoButtons(target: seq<Bit>)
    ensures Fewest(target, []) == if forall i :: 0 <= i < |target| ==> target[i] == 0 then Some(0) else None
  {
    var empty: seq<Bit> := [];
    if forall i :: 0 <= i < |target| ==> target[i] == 0 {
      assert IsSolution(target, [], empty);
      assert Weight(empty) == 0;
      FewestUnique(target, [], Fewest(target, []).value, 0);
    } else {
      var i :| 0 <= i < |target| && target[i] != 0;
      forall x: seq<Bit>
        ensures !IsSolution(target, [], x)
      {
        assert DotFrom(MatrixRow([], i), x, 0, 0) != target[i];
      }
    }
  }

  // ---------------------------------------------------------------------
  // The augmented matrix
  // ---------------------------------------------------------------------

  /** Every row has `nb` coefficients and the right-hand side. */
  ghost predicate Shaped(aug: seq<seq<Bit>>, nb: nat)
  {
    forall r :: 0 <= r < |aug| ==> |aug[r]| == nb + 1
  }

  /** `x` satisfies every equation `aug[r][..nb] . x == aug[r][nb]`. */
  ghost predicate Satisfies(aug: seq<seq<Bit>>, x: seq<Bit>, nb: nat)
    requires Shaped(aug, nb) && |x| == nb
  {
    forall r :: 0 <= r < |aug| ==> DotFrom(aug[r], x, 0, nb) == aug[r][nb]
  }

  /** Two systems with the same solutions. */
  ghost predicate SameSolutions(a1: seq<seq<Bit>>, a2: seq<seq<Bit>>, nb: nat)
    requires Shaped(a1, nb) && Shaped(a2, nb)
  {
    forall x: seq<Bit> :: |x| == nb ==> (Satisfies(a1, x, nb) <==> Satisfies(a2, x, nb))
  }

  /** The matrix-building loops of `solve_machine` and the augmented copy
      `[A | target]`; lights a button lists beyond the last light are ignored. */
  method BuildAugmented(target: seq<Bit>, buttons: seq<seq<nat>>) returns (aug: seq<seq<Bit>>)
    ensures |aug| == |target| && Shaped(aug, |buttons|)
    ensures forall i :: 0 <= i < |target| ==> aug[i] == MatrixRow(buttons, i) + [target[i]]
  {
    var nLights, nButtons := |target|, |buttons|;
    var matrix: seq<seq<Bit>> := seq(nLights, _ => seq(nButtons, _ => 0));
    for j := 0 to nButtons
      invariant |matrix| == nLights && forall i :: 0 <= i < nLights ==> |matrix[i]| == nButtons
      invariant forall i :: 0 <= i < nLights ==> matrix[i] == ColumnsDone(buttons, i, j, [])
    {
      var btn := buttons[j];
      for k := 0 to |btn|
        invariant |matrix| == nLights && forall i :: 0 <= i < nLights ==> |matrix[i]| == nButtons
        invariant forall i :: 0 <= i < nLights ==> matrix[i] == ColumnsDone(buttons, i, j, btn[..k])
      {
        var lightIdx := btn[k];
        if lightIdx < nLights {
          matrix := matrix[lightIdx := matrix[lightIdx][j := 1]];
        }
        forall i | 0 <= i < nLights
          ensures matrix[i] == ColumnsDone(buttons, i, j, btn[..k + 1])
        {
          ColumnsDoneStep(buttons, i, j, btn, k);
        }
      }
      forall i | 0 <= i < nLights
        ensures matrix[i] == ColumnsDone(buttons, i, j + 1, [])
      {
        assert btn[..|btn|] == btn;
      }
    }
    aug := seq(nLights, i requires 0 <= i < nLights => matrix[i] + [target[i]]);
    forall i | 0 <= i < nLights
      ensures aug[i] == MatrixRow(buttons, i) + [target[i]]
    {
      assert matrix[i] == MatrixRow(buttons, i);
    }
  }

  /** Row `i` of the matrix while column `j` is being filled: the columns
      before `j` are done, column `j` has seen the lights `seen`. */
  function ColumnsDone(buttons: seq<seq<nat>>, i: nat, j: nat, seen: seq<nat>): (row: seq<Bit>)
    ensures |row| == |buttons|
  {
    seq(|buttons|, c requires 0 <= c < |buttons| =>
      if c < j then Entry(buttons, i, c) else if c == j && i in seen then 1 else 0)
  }

  lemma ColumnsDoneStep(buttons: seq<seq<nat>>, i: nat, j: nat, btn: seq<nat>, k: nat)
    requires j < |buttons| && k < |btn|
    ensures ColumnsDone(buttons, i, j, btn[..k + 1])
      == if btn[k] == i then ColumnsDone(buttons, i, j, btn[..k])[j := 1] else ColumnsDone(buttons, i, j, btn[..k])
  {
    assert btn[..k + 1] == btn[..k] + [btn[k]];
  }

  /** The augmented system has exactly the puzzle's solutions. */
  lemma AugmentedSolutions(target: seq<Bit>, buttons: seq<seq<nat>>, aug: seq<seq<Bit>>, x: seq<Bit>)
    requires |aug| == |target| && Shaped(aug, |buttons|) && |x| == |buttons|
    requires forall i :: 0 <= i < |target| ==> aug[i] == MatrixRow(buttons, i) + [target[i]]
    ensures Satisfies(aug, x, |buttons|) <==> IsSolution(target, buttons, x)
  {
    forall i | 0 <= i < |target|
      ensures DotFrom(aug[i], x, 0, |buttons|) == DotFrom(MatrixRow(buttons, i), x, 0, |buttons|)
    {
      DotFromAgree(aug[i], x, MatrixRow(buttons, i), x, 0, |buttons|);
    }
  }

  /** Satisfying the same systems is transitive. */
  lemma SameSolutionsTrans(a1: seq<seq<Bit>>, a2: seq<seq<Bit>>, a3: seq<seq<Bit>>, nb: nat)
    requires Shaped(a1, nb) && Shaped(a2, nb) && Shaped(a3, nb)
    requires SameSolutions(a1, a2, nb) && SameSolutions(a2, a3, nb)
    ensures SameSolutions(a1, a3, nb)
  {
  }

  // ---------------------------------------------------------------------
  // Gauss-Jordan elimination
  // ---------------------------------------------------------------------

  /** `aug[a], aug[b] = aug[b], aug[a]`. */
  function Swap(aug: seq<seq<Bit>>, a: nat, b: nat): (s: seq<seq<Bit>>)
    requires a < |aug| && b < |aug|
    ensures |s| == |aug|
  {
    aug[a := aug[b]][b := aug[a]]
  }

  /** Row `k` after the pass that clears column `col` with pivot row `row`:
      XORed with the pivot row when it has a 1 in that column. */
  function ClearedRow(aug: seq<seq<Bit>>, row: nat, col: nat, k: nat): seq<Bit>
    requires row < |aug| && k < |aug| && col < |aug[k]| && |aug[k]| == |aug[row]|
  {
    if k != row && aug[k][col] == 1 then XorRows(aug[k], aug[row]) else aug[k]
  }

  /** The whole clearing pass. */
  function ClearColumn(aug: seq<seq<Bit>>, row: nat, col: nat, nb: nat): (s: seq<seq<Bit>>)
    requires Shaped(aug, nb) && row < |aug| && col < nb
    ensures |s| == |aug| && Shaped(s, nb)
  {
    seq(|aug|, k requires 0 <= k < |aug| => ClearedRow(aug, row, col, k))
  }

  /** Swapping two equations keeps the solutions. */
  lemma SwapSolutions(aug: seq<seq<Bit>>, a: nat, b: nat, nb: nat)
    requires Shaped(aug, nb) && a < |aug| && b < |aug|
    ensures Shaped(Swap(aug, a, b), nb) && SameSolutions(aug, Swap(aug, a, b), nb)
  {
    var s := Swap(aug, a, b);
    forall x: seq<Bit> | |x| == nb
      ensures Satisfies(aug, x, nb) <==> Satisfies(s, x, nb)
    {
      if Satisfies(s, x, nb) {
        forall r | 0 <= r < |aug|
          ensures DotFrom(aug[r], x, 0, nb) == aug[r][nb]
        {
          var r' := if r == a then b else if r == b then a else r;
          assert aug[r] == s[r'];
        }
      }
    }
  }

  /** XORing the pivot equation into others keeps the solutions. */
  lemma ClearSolutions(aug: seq<seq<Bit>>, row: nat, col: nat, nb: nat)
    requires Shaped(aug, nb) && row < |aug| && col < nb
    ensures SameSolutions(aug, ClearColumn(aug, row, col, nb), nb)
  {
    var s := ClearColumn(aug, row, col, nb);
    forall x: seq<Bit> | |x| == nb
      ensures Satisfies(aug, x, nb) <==> Satisfies(s, x, nb)
    {
      forall k | 0 <= k < |aug| && k != row && aug[k][col] == 1
        ensures DotFrom(s[k], x, 0, nb) == Xor(DotFrom(aug[k], x, 0, nb), DotFrom(aug[row], x, 0, nb))
        ensures s[k][nb] == Xor(aug[k][nb], aug[row][nb])
      {
        DotFromXor(aug[k], aug[row], x, 0, nb);
      }
      assert s[row] == aug[row];
      if Satisfies(aug, x, nb) {
        forall k | 0 <= k < |aug|
          ensures DotFrom(s[k], x, 0, nb) == s[k][nb]
        {
        }
      }
      if Satisfies(s, x, nb) {
        assert DotFrom(aug[row], x, 0, nb) == aug[row][nb];
        forall k | 0 <= k < |aug|
          ensures DotFrom(aug[k], x, 0, nb) == aug[k][nb]
        {
          assert DotFrom(s[k], x, 0, nb) == s[k][nb];
        }
      }
    }
  }

  /** Gauss-Jordan form of the processed columns `0..col`:
      `pivots[i]` is row `i`'s leading column, strictly increasing; each pivot
      column is zero outside its row; every row from `row` on is zero in the
      processed columns. */
  ghost predicate Echelon(aug: seq<seq<Bit>>, pivots: seq<nat>, row: nat, col: nat, nb: nat)
  {
    Shaped(aug, nb) && |pivots| == row <= |aug| && col <= nb
    && (forall i, j :: 0 <= i < j < row ==> pivots[i] < pivots[j])
    && (forall i :: 0 <= i < row ==> pivots[i] < col)
    && (forall i, r :: 0 <= i < row && 0 <= r < |aug| ==> aug[r][pivots[i]] == if r == i then 1 else 0)
    && (forall r, c :: row <= r < |aug| && 0 <= c < col ==> aug[r][c] == 0)
    && (forall i, c :: 0 <= i < row && 0 <= c < pivots[i] ==> aug[i][c] == 0)
  }

  /** No row from `row` on has a 1 in column `col`: it is a free column. */
  lemma NoPivotStep(aug: seq<seq<Bit>>, pivots: seq<nat>, row: nat, col: nat, nb: nat)
    requires Echelon(aug, pivots, row, col, nb) && col < nb
    requires forall r :: row <= r < |aug| ==> aug[r][col] == 0
    ensures Echelon(aug, pivots, row, col + 1, nb)
  {
  }

  /** One entry after the swap and the clearing pass. */
  lemma ClearedEntry(aug: seq<seq<Bit>>, row: nat, col: nat, nb: nat, p: nat, r: nat, c: nat)
    requires Shaped(aug, nb) && row <= p < |aug| && col < nb && r < |aug| && c <= nb
    ensures var s := Swap(aug, row, p);
      ClearColumn(s, row, col, nb)[r][c]
        == if r == row then aug[p][c] else Xor(s[r][c], Mul(s[r][col], aug[p][c]))
    ensures Swap(aug, row, p)[r] == if r == row then aug[p] else if r == p then aug[row] else aug[r]
  {
  }

  /** The pivot columns, old and new, are unit columns after the step. */
  lemma PivotStepColumns(aug: seq<seq<Bit>>, pivots: seq<nat>, row: nat, col: nat, nb: nat, p: nat)
    requires Echelon(aug, pivots, row, col, nb) && col < nb
    requires row <= p < |aug| && aug[p][col] == 1
    ensures var t := ClearColumn(Swap(aug, row, p), row, col, nb);
      forall i, r :: 0 <= i < row + 1 && 0 <= r < |aug| ==> t[r][(pivots + [col])[i]] == if r == i then 1 else 0
  {
    var t := ClearColumn(Swap(aug, row, p), row, col, nb);
    forall i, r | 0 <= i < row + 1 && 0 <= r < |aug|
      ensures t[r][(pivots + [col])[i]] == if r == i then 1 else 0
    {
      var c := (pivots + [col])[i];
      ClearedEntry(aug, row, col, nb, p, r, c);
      ClearedEntry(aug, row, col, nb, p, r, col);
    }
  }

  /** Rows below the new pivot row are zero in the columns done so far. */
  lemma PivotStepBelow(aug: seq<seq<Bit>>, pivots: seq<nat>, row: nat, col: nat, nb: nat, p: nat)
    requires Echelon(aug, pivots, row, col, nb) && col < nb
    requires row <= p < |aug| && aug[p][col] == 1
    ensures var t := ClearColumn(Swap(aug, row, p), row, col, nb);
      forall r, c :: row + 1 <= r < |aug| && 0 <= c < col + 1 ==> t[r][c] == 0
  {
    var t := ClearColumn(Swap(aug, row, p), row, col, nb);
    forall r, c | row + 1 <= r < |aug| && 0 <= c < col + 1
      ensures t[r][c] == 0
    {
      ClearedEntry(aug, row, col, nb, p, r, c);
      ClearedEntry(aug, row, col, nb, p, r, col);
    }
  }

  /** Every pivot row is zero before its pivot. */
  lemma PivotStepLeading(aug: seq<seq<Bit>>, pivots: seq<nat>, row: nat, col: nat, nb: nat, p: nat)
    requires Echelon(aug, pivots, row, col, nb) && col < nb
    requires row <= p < |aug| && aug[p][col] == 1
    ensures var t := ClearColumn(Swap(aug, row, p), row, col, nb);
      forall i, c :: 0 <= i < row + 1 && 0 <= c < (pivots + [col])[i] ==> t[i][c] == 0
  {
    var t := ClearColumn(Swap(aug, row, p), row, col, nb);
    forall i, c | 0 <= i < row + 1 && 0 <= c < (pivots + [col])[i]
      ensures t[i][c] == 0
    {
      ClearedEntry(aug, row, col, nb, p, i, c);
      ClearedEntry(aug, row, col, nb, p, i, col);
    }
  }

  /** Row `p` (from `row` on) has a 1 in column `col`: after the swap and
      the clearing pass, `col` is the pivot of row `row`. */
  lemma PivotStep(aug: seq<seq<Bit>>, pivots: seq<nat>, row: nat, col: nat, nb: nat, p: nat)
    requires Echelon(aug, pivots, row, col, nb) && col < nb
    requires row <= p < |aug| && aug[p][col] == 1
    ensures Echelon(ClearColumn(Swap(aug, row, p), row, col, nb), pivots + [col], row + 1, col + 1, nb)
  {
    PivotStepColumns(aug, pivots, row, col, nb, p);
    PivotStepBelow(aug, pivots, row, col, nb, p);
    PivotStepLeading(aug, pivots, row, col, nb, p);
  }

  /** The inner loop `for c in range(n_buttons + 1): aug[r][c] ^= aug[row][c]`. */
  method XorInto(target: seq<Bit>, pivotRow: seq<Bit>) returns (out: seq<Bit>)
    requires |target| == |pivotRow|
    ensures out == XorRows(target, pivotRow)
  {
    out := target;
    for c := 0 to |target|
      invariant |out| == |target|
      invariant forall c' :: 0 <= c' < c ==> out[c'] == Xor(target[c'], pivotRow[c'])
      invariant forall c' :: c <= c' < |target| ==> out[c'] == target[c']
    {
      out := out[c := Xor(out[c], pivotRow[c])];
    }
  }

  /** The pivot search of `solve_machine`: the first row from `row` on with
      a 1 in column `col`, if any. */
  method FindPivot(aug: seq<seq<Bit>>, row: nat, col: nat, nb: nat) returns (pivotRow: Option<nat>)
    requires Shaped(aug, nb) && row <= |aug| && col < nb
    ensures pivotRow.None? ==> forall r :: row <= r < |aug| ==> aug[r][col] == 0
    ensures pivotRow.Some? ==> row <= pivotRow.value < |aug| && aug[pivotRow.value][col] == 1
    ensures pivotRow.Some? ==> forall r :: row <= r < pivotRow.value ==> aug[r][col] == 0
  {
    for r := row to |aug|
      invariant forall k :: row <= k < r ==> aug[k][col] == 0
    {
      if aug[r][col] == 1 {
        return Some(r);
      }
    }
    return None;
  }

  /** The clearing pass of `solve_machine`: every row other than `row` with
      a 1 in column `col` has row `row` XORed into it. */
  method ClearPass(swapped: seq<seq<Bit>>, row: nat, col: nat, nb: nat) returns (aug: seq<seq<Bit>>)
    requires Shaped(swapped, nb) && row < |swapped| && col < nb
    ensures aug == ClearColumn(swapped, row, col, nb)
  {
    aug := swapped;
    for k := 0 to |swapped|
      invariant |aug| == |swapped| && aug[row] == swapped[row]
      invariant forall k' :: 0 <= k' < k ==> aug[k'] == ClearedRow(swapped, row, col, k')
      invariant forall k' :: k <= k' < |swapped| ==> aug[k'] == swapped[k']
    {
      if k != row && aug[k][col] == 1 {
        var cleared := XorInto(aug[k], aug[row]);
        aug := aug[k := cleared];
      }
    }
  }

  /** The elimination loop of `solve_machine`: for each column, the first
      row from `row` on with a 1 becomes the pivot row (swapped into place)
      and the column is cleared in every other row. The result is in
      Gauss-Jordan form and has the same solutions as the input. */
  method Eliminate(aug0: seq<seq<Bit>>, nb: nat) returns (aug: seq<seq<Bit>>, pivots: seq<nat>, row: nat)
    requires Shaped(aug0, nb)
    ensures |aug| == |aug0| && Echelon(aug, pivots, row, nb, nb)
    ensures row <= |aug0| && row <= nb
    ensures SameSolutions(aug0, aug, nb)
  {
    var nLights := |aug0|;
    aug, pivots, row := aug0, [], 0;
    for col := 0 to nb
      invariant |aug| == nLights && Echelon(aug, pivots, row, col, nb)
      invariant SameSolutions(aug0, aug, nb)
    {
      var pivotRow := FindPivot(aug, row, col, nb);
      if pivotRow.None? {
        NoPivotStep(aug, pivots, row, col, nb);
        continue;
      }
      var p := pivotRow.value;
      PivotStep(aug, pivots, row, col, nb, p);
      SwapSolutions(aug, row, p, nb);
      SameSolutionsTrans(aug0, aug, Swap(aug, row, p), nb);
      aug := aug[row := aug[p]][p := aug[row]];
      ClearSolutions(aug, row, col, nb);
      SameSolutionsTrans(aug0, aug, ClearColumn(aug, row, col, nb), nb);
      pivots := pivots + [col];
      aug := ClearPass(aug, row, col, nb);
      row := row + 1;
    }
    RankAtMostColumns(pivots, nb);
  }

  /** Strictly increasing pivot columns below `nb` number at most `nb`. */
  lemma RankAtMostColumns(pivots: seq<nat>, nb: nat)
    requires forall i, j :: 0 <= i < j < |pivots| ==> pivots[i] < pivots[j]
    requires forall i :: 0 <= i < |pivots| ==> pivots[i] < nb
    ensures |pivots| <= nb
  {
    if pivots != [] {
      var i := 0;
      while i < |pivots| - 1
        invariant 0 <= i < |pivots| && pivots[i] >= i
      {
        i := i + 1;
      }
    }
  }

  // ---------------------------------------------------------------------
  // Reading solutions off the reduced system
  // ---------------------------------------------------------------------

  /** Every equation from `row` on (all-zero coefficients) has right side 0. */
  ghost predicate Consistent(aug: seq<seq<Bit>>, row: nat, nb: nat)
    requires Shaped(aug, nb)
  {
    forall r :: row <= r < |aug| ==> aug[r][nb] == 0
  }

  /** An equation `0 == 1` has no solution. */
  lemma ZeroRowUnsolvable(aug: seq<seq<Bit>>, pivots: seq<nat>, row: nat, nb: nat, r: nat, x: seq<Bit>)
    requires Echelon(aug, pivots, row, nb, nb) && row <= r < |aug| && aug[r][nb] == 1 && |x| == nb
    ensures !Satisfies(aug, x, nb)
  {
    DotFromZero(aug[r], x, 0, nb);
  }

  /** `[c for c in range(n_buttons) if c not in pivot_cols]`. */
  function FreeColumns(n: nat, pivots: seq<nat>): (free: seq<nat>)
    ensures forall k :: 0 <= k < |free| ==> free[k] < n && free[k] !in pivots
    ensures forall c :: 0 <= c < n && c !in pivots ==> c in free
    ensures forall i, j :: 0 <= i < j < |free| ==> free[i] < free[j]
  {
    if n == 0 then []
    else
      var earlier := FreeColumns(n - 1, pivots);
      assert forall c :: 0 <= c < n - 1 && c !in pivots ==> c in earlier;
      earlier + (if n - 1 in pivots then [] else [n - 1])
  }

  /** The values a vector gives the free columns. */
  function FreePart(x: seq<Bit>, free: seq<nat>): (part: seq<Bit>)
    requires forall k :: 0 <= k < |free| ==> free[k] < |x|
    ensures |part| == |free|
  {
    seq(|free|, k requires 0 <= k < |free| => x[free[k]])
  }

  /** Row `i < row` of the reduced system reads
      `x[pivots[i]] ^ (the later columns) == aug[i][nb]`. */
  lemma PivotRowValue(aug: seq<seq<Bit>>, pivots: seq<nat>, row: nat, nb: nat, i: nat, x: seq<Bit>)
    requires Echelon(aug, pivots, row, nb, nb) && i < row && |x| == nb
    ensures DotFrom(aug[i], x, 0, nb) == Xor(x[pivots[i]], DotFrom(aug[i], x, pivots[i] + 1, nb))
  {
    var pc := pivots[i];
    DotFromSplit(aug[i], x, 0, pc, nb);
    DotFromSplit(aug[i], x, pc, pc + 1, nb);
    DotFromZero(aug[i], x, 0, pc);
    assert aug[i][pc] == 1;
  }

  /** Back-substitution has set `x[pivots[i]]` from row `i`. */
  ghost predicate Settled(aug: seq<seq<Bit>>, pivots: seq<nat>, row: nat, nb: nat, i: nat, x: seq<Bit>)
    requires Echelon(aug, pivots, row, nb, nb) && i < row && |x| == nb
  {
    x[pivots[i]] == Xor(aug[i][nb], DotFrom(aug[i], x, pivots[i] + 1, nb))
  }

  /** A vector settled in every pivot row solves a consistent reduced system. */
  lemma SettledSatisfies(aug: seq<seq<Bit>>, pivots: seq<nat>, row: nat, nb: nat, x: seq<Bit>)
    requires Echelon(aug, pivots, row, nb, nb) && Consistent(aug, row, nb) && |x| == nb
    requires forall i :: 0 <= i < row ==> Settled(aug, pivots, row, nb, i, x)
    ensures Satisfies(aug, x, nb)
  {
    forall r | 0 <= r < |aug|
      ensures DotFrom(aug[r], x, 0, nb) == aug[r][nb]
    {
      if r < row {
        PivotRowValue(aug, pivots, row, nb, r, x);
        assert Settled(aug, pivots, row, nb, r, x);
      } else {
        DotFromZero(aug[r], x, 0, nb);
      }
    }
  }

  /** Setting pivot `i - 1` leaves the rows from `i` on settled. */
  lemma SettleStep(aug: seq<seq<Bit>>, pivots: seq<nat>, row: nat, nb: nat, i: nat, x: seq<Bit>, y: seq<Bit>)
    requires Echelon(aug, pivots, row, nb, nb) && 0 < i <= row && |x| == nb
    requires forall i' :: i <= i' < row ==> Settled(aug, pivots, row, nb, i', x)
    requires y == x[pivots[i - 1] := Xor(aug[i - 1][nb], DotFrom(aug[i - 1], x, pivots[i - 1] + 1, nb))]
    ensures forall i' :: i - 1 <= i' < row ==> Settled(aug, pivots, row, nb, i', y)
  {
    var pc := pivots[i - 1];
    forall i' | i - 1 <= i' < row
      ensures Settled(aug, pivots, row, nb, i', y)
    {
      assert pc <= pivots[i'];
      forall c | pivots[i'] + 1 <= c < nb
        ensures Mul(aug[i'][c], x[c]) == Mul(aug[i'][c], y[c])
      {
        assert y[c] == x[c];
      }
      DotFromAgree(aug[i'], x, aug[i'], y, pivots[i'] + 1, nb);
      if i' >= i {
        assert pc < pivots[i'];
        assert Settled(aug, pivots, row, nb, i', x);
      }
    }
  }

  /** `solution = [0] * n_buttons` with the free values placed. */
  method PlaceFree(nb: nat, free: seq<nat>, freeVals: seq<Bit>) returns (solution: seq<Bit>)
    requires |freeVals| == |free|
    requires forall k :: 0 <= k < |free| ==> free[k] < nb
    requires forall i, j :: 0 <= i < j < |free| ==> free[i] < free[j]
    ensures |solution| == nb
    ensures forall k :: 0 <= k < |free| ==> solution[free[k]] == freeVals[k]
    ensures forall c :: 0 <= c < nb && c !in free ==> solution[c] == 0
  {
    solution := seq(nb, _ => 0);
    for k := 0 to |free|
      invariant |solution| == nb
      invariant forall k' :: 0 <= k' < k ==> solution[free[k']] == freeVals[k']
      invariant forall c :: 0 <= c < nb && c !in free[..k] ==> solution[c] == 0
    {
      solution := solution[free[k] := freeVals[k]];
      assert free[..k + 1] == free[..k] + [free[k]];
    }
    assert free[..|free|] == free;
  }

  /** The back-substitution of `solve_machine` for one choice of free
      values: free columns take `freeVals`, then each pivot column, last
      first, is solved from its row. The result solves the reduced system. */
  method BackSubstitute(aug: seq<seq<Bit>>, pivots: seq<nat>, row: nat, nb: nat, free: seq<nat>, freeVals: seq<Bit>)
    returns (solution: seq<Bit>)
    requires Echelon(aug, pivots, row, nb, nb) && Consistent(aug, row, nb)
    requires free == FreeColumns(nb, pivots) && |freeVals| == |free|
    ensures |solution| == nb && Satisfies(aug, solution, nb)
    ensures FreePart(solution, free) == freeVals
  {
    solution := PlaceFree(nb, free, freeVals);
    var i := |pivots|;
    while i > 0
      invariant 0 <= i <= row && |solution| == nb
      invariant forall k :: 0 <= k < |free| ==> solution[free[k]] == freeVals[k]
      invariant forall i' :: i <= i' < row ==> Settled(aug, pivots, row, nb, i', solution)
    {
      i := i - 1;
      var pivotCol := pivots[i];
      var val := aug[i][nb];
      for c := pivotCol + 1 to nb
        invariant val == Xor(aug[i][nb], DotFrom(aug[i], solution, pivotCol + 1, c))
      {
        val := Xor(val, Mul(aug[i][c], solution[c]));
      }
      assert pivotCol in pivots;
      SettleStep(aug, pivots, row, nb, i + 1, solution, solution[pivotCol := val]);
      solution := solution[pivotCol := val];
    }
    SettledSatisfies(aug, pivots, row, nb, solution);
  }

  /** A solution of the reduced system is determined by its free values. */
  lemma FreePartDetermines(aug: seq<seq<Bit>>, pivots: seq<nat>, row: nat, nb: nat, x: seq<Bit>, y: seq<Bit>)
    requires Echelon(aug, pivots, row, nb, nb) && |x| == nb && |y| == nb
    requires Satisfies(aug, x, nb) && Satisfies(aug, y, nb)
    requires FreePart(x, FreeColumns(nb, pivots)) == FreePart(y, FreeColumns(nb, pivots))
    ensures x == y
  {
    var free := FreeColumns(nb, pivots);
    forall c | 0 <= c < nb && c !in pivots
      ensures x[c] == y[c]
    {
      assert c in free;
      var k :| 0 <= k < |free| && free[k] == c;
      assert FreePart(x, free)[k] == FreePart(y, free)[k];
    }
    forall i | 0 <= i < row
      ensures x[pivots[i]] == y[pivots[i]]
    {
      PivotRowValue(aug, pivots, row, nb, i, x);
      PivotRowValue(aug, pivots, row, nb, i, y);
      forall c | pivots[i] + 1 <= c < nb
        ensures Mul(aug[i][c], x[c]) == Mul(aug[i][c], y[c])
      {
        if c in pivots {
          var j :| 0 <= j < |pivots| && pivots[j] == c;
        }
      }
      DotFromAgree(aug[i], x, aug[i], y, pivots[i] + 1, nb);
    }
    forall c | 0 <= c < nb
      ensures x[c] == y[c]
    {
      if c in pivots {
        var j :| 0 <= j < |pivots| && pivots[j] == c;
      }
    }
  }

  /** `product([0, 1], repeat=k)`, in its order: the first value changes slowest. */
  function AllBits(k: nat): (all: seq<seq<Bit>>)
    ensures |all| > 0 && forall i :: 0 <= i < |all| ==> |all[i]| == k
  {
    if k == 0 then [[]] else Prefixed(0, AllBits(k - 1)) + Prefixed(1, AllBits(k - 1))
  }

  /** Each of `tails` with `b` in front. */
  function Prefixed(b: Bit, tails: seq<seq<Bit>>): (r: seq<seq<Bit>>)
    ensures |r| == |tails|
  {
    seq(|tails|, i requires 0 <= i < |tails| => [b] + tails[i])
  }

  /** `[b] + t` is among the prefixed tails when `t` is among the tails. */
  lemma PrefixedHas(b: Bit, tails: seq<seq<Bit>>, t: seq<Bit>)
    requires t in tails
    ensures [b] + t in Prefixed(b, tails)
  {
    var i :| 0 <= i < |tails| && tails[i] == t;
    assert Prefixed(b, tails)[i] == [b] + t;
  }

  /** Every choice of `k` free values is enumerated. */
  lemma {:induction false} AllBitsComplete(k: nat, f: seq<Bit>)
    requires |f| == k
    ensures f in AllBits(k)
  {
    if k > 0 {
      AllBitsComplete(k - 1, f[1..]);
      PrefixedHas(f[0], AllBits(k - 1), f[1..]);
      assert f == [f[0]] + f[1..];
    }
  }

  /** The systems built and reduced from a machine have its solutions. */
  lemma ReducedSolutions(target: seq<Bit>, buttons: seq<seq<nat>>, aug0: seq<seq<Bit>>, aug: seq<seq<Bit>>)
    requires |aug0| == |target| && Shaped(aug0, |buttons|) && Shaped(aug, |buttons|)
    requires forall i :: 0 <= i < |target| ==> aug0[i] == MatrixRow(buttons, i) + [target[i]]
    requires SameSolutions(aug0, aug, |buttons|)
    ensures forall x :: IsSolution(target, buttons, x) <==> |x| == |buttons| && Satisfies(aug, x, |buttons|)
  {
    forall x: seq<Bit>
      ensures IsSolution(target, buttons, x) <==> |x| == |buttons| && Satisfies(aug, x, |buttons|)
    {
      if |x| == |buttons| {
        AugmentedSolutions(target, buttons, aug0, x);
      }
    }
  }

  /** The search of `solve_machine` over every choice of free values
      (`min_presses` starts at infinity, written `None` here): the fewest
      presses over all solutions of a consistent reduced system. */
  method FewestReduced(aug: seq<seq<Bit>>, pivots: seq<nat>, row: nat, nb: nat) returns (best: nat)
    requires Echelon(aug, pivots, row, nb, nb) && Consistent(aug, row, nb)
    ensures exists x :: |x| == nb && Satisfies(aug, x, nb) && Weight(x) == best
    ensures forall x :: |x| == nb && Satisfies(aug, x, nb) ==> Weight(x) >= best
  {
    var free := FreeColumns(nb, pivots);
    var assignments := AllBits(|free|);
    var minPresses: Option<nat> := None;
    ghost var cheapest: seq<Bit> := [];
    for idx := 0 to |assignments|
      invariant minPresses.None? <==> idx == 0
      invariant minPresses.Some? ==> |cheapest| == nb && Satisfies(aug, cheapest, nb) && Weight(cheapest) == minPresses.value
      invariant Undercut(aug, nb, free, assignments[..idx], minPresses)
    {
      minPresses, cheapest := TryAssignment(aug, pivots, row, nb, free, assignments, idx, minPresses, cheapest);
    }
    best := minPresses.value;
    assert assignments[..|assignments|] == assignments;
    AllTried(aug, nb, free, assignments, best);
  }

  /** Every solution whose free values are among `tried` presses at least
      `best` buttons. */
  ghost predicate Undercut(aug: seq<seq<Bit>>, nb: nat, free: seq<nat>, tried: seq<seq<Bit>>, best: Option<nat>)
    requires Shaped(aug, nb) && forall k :: 0 <= k < |free| ==> free[k] < nb
  {
    forall x: seq<Bit> :: |x| == nb && Satisfies(aug, x, nb) && FreePart(x, free) in tried ==> best.Some? && Weight(x) >= best.value
  }

  /** One pass of the search loop: back-substitute one choice of free
      values and keep the lighter solution. */
  method TryAssignment(aug: seq<seq<Bit>>, pivots: seq<nat>, row: nat, nb: nat, free: seq<nat>, assignments: seq<seq<Bit>>,
                       idx: nat, minPresses: Option<nat>, ghost cheapest: seq<Bit>)
    returns (next: Option<nat>, ghost lightest: seq<Bit>)
    requires Echelon(aug, pivots, row, nb, nb) && Consistent(aug, row, nb)
    requires free == FreeColumns(nb, pivots) && idx < |assignments| && |assignments[idx]| == |free|
    requires minPresses.Some? ==> |cheapest| == nb && Satisfies(aug, cheapest, nb) && Weight(cheapest) == minPresses.value
    requires Undercut(aug, nb, free, assignments[..idx], minPresses)
    ensures next.Some? && |lightest| == nb && Satisfies(aug, lightest, nb) && Weight(lightest) == next.value
    ensures Undercut(aug, nb, free, assignments[..idx + 1], next)
  {
    var solution := BackSubstitute(aug, pivots, row, nb, free, assignments[idx]);
    var total := Weight(solution);
    next, lightest := minPresses, cheapest;
    if minPresses.None? || total < minPresses.value {
      next, lightest := Some(total), solution;
    }
    forall x: seq<Bit> | |x| == nb && Satisfies(aug, x, nb) && FreePart(x, free) in assignments[..idx + 1]
      ensures Weight(x) >= next.value
    {
      if FreePart(x, free) == assignments[idx] {
        FreePartDetermines(aug, pivots, row, nb, x, solution);
      } else {
        assert FreePart(x, free) in assignments[..idx];
      }
    }
  }

  /** Every vector's free values are among all the choices tried. */
  lemma AllTried(aug: seq<seq<Bit>>, nb: nat, free: seq<nat>, assignments: seq<seq<Bit>>, best: nat)
    requires Shaped(aug, nb) && forall k :: 0 <= k < |free| ==> free[k] < nb
    requires assignments == AllBits(|free|) && Undercut(aug, nb, free, assignments, Some(best))
    ensures forall x :: |x| == nb && Satisfies(aug, x, nb) ==> Weight(x) >= best
  {
    forall x: seq<Bit> | |x| == nb && Satisfies(aug, x, nb)
      ensures Weight(x) >= best
    {
      AllBitsComplete(|free|, FreePart(x, free));
      assert FreePart(x, free) in assignments;
    }
  }

  /** The answer read off the reduced system is the machine's answer. */
  lemma ReducedAnswer(target: seq<Bit>, buttons: seq<seq<nat>>, aug0: seq<seq<Bit>>, aug: seq<seq<Bit>>, r: Option<nat>)
    requires |aug0| == |target| && Shaped(aug0, |buttons|) && Shaped(aug, |buttons|)
    requires forall i :: 0 <= i < |target| ==> aug0[i] == MatrixRow(buttons, i) + [target[i]]
    requires SameSolutions(aug0, aug, |buttons|)
    requires r.None? ==> forall x: seq<Bit> :: |x| == |buttons| ==> !Satisfies(aug, x, |buttons|)
    requires r.Some? ==> exists x :: |x| == |buttons| && Satisfies(aug, x, |buttons|) && Weight(x) == r.value
    requires r.Some? ==> forall x :: |x| == |buttons| && Satisfies(aug, x, |buttons|) ==> Weight(x) >= r.value
    ensures r == Fewest(target, buttons)
  {
    ReducedSolutions(target, buttons, aug0, aug);
    if r.Some? {
      var x :| |x| == |buttons| && Satisfies(aug, x, |buttons|) && Weight(x) == r.value;
      assert IsSolution(target, buttons, x);
      FewestUnique(target, buttons, r.value, Fewest(target, buttons).value);
    }
  }

  /** `solve_machine`: build `[A | target]`, eliminate, report `None` on an
      equation `0 == 1`, otherwise back-substitute every choice of free
      values and keep the fewest presses. The answer is exactly the fewest
      presses over all solutions, or `None` when there is none. */
  method SolveMachine(target: seq<Bit>, buttons: seq<seq<nat>>) returns (presses: Option<nat>)
    ensures presses == Fewest(target, buttons)
  {
    var nButtons := |buttons|;
    var aug0 := BuildAugmented(target, buttons);
    var aug, pivots, row := Eliminate(aug0, nButtons);
    for r := row to |target|
      invariant forall r' :: row <= r' < r ==> aug[r'][nButtons] == 0
    {
      if aug[r][nButtons] == 1 {
        forall x: seq<Bit> | |x| == nButtons
          ensures !Satisfies(aug, x, nButtons)
        {
          ZeroRowUnsolvable(aug, pivots, row, nButtons, r, x);
        }
        ReducedAnswer(target, buttons, aug0, aug, None);
        return None;
      }
    }
    var best := FewestReduced(aug, pivots, row, nButtons);
    presses := Some(best);
    ReducedAnswer(target, buttons, aug0, aug, presses);
  }

  /** One machine as `parse_input` returns it. */
  datatype Machine = Machine(target: seq<Bit>, buttons: seq<seq<nat>>, joltage: seq<int>)

  /** Part 1's answer over `machines`: each machine's fewest presses,
      machines with no solution adding nothing. */
  ghost function TotalFewest(machines: seq<Machine>): (total: nat)
  {
    if machines == [] then 0
    else
      var m := machines[|machines| - 1];
      TotalFewest(machines[..|machines| - 1])
        + match Fewest(m.target, m.buttons) case None => 0 case Some(p) => p
  }

  /** `solve_part1` after parsing. */
  method SolvePart1(machines: seq<Machine>) returns (total: nat)
    ensures total == TotalFewest(machines)
  {
    total := 0;
    for k := 0 to |machines|
      invariant total == TotalFewest(machines[..k])
    {
      var presses := SolveMachine(machines[k].target, machines[k].buttons);
      if presses.Some? {
        total := total + presses.value;
      }
      assert machines[..k + 1][..k] == machines[..k];
    }
    assert machines[..|machines|] == machines;
  }

  /** Part 1 never exceeds pressing every button of every machine once. */
  lemma {:induction false} TotalFewestBound(machines: seq<Machine>)
    ensures TotalFewest(machines) <= ButtonCount(machines)
  {
    if machines != [] {
      var m := machines[|machines| - 1];
      TotalFewestBound(machines[..|machines| - 1]);
      if Fewest(m.target, m.buttons).Some? {
        FewestAtMostButtons(m.target, m.buttons);
      }
    }
  }

  /** The number of buttons over all machines. */
  function ButtonCount(machines: seq<Machine>): nat
  {
    if machines == [] then 0 else ButtonCount(machines[..|machines| - 1]) + |machines[|machines| - 1].buttons|
  }

  // ---------------------------------------------------------------------
  // Part 2: the exact re-check of the solver's answer
  // ---------------------------------------------------------------------

  /** Counter `i` after the first `m` buttons are pressed `x[j]` times each:
      a button adds its presses once for every time it lists the counter. */
  function CounterTotal(buttons: seq<seq<nat>>, x: seq<int>, i: nat, m: nat): int
    requires m <= |buttons| && m <= |x|
  {
    if m == 0 then 0 else CounterTotal(buttons, x, i, m - 1) + Scaled(x[m - 1], Count(buttons[m - 1], i))
  }

  /** `p` presses counted `c` times. */
  function Scaled(p: int, c: nat): int
  {
    p * c
  }

  lemma ScaledStep(p: int, c: nat)
    ensures Scaled(p, c + 1) == Scaled(p, c) + p
  {
  }

  /** `achieved` after the inner loop adds `p` presses of button `btn`. */
  function AddPresses(acc: seq<int>, btn: seq<nat>, p: int): (r: seq<int>)
    ensures |r| == |acc|
  {
    if btn == [] then acc
    else
      var a := AddPresses(acc, btn[..|btn| - 1], p);
      var idx := btn[|btn| - 1];
      if idx < |acc| then a[idx := a[idx] + p] else a
  }

  /** The button adds its presses to a counter once per listing. */
  lemma {:induction false} AddPressesAt(acc: seq<int>, btn: seq<nat>, p: int, i: nat)
    requires i < |acc|
    ensures AddPresses(acc, btn, p)[i] == acc[i] + Scaled(p, Count(btn, i))
  {
    if btn != [] {
      var init := btn[..|btn| - 1];
      AddPressesAt(acc, init, p, i);
      ScaledStep(p, Count(init, i));
    }
  }

  /** `achieved` after the first `m` buttons of the re-check loop. */
  function Achieved(buttons: seq<seq<nat>>, x: seq<int>, n: nat, m: nat): (r: seq<int>)
    requires m <= |buttons| && m <= |x|
    ensures |r| == n
  {
    if m == 0 then seq(n, _ => 0) else AddPresses(Achieved(buttons, x, n, m - 1), buttons[m - 1], x[m - 1])
  }

  /** Each counter below `n` holds its total; counters a button lists at or
      beyond `n` are ignored. */
  lemma {:induction false} AchievedCounts(buttons: seq<seq<nat>>, x: seq<int>, n: nat, m: nat, i: nat)
    requires m <= |buttons| && m <= |x| && i < n
    ensures Achieved(buttons, x, n, m)[i] == CounterTotal(buttons, x, i, m)
  {
    if m > 0 {
      AchievedCounts(buttons, x, n, m - 1, i);
      AddPressesAt(Achieved(buttons, x, n, m - 1), buttons[m - 1], x[m - 1], i);
    }
  }

  /** The re-check `achieved == list(joltage) and all(x >= 0 for x in solution)`. */
  ghost predicate Accepted(joltage: seq<int>, buttons: seq<seq<nat>>, x: seq<int>)
    requires |x| == |buttons|
  {
    (forall j :: 0 <= j < |x| ==> x[j] >= 0) && Achieved(buttons, x, |joltage|, |x|) == joltage
  }

  /** `solve_joltage` with the integer program's solver as a parameter:
      `solverResult` is `None` when it fails and otherwise its rounded press
      vector. With no buttons the answer is 0 exactly when every counter is
      0; otherwise a total is returned only when the press vector is
      non-negative and reproduces every counter exactly. */
  method SolveJoltage(joltage: seq<int>, buttons: seq<seq<nat>>, solverResult: Option<seq<int>>) returns (presses: Option<int>)
    requires solverResult.Some? ==> |solverResult.value| == |buttons|
    ensures |buttons| == 0 ==>
      presses == if forall i :: 0 <= i < |joltage| ==> joltage[i] == 0 then Some(0) else None
    ensures |buttons| > 0 ==>
      (presses.Some? <==> solverResult.Some? && Accepted(joltage, buttons, solverResult.value))
    ensures |buttons| > 0 && presses.Some? ==> presses.value == Sum(solverResult.value) >= 0
  {
    var nCounters, nButtons := |joltage|, |buttons|;
    if nButtons == 0 {
      return if forall i :: 0 <= i < nCounters ==> joltage[i] == 0 then Some(0) else None;
    }
    if solverResult.Some? {
      var solution := solverResult.value;
      var achieved: seq<int> := seq(nCounters, _ => 0);
      for j := 0 to |solution|
        invariant achieved == Achieved(buttons, solution, nCounters, j)
      {
        var p, btn := solution[j], buttons[j];
        ghost var before := achieved;
        for k := 0 to |btn|
          invariant achieved == AddPresses(before, btn[..k], p)
        {
          var counterIdx := btn[k];
          if counterIdx < nCounters {
            achieved := achieved[counterIdx := achieved[counterIdx] + p];
          }
          assert btn[..k + 1][..k] == btn[..k];
        }
        assert btn[..|btn|] == btn;
      }
      if achieved == joltage && forall j :: 0 <= j < |solution| ==> solution[j] >= 0 {
        SumNonNegative(solution);
        return Some(Sum(solution));
      }
    }
    return None;
  }

  /** `A[i][j] * x[j]` summed over the first `m` buttons, with the solver's
      0/1 matrix `A[i][j] = 1` when button `j` lists counter `i`. */
  function MatrixTotal(buttons: seq<seq<nat>>, x: seq<int>, i: nat, m: nat): int
    requires m <= |buttons| && m <= |x|
  {
    if m == 0 then 0 else MatrixTotal(buttons, x, i, m - 1) + (if i in buttons[m - 1] then x[m - 1] else 0)
  }

  /** A button that lists no counter twice. */
  predicate NoRepeats(btn: seq<nat>)
  {
    forall a, b :: 0 <= a < b < |btn| ==> btn[a] != btn[b]
  }

  lemma {:induction false} CountNoRepeats(btn: seq<nat>, i: nat)
    requires NoRepeats(btn)
    ensures Count(btn, i) == if i in btn then 1 else 0
  {
    if btn != [] {
      var init := btn[..|btn| - 1];
      CountNoRepeats(init, i);
      assert btn == init + [btn[|btn| - 1]];
      if btn[|btn| - 1] == i {
        assert i !in init;
      }
    }
  }

  /** When no button lists a counter twice, the re-check counts exactly
      what the solver's constraint `A x == joltage` counts. */
  lemma {:induction false} RecheckMatchesConstraint(buttons: seq<seq<nat>>, x: seq<int>, i: nat, m: nat)
    requires m <= |buttons| && m <= |x|
    requires forall j :: 0 <= j < |buttons| ==> NoRepeats(buttons[j])
    ensures CounterTotal(buttons, x, i, m) == MatrixTotal(buttons, x, i, m)
  {
    if m > 0 {
      RecheckMatchesConstraint(buttons, x, i, m - 1);
      CountNoRepeats(buttons[m - 1], i);
    }
  }

  /** An accepted press vector, for buttons that list no counter twice,
      satisfies every row of the solver's constraint `A x == joltage`. */
  lemma AcceptedSolvesConstraint(joltage: seq<int>, buttons: seq<seq<nat>>, x: seq<int>, i: nat)
    requires |x| == |buttons| && Accepted(joltage, buttons, x) && i < |joltage|
    requires forall j :: 0 <= j < |buttons| ==> NoRepeats(buttons[j])
    ensures MatrixTotal(buttons, x, i, |x|) == joltage[i]
  {
    AchievedCounts(buttons, x, |joltage|, |x|, i);
    RecheckMatchesConstraint(buttons, x, i, |x|);
  }
}
