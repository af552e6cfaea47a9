/** 2025 day 4: a grid of paper rolls ('@'). A forklift can reach a roll that
    has fewer than four rolls among its eight neighbours. Part 1 counts the
    reachable rolls; part 2 removes every reachable roll at once, round after
    round, until none is reachable, and counts how many were removed. */
module PaperRolls {
  import opened Common

  /** The puzzle lines: the solver reads `len(grid[0])` columns of every row. */
  type Grid = seq<string>

  type Cell = (int, int)

  function Width(grid: Grid): nat {
    if grid == [] then 0 else |grid[0]|
  }

  /** The grids the solver can index: no row shorter than the first (a shorter
      row makes Python raise `IndexError`; characters past the first row's
      width are never read). */
  predicate Indexable(grid: Grid) {
    forall r :: 0 <= r < |grid| ==> |grid[r]| >= Width(grid)
  }

  /** A roll at `(r, c)` inside the `len(grid) x len(grid[0])` area. */
  predicate IsRoll(grid: Grid, r: int, c: int) {
    0 <= r < |grid| && 0 <= c < Width(grid) && c < |grid[r]| && grid[r][c] == '@'
  }

  /** The rolls among the eight cells around `(row, col)`: never the cell itself. */
  ghost function NeighbourRolls(grid: Grid, row: int, col: int): set<Cell> {
    set r, c | row - 1 <= r <= row + 1 && col - 1 <= c <= col + 1 && (r, c) != (row, col)
                 && IsRoll(grid, r, c) :: (r, c)
  }

  /** The part of `NeighbourRolls` the scan has seen before reaching `(r0, c0)`
      in its row-major order. */
  ghost function NeighbourRollsBefore(grid: Grid, row: int, col: int, r0: int, c0: int): set<Cell> {
    set r, c | row - 1 <= r <= row + 1 && col - 1 <= c <= col + 1 && (r, c) != (row, col)
                 && IsRoll(grid, r, c) && (r < r0 || (r == r0 && c < c0)) :: (r, c)
  }

  lemma NeighbourScanSets(grid: Grid, row: int, col: int, r0: int, c0: int)
    ensures (r0, c0) !in NeighbourRollsBefore(grid, row, col, r0, c0)
    ensures NeighbourRollsBefore(grid, row, col, r0, c0 + 1) ==
      if row - 1 <= r0 <= row + 1 && col - 1 <= c0 <= col + 1 && (r0, c0) != (row, col) && IsRoll(grid, r0, c0)
      then NeighbourRollsBefore(grid, row, col, r0, c0) + {(r0, c0)}
      else NeighbourRollsBefore(grid, row, col, r0, c0)
  {
  }

  /** Scanning one more cell of the 3x3 block counts it exactly when it is a
      neighbouring roll. */
  lemma NeighbourScanStep(grid: Grid, row: int, col: int, r0: int, c0: int)
    ensures |NeighbourRollsBefore(grid, row, col, r0, c0 + 1)| ==
      |NeighbourRollsBefore(grid, row, col, r0, c0)| +
      if row - 1 <= r0 <= row + 1 && col - 1 <= c0 <= col + 1 && (r0, c0) != (row, col) && IsRoll(grid, r0, c0)
      then 1 else 0
  {
    NeighbourScanSets(grid, row, col, r0, c0);
  }

  lemma NeighbourScanRow(grid: Grid, row: int, col: int, r0: int)
    ensures NeighbourRollsBefore(grid, row, col, r0, col + 2) == NeighbourRollsBefore(grid, row, col, r0 + 1, col - 1)
  {
  }

  lemma NeighbourScanDone(grid: Grid, row: int, col: int)
    ensures NeighbourRollsBefore(grid, row, col, row + 2, col - 1) == NeighbourRolls(grid, row, col)
  {
  }

  /** `count_adjacent_rolls`: the number of rolls around `(row, col)`, at most 8. */
  method CountAdjacentRolls(grid: Grid, row: int, col: int) returns (count: nat)
    requires grid != [] && Indexable(grid)
    ensures count == |NeighbourRolls(grid, row, col)|
    ensures count <= 8
  {
    count := 0;
    var rows := |grid|;
    var cols := |grid[0]|;
    for dr := -1 to 2
      invariant count == |NeighbourRollsBefore(grid, row, col, row + dr, col - 1)|
      invariant count <= 3 * (dr + 1) - (if dr > 0 then 1 else 0)
    {
      for dc := -1 to 2
        invariant count == |NeighbourRollsBefore(grid, row, col, row + dr, col + dc)|
        invariant count <= 3 * (dr + 1) + (dc + 1) - (if dr > 0 || (dr == 0 && dc > 0) then 1 else 0)
      {
        NeighbourScanStep(grid, row, col, row + dr, col + dc);
        if dr == 0 && dc == 0 {
          continue;
        }
        var nr, nc := row + dr, col + dc;
        if 0 <= nr < rows && 0 <= nc < cols && grid[nr][nc] == '@' {
          count := count + 1;
        }
      }
      NeighbourScanRow(grid, row, col, row + dr);
    }
    NeighbourScanDone(grid, row, col);
  }

  /** Every roll of the grid. */
  ghost function Rolls(grid: Grid): set<Cell> {
    set r, c | 0 <= r < |grid| && 0 <= c < Width(grid) && IsRoll(grid, r, c) :: (r, c)
  }

  /** The rolls a forklift can reach: fewer than four neighbouring rolls. */
  ghost function Accessible(grid: Grid): set<Cell> {
    set r, c | 0 <= r < |grid| && 0 <= c < Width(grid) && IsRoll(grid, r, c)
                 && |NeighbourRolls(grid, r, c)| < 4 :: (r, c)
  }

  /** The reachable rolls that the row-major scan has met before `(r0, c0)`. */
  ghost function AccessibleBefore(grid: Grid, r0: int, c0: int): set<Cell> {
    set r, c | 0 <= r < |grid| && 0 <= c < Width(grid) && IsRoll(grid, r, c)
                 && |NeighbourRolls(grid, r, c)| < 4 && (r < r0 || (r == r0 && c < c0)) :: (r, c)
  }

  /** Whether the scan counts the cell `(r0, c0)`. */
  ghost predicate AccessibleAt(grid: Grid, r0: int, c0: int) {
    0 <= r0 < |grid| && 0 <= c0 < Width(grid) && IsRoll(grid, r0, c0) && |NeighbourRolls(grid, r0, c0)| < 4
  }

  lemma AccessibleScanSets(grid: Grid, r0: int, c0: int)
    ensures (r0, c0) !in AccessibleBefore(grid, r0, c0)
    ensures AccessibleBefore(grid, r0, c0 + 1) ==
      if AccessibleAt(grid, r0, c0) then AccessibleBefore(grid, r0, c0) + {(r0, c0)}
      else AccessibleBefore(grid, r0, c0)
  {
  }

  lemma AccessibleScanStep(grid: Grid, r0: int, c0: int)
    ensures |AccessibleBefore(grid, r0, c0 + 1)| ==
      |AccessibleBefore(grid, r0, c0)| + if AccessibleAt(grid, r0, c0) then 1 else 0
  {
    AccessibleScanSets(grid, r0, c0);
  }

  lemma AccessibleScanRow(grid: Grid, r0: int)
    ensures AccessibleBefore(grid, r0, Width(grid)) == AccessibleBefore(grid, r0 + 1, 0)
  {
  }

  lemma AccessibleScanDone(grid: Grid)
    ensures AccessibleBefore(grid, |grid|, 0) == Accessible(grid)
  {
  }

  /** `solve_part1` on the parsed lines: the number of reachable rolls. */
  method SolvePart1(grid: Grid) returns (accessible: nat)
    requires Indexable(grid)
    ensures accessible == |Accessible(grid)|
  {
    accessible := 0;
    for row := 0 to |grid|
      invariant accessible == |AccessibleBefore(grid, row, 0)|
    {
      for col := 0 to |grid[0]|
        invariant accessible == |AccessibleBefore(grid, row, col)|
      {
        AccessibleScanStep(grid, row, col);
        if grid[row][col] == '@' {
          var adjacent := CountAdjacentRolls(grid, row, col);
          if adjacent < 4 {
            accessible := accessible + 1;
          }
        }
      }
      AccessibleScanRow(grid, row);
    }
    AccessibleScanDone(grid);
  }

  /** `accessible` lists the cells of `s`, each once. */
  ghost predicate Lists(accessible: seq<Cell>, s: set<Cell>) {
    (forall p :: p in accessible <==> p in s) && |accessible| == |s|
  }

  /** The scan of one round of `solve_part2`: every reachable roll, once each. */
  method FindAccessible(grid: Grid) returns (accessible: seq<Cell>)
    requires Indexable(grid)
    ensures forall p :: p in accessible <==> p in Accessible(grid)
    ensures |accessible| == |Accessible(grid)|
  {
    accessible := [];
    for row := 0 to |grid|
      invariant Lists(accessible, AccessibleBefore(grid, row, 0))
    {
      for col := 0 to |grid[0]|
        invariant Lists(accessible, AccessibleBefore(grid, row, col))
      {
        accessible := ScanCell(grid, row, col, accessible);
      }
      AccessibleScanRow(grid, row);
    }
    AccessibleScanDone(grid);
  }

  /** The body of the scan's inner loop: appends the cell when it is a
      reachable roll. */
  method ScanCell(grid: Grid, row: nat, col: nat, accessible: seq<Cell>) returns (next: seq<Cell>)
    requires Indexable(grid) && row < |grid| && col < |grid[0]|
    requires Lists(accessible, AccessibleBefore(grid, row, col))
    ensures Lists(next, AccessibleBefore(grid, row, col + 1))
  {
    AccessibleScanSets(grid, row, col);
    next := accessible;
    if grid[row][col] == '@' {
      var adjacent := CountAdjacentRolls(grid, row, col);
      if adjacent < 4 {
        next := accessible + [(row, col)];
      }
    }
  }

  /** `grid` with every cell of `cells` overwritten by '.'. */
  ghost function Cleared(grid: Grid, cells: set<Cell>): (g: Grid)
    ensures |g| == |grid| && forall r :: 0 <= r < |g| ==> |g[r]| == |grid[r]|
  {
    seq(|grid|, r requires 0 <= r < |grid| =>
      seq(|grid[r]|, c requires 0 <= c < |grid[r]| => if (r, c) in cells then '.' else grid[r][c]))
  }

  /** The removal loop of one round of `solve_part2`. */
  method RemoveRolls(grid: Grid, cells: seq<Cell>, ghost target: set<Cell>) returns (cleared: Grid)
    requires forall i :: 0 <= i < |cells| ==> 0 <= cells[i].0 < |grid| && 0 <= cells[i].1 < |grid[cells[i].0]|
    requires forall p :: p in cells <==> p in target
    ensures cleared == Cleared(grid, target)
  {
    cleared := grid;
    for i := 0 to |cells|
      invariant |cleared| == |grid| && forall r :: 0 <= r < |grid| ==> |cleared[r]| == |grid[r]|
      invariant forall r, c :: 0 <= r < |grid| && 0 <= c < |grid[r]| ==>
        cleared[r][c] == if (r, c) in cells[..i] then '.' else grid[r][c]
    {
      var (row, col) := cells[i];
      cleared := cleared[row := cleared[row][col := '.']];
      assert forall r, c :: 0 <= r < |grid| && 0 <= c < |grid[r]| ==>
        ((r, c) in cells[..i + 1] <==> (r, c) in cells[..i] || (r, c) == (row, col));
    }
    ghost var expected := Cleared(grid, target);
    assert cells[..|cells|] == cells;
    forall r | 0 <= r < |grid| ensures cleared[r] == expected[r] {
    }
  }

  lemma ClearedRolls(grid: Grid, cells: set<Cell>)
    requires Indexable(grid)
    ensures Indexable(Cleared(grid, cells)) && Width(Cleared(grid, cells)) == Width(grid)
    ensures Rolls(Cleared(grid, cells)) == Rolls(grid) - cells
  {
  }

  /** One round removes exactly the reachable rolls: a grid with a reachable
      roll has strictly fewer rolls after the round. */
  lemma RoundRemovesAccessible(grid: Grid)
    requires Indexable(grid)
    ensures Indexable(Cleared(grid, Accessible(grid)))
    ensures |Rolls(Cleared(grid, Accessible(grid)))| == |Rolls(grid)| - |Accessible(grid)|
  {
    var acc := Accessible(grid);
    ClearedRolls(grid, acc);
    assert acc <= Rolls(grid);
    assert Rolls(grid) * acc == acc;
  }

  /** The grid `solve_part2` stops at: rounds repeat while some roll is reachable. */
  ghost function Settle(grid: Grid): (g: Grid)
    requires Indexable(grid)
    ensures Indexable(g)
    decreases |Rolls(grid)|
  {
    if Accessible(grid) == {} then grid
    else
      RoundRemovesAccessible(grid);
      Settle(Cleared(grid, Accessible(grid)))
  }

  lemma SettleStep(grid: Grid)
    requires Indexable(grid) && Accessible(grid) != {}
    ensures Indexable(Cleared(grid, Accessible(grid)))
    ensures Settle(grid) == Settle(Cleared(grid, Accessible(grid)))
    ensures |Rolls(Cleared(grid, Accessible(grid)))| == |Rolls(grid)| - |Accessible(grid)|
  {
    RoundRemovesAccessible(grid);
  }

  /** `solve_part2` on the parsed lines: the number of rolls removed before
      no roll is reachable. */
  method SolvePart2(lines: Grid) returns (totalRemoved: nat)
    requires Indexable(lines)
    ensures totalRemoved == |Rolls(lines)| - |Rolls(Settle(lines))|
  {
    var grid := lines;
    totalRemoved := 0;
    while true
      invariant Indexable(grid) && Settle(grid) == Settle(lines)
      invariant totalRemoved + |Rolls(grid)| == |Rolls(lines)|
      decreases |Rolls(grid)|
    {
      var accessible := FindAccessible(grid);
      if |accessible| == 0 {
        assert Accessible(grid) == {};
        break;
      }
      SettleStep(grid);
      ghost var acc := Accessible(grid);
      assert forall i :: 0 <= i < |accessible| ==> accessible[i] in acc;
      grid := RemoveRolls(grid, accessible, acc);
      totalRemoved := totalRemoved + |accessible|;
    }
  }

  /** When `solve_part2` stops, no roll is reachable. */
  lemma {:induction false} SettledHasNoAccessible(grid: Grid)
    requires Indexable(grid)
    ensures Indexable(Settle(grid)) && Accessible(Settle(grid)) == {}
    decreases |Rolls(grid)|
  {
    if Accessible(grid) != {} {
      RoundRemovesAccessible(grid);
      SettledHasNoAccessible(Cleared(grid, Accessible(grid)));
    }
  }

  /** Removal only turns rolls into '.': the settled grid has the same shape
      and every other cell is unchanged. */
  lemma {:induction false} SettleOnlyRemovesRolls(grid: Grid)
    requires Indexable(grid)
    ensures |Settle(grid)| == |grid|
    ensures forall r :: 0 <= r < |grid| ==> |Settle(grid)[r]| == |grid[r]|
    ensures forall r, c :: 0 <= r < |grid| && 0 <= c < |grid[r]| ==>
      Settle(grid)[r][c] == grid[r][c] || (grid[r][c] == '@' && Settle(grid)[r][c] == '.')
    decreases |Rolls(grid)|
  {
    if Accessible(grid) != {} {
      var next := Cleared(grid, Accessible(grid));
      SettleStep(grid);
      SettleOnlyRemovesRolls(next);
      forall r, c | 0 <= r < |grid| && 0 <= c < |grid[r]|
        ensures Settle(grid)[r][c] == grid[r][c] || (grid[r][c] == '@' && Settle(grid)[r][c] == '.')
      {
        if (r, c) in Accessible(grid) {
          assert next[r][c] == '.';
        }
      }
    }
  }

  /** The rolls left at the end are some of the rolls at the start. */
  lemma {:induction false} SettleKeepsSomeRolls(grid: Grid)
    requires Indexable(grid)
    ensures Rolls(Settle(grid)) <= Rolls(grid)
    decreases |Rolls(grid)|
  {
    if Accessible(grid) != {} {
      var next := Cleared(grid, Accessible(grid));
      SettleStep(grid);
      ClearedRolls(grid, Accessible(grid));
      SettleKeepsSomeRolls(next);
    }
  }

  /** The first round of part 2 removes exactly the rolls part 1 counts, so
      part 2's answer is never below part 1's. */
  lemma PartTwoAtLeastPartOne(grid: Grid)
    requires Indexable(grid)
    ensures |Rolls(grid)| - |Rolls(Settle(grid))| >= |Accessible(grid)|
  {
    if Accessible(grid) != {} {
      var next := Cleared(grid, Accessible(grid));
      SettleStep(grid);
      SettleKeepsSomeRolls(next);
      SubsetCardinality(Rolls(Settle(next)), Rolls(next));
    }
  }
}
