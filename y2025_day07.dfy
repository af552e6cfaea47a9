/** 2025 day 7: tachyon beams fall from the start cell 'S' one row at a
    time. A beam whose next cell is a splitter '^' is replaced by two beams
    to its left and right on the splitter's row; any other character lets
    it continue straight down. Part 1 counts the splitters that are hit;
    part 2 counts timelines by dynamic programming from the bottom row up. */
module Beams {
  import opened Common

  type Grid = seq<string>
  type Pos = (int, int)

  // ---------------------------------------------------------------------
  // The start cell

  /** No cell of the grid is 'S'. */
  predicate NoStart(grid: Grid) {
    forall r, c :: 0 <= r < |grid| && 0 <= c < |grid[r]| ==> grid[r][c] != 'S'
  }

  /** `s` is the first 'S' in row-major order. */
  predicate IsFirstStart(grid: Grid, s: Pos) {
    0 <= s.0 < |grid| && 0 <= s.1 < |grid[s.0]| && grid[s.0][s.1] == 'S'
    && forall r, c :: 0 <= r < |grid| && 0 <= c < |grid[r]| && (r < s.0 || (r == s.0 && c < s.1)) ==> grid[r][c] != 'S'
  }

  /** `find_start` */
  method FindStart(grid: Grid) returns (start: Option<Pos>)
    ensures start.None? ==> NoStart(grid)
    ensures start.Some? ==> IsFirstStart(grid, start.value)
  {
    for row := 0 to |grid|
      invariant forall r, c :: 0 <= r < row && 0 <= c < |grid[r]| ==> grid[r][c] != 'S'
    {
      for col := 0 to |grid[row]|
        invariant forall c :: 0 <= c < col ==> grid[row][c] != 'S'
      {
        if grid[row][col] == 'S' {
          return Some((row, col));
        }
      }
    }
    return None;
  }

  /** There is at most one first 'S', and none when the grid has no 'S'. */
  lemma FirstStartUnique(grid: Grid, s: Pos, t: Pos)
    requires IsFirstStart(grid, s)
    ensures IsFirstStart(grid, t) ==> s == t
    ensures !NoStart(grid)
  {
    if IsFirstStart(grid, t) {
      assert grid[s.0][s.1] == 'S' && grid[t.0][t.1] == 'S';
    }
  }

  // ---------------------------------------------------------------------
  // One step of a beam

  /** `len(grid[0]) if rows > 0 else 0`: the width split beams must stay within. */
  function Cols(grid: Grid): int {
    if |grid| > 0 then |grid[0]| else 0
  }

  /** The beam at `(r, c)` hits a splitter on the next row. */
  predicate HitsSplitter(grid: Grid, s: Pos) {
    SplitterBelow(grid, s.0, s.1)
  }

  /** The cell below `(r, c)` is a splitter. */
  predicate SplitterBelow(grid: Grid, r: int, c: int) {
    0 <= r + 1 < |grid| && 0 <= c < |grid[r + 1]| && grid[r + 1][c] == '^'
  }

  /** The columns, on row `r + 1`, of the beams a beam at `(r, c)` turns
      into: none when it leaves the bottom or the next row is too short;
      `c - 1` and `c + 1` (those within `0..cols-1`) at a splitter; `c`
      otherwise. */
  function ChildCols(grid: Grid, r: int, c: int): set<int> {
    var next := r + 1;
    if !(0 <= next < |grid|) || !(0 <= c < |grid[next]|) then {}
    else if grid[next][c] == '^' then
      (if c - 1 >= 0 then {c - 1} else {}) + (if c + 1 < Cols(grid) then {c + 1} else {})
    else {c}
  }

  function Children(grid: Grid, s: Pos): set<Pos> {
    set d | d in ChildCols(grid, s.0, s.1) :: (s.0 + 1, d)
  }

  /** The columns reached on row `r` by beams from `start`. */
  ghost function ReachRow(grid: Grid, start: Pos, r: int): set<int>
    requires 0 <= start.0
    decreases r
  {
    if r <= start.0 then (if r == start.0 then {start.1} else {})
    else Spread(grid, r - 1, ReachRow(grid, start, r - 1))
  }

  /** The columns on row `r + 1` of the beams that the beams at columns `cs`
      of row `r` turn into. */
  function Spread(grid: Grid, r: int, cs: set<int>): (ds: set<int>)
    ensures forall d :: d in ds <==> exists c :: c in cs && d in ChildCols(grid, r, c)
  {
    var near := (set c | c in cs :: c - 1) + cs + (set c | c in cs :: c + 1);
    set d | d in near && exists c :: c in cs && d in ChildCols(grid, r, c)
  }

  /** Every beam position reached from `start`. */
  ghost function Reached(grid: Grid, start: Pos): set<Pos>
    requires 0 <= start.0
  {
    set r, c | start.0 <= r < |grid| && c in ReachRow(grid, start, r) :: (r, c)
  }

  /** Splitter cells hit by the beams at `beams`. */
  ghost function Splitters(grid: Grid, beams: set<Pos>): set<Pos> {
    set s | s in beams && HitsSplitter(grid, s) :: (s.0 + 1, s.1)
  }

  /** Every '^' cell of the grid. */
  ghost function Carets(grid: Grid): set<Pos> {
    set r, c | 0 <= r < |grid| && 0 <= c < |grid[r]| && grid[r][c] == '^' :: (r, c)
  }

  lemma ReachedClosed(grid: Grid, start: Pos, s: Pos)
    requires 0 <= start.0 && s in Reached(grid, start)
    ensures Children(grid, s) <= Reached(grid, start)
  {
    forall t | t in Children(grid, s) ensures t in Reached(grid, start) {
      assert t.1 in ChildCols(grid, s.0, s.1);
      assert t.1 in ReachRow(grid, start, s.0 + 1);
    }
  }

  /** Any set of positions that holds the start and is closed under beam
      steps holds every reached position. */
  lemma ReachedLeast(grid: Grid, start: Pos, v: set<Pos>)
    requires 0 <= start.0 < |grid| && start in v
    requires ClosedUpTo(grid, v, [])
    ensures Reached(grid, start) <= v
  {
    assert forall s, t :: s in v && t in Children(grid, s) ==> t in v;
    forall s | s in Reached(grid, start) ensures s in v {
      ReachRowIn(grid, start, v, s.0);
    }
  }

  lemma {:induction false} ReachRowIn(grid: Grid, start: Pos, v: set<Pos>, r: int)
    requires 0 <= start.0 && start in v
    requires forall s, t :: s in v && t in Children(grid, s) ==> t in v
    ensures forall c :: c in ReachRow(grid, start, r) ==> (r, c) in v
    decreases r
  {
    if r > start.0 {
      var q := r - 1;
      ReachRowIn(grid, start, v, q);
      ReachInStep(grid, start, v, r);
    }
  }

  /** Every column of `cs` is in `v` on row `r`. */
  predicate RowIn(v: set<Pos>, r: int, cs: set<int>) {
    forall c :: c in cs ==> (r, c) in v
  }

  lemma ReachInStep(grid: Grid, start: Pos, v: set<Pos>, r: int)
    requires 0 <= start.0 < r
    requires forall s, t :: s in v && t in Children(grid, s) ==> t in v
    requires RowIn(v, r - 1, ReachRow(grid, start, r - 1))
    ensures RowIn(v, r, ReachRow(grid, start, r))
  {
    SpreadIn(grid, v, r - 1, r, ReachRow(grid, start, r - 1));
  }

  /** A set of positions closed under Children holds the spread of each of
      its rows. */
  lemma SpreadIn(grid: Grid, v: set<Pos>, q: int, r: int, cs: set<int>)
    requires r == q + 1
    requires forall s, t :: s in v && t in Children(grid, s) ==> t in v
    requires RowIn(v, q, cs)
    ensures RowIn(v, r, Spread(grid, q, cs))
  {
    forall d | d in Spread(grid, q, cs) ensures (r, d) in v {
      var c :| c in cs && d in ChildCols(grid, q, c);
      assert (r, d) in Children(grid, (q, c));
    }
  }

  /** Reached positions lie on the grid's rows, at non-negative columns. */
  lemma {:induction false} ReachRowNonNegative(grid: Grid, start: Pos, r: int)
    requires 0 <= start.0 && 0 <= start.1
    ensures forall c :: c in ReachRow(grid, start, r) ==> 0 <= c
    decreases r
  {
    if r > start.0 {
      ReachRowNonNegative(grid, start, r - 1);
    }
  }

  // ---------------------------------------------------------------------
  // Part 1

  /** The positions a beam at `s` turns into, case by case. */
  lemma ChildrenCases(grid: Grid, s: Pos)
    ensures !(0 <= s.0 + 1 < |grid|) || !(0 <= s.1 < |grid[s.0 + 1]|) ==> Children(grid, s) == {}
    ensures HitsSplitter(grid, s) ==> (Children(grid, s)
      == (if s.1 - 1 >= 0 then {(s.0 + 1, s.1 - 1)} else {}) + (if s.1 + 1 < Cols(grid) then {(s.0 + 1, s.1 + 1)} else {}))
    ensures 0 <= s.0 + 1 < |grid| && 0 <= s.1 < |grid[s.0 + 1]| && !HitsSplitter(grid, s) ==> Children(grid, s) == {(s.0 + 1, s.1)}
  {
    if 0 <= s.0 + 1 < |grid| && 0 <= s.1 < |grid[s.0 + 1]| && !HitsSplitter(grid, s) {
      assert ChildCols(grid, s.0, s.1) == {s.1};
      assert (s.0 + 1, s.1) in Children(grid, s);
    } else if HitsSplitter(grid, s) {
      if s.1 - 1 >= 0 {
        assert s.1 - 1 in ChildCols(grid, s.0, s.1);
        assert (s.0 + 1, s.1 - 1) in Children(grid, s);
      }
      if s.1 + 1 < Cols(grid) {
        assert s.1 + 1 in ChildCols(grid, s.0, s.1);
        assert (s.0 + 1, s.1 + 1) in Children(grid, s);
      }
    }
  }

  /** The beam at `s` hits a splitter that is already active. */
  predicate Blocked(grid: Grid, s: Pos, activated: set<Pos>) {
    HitsSplitter(grid, s) && (s.0 + 1, s.1) in activated
  }

  /** The body of the beam loop of `simulate_beams` for a beam position not
      visited before: the splitter it hits, if any, is activated; when that
      splitter was not active yet it is counted and the beams it sends left
      and right are queued; a beam that hits no splitter goes straight down. */
  method Advance(grid: Grid, state: Pos, beams: seq<Pos>, activated: set<Pos>, splitCount: nat)
    returns (beams': seq<Pos>, activated': set<Pos>, splitCount': nat)
    requires 0 <= state.1
    ensures forall t :: t in beams' <==> t in beams || (!Blocked(grid, state, activated) && t in Children(grid, state))
    ensures activated' == if HitsSplitter(grid, state) then activated + {(state.0 + 1, state.1)} else activated
    ensures splitCount' == if HitsSplitter(grid, state) && (state.0 + 1, state.1) !in activated
      then splitCount + 1 else splitCount
  {
    var (row, col) := state;
    assert state == (row, col);
    ChildrenCases(grid, state);
    beams', activated', splitCount' := beams, activated, splitCount;
    var rows := |grid|;
    var cols := if rows > 0 then |grid[0]| else 0;
    var nextRow := row + 1;
    if nextRow >= rows || nextRow < 0 {
      return;
    }
    if col < |grid[nextRow]| {
      var nextChar := grid[nextRow][col];
      if nextChar == '^' {
        var splitterPos := (nextRow, col);
        if splitterPos !in activated' {
          activated' := activated' + {splitterPos};
          splitCount' := splitCount' + 1;
          var leftCol := col - 1;
          var rightCol := col + 1;
          if leftCol >= 0 {
            beams' := beams' + [(nextRow, leftCol)];
          }
          if rightCol < cols {
            beams' := beams' + [(nextRow, rightCol)];
          }
        }
      } else {
        beams' := beams' + [(nextRow, col)];
      }
    }
  }

  /** Every child of a visited position is visited or queued. */
  ghost predicate ClosedUpTo(grid: Grid, visited: set<Pos>, beams: seq<Pos>) {
    forall s, t :: s in visited && t in Children(grid, s) ==> t in visited || t in beams
  }

  lemma ClosedSkip(grid: Grid, visited: set<Pos>, beams: seq<Pos>)
    requires beams != [] && beams[0] in visited && ClosedUpTo(grid, visited, beams)
    ensures ClosedUpTo(grid, visited, beams[1..])
  {
    forall s, t | s in visited && t in Children(grid, s) ensures t in visited || t in beams[1..] {
      if t !in visited {
        var i :| 0 <= i < |beams| && beams[i] == t;
        assert beams[1..][i - 1] == t;
      }
    }
  }

  lemma ClosedVisit(grid: Grid, visited: set<Pos>, beams: seq<Pos>, beams': seq<Pos>)
    requires beams != [] && ClosedUpTo(grid, visited, beams)
    requires forall t :: t in beams' <==> t in beams[1..] || t in Children(grid, beams[0])
    ensures ClosedUpTo(grid, visited + {beams[0]}, beams')
  {
    forall s, t | s in visited + {beams[0]} && t in Children(grid, s)
      ensures t in visited + {beams[0]} || t in beams'
    {
      if s in visited && t !in visited && t != beams[0] {
        var i :| 0 <= i < |beams| && beams[i] == t;
        assert beams[1..][i - 1] == t;
      }
    }
  }

  /** `simulate_beams`: the number of distinct splitters the beams hit. */
  method SimulateBeams(grid: Grid) returns (splitCount: nat)
    ensures NoStart(grid) ==> splitCount == 0
    ensures forall s :: IsFirstStart(grid, s) ==> splitCount == |Splitters(grid, Reached(grid, s))|
  {
    var startPos := FindStart(grid);
    if startPos.None? {
      return 0;
    }
    var start := startPos.value;
    forall s | IsFirstStart(grid, s) ensures s == start {
      FirstStartUnique(grid, start, s);
    }
    ghost var reached := Reached(grid, start);
    assert start.1 in ReachRow(grid, start, start.0);
    assert start in reached;

    var beams := [start];
    splitCount := 0;
    var activated: set<Pos> := {};
    var visited: set<Pos> := {};
    while beams != []
      invariant visited <= reached
      invariant forall t :: t in beams ==> t in reached
      invariant start in visited || start in beams
      invariant ClosedUpTo(grid, visited, beams)
      invariant activated == Splitters(grid, visited)
      invariant splitCount == |activated|
      decreases |reached| - |visited|, |beams|
    {
      var state := beams[0];
      SubsetCardinality(visited, reached);
      if state in visited {
        ClosedSkip(grid, visited, beams);
        beams := beams[1..];
        continue;
      }
      BeamStep(grid, start, visited, activated, state);
      ghost var queued, seen := beams, visited;
      beams, activated, splitCount := Advance(grid, state, beams[1..], activated, splitCount);
      visited := visited + {state};
      ClosedVisit(grid, seen, queued, beams);
    }
    ReachedLeast(grid, start, visited);
    assert visited == reached;
  }

  /** Visiting a new beam position: its children are reached, the splitter
      it hits (if any) has not been counted before, and counting it adds one. */
  lemma BeamStep(grid: Grid, start: Pos, visited: set<Pos>, activated: set<Pos>, state: Pos)
    requires 0 <= start.0 && 0 <= start.1 && state in Reached(grid, start) && state !in visited
    requires activated == Splitters(grid, visited)
    ensures Children(grid, state) <= Reached(grid, start)
    ensures Splitters(grid, visited + {state})
      == if HitsSplitter(grid, state) then activated + {(state.0 + 1, state.1)} else activated
    ensures !Blocked(grid, state, activated)
    ensures |visited + {state}| == |visited| + 1
    ensures 0 <= state.1
  {
    ReachedClosed(grid, start, state);
    ReachRowNonNegative(grid, start, state.0);
  }

  /** Each splitter is counted at most once, so the count is at most the
      number of '^' cells. */
  lemma SplitCountBound(grid: Grid, start: Pos)
    requires 0 <= start.0
    ensures |Splitters(grid, Reached(grid, start))| <= |Carets(grid)|
  {
    var hit := Splitters(grid, Reached(grid, start));
    forall p | p in hit ensures p in Carets(grid) {
      var s :| s in Reached(grid, start) && HitsSplitter(grid, s) && p == (s.0 + 1, s.1);
    }
    SubsetCardinality(hit, Carets(grid));
  }

  // ---------------------------------------------------------------------
  // Part 2: reachable cells, then timelines counted bottom-up

  /** `reachable.get(r, set())`: the columns recorded for row `r`. */
  function Get(reachable: map<int, set<int>>, r: int): set<int> {
    if r in reachable then reachable[r] else {}
  }

  /** The three guarded blocks of the breadth-first search that record a
      cell on `row` and queue it when it is new. */
  method Mark(row: int, col: int, reachable: map<int, set<int>>, queue: seq<Pos>)
    returns (reachable': map<int, set<int>>, queue': seq<Pos>)
    ensures forall r :: Get(reachable', r) == if r == row then Get(reachable, r) + {col} else Get(reachable, r)
    ensures queue' == if col in Get(reachable, row) then queue else queue + [(row, col)]
  {
    reachable', queue' := reachable, queue;
    if row !in reachable' {
      reachable' := reachable'[row := {}];
    }
    if col !in reachable'[row] {
      reachable' := reachable'[row := reachable'[row] + {col}];
      queue' := queue' + [(row, col)];
    }
  }

  /** The cell `s` is recorded in `reachable`. */
  predicate Marked(reachable: map<int, set<int>>, s: Pos) {
    s.1 in Get(reachable, s.0)
  }

  /** One pass of the search loop of `simulate_quantum_beams` for the cell
      `state` taken off the queue: each cell a beam there moves to is
      recorded, and queued when it was not recorded before. */
  method Explore(grid: Grid, state: Pos, reachable: map<int, set<int>>, queue: seq<Pos>)
    returns (reachable': map<int, set<int>>, queue': seq<Pos>)
    requires 0 <= state.1
    ensures forall t :: Marked(reachable', t) <==> Marked(reachable, t) || t in Children(grid, state)
    ensures forall t :: t in queue' <==> t in queue || (t in Children(grid, state) && !Marked(reachable, t))
    ensures (forall t :: t in Children(grid, state) ==> Marked(reachable, t)) ==> queue' == queue
  {
    var (row, col) := state;
    assert state == (row, col);
    ChildrenCases(grid, state);
    reachable', queue' := reachable, queue;
    var rows := |grid|;
    var cols := if rows > 0 then |grid[0]| else 0;
    var nextRow := row + 1;
    if nextRow >= rows || nextRow < 0 {
      return;
    }
    if col < |grid[nextRow]| {
      var nextChar := grid[nextRow][col];
      if nextChar == '^' {
        var leftCol := col - 1;
        if leftCol >= 0 {
          reachable', queue' := Mark(nextRow, leftCol, reachable', queue');
        }
        var rightCol := col + 1;
        if rightCol < cols {
          reachable', queue' := Mark(nextRow, rightCol, reachable', queue');
        }
      } else {
        reachable', queue' := Mark(nextRow, col, reachable', queue');
      }
    }
  }

  /** Every child of a recorded cell is recorded, or the cell is still queued. */
  ghost predicate ClosedOrQueued(grid: Grid, seen: set<Pos>, queue: seq<Pos>) {
    forall s, t :: s in seen && t in Children(grid, s) ==> t in seen || s in queue
  }

  /** The search loop of `simulate_quantum_beams`: the columns recorded for
      each row are exactly the columns beams reach on that row. */
  method ReachableCells(grid: Grid, start: Pos) returns (reachable: map<int, set<int>>)
    requires 0 <= start.0 < |grid| && 0 <= start.1
    ensures forall r, c :: c in Get(reachable, r) <==> (r, c) in Reached(grid, start)
  {
    ghost var reached := Reached(grid, start);
    assert start.1 in ReachRow(grid, start, start.0);
    var queue := [start];
    reachable := map[start.0 := {start.1}];
    ghost var seen: set<Pos> := {start};
    while queue != []
      invariant forall t :: t in seen <==> Marked(reachable, t)
      invariant seen <= reached
      invariant start in seen
      invariant forall t :: t in queue ==> t in seen
      invariant ClosedOrQueued(grid, seen, queue)
      decreases |reached| - |seen|, |queue|
    {
      var state := queue[0];
      ReachedClosed(grid, start, state);
      ReachRowNonNegative(grid, start, state.0);
      ghost var queued, before := queue, seen;
      reachable, queue := Explore(grid, state, reachable, queue[1..]);
      seen := seen + Children(grid, state);
      Grows(before, Children(grid, state), reached);
      ClosedStep(grid, before, queued, seen, queue);
    }
    ClosedDone(grid, seen);
    ReachedLeast(grid, start, seen);
    forall r, c ensures c in Get(reachable, r) <==> (r, c) in reached {
      assert Marked(reachable, (r, c)) <==> (r, c) in seen;
    }
  }

  lemma ClosedDone(grid: Grid, seen: set<Pos>)
    requires ClosedOrQueued(grid, seen, [])
    ensures ClosedUpTo(grid, seen, [])
  {
  }

  lemma ClosedStep(grid: Grid, seen: set<Pos>, queue: seq<Pos>, seen': set<Pos>, queue': seq<Pos>)
    requires queue != [] && ClosedOrQueued(grid, seen, queue)
    requires seen' == seen + Children(grid, queue[0])
    requires forall t :: t in queue[1..] ==> t in queue'
    requires forall t :: t in Children(grid, queue[0]) && t !in seen ==> t in queue'
    ensures ClosedOrQueued(grid, seen', queue')
  {
    forall s, t | s in seen' && t in Children(grid, s) ensures t in seen' || s in queue' {
      if s in seen && s != queue[0] && t !in seen {
        var i :| 0 <= i < |queue| && queue[i] == s;
        assert queue[1..][i - 1] == s;
      }
    }
  }

  /** Adding new cells to the recorded ones brings them closer to all the
      reached cells. */
  lemma Grows(seen: set<Pos>, added: set<Pos>, reached: set<Pos>)
    requires seen <= reached && added <= reached
    ensures seen + added <= reached && |seen + added| <= |reached|
    ensures seen + added != seen ==> |seen| < |seen + added|
  {
    SubsetCardinality(seen + added, reached);
    if seen + added != seen {
      var t :| t in added && t !in seen;
      SubsetCardinality(seen + {t}, seen + added);
    }
  }

  /** The number of timelines from a beam at `(r, c)`: one once the beam
      leaves the bottom row; none when the next row is too short; the
      timelines of the left and right beams (those within `0..cols-1`) at a
      splitter; those of the cell below otherwise. */
  function Timelines(grid: Grid, r: int, c: int): nat
    requires 0 <= r
    decreases |grid| - r
  {
    if r + 1 >= |grid| then 1
    else if !(0 <= c < |grid[r + 1]|) then 0
    else if grid[r + 1][c] == '^' then
      (if c - 1 >= 0 then Timelines(grid, r + 1, c - 1) else 0)
      + (if c + 1 < Cols(grid) then Timelines(grid, r + 1, c + 1) else 0)
    else Timelines(grid, r + 1, c)
  }

  /** The columns beams reach on row `r`, within the grid's rows. */
  ghost function Columns(grid: Grid, start: Pos, r: int): set<int>
    requires 0 <= start.0
  {
    if start.0 <= r < |grid| then ReachRow(grid, start, r) else {}
  }

  /** What the search records is `Columns`, row by row. */
  lemma ColumnsRecorded(grid: Grid, start: Pos, reachable: map<int, set<int>>)
    requires 0 <= start.0
    requires forall r, c :: c in Get(reachable, r) <==> (r, c) in Reached(grid, start)
    ensures forall r :: Get(reachable, r) == Columns(grid, start, r)
  {
    forall r ensures Get(reachable, r) == Columns(grid, start, r) {
      forall c ensures c in Get(reachable, r) <==> c in Columns(grid, start, r) {
        assert (r, c) in Reached(grid, start) <==> c in Columns(grid, start, r);
      }
    }
  }

  /** A beam moves at most one column, never to the right past the first
      row's width, and a beam at or past that width has at most one child. */
  lemma ChildColsShape(grid: Grid, r: int, c: int)
    ensures forall d :: d in ChildCols(grid, r, c) ==> d == c - 1 || d == c || d == c + 1 < Cols(grid)
    ensures Cols(grid) <= c ==> forall d, e :: d in ChildCols(grid, r, c) && e in ChildCols(grid, r, c) ==> d == e
  {
  }

  /** At most one of the columns `cs` lies at or past the first row's width,
      and when one does it is the only column. */
  ghost predicate WideAloneIn(grid: Grid, cs: set<int>) {
    forall c, d :: c in cs && Cols(grid) <= c && d in cs ==> c == d
  }

  lemma WideStep(grid: Grid, r: int, cs: set<int>)
    requires WideAloneIn(grid, cs)
    ensures WideAloneIn(grid, Spread(grid, r, cs))
  {
    forall c, d | c in Spread(grid, r, cs) && Cols(grid) <= c && d in Spread(grid, r, cs) ensures c == d {
      var c' :| c' in cs && c in ChildCols(grid, r, c');
      var d' :| d' in cs && d in ChildCols(grid, r, d');
      ChildColsShape(grid, r, c');
      ChildColsShape(grid, r, d');
    }
  }

  /** A reached column at or past the first row's width is the only
      reached column on its row: such a beam only ever comes from the start
      cell by going straight down or splitting to the left. */
  lemma {:induction false} WideAlone(grid: Grid, start: Pos, r: int)
    requires 0 <= start.0
    ensures WideAloneIn(grid, ReachRow(grid, start, r))
    decreases r
  {
    if r > start.0 {
      var q := r - 1;
      WideAlone(grid, start, q);
      WideReachStep(grid, start, r);
    }
  }

  lemma WideReachStep(grid: Grid, start: Pos, r: int)
    requires 0 <= start.0 < r && WideAloneIn(grid, ReachRow(grid, start, r - 1))
    ensures WideAloneIn(grid, ReachRow(grid, start, r))
  {
    WideStep(grid, r - 1, ReachRow(grid, start, r - 1));
  }

  /** The cells the dynamic program looks up below a reached beam are
      reached exactly when the search sent a beam there: to the left and
      right of a splitter within `0..cols-1`, straight down otherwise. */
  lemma StepTargets(grid: Grid, start: Pos, r: int, c: int)
    requires 0 <= start.0 && 0 <= start.1 && c in Columns(grid, start, r)
    requires 0 <= r + 1 < |grid| && 0 <= c < |grid[r + 1]|
    ensures grid[r + 1][c] == '^' ==> (c - 1 in Columns(grid, start, r + 1) <==> c - 1 >= 0)
    ensures grid[r + 1][c] == '^' ==> (c + 1 in Columns(grid, start, r + 1) <==> c + 1 < Cols(grid))
    ensures grid[r + 1][c] != '^' ==> c in Columns(grid, start, r + 1)
  {
    assert c in ReachRow(grid, start, r);
    ChildrenBelow(grid, start, r, c);
    if grid[r + 1][c] == '^' {
      NoWideRight(grid, start, r, c);
      ReachRowNonNegative(grid, start, r + 1);
      assert c - 1 >= 0 ==> c - 1 in ChildCols(grid, r, c);
      assert c + 1 < Cols(grid) ==> c + 1 in ChildCols(grid, r, c);
    } else {
      assert c in ChildCols(grid, r, c);
    }
  }

  lemma ChildrenBelow(grid: Grid, start: Pos, r: int, c: int)
    requires 0 <= start.0 <= r && r + 1 < |grid| && c in ReachRow(grid, start, r)
    ensures ChildCols(grid, r, c) <= Columns(grid, start, r + 1)
  {
    ReachRowNext(grid, start, r);
  }

  lemma ReachRowNext(grid: Grid, start: Pos, r: int)
    requires 0 <= start.0 <= r && r + 1 < |grid|
    ensures Columns(grid, start, r + 1) == ReachRow(grid, start, r + 1) == Spread(grid, r, ReachRow(grid, start, r))
  {
  }

  /** The cell right of a splitter is reached only within `0..cols-1`. */
  lemma NoWideRight(grid: Grid, start: Pos, r: int, c: int)
    requires 0 <= start.0 <= r && r + 1 < |grid| && c in ReachRow(grid, start, r) && SplitterBelow(grid, r, c)
    ensures c + 1 in Columns(grid, start, r + 1) ==> c + 1 < Cols(grid)
  {
    if c + 1 in Columns(grid, start, r + 1) {
      ReachRowNext(grid, start, r);
      var c' :| c' in ReachRow(grid, start, r) && c + 1 in ChildCols(grid, r, c');
      ChildColsShape(grid, r, c');
      WideAlone(grid, start, r);
    }
  }

  /** `Timelines` one case at a time. */
  lemma TimelinesStep(grid: Grid, r: int, c: int)
    requires 0 <= r
    ensures r + 1 >= |grid| ==> Timelines(grid, r, c) == 1
    ensures r + 1 < |grid| && !(0 <= c < |grid[r + 1]|) ==> Timelines(grid, r, c) == 0
    ensures SplitterBelow(grid, r, c) ==> (Timelines(grid, r, c)
      == (if c - 1 >= 0 then Timelines(grid, r + 1, c - 1) else 0)
      + (if c + 1 < Cols(grid) then Timelines(grid, r + 1, c + 1) else 0))
    ensures r + 1 < |grid| && 0 <= c < |grid[r + 1]| && grid[r + 1][c] != '^' ==> Timelines(grid, r, c) == Timelines(grid, r + 1, c)
  {
  }

  /** Every reached cell on row `r` has its number of timelines in `dp`. */
  ghost predicate RowSolved(grid: Grid, start: Pos, dp: map<Pos, nat>, r: int)
    requires 0 <= start.0
  {
    forall c :: c in Columns(grid, start, r) ==> (r, c) in dp && dp[(r, c)] == Timelines(grid, r, c)
  }

  lemma SolvedUpdate(grid: Grid, start: Pos, dp: map<Pos, nat>, r: int, p: Pos, v: nat)
    requires 0 <= start.0 && RowSolved(grid, start, dp, r) && p.0 != r
    ensures RowSolved(grid, start, dp[p := v], r)
  {
  }

  /** The cells on row `r` at the columns `cs` have their timelines in `dp`. */
  ghost predicate Filled(grid: Grid, dp: map<Pos, nat>, r: int, cs: set<int>)
    requires 0 <= r
  {
    forall c :: c in cs ==> (r, c) in dp && dp[(r, c)] == Timelines(grid, r, c)
  }

  /** `dp.get(p, 0)` */
  function Lookup(dp: map<Pos, nat>, p: Pos): nat {
    if p in dp then dp[p] else 0
  }

  /** The body of the inner loop of the dynamic program of
      `simulate_quantum_beams`: the timelines from one reached cell, from
      the counts already known for the row below. */
  method CellTimelines(grid: Grid, ghost start: Pos, reachable: map<int, set<int>>, dp: map<Pos, nat>, row: int, col: int)
    returns (total: nat)
    requires 0 <= start.0 && 0 <= start.1 && col in Columns(grid, start, row)
    requires Get(reachable, row + 1) == Columns(grid, start, row + 1)
    requires RowSolved(grid, start, dp, row + 1)
    ensures total == Timelines(grid, row, col)
  {
    ReachRowNonNegative(grid, start, row);
    TimelinesStep(grid, row, col);
    var nextRow := row + 1;
    if nextRow >= |grid| {
      return 1;
    }
    total := 0;
    if col < |grid[nextRow]| {
      StepTargets(grid, start, row, col);
      var nextChar := grid[nextRow][col];
      if nextChar == '^' {
        total := SplitTimelines(grid, start, reachable, dp, row, col);
      } else {
        assert col in Columns(grid, start, nextRow);
        if nextRow in reachable && col in reachable[nextRow] {
          total := total + Lookup(dp, (nextRow, col));
        }
      }
    }
  }

  /** The splitter branch of `CellTimelines`: the timelines of the cells
      left and right of the splitter, each looked up when it was reached. */
  method SplitTimelines(grid: Grid, ghost start: Pos, reachable: map<int, set<int>>, dp: map<Pos, nat>, row: int, col: int)
    returns (total: nat)
    requires 0 <= start.0 <= row && 0 <= col && SplitterBelow(grid, row, col)
    requires Get(reachable, row + 1) == Columns(grid, start, row + 1)
    requires RowSolved(grid, start, dp, row + 1)
    requires col - 1 in Columns(grid, start, row + 1) <==> col - 1 >= 0
    requires col + 1 in Columns(grid, start, row + 1) <==> col + 1 < Cols(grid)
    ensures total == Timelines(grid, row, col)
  {
    TimelinesStep(grid, row, col);
    var nextRow := row + 1;
    var leftCol := col - 1;
    var rightCol := col + 1;
    ghost var below := Columns(grid, start, nextRow);
    ghost var left := if leftCol >= 0 then Timelines(grid, nextRow, leftCol) else 0;
    ghost var right := if rightCol < Cols(grid) then Timelines(grid, nextRow, rightCol) else 0;
    total := 0;
    if nextRow in reachable {
      if leftCol in reachable[nextRow] {
        assert leftCol in below;
        total := total + Lookup(dp, (nextRow, leftCol));
      }
      assert total == left;
      if rightCol in reachable[nextRow] {
        assert rightCol in below;
        total := total + Lookup(dp, (nextRow, rightCol));
      }
      assert total == left + right;
    } else {
      assert below == {};
    }
  }

  /** The dynamic program of `simulate_quantum_beams`, from the bottom row
      up: every reached cell gets its number of timelines. */
  method CountTimelines(grid: Grid, ghost start: Pos, reachable: map<int, set<int>>) returns (dp: map<Pos, nat>)
    requires 0 <= start.0 && 0 <= start.1
    requires forall r :: Get(reachable, r) == Columns(grid, start, r)
    ensures forall r :: 0 <= r ==> RowSolved(grid, start, dp, r)
  {
    dp := map[];
    for row := |grid| downto 0
      invariant forall r :: row <= r ==> RowSolved(grid, start, dp, r)
    {
      if row !in reachable {
        assert Get(reachable, row) == {};
        continue;
      }
      dp := FillRow(grid, start, reachable, dp, row);
    }
  }

  /** One row of the dynamic program: every reached cell of `row` gets its
      timelines, from the rows below, which are already solved. */
  method FillRow(grid: Grid, ghost start: Pos, reachable: map<int, set<int>>, dp: map<Pos, nat>, row: int)
    returns (filled: map<Pos, nat>)
    requires 0 <= start.0 && 0 <= start.1 && 0 <= row && row in reachable
    requires forall r :: Get(reachable, r) == Columns(grid, start, r)
    requires forall r :: row < r ==> RowSolved(grid, start, dp, r)
    ensures forall r :: row <= r ==> RowSolved(grid, start, filled, r)
  {
    filled := dp;
    var todo := reachable[row];
    while todo != {}
      invariant todo <= reachable[row]
      invariant forall r :: row < r ==> RowSolved(grid, start, filled, r)
      invariant Filled(grid, filled, row, reachable[row] - todo)
      decreases |todo|
    {
      NonEmpty(todo);
      var col :| col in todo;
      assert Get(reachable, row + 1) == Columns(grid, start, row + 1);
      var total := CellTimelines(grid, start, reachable, filled, row, col);
      ghost var before, pending := filled, todo;
      filled := filled[(row, col) := total];
      forall r | row < r ensures RowSolved(grid, start, filled, r) {
        SolvedUpdate(grid, start, before, r, (row, col), total);
      }
      todo := todo - {col};
      assert reachable[row] - todo == (reachable[row] - pending) + {col};
    }
    assert reachable[row] - todo == Columns(grid, start, row);
  }

  /** `simulate_quantum_beams`: the number of timelines from the start cell. */
  method SimulateQuantumBeams(grid: Grid) returns (timelines: nat)
    ensures NoStart(grid) ==> timelines == 0
    ensures forall s :: IsFirstStart(grid, s) ==> timelines == Timelines(grid, s.0, s.1)
  {
    var startPos := FindStart(grid);
    if startPos.None? {
      return 0;
    }
    var start := startPos.value;
    forall s | IsFirstStart(grid, s) ensures s == start {
      FirstStartUnique(grid, start, s);
    }
    var reachable := ReachableCells(grid, start);
    ColumnsRecorded(grid, start, reachable);
    var dp := CountTimelines(grid, start, reachable);
    assert start.1 in Columns(grid, start, start.0);
    assert RowSolved(grid, start, dp, start.0);
    timelines := Lookup(dp, start);
  }

  // ---------------------------------------------------------------------
  // What part 2 counts: distinct paths to the bottom

  /** `p` lists the columns a beam from `(r, c)` occupies on each row below
      it until it leaves the bottom row, each a move a beam can make. */
  ghost predicate IsTimeline(grid: Grid, r: int, c: int, p: seq<int>)
    decreases |p|
  {
    if r + 1 >= |grid| then p == []
    else p != [] && p[0] in ChildCols(grid, r, c) && IsTimeline(grid, r + 1, p[0], p[1..])
  }

  /** Every path of `paths` with `x` put in front. */
  ghost function Prepend(x: int, paths: set<seq<int>>): set<seq<int>> {
    set p | p in paths :: [x] + p
  }

  lemma PrependMeaning(x: int, paths: set<seq<int>>, p: seq<int>)
    ensures p in Prepend(x, paths) <==> p != [] && p[0] == x && p[1..] in paths
  {
    if p != [] && p[0] == x && p[1..] in paths {
      assert p == [x] + p[1..];
    }
    if p in Prepend(x, paths) {
      var q :| q in paths && p == [x] + q;
      assert p[1..] == q;
    }
  }

  lemma {:induction false} PrependCount(x: int, paths: set<seq<int>>)
    ensures |Prepend(x, paths)| == |paths|
    decreases |paths|
  {
    if paths != {} {
      var q :| q in paths;
      var rest := paths - {q};
      PrependCount(x, rest);
      assert Prepend(x, paths) == Prepend(x, rest) + {[x] + q};
      PrependMeaning(x, rest, [x] + q);
      assert ([x] + q)[1..] == q;
    }
  }

  /** Paths that start with different columns are different paths. */
  lemma TwoHeadsCount(x: int, y: int, xs: set<seq<int>>, ys: set<seq<int>>)
    requires x != y
    ensures |Prepend(x, xs) + Prepend(y, ys)| == |xs| + |ys|
  {
    PrependCount(x, xs);
    PrependCount(y, ys);
    forall p | p in Prepend(x, xs) ensures p !in Prepend(y, ys) {
      PrependMeaning(x, xs, p);
      PrependMeaning(y, ys, p);
    }
    DisjointUnionCount(Prepend(x, xs), Prepend(y, ys));
  }

  /** The timelines from `(r, c)`, each as its path of columns. */
  ghost function Paths(grid: Grid, r: int, c: int): set<seq<int>>
    requires 0 <= r
    decreases |grid| - r
  {
    if r + 1 >= |grid| then {[]}
    else if !(0 <= c < |grid[r + 1]|) then {}
    else if grid[r + 1][c] == '^' then
      (if c - 1 >= 0 then Prepend(c - 1, Paths(grid, r + 1, c - 1)) else {})
      + (if c + 1 < Cols(grid) then Prepend(c + 1, Paths(grid, r + 1, c + 1)) else {})
    else Prepend(c, Paths(grid, r + 1, c))
  }

  /** `Paths` holds exactly the paths a beam from `(r, c)` can take. */
  lemma {:induction false} PathsMeaning(grid: Grid, r: int, c: int, p: seq<int>)
    requires 0 <= r
    ensures p in Paths(grid, r, c) <==> IsTimeline(grid, r, c, p)
    decreases |grid| - r
  {
    if r + 1 < |grid| && 0 <= c < |grid[r + 1]| && p != [] {
      PathsMeaning(grid, r + 1, p[0], p[1..]);
      if grid[r + 1][c] == '^' {
        PrependMeaning(c - 1, Paths(grid, r + 1, c - 1), p);
        PrependMeaning(c + 1, Paths(grid, r + 1, c + 1), p);
      } else {
        PrependMeaning(c, Paths(grid, r + 1, c), p);
      }
    }
  }

  /** The dynamic program's count is the number of distinct paths. */
  lemma {:induction false} TimelinesCountPaths(grid: Grid, r: int, c: int)
    requires 0 <= r
    ensures |Paths(grid, r, c)| == Timelines(grid, r, c)
    decreases |grid| - r
  {
    if r + 1 < |grid| && 0 <= c < |grid[r + 1]| {
      if grid[r + 1][c] == '^' {
        if c - 1 >= 0 {
          TimelinesCountPaths(grid, r + 1, c - 1);
        }
        if c + 1 < Cols(grid) {
          TimelinesCountPaths(grid, r + 1, c + 1);
        }
        SplitPathsCount(grid, r, c);
      } else {
        TimelinesCountPaths(grid, r + 1, c);
        StraightPathsCount(grid, r, c);
      }
    }
  }

  /** The step of `TimelinesCountPaths` where the beam goes straight down. */
  lemma StraightPathsCount(grid: Grid, r: int, c: int)
    requires 0 <= r && r + 1 < |grid| && 0 <= c < |grid[r + 1]| && grid[r + 1][c] != '^'
    requires |Paths(grid, r + 1, c)| == Timelines(grid, r + 1, c)
    ensures |Paths(grid, r, c)| == Timelines(grid, r, c)
  {
    PrependCount(c, Paths(grid, r + 1, c));
    TimelinesStep(grid, r, c);
  }

  /** The step of `TimelinesCountPaths` at a splitter. */
  lemma SplitPathsCount(grid: Grid, r: int, c: int)
    requires 0 <= r && SplitterBelow(grid, r, c)
    requires c - 1 >= 0 ==> |Paths(grid, r + 1, c - 1)| == Timelines(grid, r + 1, c - 1)
    requires c + 1 < Cols(grid) ==> |Paths(grid, r + 1, c + 1)| == Timelines(grid, r + 1, c + 1)
    ensures |Paths(grid, r, c)| == Timelines(grid, r, c)
  {
    PathsSplit(grid, r, c);
    var lefts := if c - 1 >= 0 then Paths(grid, r + 1, c - 1) else {};
    var rights := if c + 1 < Cols(grid) then Paths(grid, r + 1, c + 1) else {};
    SplitCount(c, c - 1 >= 0, c + 1 < Cols(grid), lefts, rights, Paths(grid, r, c));
    TimelinesStep(grid, r, c);
  }

  /** The count of the paths through a splitter's left and right cells. */
  lemma SplitCount(c: int, left: bool, right: bool, lefts: set<seq<int>>, rights: set<seq<int>>, paths: set<seq<int>>)
    requires paths == (if left then Prepend(c - 1, lefts) else {}) + (if right then Prepend(c + 1, rights) else {})
    ensures |paths| == (if left then |lefts| else 0) + (if right then |rights| else 0)
  {
    if left && right {
      TwoHeadsCount(c - 1, c + 1, lefts, rights);
    } else if left {
      PrependCount(c - 1, lefts);
      assert paths == Prepend(c - 1, lefts);
    } else if right {
      PrependCount(c + 1, rights);
      assert paths == Prepend(c + 1, rights);
    } else {
      assert paths == {};
    }
  }

  lemma PathsSplit(grid: Grid, r: int, c: int)
    requires 0 <= r && SplitterBelow(grid, r, c)
    ensures Paths(grid, r, c)
      == (if c - 1 >= 0 then Prepend(c - 1, Paths(grid, r + 1, c - 1)) else {})
      + (if c + 1 < Cols(grid) then Prepend(c + 1, Paths(grid, r + 1, c + 1)) else {})
  {
  }

  /** Part 2's answer counts the distinct paths of the beam from the start. */
  lemma QuantumBeamsCountTimelines(grid: Grid, s: Pos)
    requires IsFirstStart(grid, s)
    ensures forall p :: p in Paths(grid, s.0, s.1) <==> IsTimeline(grid, s.0, s.1, p)
    ensures |Paths(grid, s.0, s.1)| == Timelines(grid, s.0, s.1)
  {
    forall p ensures p in Paths(grid, s.0, s.1) <==> IsTimeline(grid, s.0, s.1, p) {
      PathsMeaning(grid, s.0, s.1, p);
    }
    TimelinesCountPaths(grid, s.0, s.1);
  }
}
