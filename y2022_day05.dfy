/** 2022 day 5: nine stacks of crates drawn as text, then a list of moves
    "move N from A to B".  The CrateMover 9000 moves crates one at a time;
    the CrateMover 9001 moves the top N as one block.  The answer is the top
    crate of each stack, for each crane. */
module SupplyStacks {
  import opened Common

  /** A parsed move: how many crates, and the 0-based source and target
      stacks (a 0 in the text becomes -1, which Python reads as the last
      stack). */
  datatype Step = Step(counter: int, start: int, end: int)

  /** The stacks, each listed bottom first. */
  type Stacks = seq<seq<char>>

  // ---------------------------------------------------------------------
  // crateStart

  /** Rows `x` to 7 exist and reach text column `c`. */
  predicate RowsReadable(data: seq<string>, c: nat, x: nat) {
    (x < 8 ==> |data| >= 8) && forall r :: x <= r < 8 ==> c < |data[r]|
  }

  /** Every text column crateStart reads exists: rows 0 to 7 reach column 33. */
  predicate Readable(data: seq<string>) {
    RowsReadable(data, 33, 0)
  }

  /** The crate drawn at row `x`, text column `c`, if any. */
  function Cell(data: seq<string>, x: nat, c: nat): seq<char>
    requires x < |data| && c < |data[x]|
  {
    if data[x][c] != ' ' then [data[x][c]] else []
  }

  /** The crates of text column `c` in rows 7 down to `x`: bottom first. */
  function BottomUp(data: seq<string>, c: nat, x: nat): seq<char>
    requires x <= 8 && RowsReadable(data, c, x)
    decreases 8 - x
  {
    if x == 8 then [] else BottomUp(data, c, x + 1) + Cell(data, x, c)
  }

  /** A stack holds exactly the characters drawn in its column. */
  lemma {:induction false} BottomUpMembers(data: seq<string>, c: nat, x: nat, ch: char)
    requires x <= 8 && RowsReadable(data, c, x)
    ensures ch in BottomUp(data, c, x) <==> ch != ' ' && exists r :: x <= r < 8 && data[r][c] == ch
    decreases 8 - x
  {
    if x < 8 {
      BottomUpMembers(data, c, x + 1, ch);
      if ch != ' ' && data[x][c] == ch {
        assert ch in Cell(data, x, c);
      }
    }
  }

  /** No crate is drawn in column `c` below row `r`. */
  predicate BlankBelow(data: seq<string>, c: nat, r: nat)
    requires RowsReadable(data, c, r)
  {
    forall r' :: r < r' < 8 ==> data[r'][c] == ' '
  }

  /** The bottom crate is the one drawn lowest: no crate is drawn below it. */
  lemma {:induction false} BottomUpFirst(data: seq<string>, c: nat, x: nat)
    requires x <= 8 && RowsReadable(data, c, x) && BottomUp(data, c, x) != []
    ensures exists r :: x <= r < 8 && BottomUp(data, c, x)[0] == data[r][c] && BlankBelow(data, c, r)
    decreases 8 - x
  {
    if BottomUp(data, c, x + 1) != [] {
      BottomUpFirst(data, c, x + 1);
    } else {
      assert BottomUp(data, c, x)[0] == data[x][c];
      BottomUpBlank(data, c, x + 1);
    }
  }

  lemma {:induction false} BottomUpBlank(data: seq<string>, c: nat, x: nat)
    requires x <= 8 && RowsReadable(data, c, x) && BottomUp(data, c, x) == []
    ensures forall r :: x <= r < 8 ==> data[r][c] == ' '
    decreases 8 - x
  {
    if x < 8 {
      var y := x + 1;
      assert BottomUp(data, c, x) == BottomUp(data, c, y) + Cell(data, x, c);
      BottomUpBlank(data, c, y);
      assert data[x][c] == ' ';
    }
  }

  /** The text column of stack `j`: `indexes[j] - 1` for the `indexes`
      2, 6, ..., 34. */
  function ColumnOf(j: nat): nat {
    4 * j + 1
  }

  /** The first `k` stacks. */
  function Columns(data: seq<string>, k: nat): (r: Stacks)
    requires k <= 9 && (k > 0 ==> RowsReadable(data, ColumnOf(k - 1), 0))
    ensures |r| == k
  {
    if k == 0 then [] else Columns(data, k - 1) + [BottomUp(data, ColumnOf(k - 1), 0)]
  }

  /** Stack `j` holds the crates of text column 4j+1, bottom first. */
  lemma {:induction false} ColumnsMeaning(data: seq<string>, k: nat, j: nat)
    requires k <= 9 && (k > 0 ==> RowsReadable(data, ColumnOf(k - 1), 0)) && j < k
    ensures RowsReadable(data, ColumnOf(j), 0) && Columns(data, k)[j] == BottomUp(data, ColumnOf(j), 0)
  {
    if j < k - 1 {
      ColumnsMeaning(data, k - 1, j);
    }
  }

  /** The stacks crateStart builds, or None for its IndexError. */
  function StartStacks(data: seq<string>): (r: Option<Stacks>)
    ensures r.Some? ==> |r.value| == 9
  {
    if Readable(data) then Some(Columns(data, 9)) else None
  }

  /** The inner loop of crateStart: text column `stringIndex`, rows 7 down
      to 0. */
  method ReadColumn(data: seq<string>, stringIndex: nat) returns (pile: Option<seq<char>>)
    ensures pile.Some? <==> RowsReadable(data, stringIndex, 0)
    ensures pile.Some? ==> pile.value == BottomUp(data, stringIndex, 0)
  {
    var crates := [];
    var x := 8;
    while x > 0
      invariant 0 <= x <= 8
      invariant RowsReadable(data, stringIndex, x)
      invariant crates == BottomUp(data, stringIndex, x)
    {
      var row := x - 1;
      if row >= |data| || stringIndex >= |data[row]| {
        return None;
      }
      if data[row][stringIndex] != ' ' {
        crates := crates + [data[row][stringIndex]];
      }
      x := row;
    }
    return Some(crates);
  }

  /** crateStart: nine stacks, stack `j` read from text column 4j+1. */
  method CrateStart(data: seq<string>) returns (crates: Option<Stacks>)
    ensures crates == StartStacks(data)
  {
    var piles: Stacks := [];
    for stack := 0 to 9
      invariant stack > 0 ==> RowsReadable(data, ColumnOf(stack - 1), 0)
      invariant piles == Columns(data, stack)
    {
      var pile := ReadColumn(data, ColumnOf(stack));
      if pile.None? {
        UnreadableColumn(data, stack);
        return None;
      }
      ColumnsStep(data, stack);
      piles := piles + [pile.value];
    }
    return Some(piles);
  }

  lemma ColumnsStep(data: seq<string>, k: nat)
    requires k < 9 && (k > 0 ==> RowsReadable(data, ColumnOf(k - 1), 0)) && RowsReadable(data, ColumnOf(k), 0)
    ensures RowsReadable(data, ColumnOf(k + 1 - 1), 0)
    ensures Columns(data, k + 1) == Columns(data, k) + [BottomUp(data, ColumnOf(k), 0)]
  {
  }

  /** A column that cannot be read leaves the drawing unreadable. */
  lemma UnreadableColumn(data: seq<string>, k: nat)
    requires k < 9 && !RowsReadable(data, ColumnOf(k), 0)
    ensures StartStacks(data).None?
  {
  }

  // ---------------------------------------------------------------------
  // getActions

  /** One line `move N from A to B` split on single spaces, None for the
      IndexError of a short line or the ValueError of a non-number. */
  function ParseStep(line: string): (r: Option<Step>)
    ensures ' ' !in line ==> r.None?
  {
    SplitWithout(line, ' ');
    var f := Split(line, ' ');
    if |f| < 6 then None
    else
      match (ParseInt(f[1]), ParseInt(f[3]), ParseInt(f[5]))
      case (Some(n), Some(a), Some(b)) => Some(Step(n, a - 1, b - 1))
      case _ => None
  }

  /** How a move is written in the puzzle text. */
  function FormatStep(step: Step): string
    requires step.counter >= 0 && step.start >= -1 && step.end >= -1
  {
    Join(["move", NatToString(step.counter), "from", NatToString(step.start + 1), "to", NatToString(step.end + 1)], ' ')
  }

  lemma NumeralNoSpace(n: nat)
    ensures ' ' !in NatToString(n)
  {
    var s := NatToString(n);
    forall i | 0 <= i < |s| ensures s[i] != ' ' {
      assert IsDigit(s[i]);
    }
  }

  /** Reading a written move gives back the move. */
  lemma ParseFormatStep(step: Step)
    requires step.counter >= 0 && step.start >= -1 && step.end >= -1
    ensures ParseStep(FormatStep(step)) == Some(step)
  {
    var n: nat, a: nat, b: nat := step.counter, step.start + 1, step.end + 1;
    var parts := ["move", NatToString(n), "from", NatToString(a), "to", NatToString(b)];
    assert FormatStep(step) == Join(parts, ' ');
    assert Split(Join(parts, ' '), ' ') == parts by {
      NumeralNoSpace(n);
      NumeralNoSpace(a);
      NumeralNoSpace(b);
      assert ' ' !in "move" && ' ' !in "from" && ' ' !in "to";
      JoinSplit(parts, ' ');
    }
    ParseNatToString(n);
    ParseNatToString(a);
    ParseNatToString(b);
    assert Step(n, a - 1, b - 1) == step;
  }

  /** The moves of `lines`, or None when one is malformed. */
  function ParseSteps(lines: seq<string>): (r: Option<seq<Step>>)
    ensures r.Some? ==> |r.value| == |lines|
  {
    if lines == [] then Some([])
    else
      match (ParseSteps(lines[..|lines| - 1]), ParseStep(lines[|lines| - 1]))
      case (Some(steps), Some(step)) => Some(steps + [step])
      case _ => None
  }

  lemma {:induction false} ParseStepsMeaning(lines: seq<string>)
    ensures ParseSteps(lines).Some? <==> forall i :: 0 <= i < |lines| ==> ParseStep(lines[i]).Some?
    ensures ParseSteps(lines).Some? ==> forall i :: 0 <= i < |lines| ==> ParseStep(lines[i]) == Some(ParseSteps(lines).value[i])
  {
    if lines != [] {
      var n := |lines| - 1;
      ParseStepsMeaning(lines[..n]);
      assert forall i :: 0 <= i < n ==> lines[..n][i] == lines[i];
    }
  }

  /** getActions: the lines from index 10 on, each read as a move. */
  method GetActions(data: seq<string>) returns (actions: Option<seq<Step>>)
    ensures actions == ParseSteps(SliceFrom(data, 10))
  {
    var lines := SliceFrom(data, 10);
    var found := [];
    for i := 0 to |lines|
      invariant Some(found) == ParseSteps(lines[..i])
    {
      assert lines[..i + 1][..i] == lines[..i];
      var step := ParseStep(lines[i]);
      if step.None? {
        ParseStepsNoneStays(lines, i + 1);
        return None;
      }
      found := found + [step.value];
    }
    assert lines[..|lines|] == lines;
    return Some(found);
  }

  lemma {:induction false} ParseStepsNoneStays(lines: seq<string>, i: nat)
    requires i <= |lines| && ParseSteps(lines[..i]).None?
    ensures ParseSteps(lines).None?
    decreases |lines| - i
  {
    if i < |lines| {
      assert lines[..i + 1][..i] == lines[..i];
      ParseStepsNoneStays(lines, i + 1);
    } else {
      assert lines[..i] == lines;
    }
  }

  // ---------------------------------------------------------------------
  // The cranes

  /** Python's resolution of the index `i` into a list of length `n`:
      negative indices count from the end. */
  function Resolve(i: int, n: nat): (r: Option<nat>)
    ensures r.Some? ==> r.value < n
  {
    if 0 <= i < n then Some(i as nat) else if i < 0 && 0 <= i + n then Some((i + n) as nat) else None
  }

  /** `crates[end].append(crates[start].pop())`. */
  function MoveOne(stacks: Stacks, start: int, end: int): (r: Option<Stacks>)
    ensures r.Some? ==> |r.value| == |stacks|
  {
    match (Resolve(end, |stacks|), Resolve(start, |stacks|))
    case (Some(e), Some(s)) =>
      if stacks[s] == [] then None
      else
        var k := |stacks[s]| - 1;
        var popped := stacks[s := stacks[s][..k]];
        Some(popped[e := popped[e] + [stacks[s][k]]])
    case _ => None
  }

  /** The first `n` single-crate moves of the CrateMover 9000. */
  function Crane9000(stacks: Stacks, start: int, end: int, n: int): (r: Option<Stacks>)
    ensures r.Some? ==> |r.value| == |stacks|
    decreases if n > 0 then n else 0
  {
    if n <= 0 then Some(stacks)
    else
      match Crane9000(stacks, start, end, n - 1)
      case None => None
      case Some(t) => MoveOne(t, start, end)
  }

  /** The CrateMover 9001: `dataToMove = src[startIdx:startIdx + n]` with
      `startIdx = len(src) - n`, then `del src[-n:]`, then the block goes
      onto the target. */
  function Crane9001(stacks: Stacks, step: Step): (r: Option<Stacks>)
    ensures r.Some? ==> |r.value| == |stacks|
  {
    match Resolve(step.start, |stacks|)
    case None => None
    case Some(s) =>
      var src := stacks[s];
      var startIdx := |src| - step.counter;
      var moved := Slice(src, startIdx, startIdx + step.counter);
      var t := stacks[s := DeleteFrom(src, -step.counter)];
      match Resolve(step.end, |t|)
      case None => None
      case Some(e) => Some(t[e := t[e] + moved])
  }

  /** Both cranes' stacks, moved through `steps`; each step moves the 9000
      stacks first, and any IndexError ends the run. */
  function RunBoth(crates: Stacks, crates9001: Stacks, steps: seq<Step>): (r: Option<(Stacks, Stacks)>)
    ensures r.Some? ==> |r.value.0| == |crates| && |r.value.1| == |crates9001|
  {
    if steps == [] then Some((crates, crates9001))
    else
      var step := steps[|steps| - 1];
      match RunBoth(crates, crates9001, steps[..|steps| - 1])
      case None => None
      case Some((a, b)) =>
        match (Crane9000(a, step.start, step.end, step.counter), Crane9001(b, step))
        case (Some(a'), Some(b')) => Some((a', b'))
        case _ => None
  }

  function Reversed<T>(s: seq<T>): (r: seq<T>)
    ensures |r| == |s|
  {
    if s == [] then [] else Reversed(s[1..]) + [s[0]]
  }

  /** The total number of crates. */
  function CrateTotal(stacks: Stacks): nat {
    if stacks == [] then 0 else CrateTotal(stacks[..|stacks| - 1]) + |stacks[|stacks| - 1]|
  }

  lemma {:induction false} CrateTotalUpdate(stacks: Stacks, i: nat, x: seq<char>)
    requires i < |stacks|
    ensures CrateTotal(stacks[i := x]) + |stacks[i]| == CrateTotal(stacks) + |x|
  {
    var n := |stacks| - 1;
    if i < n {
      CrateTotalUpdate(stacks[..n], i, x);
      assert stacks[i := x][..n] == stacks[..n][i := x];
    } else {
      assert stacks[i := x][..n] == stacks[..n];
    }
  }

  /** The top-of-stack message: `item[-1]` of each stack, None for the
      IndexError of an empty stack. */
  function TopsOf(stacks: Stacks): (r: Option<string>)
    ensures r.Some? ==> |r.value| == |stacks|
  {
    if stacks == [] then Some("")
    else
      var last := stacks[|stacks| - 1];
      match TopsOf(stacks[..|stacks| - 1])
      case None => None
      case Some(m) => if last == [] then None else Some(m + [last[|last| - 1]])
  }

  lemma {:induction false} TopsOfMeaning(stacks: Stacks)
    ensures TopsOf(stacks).Some? <==> forall j :: 0 <= j < |stacks| ==> stacks[j] != []
    ensures TopsOf(stacks).Some? ==>
      |TopsOf(stacks).value| == |stacks| &&
      (forall j :: 0 <= j < |stacks| ==> TopsOf(stacks).value[j] == stacks[j][|stacks[j]| - 1])
  {
    if stacks != [] {
      var n := |stacks| - 1;
      TopsOfMeaning(stacks[..n]);
      assert forall j :: 0 <= j < n ==> stacks[..n][j] == stacks[j];
    }
  }

  // ---------------------------------------------------------------------
  // What the cranes do

  /** Once the crane has failed it stays failed. */
  lemma {:induction false} Crane9000FailureStays(stacks: Stacks, start: int, end: int, m: int, n: int)
    requires m <= n && Crane9000(stacks, start, end, m).None?
    ensures Crane9000(stacks, start, end, n).None?
    decreases n - m
  {
    if m < n {
      Crane9000FailureStays(stacks, start, end, m, n - 1);
    }
  }

  /** On two different stacks, `n` single moves take the top `n` crates and
      put them onto the target in reverse order. */
  lemma {:induction false} Crane9000Block(stacks: Stacks, start: int, end: int, n: nat)
    requires Resolve(start, |stacks|).Some? && Resolve(end, |stacks|).Some?
    requires Resolve(start, |stacks|) != Resolve(end, |stacks|)
    requires n <= |stacks[Resolve(start, |stacks|).value]|
    ensures var s, e := Resolve(start, |stacks|).value, Resolve(end, |stacks|).value;
      var src, l := stacks[s], |stacks[s]|;
      Crane9000(stacks, start, end, n) == Some(stacks[s := src[..l - n]][e := stacks[e] + Reversed(src[l - n..])])
  {
    var s, e := Resolve(start, |stacks|).value, Resolve(end, |stacks|).value;
    var src, l := stacks[s], |stacks[s]|;
    if n == 0 {
      assert src[..l - n] == src && src[l - n..] == [] && Reversed(src[l - n..]) == [];
      assert stacks[e] + Reversed(src[l - n..]) == stacks[e];
      assert stacks[s := src][e := stacks[e]] == stacks;
    } else {
      var m: nat := n - 1;
      Crane9000Block(stacks, start, end, m);
      Crane9000Next(stacks, start, end, m);
      var k := l - n;
      assert l - m == k + 1;
      MoveOneBlock(stacks, start, end, k);
    }
  }

  lemma Crane9000Next(stacks: Stacks, start: int, end: int, m: nat)
    ensures Crane9000(stacks, start, end, m + 1) ==
      match Crane9000(stacks, start, end, m)
      case None => None
      case Some(t) => MoveOne(t, start, end)
  {
  }

  /** One more single move on top of a block of moves takes the next crate. */
  lemma MoveOneBlock(stacks: Stacks, start: int, end: int, k: nat)
    requires Resolve(start, |stacks|).Some? && Resolve(end, |stacks|).Some?
    requires Resolve(start, |stacks|) != Resolve(end, |stacks|)
    requires k < |stacks[Resolve(start, |stacks|).value]|
    ensures var s, e := Resolve(start, |stacks|).value, Resolve(end, |stacks|).value;
      var src := stacks[s];
      MoveOne(stacks[s := src[..k + 1]][e := stacks[e] + Reversed(src[k + 1..])], start, end) ==
        Some(stacks[s := src[..k]][e := stacks[e] + Reversed(src[k..])])
  {
    var s, e := Resolve(start, |stacks|).value, Resolve(end, |stacks|).value;
    var src := stacks[s];
    var t := stacks[s := src[..k + 1]][e := stacks[e] + Reversed(src[k + 1..])];
    assert t[s] == src[..k + 1] && t[s][k] == src[k] && t[s][..k] == src[..k];
    var popped := t[s := src[..k]];
    assert popped[e] == stacks[e] + Reversed(src[k + 1..]);
    assert MoveOne(t, start, end) == Some(popped[e := popped[e] + [src[k]]]);
    assert src[k..][1..] == src[k + 1..];
    assert Reversed(src[k..]) == Reversed(src[k + 1..]) + [src[k]];
    var final := stacks[s := src[..k]][e := stacks[e] + Reversed(src[k..])];
    assert |popped[e := popped[e] + [src[k]]]| == |final|;
    forall j | 0 <= j < |final| ensures popped[e := popped[e] + [src[k]]][j] == final[j] {
      if j != s && j != e {
        assert popped[j] == stacks[j];
      }
    }
    assert popped[e := popped[e] + [src[k]]] == final;
  }

  /** On one stack, each single move puts the crate back where it was. */
  lemma {:induction false} Crane9000SameStack(stacks: Stacks, start: int, end: int, n: int)
    requires Resolve(start, |stacks|).Some? && Resolve(start, |stacks|) == Resolve(end, |stacks|)
    requires stacks[Resolve(start, |stacks|).value] != []
    ensures Crane9000(stacks, start, end, n) == Some(stacks)
    decreases if n > 0 then n else 0
  {
    if n > 0 {
      Crane9000SameStack(stacks, start, end, n - 1);
      var s := Resolve(start, |stacks|).value;
      var k := |stacks[s]| - 1;
      var popped := stacks[s := stacks[s][..k]];
      assert stacks[s][..k] + [stacks[s][k]] == stacks[s];
      assert MoveOne(stacks, start, end) == Some(popped[s := popped[s] + [stacks[s][k]]]);
      assert popped[s := stacks[s]] == stacks;
    }
  }

  /** The CrateMover 9000 raises exactly when the source runs out: a move of
      `n > 0` needs both stacks, and `n` crates on the source unless source
      and target are the same stack, where one crate is enough. */
  lemma Crane9000Succeeds(stacks: Stacks, start: int, end: int, n: int)
    ensures Crane9000(stacks, start, end, n).Some? <==>
      n <= 0 ||
      (Resolve(start, |stacks|).Some? && Resolve(end, |stacks|).Some? &&
       var s := Resolve(start, |stacks|).value;
       if s == Resolve(end, |stacks|).value then stacks[s] != [] else n <= |stacks[s]|)
  {
    if n > 0 {
      if Resolve(start, |stacks|).None? || Resolve(end, |stacks|).None? {
        Crane9000FailureStays(stacks, start, end, 1, n);
      } else {
        var s, e := Resolve(start, |stacks|).value, Resolve(end, |stacks|).value;
        if s == e {
          if stacks[s] != [] {
            Crane9000SameStack(stacks, start, end, n);
          } else {
            Crane9000FailureStays(stacks, start, end, 1, n);
          }
        } else if n <= |stacks[s]| {
          Crane9000Block(stacks, start, end, n);
        } else {
          var l := |stacks[s]|;
          Crane9000Block(stacks, start, end, l);
          Crane9000FailureStays(stacks, start, end, l + 1, n);
        }
      }
    }
  }

  /** With `0 < n` crates on the source, the CrateMover 9001 lifts the top
      `n` and sets them on the target in the same order. */
  lemma Crane9001Block(stacks: Stacks, step: Step)
    requires Resolve(step.start, |stacks|).Some? && Resolve(step.end, |stacks|).Some?
    requires Resolve(step.start, |stacks|) != Resolve(step.end, |stacks|)
    requires 0 < step.counter <= |stacks[Resolve(step.start, |stacks|).value]|
    ensures var s, e := Resolve(step.start, |stacks|).value, Resolve(step.end, |stacks|).value;
      var src, l := stacks[s], |stacks[s]|;
      Crane9001(stacks, step) == Some(stacks[s := src[..l - step.counter]][e := stacks[e] + src[l - step.counter..]])
  {
    var s, e := Resolve(step.start, |stacks|).value, Resolve(step.end, |stacks|).value;
    var src, l, n := stacks[s], |stacks[s]|, step.counter;
    assert Slice(src, l - n, l - n + n) == src[l - n..];
    assert DeleteFrom(src, -n) == src[..l - n];
    assert stacks[s := src[..l - n]][e] == stacks[e];
  }

  /** Each crane keeps the number of crates. */
  lemma Crane9000KeepsTotal(stacks: Stacks, start: int, end: int, n: int)
    requires Crane9000(stacks, start, end, n).Some?
    ensures CrateTotal(Crane9000(stacks, start, end, n).value) == CrateTotal(stacks)
  {
    Crane9000Succeeds(stacks, start, end, n);
    if n > 0 {
      var s, e := Resolve(start, |stacks|).value, Resolve(end, |stacks|).value;
      if s == e {
        Crane9000SameStack(stacks, start, end, n);
      } else {
        var src, l := stacks[s], |stacks[s]|;
        Crane9000Block(stacks, start, end, n);
        CrateTotalUpdate(stacks, s, src[..l - n]);
        CrateTotalUpdate(stacks[s := src[..l - n]], e, stacks[e] + Reversed(src[l - n..]));
      }
    }
  }

  lemma Crane9001KeepsTotal(stacks: Stacks, step: Step)
    requires Resolve(step.start, |stacks|).Some? && Resolve(step.end, |stacks|).Some?
    requires Resolve(step.start, |stacks|) != Resolve(step.end, |stacks|)
    requires 0 < step.counter <= |stacks[Resolve(step.start, |stacks|).value]|
    ensures CrateTotal(Crane9001(stacks, step).value) == CrateTotal(stacks)
  {
    var s, e := Resolve(step.start, |stacks|).value, Resolve(step.end, |stacks|).value;
    var src, l, n := stacks[s], |stacks[s]|, step.counter;
    Crane9001Block(stacks, step);
    CrateTotalUpdate(stacks, s, src[..l - n]);
    CrateTotalUpdate(stacks[s := src[..l - n]], e, stacks[e] + src[l - n..]);
  }

  /** For one crate the two cranes agree. */
  lemma CranesAgreeOnOne(stacks: Stacks, step: Step)
    requires Resolve(step.start, |stacks|).Some? && Resolve(step.end, |stacks|).Some?
    requires Resolve(step.start, |stacks|) != Resolve(step.end, |stacks|)
    requires step.counter == 1 <= |stacks[Resolve(step.start, |stacks|).value]|
    ensures Crane9000(stacks, step.start, step.end, 1) == Crane9001(stacks, step)
  {
    Crane9000One(stacks, step.start, step.end);
    Crane9001One(stacks, step);
  }

  /** What one single-crate move does to two different stacks. */
  lemma Crane9000One(stacks: Stacks, start: int, end: int)
    requires Resolve(start, |stacks|).Some? && Resolve(end, |stacks|).Some?
    requires Resolve(start, |stacks|) != Resolve(end, |stacks|)
    requires 1 <= |stacks[Resolve(start, |stacks|).value]|
    ensures var s, e := Resolve(start, |stacks|).value, Resolve(end, |stacks|).value;
      var src := stacks[s];
      Crane9000(stacks, start, end, 1) == Some(stacks[s := src[..|src| - 1]][e := stacks[e] + [src[|src| - 1]]])
  {
    var s, e := Resolve(start, |stacks|).value, Resolve(end, |stacks|).value;
    var src := stacks[s];
    var k := |src| - 1;
    Crane9000Next(stacks, start, end, 0);
    assert Crane9000(stacks, start, end, 0) == Some(stacks);
    var popped := stacks[s := src[..k]];
    assert popped[e] == stacks[e];
    assert MoveOne(stacks, start, end) == Some(popped[e := popped[e] + [src[k]]]);
  }

  /** What a block move of one crate does to two different stacks. */
  lemma Crane9001One(stacks: Stacks, step: Step)
    requires Resolve(step.start, |stacks|).Some? && Resolve(step.end, |stacks|).Some?
    requires Resolve(step.start, |stacks|) != Resolve(step.end, |stacks|)
    requires step.counter == 1 <= |stacks[Resolve(step.start, |stacks|).value]|
    ensures var s, e := Resolve(step.start, |stacks|).value, Resolve(step.end, |stacks|).value;
      var src := stacks[s];
      Crane9001(stacks, step) == Some(stacks[s := src[..|src| - 1]][e := stacks[e] + [src[|src| - 1]]])
  {
    var s := Resolve(step.start, |stacks|).value;
    var src := stacks[s];
    var l := |src|;
    Crane9001Block(stacks, step);
    assert src[l - 1..] == [src[l - 1]];
  }

  /** "move 0": `del src[-0:]` deletes from index 0, so the CrateMover 9001
      empties the source stack. */
  lemma ZeroMoveEmptiesSource(stacks: Stacks, start: int, end: int)
    requires Resolve(start, |stacks|).Some? && Resolve(end, |stacks|).Some?
    ensures Crane9001(stacks, Step(0, start, end)) == Some(stacks[Resolve(start, |stacks|).value := []])
  {
    var s, e := Resolve(start, |stacks|).value, Resolve(end, |stacks|).value;
    var src := stacks[s];
    assert Slice(src, |src| - 0, |src| - 0 + 0) == src[|src|..|src|] == [];
    assert DeleteFrom(src, -0) == src[..0] == [];
    var t := stacks[s := []];
    assert t[e] + [] == t[e];
    assert t[e := t[e]] == t;
  }

  /** The CrateMover 9001 with a move of no crates changing nothing. */
  function Crane9001Fixed(stacks: Stacks, step: Step): (r: Option<Stacks>)
    ensures r.Some? ==> |r.value| == |stacks|
  {
    if step.counter == 0 then
      match (Resolve(step.start, |stacks|), Resolve(step.end, |stacks|))
      case (Some(_), Some(_)) => Some(stacks)
      case _ => None
    else Crane9001(stacks, step)
  }

  /** The corrected crane moves the top `n` crates in order for every `n`
      from 0 to the source's height, and keeps the number of crates. */
  lemma Crane9001FixedBlock(stacks: Stacks, step: Step)
    requires Resolve(step.start, |stacks|).Some? && Resolve(step.end, |stacks|).Some?
    requires Resolve(step.start, |stacks|) != Resolve(step.end, |stacks|)
    requires 0 <= step.counter <= |stacks[Resolve(step.start, |stacks|).value]|
    ensures var s, e := Resolve(step.start, |stacks|).value, Resolve(step.end, |stacks|).value;
      var src, l := stacks[s], |stacks[s]|;
      Crane9001Fixed(stacks, step) == Some(stacks[s := src[..l - step.counter]][e := stacks[e] + src[l - step.counter..]])
    ensures CrateTotal(Crane9001Fixed(stacks, step).value) == CrateTotal(stacks)
  {
    var s, e := Resolve(step.start, |stacks|).value, Resolve(step.end, |stacks|).value;
    var src, l := stacks[s], |stacks[s]|;
    var n := step.counter;
    if n == 0 {
      var target := stacks[s := src[..l - n]][e := stacks[e] + src[l - n..]];
      assert target == stacks by {
        assert src[..l - n] == src && src[l - n..] == [];
        assert stacks[e] + [] == stacks[e] && stacks[s := src] == stacks;
      }
      assert Crane9001Fixed(stacks, step) == Some(stacks);
    } else {
      assert Crane9001Fixed(stacks, step) == Crane9001(stacks, step);
      Crane9001Block(stacks, step);
      Crane9001KeepsTotal(stacks, step);
    }
  }

  // ---------------------------------------------------------------------
  // The stacks as main mutates them

  class Cargo {
    var stacks: Stacks

    constructor(crates: Stacks)
      ensures stacks == crates
    {
      stacks := crates;
    }

    /** The CrateMover 9000 loop: `range(0, n)` pops and appends one crate at
        a time; false for an IndexError. */
    method Move9000(step: Step) returns (ok: bool)
      modifies this
      ensures ok <==> Crane9000(old(stacks), step.start, step.end, step.counter).Some?
      ensures ok ==> Some(stacks) == Crane9000(old(stacks), step.start, step.end, step.counter)
    {
      var count := 0;
      while count < step.counter
        invariant 0 <= count <= (if step.counter > 0 then step.counter else 0)
        invariant Some(stacks) == Crane9000(old(stacks), step.start, step.end, count)
      {
        var e, s := Resolve(step.end, |stacks|), Resolve(step.start, |stacks|);
        if e.None? || s.None? || stacks[s.value] == [] {
          Crane9000FailureStays(old(stacks), step.start, step.end, count + 1, step.counter);
          return false;
        }
        var k := |stacks[s.value]| - 1;
        var crate := stacks[s.value][k];
        stacks := stacks[s.value := stacks[s.value][..k]];
        stacks := stacks[e.value := stacks[e.value] + [crate]];
        count := count + 1;
      }
      return true;
    }

    /** The CrateMover 9001 block move; false for an IndexError. */
    method Move9001(step: Step) returns (ok: bool)
      modifies this
      ensures ok <==> Crane9001(old(stacks), step).Some?
      ensures ok ==> Some(stacks) == Crane9001(old(stacks), step)
    {
      var s := Resolve(step.start, |stacks|);
      if s.None? {
        return false;
      }
      var src := stacks[s.value];
      var startIdx := |src| - step.counter;
      var dataToMove := Slice(src, startIdx, startIdx + step.counter);
      stacks := stacks[s.value := DeleteFrom(src, -step.counter)];
      var e := Resolve(step.end, |stacks|);
      if e.None? {
        return false;
      }
      stacks := stacks[e.value := stacks[e.value] + dataToMove];
      return true;
    }

    /** The message loop: the top crate of each stack in stack order. */
    method TopMessage() returns (message: Option<string>)
      ensures message == TopsOf(stacks)
    {
      var m := "";
      for i := 0 to |stacks|
        invariant Some(m) == TopsOf(stacks[..i])
      {
        assert stacks[..i + 1][..i] == stacks[..i];
        var item := stacks[i];
        if item == [] {
          assert TopsOf(stacks[..i + 1]).None?;
          TopsOfNoneStays(stacks, i + 1);
          return None;
        }
        m := m + [item[|item| - 1]];
      }
      assert stacks[..|stacks|] == stacks;
      return Some(m);
    }
  }

  lemma {:induction false} TopsOfNoneStays(stacks: Stacks, i: nat)
    requires i <= |stacks| && TopsOf(stacks[..i]).None?
    ensures TopsOf(stacks).None?
    decreases |stacks| - i
  {
    if i < |stacks| {
      assert stacks[..i + 1][..i] == stacks[..i];
      TopsOfNoneStays(stacks, i + 1);
    } else {
      assert stacks[..i] == stacks;
    }
  }

  /** What main prints: both messages, or nothing when any step raises. */
  function Messages(data: seq<string>): (r: Option<(string, string)>)
    ensures r.Some? ==> |r.value.0| == 9 && |r.value.1| == 9
  {
    match StartStacks(data)
    case None => None
    case Some(crates) =>
      match ParseSteps(SliceFrom(data, 10))
      case None => None
      case Some(steps) =>
        match RunBoth(crates, crates, steps)
        case None => None
        case Some((a, b)) =>
          match (TopsOf(a), TopsOf(b))
          case (Some(m), Some(m9001)) => Some((m, m9001))
          case _ => None
  }

  /** The loop over the steps of main: each step moves the first copy with
      the CrateMover 9000, then the second with the CrateMover 9001. */
  method RunSteps(crates: Cargo, crates9001: Cargo, steps: seq<Step>) returns (ok: bool)
    requires crates != crates9001
    modifies crates, crates9001
    ensures ok <==> RunBoth(old(crates.stacks), old(crates9001.stacks), steps).Some?
    ensures ok ==> RunBoth(old(crates.stacks), old(crates9001.stacks), steps) == Some((crates.stacks, crates9001.stacks))
  {
    ghost var c1, c2 := crates.stacks, crates9001.stacks;
    for i := 0 to |steps|
      invariant RunBoth(c1, c2, steps[..i]) == Some((crates.stacks, crates9001.stacks))
    {
      RunBothStep(c1, c2, steps, i, crates.stacks, crates9001.stacks);
      ok := crates.Move9000(steps[i]);
      if ok {
        ok := crates9001.Move9001(steps[i]);
      }
      if !ok {
        RunBothNoneStays(c1, c2, steps, i + 1);
        return false;
      }
    }
    assert steps[..|steps|] == steps;
    return true;
  }

  /** main: two copies of the starting stacks, every move applied to each
      with its crane, then the two messages. */
  method Rearrange(data: seq<string>) returns (result: Option<(string, string)>)
    ensures result == Messages(data)
  {
    var start := CrateStart(data);
    if start.None? {
      return None;
    }
    var crates := new Cargo(start.value);
    var crates9001 := new Cargo(start.value);
    var actions := GetActions(data);
    if actions.None? {
      return None;
    }
    var ok := RunSteps(crates, crates9001, actions.value);
    if !ok {
      return None;
    }
    var message := crates.TopMessage();
    if message.None? {
      return None;
    }
    var message9001 := crates9001.TopMessage();
    if message9001.None? {
      return None;
    }
    return Some((message.value, message9001.value));
  }

  lemma RunBothStep(crates: Stacks, crates9001: Stacks, steps: seq<Step>, i: nat, a: Stacks, b: Stacks)
    requires i < |steps| && RunBoth(crates, crates9001, steps[..i]) == Some((a, b))
    ensures var step := steps[i];
      RunBoth(crates, crates9001, steps[..i + 1]) ==
        match (Crane9000(a, step.start, step.end, step.counter), Crane9001(b, step))
        case (Some(a'), Some(b')) => Some((a', b'))
        case _ => None
  {
    assert steps[..i + 1][..i] == steps[..i];
  }

  lemma {:induction false} RunBothNoneStays(crates: Stacks, crates9001: Stacks, steps: seq<Step>, i: nat)
    requires i <= |steps| && RunBoth(crates, crates9001, steps[..i]).None?
    ensures RunBoth(crates, crates9001, steps).None?
    decreases |steps| - i
  {
    if i < |steps| {
      assert steps[..i + 1][..i] == steps[..i];
      RunBothNoneStays(crates, crates9001, steps, i + 1);
    } else {
      assert steps[..i] == steps;
    }
  }
}
