/** 2022 day 2: each line "A X" names the opponent's shape (A, B, C for rock,
    paper, scissors) and a second column.  Part 1 reads the column as our
    shape (X, Y, Z), part 2 as the outcome we need (lose, draw, win); both
    answers sum a fixed table over the lines. */
module RockPaperScissors {
  import opened Common

  /** `d`: the round score when the column is our shape. */
  const ShapeTable: map<string, int> :=
    map["A X" := 4, "B X" := 1, "C X" := 7, "A Y" := 8, "B Y" := 5, "C Y" := 2, "A Z" := 3, "B Z" := 9, "C Z" := 6]

  /** `d2`: the round score when the column is the outcome we need. */
  const OutcomeTable: map<string, int> :=
    map["A X" := 3, "B X" := 1, "C X" := 2, "A Y" := 4, "B Y" := 5, "C Y" := 6, "A Z" := 8, "B Z" := 9, "C Z" := 7]

  /** A line of the strategy guide. */
  function Key(opponent: char, column: char): string {
    [opponent, ' ', column]
  }

  predicate IsKey(k: string) {
    |k| == 3 && k[0] in "ABC" && k[1] == ' ' && k[2] in "XYZ"
  }

  /** Both tables have exactly the nine lines as keys. */
  lemma TableKeys(k: string)
    ensures k in ShapeTable <==> IsKey(k)
    ensures k in OutcomeTable <==> IsKey(k)
  {
    if IsKey(k) {
      assert k == Key(k[0], k[2]);
    }
  }

  // ---------------------------------------------------------------------
  // The game, as a reference for the tables

  datatype Shape = Rock | Paper | Scissors

  function ShapeScore(s: Shape): int {
    match s
    case Rock => 1
    case Paper => 2
    case Scissors => 3
  }

  function Beats(s: Shape): Shape {
    match s
    case Rock => Scissors
    case Paper => Rock
    case Scissors => Paper
  }

  /** 0 for a loss, 3 for a draw, 6 for a win, from our side. */
  function OutcomeScore(opponent: Shape, me: Shape): int {
    if me == opponent then 3 else if Beats(me) == opponent then 6 else 0
  }

  function OpponentShape(c: char): Shape
    requires c in "ABC"
  {
    if c == 'A' then Rock else if c == 'B' then Paper else Scissors
  }

  function OwnShape(c: char): Shape
    requires c in "XYZ"
  {
    if c == 'X' then Rock else if c == 'Y' then Paper else Scissors
  }

  /** X, Y, Z: the outcome needed, as its score. */
  function NeededScore(c: char): int
    requires c in "XYZ"
  {
    if c == 'X' then 0 else if c == 'Y' then 3 else 6
  }

  /** The shape that gets `needed` against `opponent`. */
  function ShapeFor(opponent: Shape, needed: int): (me: Shape)
    requires needed == 0 || needed == 3 || needed == 6
    ensures OutcomeScore(opponent, me) == needed
  {
    if needed == 3 then opponent
    else if needed == 6 then Beats(Beats(opponent))
    else Beats(opponent)
  }

  /** `d` is our shape's score plus the outcome's score. */
  lemma ShapeTableIsGame(o: char, m: char)
    requires o in "ABC" && m in "XYZ"
    ensures ShapeTable[Key(o, m)] == ShapeScore(OwnShape(m)) + OutcomeScore(OpponentShape(o), OwnShape(m))
  {
    TableKeys(Key(o, m));
  }

  /** `d2` is the needed outcome's score plus the score of the shape that
      brings it about. */
  lemma OutcomeTableIsGame(o: char, m: char)
    requires o in "ABC" && m in "XYZ"
    ensures OutcomeTable[Key(o, m)] == ShapeScore(ShapeFor(OpponentShape(o), NeededScore(m))) + NeededScore(m)
  {
    TableKeys(Key(o, m));
  }

  /** `d` takes the values 1..9. */
  lemma ShapeTableValues()
    ensures ShapeTable.Values == {1, 2, 3, 4, 5, 6, 7, 8, 9}
  {
    assert ShapeTable["B X"] == 1 && ShapeTable["C Y"] == 2 && ShapeTable["A Z"] == 3;
    assert ShapeTable["A X"] == 4 && ShapeTable["B Y"] == 5 && ShapeTable["C Z"] == 6;
    assert ShapeTable["C X"] == 7 && ShapeTable["A Y"] == 8 && ShapeTable["B Z"] == 9;
  }

  /** `d2` takes the values 1..9. */
  lemma OutcomeTableValues()
    ensures OutcomeTable.Values == {1, 2, 3, 4, 5, 6, 7, 8, 9}
  {
    assert OutcomeTable["B X"] == 1 && OutcomeTable["C X"] == 2 && OutcomeTable["A X"] == 3;
    assert OutcomeTable["A Y"] == 4 && OutcomeTable["B Y"] == 5 && OutcomeTable["C Y"] == 6;
    assert OutcomeTable["C Z"] == 7 && OutcomeTable["A Z"] == 8 && OutcomeTable["B Z"] == 9;
  }

  /** A shape score and an outcome score can be told apart in their sum. */
  lemma DecodeRound(a: Shape, x: int, b: Shape, y: int)
    requires x in {0, 3, 6} && y in {0, 3, 6}
    requires ShapeScore(a) + x == ShapeScore(b) + y
    ensures a == b && x == y
  {
  }

  /** No two lines share a score in `d`: the score tells the round. */
  lemma ShapeTableInjective(o1: char, m1: char, o2: char, m2: char)
    requires o1 in "ABC" && m1 in "XYZ" && o2 in "ABC" && m2 in "XYZ"
    requires ShapeTable[Key(o1, m1)] == ShapeTable[Key(o2, m2)]
    ensures o1 == o2 && m1 == m2
  {
    ShapeTableIsGame(o1, m1);
    ShapeTableIsGame(o2, m2);
    var a, b := OwnShape(m1), OwnShape(m2);
    DecodeRound(a, OutcomeScore(OpponentShape(o1), a), b, OutcomeScore(OpponentShape(o2), b));
  }

  /** No two lines share a score in `d2`. */
  lemma OutcomeTableInjective(o1: char, m1: char, o2: char, m2: char)
    requires o1 in "ABC" && m1 in "XYZ" && o2 in "ABC" && m2 in "XYZ"
    requires OutcomeTable[Key(o1, m1)] == OutcomeTable[Key(o2, m2)]
    ensures o1 == o2 && m1 == m2
  {
    OutcomeTableIsGame(o1, m1);
    OutcomeTableIsGame(o2, m2);
    var a := ShapeFor(OpponentShape(o1), NeededScore(m1));
    var b := ShapeFor(OpponentShape(o2), NeededScore(m2));
    DecodeRound(a, NeededScore(m1), b, NeededScore(m2));
  }

  // ---------------------------------------------------------------------
  // The sums over the lines

  /** `sum([table[x] for x in data])`: None for the KeyError of a line that
      is not in the table. */
  function TableSum(table: map<string, int>, data: seq<string>): (r: Option<int>)
    ensures r.Some? ==> forall i :: 0 <= i < |data| ==> data[i] in table
  {
    if data == [] then Some(0)
    else
      var n := |data| - 1;
      match TableSum(table, data[..n])
      case None => None
      case Some(s) => if data[n] in table then Some(s + table[data[n]]) else None
  }

  /** The sum exists exactly when every line is a key. */
  lemma {:induction false} TableSumDefined(table: map<string, int>, data: seq<string>)
    ensures TableSum(table, data).Some? <==> forall i :: 0 <= i < |data| ==> data[i] in table
  {
    if data != [] {
      var n := |data| - 1;
      TableSumDefined(table, data[..n]);
      if TableSum(table, data[..n]).None? {
        var i :| 0 <= i < n && data[..n][i] !in table;
        assert data[i] !in table;
      }
    }
  }

  /** The total score of playing the guide as our shapes. */
  function ShapeGame(data: seq<string>): int
    requires forall i :: 0 <= i < |data| ==> IsKey(data[i])
  {
    if data == [] then 0
    else
      var n := |data| - 1;
      assert IsKey(data[n]);
      var me := OwnShape(data[n][2]);
      ShapeGame(data[..n]) + ShapeScore(me) + OutcomeScore(OpponentShape(data[n][0]), me)
  }

  /** The total score of playing the guide as needed outcomes. */
  function OutcomeGame(data: seq<string>): int
    requires forall i :: 0 <= i < |data| ==> IsKey(data[i])
  {
    if data == [] then 0
    else
      var n := |data| - 1;
      assert IsKey(data[n]);
      var needed := NeededScore(data[n][2]);
      OutcomeGame(data[..n]) + ShapeScore(ShapeFor(OpponentShape(data[n][0]), needed)) + needed
  }

  /** The two printed sums are the scores of the two readings of the guide. */
  lemma {:induction false} SumsAreGames(data: seq<string>)
    requires forall i :: 0 <= i < |data| ==> IsKey(data[i])
    ensures TableSum(ShapeTable, data) == Some(ShapeGame(data))
    ensures TableSum(OutcomeTable, data) == Some(OutcomeGame(data))
  {
    if data != [] {
      var n := |data| - 1;
      SumsAreGames(data[..n]);
      var k := data[n];
      assert k == Key(k[0], k[2]);
      ShapeTableIsGame(k[0], k[2]);
      OutcomeTableIsGame(k[0], k[2]);
    }
  }

  /** A trailing empty line, as `split('\n')` leaves after the last newline,
      makes both sums raise. */
  lemma TrailingBlankRaises(data: seq<string>)
    ensures TableSum(ShapeTable, data + [""]).None?
    ensures TableSum(OutcomeTable, data + [""]).None?
  {
    TableKeys("");
    assert (data + [""])[..|data|] == data;
  }
}
