/** 2025 day 1: a safe dial numbered 0..99 starts at 50 and is turned by a
    list of rotations. Part 1 counts the rotations that leave the dial at 0;
    part 2 counts every click that brings the dial to 0, computed per rotation
    by a closed form. */
module Dial {

  /** One parsed rotation, such as `L68`: any direction other than 'R' turns left. */
  datatype Rotation = Rotation(direction: char, steps: int)

  const Start := 50

  /** Where the dial is after one rotation from `position` (Python's `%` with a
      positive modulus agrees with Dafny's). */
  function Turn(position: int, r: Rotation): int {
    if r.direction == 'R' then (position + r.steps) % 100 else (position - r.steps) % 100
  }

  /** The dial position after each prefix of `rs`, starting at `Start`. */
  function PositionAfter(rs: seq<Rotation>): int {
    if rs == [] then Start else Turn(PositionAfter(rs[..|rs| - 1]), rs[|rs| - 1])
  }

  lemma PositionInRange(rs: seq<Rotation>)
    ensures 0 <= PositionAfter(rs) < 100
  {
  }

  /** Part 1 as a specification: how many rotations end with the dial at 0. */
  function ZeroLandings(rs: seq<Rotation>): nat {
    if rs == [] then 0
    else ZeroLandings(rs[..|rs| - 1]) + (if PositionAfter(rs) == 0 then 1 else 0)
  }

  /** The clicks of one rotation that pass 0, counted one by one:
      #{k in 1..k_max : (position + k) % 100 == 0} to the right and
      #{k in 1..k_max : (position - k) % 100 == 0} to the left. */
  function ClickHits(position: int, direction: char, kMax: int): nat
    decreases kMax
  {
    if kMax <= 0 then 0
    else
      var at := if direction == 'R' then position + kMax else position - kMax;
      ClickHits(position, direction, kMax - 1) + (if at % 100 == 0 then 1 else 0)
  }

  /** The increment `solve_part2` adds for one rotation (its closed form). */
  function ZeroPasses(position: int, r: Rotation): int {
    var steps := r.steps;
    if r.direction == 'R' then
      if steps >= 100 - position && position != 0 then 1 + (steps - (100 - position)) / 100
      else if steps > 0 && position == 0 then steps / 100
      else 0
    else
      if steps >= position && position != 0 then 1 + (steps - position) / 100
      else if steps > 0 && position == 0 then steps / 100
      else 0
  }

  lemma {:induction false} RightClicksClosedForm(position: int, kMax: int)
    requires 0 <= position < 100
    ensures ClickHits(position, 'R', kMax) == if kMax <= 0 then 0 else (position + kMax) / 100
  {
    if kMax > 0 {
      RightClicksClosedForm(position, kMax - 1);
    }
  }

  lemma {:induction false} LeftClicksClosedForm(position: int, kMax: int)
    requires 0 <= position < 100
    ensures ClickHits(position, 'L', kMax) ==
      if kMax <= 0 then 0
      else if position == 0 then kMax / 100
      else if kMax < position then 0
      else 1 + (kMax - position) / 100
  {
    if kMax > 0 {
      LeftClicksClosedForm(position, kMax - 1);
    }
  }

  /** The closed form of `solve_part2` counts exactly the clicks that land on 0,
      for every rotation, whatever its direction or (even negative) step count. */
  lemma ZeroPassesCountsClicks(position: int, r: Rotation)
    requires 0 <= position < 100
    ensures ZeroPasses(position, r) == ClickHits(position, if r.direction == 'R' then 'R' else 'L', r.steps)
  {
    RightClicksClosedForm(position, r.steps);
    LeftClicksClosedForm(position, r.steps);
  }

  /** Part 2 as a specification: every click of every rotation that points at 0. */
  function AllZeroClicks(rs: seq<Rotation>): nat {
    if rs == [] then 0
    else
      var before := PositionAfter(rs[..|rs| - 1]);
      var r := rs[|rs| - 1];
      AllZeroClicks(rs[..|rs| - 1]) + ClickHits(before, if r.direction == 'R' then 'R' else 'L', r.steps)
  }

  /** `solve_part1` over a parsed rotation list. */
  method SolvePart1(rs: seq<Rotation>) returns (zeroCount: nat)
    ensures zeroCount == ZeroLandings(rs)
  {
    var position := Start;
    zeroCount := 0;
    for i := 0 to |rs|
      invariant position == PositionAfter(rs[..i])
      invariant zeroCount == ZeroLandings(rs[..i])
    {
      assert rs[..i + 1][..i] == rs[..i];
      var r := rs[i];
      if r.direction == 'R' {
        position := (position + r.steps) % 100;
      } else {
        position := (position - r.steps) % 100;
      }
      if position == 0 {
        zeroCount := zeroCount + 1;
      }
    }
    assert rs[..|rs|] == rs;
  }

  /** `solve_part2` over a parsed rotation list: the dial moves exactly as in
      part 1, and the closed form adds the number of clicks that pass 0. */
  method SolvePart2(rs: seq<Rotation>) returns (zeroCount: int)
    ensures zeroCount == AllZeroClicks(rs)
  {
    var position := Start;
    zeroCount := 0;
    for i := 0 to |rs|
      invariant position == PositionAfter(rs[..i])
      invariant zeroCount == AllZeroClicks(rs[..i])
    {
      assert rs[..i + 1][..i] == rs[..i];
      var r := rs[i];
      var steps := r.steps;
      PositionInRange(rs[..i]);
      ZeroPassesCountsClicks(position, r);
      if r.direction == 'R' {
        if steps >= 100 - position && position != 0 {
          var firstCrossing := 100 - position;
          zeroCount := zeroCount + 1 + (steps - firstCrossing) / 100;
        } else if steps > 0 && position == 0 {
          zeroCount := zeroCount + steps / 100;
        }
        position := (position + steps) % 100;
      } else {
        if steps >= position && position != 0 {
          var firstCrossing := position;
          zeroCount := zeroCount + 1 + (steps - firstCrossing) / 100;
        } else if steps > 0 && position == 0 {
          zeroCount := zeroCount + steps / 100;
        }
        position := (position - steps) % 100;
      }
    }
    assert rs[..|rs|] == rs;
  }

  /** A rotation of at least one click that ends on 0 has its last click on 0,
      so with no zero-length rotations part 2 counts at least what part 1 does. */
  lemma {:induction false} LandingsAtMostClicks(rs: seq<Rotation>)
    requires forall i :: 0 <= i < |rs| ==> rs[i].steps > 0
    ensures ZeroLandings(rs) <= AllZeroClicks(rs)
  {
    if rs != [] {
      var prefix := rs[..|rs| - 1];
      var r := rs[|rs| - 1];
      assert forall i :: 0 <= i < |prefix| ==> prefix[i] == rs[i];
      LandingsAtMostClicks(prefix);
      var before := PositionAfter(prefix);
      var d := if r.direction == 'R' then 'R' else 'L';
      if PositionAfter(rs) == 0 {
        assert ClickHits(before, d, r.steps) >= 1;
      }
    }
  }

  /** Part 2 summed with the closed form instead of click by click. */
  function ZeroPassesTotal(rs: seq<Rotation>): int {
    if rs == [] then 0
    else ZeroPassesTotal(rs[..|rs| - 1]) + ZeroPasses(PositionAfter(rs[..|rs| - 1]), rs[|rs| - 1])
  }

  lemma {:induction false} ZeroPassesTotalCountsClicks(rs: seq<Rotation>)
    ensures ZeroPassesTotal(rs) == AllZeroClicks(rs)
  {
    if rs != [] {
      ZeroPassesTotalCountsClicks(rs[..|rs| - 1]);
      PositionInRange(rs[..|rs| - 1]);
      ZeroPassesCountsClicks(PositionAfter(rs[..|rs| - 1]), rs[|rs| - 1]);
    }
  }

  /** The first five rotations of the example end at 55, after one
      landing and three clicks on 0. */
  lemma ExampleFirstHalf(rs: seq<Rotation>)
    requires |rs| >= 5
    requires rs[..5] == [Rotation('L', 68), Rotation('L', 30), Rotation('R', 48), Rotation('L', 5), Rotation('R', 60)]
    ensures PositionAfter(rs[..5]) == 55 && ZeroPassesTotal(rs[..5]) == 3 && ZeroLandings(rs[..5]) == 1
  {
    assert rs[..1][..0] == rs[..0];
    assert PositionAfter(rs[..1]) == 82 && ZeroPassesTotal(rs[..1]) == 1 && ZeroLandings(rs[..1]) == 0;
    assert rs[..2][..1] == rs[..1];
    assert PositionAfter(rs[..2]) == 52 && ZeroPassesTotal(rs[..2]) == 1 && ZeroLandings(rs[..2]) == 0;
    assert rs[..3][..2] == rs[..2];
    assert PositionAfter(rs[..3]) == 0 && ZeroPassesTotal(rs[..3]) == 2 && ZeroLandings(rs[..3]) == 1;
    assert rs[..4][..3] == rs[..3];
    assert PositionAfter(rs[..4]) == 95 && ZeroPassesTotal(rs[..4]) == 2 && ZeroLandings(rs[..4]) == 1;
    assert rs[..5][..4] == rs[..4];
  }

  /** The puzzle's published example: `L68 L30 R48 L5 R60 L55 L1 L99 R14 L82`
      lands on 0 three times and points at 0 six times in all. */
  lemma Example()
    ensures var rs := [Rotation('L', 68), Rotation('L', 30), Rotation('R', 48), Rotation('L', 5),
                       Rotation('R', 60), Rotation('L', 55), Rotation('L', 1), Rotation('L', 99),
                       Rotation('R', 14), Rotation('L', 82)];
            ZeroLandings(rs) == 3 && AllZeroClicks(rs) == 6
  {
    var rs := [Rotation('L', 68), Rotation('L', 30), Rotation('R', 48), Rotation('L', 5),
               Rotation('R', 60), Rotation('L', 55), Rotation('L', 1), Rotation('L', 99),
               Rotation('R', 14), Rotation('L', 82)];
    ExampleFirstHalf(rs);
    assert rs[..6][..5] == rs[..5];
    assert PositionAfter(rs[..6]) == 0 && ZeroPassesTotal(rs[..6]) == 4 && ZeroLandings(rs[..6]) == 2;
    assert rs[..7][..6] == rs[..6];
    assert PositionAfter(rs[..7]) == 99 && ZeroPassesTotal(rs[..7]) == 4 && ZeroLandings(rs[..7]) == 2;
    assert rs[..8][..7] == rs[..7];
    assert PositionAfter(rs[..8]) == 0 && ZeroPassesTotal(rs[..8]) == 5 && ZeroLandings(rs[..8]) == 3;
    assert rs[..9][..8] == rs[..8];
    assert PositionAfter(rs[..9]) == 14 && ZeroPassesTotal(rs[..9]) == 5 && ZeroLandings(rs[..9]) == 3;
    assert rs[..10][..9] == rs[..9];
    assert PositionAfter(rs[..10]) == 32 && ZeroPassesTotal(rs[..10]) == 6 && ZeroLandings(rs[..10]) == 3;
    assert rs[..10] == rs;
    ZeroPassesTotalCountsClicks(rs);
  }
}
