/** 2022 day 3: each line is a rucksack of item letters.  Part 1 sums the
    priorities of the items found in both halves of a rucksack; part 2 the
    priorities of the badge items common to each group of three lines. */
module Rucksacks {
  import opened Common

  /** getCharNumber: the priority of an item, computed from its code point. */
  function CharNumber(c: char): (r: int)
    ensures 'a' <= c <= 'z' ==> 1 <= r <= 26
    ensures 'A' <= c <= 'Z' ==> 27 <= r <= 52
  {
    var val := c as int;
    if val > 96 then val - 96 else val - 64 + 26
  }

  predicate IsLetter(c: char) {
    'a' <= c <= 'z' || 'A' <= c <= 'Z'
  }

  /** The item with priority `p`: 'a'..'z' for 1..26, 'A'..'Z' for 27..52. */
  function LetterOf(p: int): (c: char)
    requires 1 <= p <= 52
    ensures IsLetter(c)
  {
    if p <= 26 then (p - 1 + 'a' as int) as char else (p - 27 + 'A' as int) as char
  }

  /** Letters get the priorities 1..52, lower case first, and the priority
      names the letter back. */
  lemma CharNumberLetters(c: char)
    requires IsLetter(c)
    ensures 1 <= CharNumber(c) <= 52
    ensures 'a' <= c <= 'z' <==> CharNumber(c) <= 26
    ensures LetterOf(CharNumber(c)) == c
  {
  }

  lemma LetterOfPriority(p: int)
    requires 1 <= p <= 52
    ensures CharNumber(LetterOf(p)) == p
  {
  }

  /** Two letters with the same priority are the same letter. */
  lemma CharNumberInjective(c: char, d: char)
    requires IsLetter(c) && IsLetter(d) && CharNumber(c) == CharNumber(d)
    ensures c == d
  {
    CharNumberLetters(c);
    CharNumberLetters(d);
  }

  /** `x[0:len(x)//2]` and `x[len(x)//2:len(x)]`. */
  function Halves(x: string): (r: (string, string))
    ensures r.0 + r.1 == x
    ensures |r.0| == |x| / 2 && (|r.1| == |r.0| || |r.1| == |r.0| + 1)
  {
    (x[..|x| / 2], x[|x| / 2..])
  }

  function Chars(s: string): set<char> {
    set c | c in s
  }

  /** The total priority of a set of items, each counted once. */
  ghost function SetPriority(s: set<char>): int {
    if s == {} then 0
    else
      var c :| c in s;
      CharNumber(c) + SetPriority(s - {c})
  }

  /** The sum does not depend on the order the items are taken in. */
  lemma {:induction false} SetPriorityRemove(s: set<char>, c: char)
    requires c in s
    ensures SetPriority(s) == CharNumber(c) + SetPriority(s - {c})
    decreases |s|
  {
    var d :| d in s && SetPriority(s) == CharNumber(d) + SetPriority(s - {d});
    if d != c {
      SetPriorityRemove(s - {d}, c);
      SetPriorityRemove(s - {c}, d);
      assert s - {d} - {c} == s - {c} - {d};
    }
  }

  /** Adding an item already present changes nothing; a new one adds its
      priority once. */
  lemma SetPriorityInsert(s: set<char>, c: char)
    ensures c in s ==> SetPriority(s + {c}) == SetPriority(s)
    ensures c !in s ==> SetPriority(s + {c}) == SetPriority(s) + CharNumber(c)
  {
    if c in s {
      assert s + {c} == s;
    } else {
      SetPriorityRemove(s + {c}, c);
      assert s + {c} - {c} == s;
    }
  }

  /** For letters, every item adds between 1 and 52. */
  lemma {:induction false} SetPriorityBounds(s: set<char>)
    requires forall c :: c in s ==> IsLetter(c)
    ensures |s| <= SetPriority(s) <= 52 * |s|
    decreases |s|
  {
    if s != {} {
      var c :| c in s;
      SetPriorityRemove(s, c);
      SetPriorityBounds(s - {c});
      CharNumberLetters(c);
    }
  }

  /** The items found in both halves of a rucksack. */
  function Misplaced(x: string): (r: set<char>)
    ensures forall c :: c in r <==> c in Halves(x).0 && c in Halves(x).1
  {
    Chars(Halves(x).0) * Chars(Halves(x).1)
  }

  ghost function RucksackTotal(data: seq<string>): int {
    if data == [] then 0
    else RucksackTotal(data[..|data| - 1]) + SetPriority(Misplaced(data[|data| - 1]))
  }

  /** `for c in matches: total += getCharNumber(c)`, taking the items of the
      set in any order. */
  method AddPriorities(total: int, matches: set<char>) returns (sum: int)
    ensures sum == total + SetPriority(matches)
  {
    sum := total;
    var rest := matches;
    while rest != {}
      invariant rest <= matches
      invariant sum + SetPriority(rest) == total + SetPriority(matches)
      decreases |rest|
    {
      var c :| c in rest;
      SetPriorityRemove(rest, c);
      sum := sum + CharNumber(c);
      rest := rest - {c};
    }
  }

  /** Part 1 of main. */
  method MatchSum(data: seq<string>) returns (matchSum: int)
    ensures matchSum == RucksackTotal(data)
  {
    matchSum := 0;
    for i := 0 to |data|
      invariant matchSum == RucksackTotal(data[..i])
    {
      var x := data[i];
      var firstHalf, secondHalf := x[..|x| / 2], x[|x| / 2..];
      var matches := Chars(firstHalf) * Chars(secondHalf);
      assert data[..i + 1][..i] == data[..i];
      matchSum := AddPriorities(matchSum, matches);
    }
    assert data[..|data|] == data;
  }

  /** A rucksack whose halves share one item several times counts it once:
      "aaaa" adds 1. */
  lemma RepeatsCountOnce()
    ensures Misplaced("aaaa") == {'a'}
    ensures SetPriority(Misplaced("aaaa")) == 1
  {
    assert Halves("aaaa").0 == "aa" && Halves("aaaa").1 == "aa";
    assert Misplaced("aaaa") == {'a'};
    SetPriorityRemove({'a'}, 'a');
    assert {'a'} - {'a'} == {};
  }

  /** The items common to the group of three lines starting at `i`. */
  function Badges(data: seq<string>, i: nat): (r: set<char>)
    requires i + 2 < |data|
    ensures forall c :: c in r <==> c in data[i] && c in data[i + 1] && c in data[i + 2]
  {
    Chars(data[i]) * Chars(data[i + 1]) * Chars(data[i + 2])
  }

  /** The badge priorities of the first `k` groups. */
  ghost function BatchTotal(data: seq<string>, k: nat): int
    requires 3 * k <= |data|
  {
    if k == 0 then 0
    else BatchTotal(data, k - 1) + SetPriority(Badges(data, 3 * k - 3))
  }

  /** Part 2 of main: every index divisible by 3 starts a group, and a group
      cut short by the end of the lines raises IndexError. */
  method MatchBatch(data: seq<string>) returns (r: Option<int>)
    ensures r.Some? <==> |data| % 3 == 0
    ensures r.Some? ==> r.value == BatchTotal(data, |data| / 3)
  {
    var matchBatch := 0;
    ghost var g: nat := 0;
    for i := 0 to |data|
      invariant 3 * g - 2 <= i <= 3 * g <= |data|
      invariant matchBatch == BatchTotal(data, g)
    {
      if i % 3 == 0 {
        assert i == 3 * g;
        if i + 2 >= |data| {
          return None;
        }
        var matches := Chars(data[i]) * Chars(data[i + 1]) * Chars(data[i + 2]);
        matchBatch := AddPriorities(matchBatch, matches);
        g := g + 1;
      }
    }
    assert |data| == 3 * g;
    return Some(matchBatch);
  }
}
