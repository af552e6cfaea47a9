/** 2025 day 3: a bank is a line of battery digits. Part 1 turns on two
    batteries, in order, to form the largest two-digit joltage; part 2 turns
    on twelve, chosen greedily one window at a time. */
module Joltage {
  import opened Common

  predicate AllDigits(bank: string) {
    forall i :: 0 <= i < |bank| ==> IsDigit(bank[i])
  }

  /** `int(bank[i] + bank[j])` */
  function PairJoltage(bank: string, i: nat, j: nat): nat
    requires AllDigits(bank) && i < |bank| && j < |bank|
  {
    DigitsValue([bank[i], bank[j]])
  }

  /** `max_joltage`: the largest joltage over every ordered pair of positions,
      and 0 for a bank with fewer than two batteries. */
  method MaxJoltage(bank: string) returns (maxVal: nat)
    requires AllDigits(bank)
    ensures forall i, j :: 0 <= i < j < |bank| ==> PairJoltage(bank, i, j) <= maxVal
    ensures |bank| < 2 ==> maxVal == 0
    ensures |bank| >= 2 ==> exists i, j :: 0 <= i < j < |bank| && maxVal == PairJoltage(bank, i, j)
    ensures |bank| >= 2 ==> maxVal == GreedyValue(bank, 2)
  {
    maxVal := 0;
    ghost var found, bi, bj := false, 0, 0;
    for i := 0 to |bank|
      invariant forall i', j' :: 0 <= i' < i && i' < j' < |bank| ==> PairJoltage(bank, i', j') <= maxVal
      invariant found ==> bi < bj < |bank| && maxVal == PairJoltage(bank, bi, bj)
      invariant !found ==> maxVal == 0
      invariant i > 0 && |bank| >= 2 ==> found
    {
      for j := i + 1 to |bank|
        invariant forall i', j' :: 0 <= i' < i && i' < j' < |bank| ==> PairJoltage(bank, i', j') <= maxVal
        invariant forall j' :: i < j' < j ==> PairJoltage(bank, i, j') <= maxVal
        invariant found ==> bi < bj < |bank| && maxVal == PairJoltage(bank, bi, bj)
        invariant !found ==> maxVal == 0
        invariant (i > 0 && |bank| >= 2) || j > i + 1 ==> found
      {
        var joltage := DigitsValue([bank[i], bank[j]]);
        if !found || joltage > maxVal {
          found, bi, bj := true, i, j;
        }
        maxVal := if joltage > maxVal then joltage else maxVal;
      }
    }
    if |bank| >= 2 {
      PairMaxIsGreedy(bank, bi, bj);
    }
  }

  // ---------------------------------------------------------------------
  // Part 2: the greedy choice

  /** The first position of the largest digit in `bank[lo..hi]`, found as the
      inner loop of `max_joltage_n` finds it: scan left to right, move only
      on a strictly larger digit. */
  function LeftmostMax(bank: string, lo: nat, hi: nat): (b: nat)
    requires lo < hi <= |bank|
    ensures lo <= b < hi
    decreases hi
  {
    if hi == lo + 1 then lo
    else
      var b := LeftmostMax(bank, lo, hi - 1);
      if bank[hi - 1] > bank[b] then hi - 1 else b
  }

  /** The scan finds a maximum of the window, and every earlier digit of the
      window is strictly smaller. */
  lemma {:induction false} LeftmostMaxIsLeftmostMaximum(bank: string, lo: nat, hi: nat)
    requires lo < hi <= |bank|
    ensures var b := LeftmostMax(bank, lo, hi);
      (forall k :: lo <= k < hi ==> bank[k] <= bank[b]) &&
      (forall k :: lo <= k < b ==> bank[k] < bank[b])
    decreases hi
  {
    if hi > lo + 1 {
      LeftmostMaxIsLeftmostMaximum(bank, lo, hi - 1);
    }
  }

  /** The digits `max_joltage_n` appends for its last `m` rounds when the round
      searches from `start`: each is the leftmost maximum of a window that
      leaves room for the picks still to come. */
  function GreedyDigits(bank: string, start: nat, m: nat): (s: string)
    requires start + m <= |bank|
    ensures |s| == m
    decreases m
  {
    if m == 0 then []
    else
      var b := LeftmostMax(bank, start, |bank| - (m - 1));
      [bank[b]] + GreedyDigits(bank, b + 1, m - 1)
  }

  lemma {:induction false} GreedyDigitsAreDigits(bank: string, start: nat, m: nat)
    requires AllDigits(bank) && start + m <= |bank|
    ensures AllDigits(GreedyDigits(bank, start, m))
    decreases m
  {
    if m > 0 {
      var b := LeftmostMax(bank, start, |bank| - (m - 1));
      GreedyDigitsAreDigits(bank, b + 1, m - 1);
    }
  }

  /** The digits of `bank` at positions `q`, in order. */
  function Pick(bank: string, q: seq<nat>): (s: string)
    requires forall k :: 0 <= k < |q| ==> q[k] < |bank|
    ensures |s| == |q|
  {
    seq(|q|, k requires 0 <= k < |q| => bank[q[k]])
  }

  /** `q` chooses `m` batteries at strictly increasing positions, none before `start`. */
  ghost predicate IsSelectionFrom(bank: string, start: nat, q: seq<nat>, m: nat) {
    |q| == m &&
    (forall k :: 0 <= k < m ==> start <= q[k] < |bank|) &&
    (forall k, l :: 0 <= k < l < m ==> q[k] < q[l])
  }

  ghost predicate IsSelection(bank: string, q: seq<nat>, m: nat) {
    IsSelectionFrom(bank, 0, q, m)
  }

  /** The greedy digits of the last `m` rounds, read as a number. */
  function GreedyValueFrom(bank: string, start: nat, m: nat): nat
    requires AllDigits(bank) && start + m <= |bank|
  {
    GreedyDigitsAreDigits(bank, start, m);
    DigitsValue(GreedyDigits(bank, start, m))
  }

  /** The joltage `max_joltage_n` returns: the greedy digits read as a number. */
  function GreedyValue(bank: string, n: nat): nat
    requires AllDigits(bank) && n <= |bank|
  {
    GreedyValueFrom(bank, 0, n)
  }

  /** The greedy digits are `m` batteries taken at strictly increasing positions. */
  lemma {:induction false} GreedyIsSelection(bank: string, start: nat, m: nat) returns (q: seq<nat>)
    requires start + m <= |bank|
    ensures IsSelectionFrom(bank, start, q, m)
    ensures Pick(bank, q) == GreedyDigits(bank, start, m)
    decreases m
  {
    if m == 0 {
      q := [];
    } else {
      var b := LeftmostMax(bank, start, |bank| - (m - 1));
      var rest := GreedyIsSelection(bank, b + 1, m - 1);
      q := [b] + rest;
      ConsSelection(bank, start, b, rest, m);
      PickSplit(bank, q);
      assert q[1..] == rest;
    }
  }

  /** `max_joltage_n` for `1 <= n <= len(bank)`: it builds exactly the greedy
      digits, and no other choice of `n` batteries in order does better. */
  method MaxJoltageN(bank: string, n: nat) returns (joltage: nat)
    requires AllDigits(bank) && 1 <= n <= |bank|
    ensures joltage == GreedyValue(bank, n)
    ensures forall q :: IsSelection(bank, q, n) ==> DigitsValue(Pick(bank, q)) <= joltage
  {
    var result: string := [];
    var start := 0;
    for i := 0 to n
      invariant start + (n - i) <= |bank|
      invariant result + GreedyDigits(bank, start, n - i) == GreedyDigits(bank, 0, n)
    {
      var digitsNeeded := n - i - 1;
      var end := |bank| - digitsNeeded;
      var bestIdx := FindBest(bank, start, end);
      AppendAssoc(result, [bank[bestIdx]], GreedyDigits(bank, bestIdx + 1, n - i - 1));
      result := result + [bank[bestIdx]];
      start := bestIdx + 1;
    }
    AppendAssoc(result, [], []);
    GreedyDigitsAreDigits(bank, 0, n);
    joltage := DigitsValue(result);
    GreedyOptimal(bank, n);
  }

  /** The inner loop of `max_joltage_n`: the largest digit of the window. */
  method FindBest(bank: string, start: nat, end: nat) returns (bestIdx: nat)
    requires start < end <= |bank|
    ensures bestIdx == LeftmostMax(bank, start, end)
  {
    bestIdx := start;
    for j := start to end
      invariant j == start ==> bestIdx == start
      invariant j > start ==> bestIdx == LeftmostMax(bank, start, j)
    {
      if bank[j] > bank[bestIdx] {
        bestIdx := j;
      }
    }
  }

  // ---------------------------------------------------------------------
  // Why the greedy choice is optimal

  /** `o` comes no later than `g` in dictionary order (equal lengths). */
  predicate LexLe(o: string, g: string)
    requires |o| == |g|
  {
    o == [] || o[0] < g[0] || (o[0] == g[0] && LexLe(o[1..], g[1..]))
  }

  /** An increasing choice must leave room after each pick for the later picks. */
  lemma {:induction false} SelectionRoom(bank: string, start: nat, q: seq<nat>, m: nat, k: nat)
    requires IsSelectionFrom(bank, start, q, m) && k < m
    ensures q[k] + (m - k) <= |bank|
    decreases m - k
  {
    if k < m - 1 {
      SelectionRoom(bank, start, q, m, k + 1);
      assert q[k] < q[k + 1];
    }
  }

  /** The greedy digits are the dictionary-largest among all choices of `m`
      batteries from `start` on: at the first pick the greedy digit is the
      window's maximum, and if another choice ties it, that choice picked at
      or after the greedy position (the greedy one is leftmost), so its rest
      is a choice from the greedy's next start. */
  lemma {:induction false} GreedyIsLexMax(bank: string, start: nat, m: nat, q: seq<nat>)
    requires start + m <= |bank|
    requires IsSelectionFrom(bank, start, q, m)
    ensures LexLe(Pick(bank, q), GreedyDigits(bank, start, m))
    decreases m
  {
    if m > 0 {
      var b := LeftmostMax(bank, start, |bank| - (m - 1));
      FirstPickBound(bank, start, m, q);
      PickSplit(bank, q);
      if bank[q[0]] == bank[b] {
        SelectionTail(bank, start, q, m, b);
        GreedyIsLexMax(bank, b + 1, m - 1, q[1..]);
      }
    }
  }

  /** Another choice's first digit is at most the greedy one; on a tie it was
      picked at or after the greedy position. */
  lemma FirstPickBound(bank: string, start: nat, m: nat, q: seq<nat>)
    requires 1 <= m && start + m <= |bank|
    requires IsSelectionFrom(bank, start, q, m)
    ensures var b := LeftmostMax(bank, start, |bank| - (m - 1));
      bank[q[0]] <= bank[b] && (bank[q[0]] == bank[b] ==> q[0] >= b)
  {
    SelectionRoom(bank, start, q, m, 0);
    LeftmostMaxIsLeftmostMaximum(bank, start, |bank| - (m - 1));
  }

  lemma ConsSelection(bank: string, start: nat, b: nat, rest: seq<nat>, m: nat)
    requires 1 <= m && start <= b < |bank| && IsSelectionFrom(bank, b + 1, rest, m - 1)
    ensures IsSelectionFrom(bank, start, [b] + rest, m)
  {
    var q := [b] + rest;
    assert forall k :: 1 <= k < m ==> q[k] == rest[k - 1];
  }

  lemma PickSplit(bank: string, q: seq<nat>)
    requires 1 <= |q| && forall k :: 0 <= k < |q| ==> q[k] < |bank|
    ensures Pick(bank, q)[0] == bank[q[0]] && Pick(bank, q)[1..] == Pick(bank, q[1..])
  {
  }

  /** After a first pick at or beyond `b`, the remaining picks choose from `b + 1` on. */
  lemma SelectionTail(bank: string, start: nat, q: seq<nat>, m: nat, b: nat)
    requires m >= 1 && IsSelectionFrom(bank, start, q, m) && q[0] >= b
    ensures IsSelectionFrom(bank, b + 1, q[1..], m - 1)
  {
    var q' := q[1..];
    assert forall k :: 0 <= k < m - 1 ==> q'[k] == q[k + 1] && q[0] < q[k + 1];
  }

  function Pow10(k: nat): (p: nat)
    ensures p >= 1
  {
    if k == 0 then 1 else 10 * Pow10(k - 1)
  }

  /** A string of `k` digits is worth less than `10^k`. */
  lemma {:induction false} DigitsValueBound(s: string)
    requires forall i :: 0 <= i < |s| ==> IsDigit(s[i])
    ensures DigitsValue(s) < Pow10(|s|)
  {
    if s != [] {
      DigitsValueBound(s[..|s| - 1]);
    }
  }

  /** Reading the leading digit first: `d0 * 10^(k-1) + value of the rest`. */
  lemma {:induction false} DigitsValueFront(s: string)
    requires |s| >= 1 && forall i :: 0 <= i < |s| ==> IsDigit(s[i])
    ensures DigitsValue(s) == DigitValue(s[0]) * Pow10(|s| - 1) + DigitsValue(s[1..])
  {
    var n := |s|;
    if n > 1 {
      var init := s[..n - 1];
      DigitsValueFront(init);
      assert init[1..] == s[1..][..n - 2];
      var d0, p := DigitValue(s[0]), Pow10(n - 2);
      assert 10 * (d0 * p) == d0 * (10 * p);
    }
  }

  lemma MulStep(a: nat, b: nat, p: nat)
    requires a < b
    ensures a * p + p <= b * p
  {
    var c := b - a;
    assert b * p == a * p + c * p;
    MulAtLeast(c, p);
  }

  /** No choice of `n` batteries in order beats the greedy joltage. */
  lemma GreedyOptimal(bank: string, n: nat)
    requires AllDigits(bank) && n <= |bank|
    ensures forall q :: IsSelection(bank, q, n) ==> DigitsValue(Pick(bank, q)) <= GreedyValue(bank, n)
  {
    GreedyDigitsAreDigits(bank, 0, n);
    forall q | IsSelection(bank, q, n) ensures DigitsValue(Pick(bank, q)) <= GreedyValue(bank, n) {
      GreedyIsLexMax(bank, 0, n, q);
      LexLeValue(Pick(bank, q), GreedyDigits(bank, 0, n));
    }
  }

  /** For digit strings of one length, dictionary order is numeric order. */
  lemma {:induction false} LexLeValue(o: string, g: string)
    requires |o| == |g|
    requires forall i :: 0 <= i < |o| ==> IsDigit(o[i])
    requires forall i :: 0 <= i < |g| ==> IsDigit(g[i])
    requires LexLe(o, g)
    ensures DigitsValue(o) <= DigitsValue(g)
  {
    if o != [] {
      DigitsValueFront(o);
      DigitsValueFront(g);
      var p := Pow10(|o| - 1);
      if o[0] < g[0] {
        DigitsValueBound(o[1..]);
        MulStep(DigitValue(o[0]), DigitValue(g[0]), p);
      } else {
        LexLeValue(o[1..], g[1..]);
      }
    }
  }

  /** Part 1 is part 2's algorithm with two batteries: the best pair found by
      the nested loops is the greedy two-digit joltage. */
  lemma PairMaxIsGreedy(bank: string, bi: nat, bj: nat)
    requires AllDigits(bank) && |bank| >= 2
    requires bi < bj < |bank|
    requires forall i, j :: 0 <= i < j < |bank| ==> PairJoltage(bank, i, j) <= PairJoltage(bank, bi, bj)
    ensures PairJoltage(bank, bi, bj) == GreedyValue(bank, 2)
  {
    var g := GreedyIsSelection(bank, 0, 2);
    assert Pick(bank, g) == [bank[g[0]], bank[g[1]]];
    var q := [bi, bj];
    assert Pick(bank, q) == [bank[bi], bank[bj]];
    GreedyOptimal(bank, 2);
    assert PairJoltage(bank, g[0], g[1]) <= PairJoltage(bank, bi, bj);
  }

  // ---------------------------------------------------------------------
  // The worked examples of the tests

  /** One greedy round read as a number: the chosen digit in front of the
      value of the later rounds. */
  lemma GreedyValueStep(bank: string, start: nat, m: nat, hi: nat, b: nat, d: nat, p: nat, rest: nat)
    requires AllDigits(bank) && 1 <= m && start + m <= |bank| && hi == |bank| - (m - 1)
    requires b == LeftmostMax(bank, start, hi)
    requires DigitValue(bank[b]) == d && Pow10(m - 1) == p
    requires GreedyValueFrom(bank, b + 1, m - 1) == rest
    ensures GreedyValueFrom(bank, start, m) == d * p + rest
  {
    var s := GreedyDigits(bank, start, m);
    GreedyDigitsAreDigits(bank, start, m);
    assert s == [bank[b]] + GreedyDigits(bank, b + 1, m - 1);
    assert s[1..] == GreedyDigits(bank, b + 1, m - 1);
    DigitsValueFront(s);
  }

  lemma PairExample1Steps(bank: string)
    requires Bank1(bank)
    ensures GreedyValue(bank, 2) == 98
  {
    assert |bank| == 15 && AllDigits(bank);
    assert LeftmostMax(bank, 0, 2) == 0;
    assert LeftmostMax(bank, 0, 3) == 0;
    assert LeftmostMax(bank, 0, 4) == 0;
    assert LeftmostMax(bank, 0, 5) == 0;
    assert LeftmostMax(bank, 0, 6) == 0;
    assert LeftmostMax(bank, 0, 7) == 0;
    assert LeftmostMax(bank, 0, 8) == 0;
    assert LeftmostMax(bank, 0, 9) == 0;
    assert LeftmostMax(bank, 0, 10) == 0;
    assert LeftmostMax(bank, 0, 11) == 0;
    assert LeftmostMax(bank, 0, 12) == 0;
    assert LeftmostMax(bank, 0, 13) == 0;
    assert LeftmostMax(bank, 0, 14) == 0;
    assert LeftmostMax(bank, 1, 3) == 1;
    assert LeftmostMax(bank, 1, 4) == 1;
    assert LeftmostMax(bank, 1, 5) == 1;
    assert LeftmostMax(bank, 1, 6) == 1;
    assert LeftmostMax(bank, 1, 7) == 1;
    assert LeftmostMax(bank, 1, 8) == 1;
    assert LeftmostMax(bank, 1, 9) == 1;
    assert LeftmostMax(bank, 1, 10) == 1;
    assert LeftmostMax(bank, 1, 11) == 1;
    assert LeftmostMax(bank, 1, 12) == 1;
    assert LeftmostMax(bank, 1, 13) == 1;
    assert LeftmostMax(bank, 1, 14) == 1;
    assert LeftmostMax(bank, 1, 15) == 1;
    GreedyValueStep(bank, 1, 1, 15, 1, 8, 1, 0);
    GreedyValueStep(bank, 0, 2, 14, 0, 9, 10, 8);
  }

  lemma PairExample2Steps(bank: string)
    requires Bank2(bank)
    ensures GreedyValue(bank, 2) == 89
  {
    assert |bank| == 15 && AllDigits(bank);
    assert LeftmostMax(bank, 0, 2) == 0;
    assert LeftmostMax(bank, 0, 3) == 0;
    assert LeftmostMax(bank, 0, 4) == 0;
    assert LeftmostMax(bank, 0, 5) == 0;
    assert LeftmostMax(bank, 0, 6) == 0;
    assert LeftmostMax(bank, 0, 7) == 0;
    assert LeftmostMax(bank, 0, 8) == 0;
    assert LeftmostMax(bank, 0, 9) == 0;
    assert LeftmostMax(bank, 0, 10) == 0;
    assert LeftmostMax(bank, 0, 11) == 0;
    assert LeftmostMax(bank, 0, 12) == 0;
    assert LeftmostMax(bank, 0, 13) == 0;
    assert LeftmostMax(bank, 0, 14) == 0;
    assert LeftmostMax(bank, 1, 3) == 1;
    assert LeftmostMax(bank, 1, 4) == 1;
    assert LeftmostMax(bank, 1, 5) == 1;
    assert LeftmostMax(bank, 1, 6) == 1;
    assert LeftmostMax(bank, 1, 7) == 1;
    assert LeftmostMax(bank, 1, 8) == 1;
    assert LeftmostMax(bank, 1, 9) == 1;
    assert LeftmostMax(bank, 1, 10) == 1;
    assert LeftmostMax(bank, 1, 11) == 1;
    assert LeftmostMax(bank, 1, 12) == 1;
    assert LeftmostMax(bank, 1, 13) == 1;
    assert LeftmostMax(bank, 1, 14) == 1;
    assert LeftmostMax(bank, 1, 15) == 14;
    GreedyValueStep(bank, 1, 1, 15, 14, 9, 1, 0);
    GreedyValueStep(bank, 0, 2, 14, 0, 8, 10, 9);
  }

  lemma PairExample3Steps(bank: string)
    requires Bank3(bank)
    ensures GreedyValue(bank, 2) == 78
  {
    assert |bank| == 15 && AllDigits(bank);
    assert LeftmostMax(bank, 0, 2) == 1;
    assert LeftmostMax(bank, 0, 3) == 2;
    assert LeftmostMax(bank, 0, 4) == 2;
    assert LeftmostMax(bank, 0, 5) == 2;
    assert LeftmostMax(bank, 0, 6) == 2;
    assert LeftmostMax(bank, 0, 7) == 2;
    assert LeftmostMax(bank, 0, 8) == 2;
    assert LeftmostMax(bank, 0, 9) == 2;
    assert LeftmostMax(bank, 0, 10) == 2;
    assert LeftmostMax(bank, 0, 11) == 2;
    assert LeftmostMax(bank, 0, 12) == 2;
    assert LeftmostMax(bank, 0, 13) == 2;
    assert LeftmostMax(bank, 0, 14) == 13;
    GreedyValueStep(bank, 14, 1, 15, 14, 8, 1, 0);
    GreedyValueStep(bank, 0, 2, 14, 13, 7, 10, 8);
  }

  lemma PairExample4Steps(bank: string)
    requires Bank4(bank)
    ensures GreedyValue(bank, 2) == 92
  {
    assert |bank| == 15 && AllDigits(bank);
    assert LeftmostMax(bank, 0, 2) == 0;
    assert LeftmostMax(bank, 0, 3) == 0;
    assert LeftmostMax(bank, 0, 4) == 0;
    assert LeftmostMax(bank, 0, 5) == 0;
    assert LeftmostMax(bank, 0, 6) == 0;
    assert LeftmostMax(bank, 0, 7) == 6;
    assert LeftmostMax(bank, 0, 8) == 6;
    assert LeftmostMax(bank, 0, 9) == 6;
    assert LeftmostMax(bank, 0, 10) == 6;
    assert LeftmostMax(bank, 0, 11) == 6;
    assert LeftmostMax(bank, 0, 12) == 6;
    assert LeftmostMax(bank, 0, 13) == 6;
    assert LeftmostMax(bank, 0, 14) == 6;
    assert LeftmostMax(bank, 7, 9) == 7;
    assert LeftmostMax(bank, 7, 10) == 7;
    assert LeftmostMax(bank, 7, 11) == 7;
    assert LeftmostMax(bank, 7, 12) == 11;
    assert LeftmostMax(bank, 7, 13) == 11;
    assert LeftmostMax(bank, 7, 14) == 11;
    assert LeftmostMax(bank, 7, 15) == 11;
    GreedyValueStep(bank, 7, 1, 15, 11, 2, 1, 0);
    GreedyValueStep(bank, 0, 2, 14, 6, 9, 10, 2);
  }

  lemma TwelveExample1Tail(bank: string)
    requires Bank1(bank)
    ensures GreedyValueFrom(bank, 6, 6) == 321111
  {
    assert |bank| == 15 && AllDigits(bank);
    assert LeftmostMax(bank, 6, 8) == 6;
    assert LeftmostMax(bank, 6, 9) == 6;
    assert LeftmostMax(bank, 6, 10) == 6;
    assert LeftmostMax(bank, 7, 9) == 7;
    assert LeftmostMax(bank, 7, 10) == 7;
    assert LeftmostMax(bank, 7, 11) == 7;
    assert LeftmostMax(bank, 8, 10) == 8;
    assert LeftmostMax(bank, 8, 11) == 8;
    assert LeftmostMax(bank, 8, 12) == 8;
    assert LeftmostMax(bank, 9, 11) == 9;
    assert LeftmostMax(bank, 9, 12) == 9;
    assert LeftmostMax(bank, 9, 13) == 9;
    assert LeftmostMax(bank, 10, 12) == 10;
    assert LeftmostMax(bank, 10, 13) == 10;
    assert LeftmostMax(bank, 10, 14) == 10;
    assert LeftmostMax(bank, 11, 13) == 11;
    assert LeftmostMax(bank, 11, 14) == 11;
    assert LeftmostMax(bank, 11, 15) == 11;
    GreedyValueStep(bank, 11, 1, 15, 11, 1, 1, 0);
    GreedyValueStep(bank, 10, 2, 14, 10, 1, 10, 1);
    GreedyValueStep(bank, 9, 3, 13, 9, 1, 100, 11);
    GreedyValueStep(bank, 8, 4, 12, 8, 1, 1000, 111);
    GreedyValueStep(bank, 7, 5, 11, 7, 2, 10000, 1111);
    GreedyValueStep(bank, 6, 6, 10, 6, 3, 100000, 21111);
  }

  lemma TwelveExample1Middle(bank: string)
    requires Bank1(bank)
    ensures GreedyValueFrom(bank, 3, 9) == 654321111
  {
    assert |bank| == 15 && AllDigits(bank);
    TwelveExample1Tail(bank);
    assert LeftmostMax(bank, 3, 5) == 3;
    assert LeftmostMax(bank, 3, 6) == 3;
    assert LeftmostMax(bank, 3, 7) == 3;
    assert LeftmostMax(bank, 4, 6) == 4;
    assert LeftmostMax(bank, 4, 7) == 4;
    assert LeftmostMax(bank, 4, 8) == 4;
    assert LeftmostMax(bank, 5, 7) == 5;
    assert LeftmostMax(bank, 5, 8) == 5;
    assert LeftmostMax(bank, 5, 9) == 5;
    GreedyValueStep(bank, 5, 7, 9, 5, 4, 1000000, 321111);
    GreedyValueStep(bank, 4, 8, 8, 4, 5, 10000000, 4321111);
    GreedyValueStep(bank, 3, 9, 7, 3, 6, 100000000, 54321111);
  }

  lemma TwelveExample1Head(bank: string)
    requires Bank1(bank)
    ensures GreedyValue(bank, 12) == 987654321111
  {
    assert |bank| == 15 && AllDigits(bank);
    TwelveExample1Middle(bank);
    assert LeftmostMax(bank, 0, 2) == 0;
    assert LeftmostMax(bank, 0, 3) == 0;
    assert LeftmostMax(bank, 0, 4) == 0;
    assert LeftmostMax(bank, 1, 3) == 1;
    assert LeftmostMax(bank, 1, 4) == 1;
    assert LeftmostMax(bank, 1, 5) == 1;
    assert LeftmostMax(bank, 2, 4) == 2;
    assert LeftmostMax(bank, 2, 5) == 2;
    assert LeftmostMax(bank, 2, 6) == 2;
    GreedyValueStep(bank, 2, 10, 6, 2, 7, 1000000000, 654321111);
    GreedyValueStep(bank, 1, 11, 5, 1, 8, 10000000000, 7654321111);
    GreedyValueStep(bank, 0, 12, 4, 0, 9, 100000000000, 87654321111);
  }

  lemma TwelveExample2Tail(bank: string)
    requires Bank2(bank)
    ensures GreedyValueFrom(bank, 6, 6) == 111119
  {
    assert |bank| == 15 && AllDigits(bank);
    assert LeftmostMax(bank, 6, 8) == 6;
    assert LeftmostMax(bank, 6, 9) == 6;
    assert LeftmostMax(bank, 6, 10) == 6;
    assert LeftmostMax(bank, 7, 9) == 7;
    assert LeftmostMax(bank, 7, 10) == 7;
    assert LeftmostMax(bank, 7, 11) == 7;
    assert LeftmostMax(bank, 8, 10) == 8;
    assert LeftmostMax(bank, 8, 11) == 8;
    assert LeftmostMax(bank, 8, 12) == 8;
    assert LeftmostMax(bank, 9, 11) == 9;
    assert LeftmostMax(bank, 9, 12) == 9;
    assert LeftmostMax(bank, 9, 13) == 9;
    assert LeftmostMax(bank, 10, 12) == 10;
    assert LeftmostMax(bank, 10, 13) == 10;
    assert LeftmostMax(bank, 10, 14) == 10;
    assert LeftmostMax(bank, 11, 13) == 11;
    assert LeftmostMax(bank, 11, 14) == 11;
    assert LeftmostMax(bank, 11, 15) == 14;
    GreedyValueStep(bank, 11, 1, 15, 14, 9, 1, 0);
    GreedyValueStep(bank, 10, 2, 14, 10, 1, 10, 9);
    GreedyValueStep(bank, 9, 3, 13, 9, 1, 100, 19);
    GreedyValueStep(bank, 8, 4, 12, 8, 1, 1000, 119);
    GreedyValueStep(bank, 7, 5, 11, 7, 1, 10000, 1119);
    GreedyValueStep(bank, 6, 6, 10, 6, 1, 100000, 11119);
  }

  lemma TwelveExample2Middle(bank: string)
    requires Bank2(bank)
    ensures GreedyValueFrom(bank, 3, 9) == 111111119
  {
    assert |bank| == 15 && AllDigits(bank);
    TwelveExample2Tail(bank);
    assert LeftmostMax(bank, 3, 5) == 3;
    assert LeftmostMax(bank, 3, 6) == 3;
    assert LeftmostMax(bank, 3, 7) == 3;
    assert LeftmostMax(bank, 4, 6) == 4;
    assert LeftmostMax(bank, 4, 7) == 4;
    assert LeftmostMax(bank, 4, 8) == 4;
    assert LeftmostMax(bank, 5, 7) == 5;
    assert LeftmostMax(bank, 5, 8) == 5;
    assert LeftmostMax(bank, 5, 9) == 5;
    GreedyValueStep(bank, 5, 7, 9, 5, 1, 1000000, 111119);
    GreedyValueStep(bank, 4, 8, 8, 4, 1, 10000000, 1111119);
    GreedyValueStep(bank, 3, 9, 7, 3, 1, 100000000, 11111119);
  }

  lemma TwelveExample2Head(bank: string)
    requires Bank2(bank)
    ensures GreedyValue(bank, 12) == 811111111119
  {
    assert |bank| == 15 && AllDigits(bank);
    TwelveExample2Middle(bank);
    assert LeftmostMax(bank, 0, 2) == 0;
    assert LeftmostMax(bank, 0, 3) == 0;
    assert LeftmostMax(bank, 0, 4) == 0;
    assert LeftmostMax(bank, 1, 3) == 1;
    assert LeftmostMax(bank, 1, 4) == 1;
    assert LeftmostMax(bank, 1, 5) == 1;
    assert LeftmostMax(bank, 2, 4) == 2;
    assert LeftmostMax(bank, 2, 5) == 2;
    assert LeftmostMax(bank, 2, 6) == 2;
    GreedyValueStep(bank, 2, 10, 6, 2, 1, 1000000000, 111111119);
    GreedyValueStep(bank, 1, 11, 5, 1, 1, 10000000000, 1111111119);
    GreedyValueStep(bank, 0, 12, 4, 0, 8, 100000000000, 11111111119);
  }

  lemma TwelveExample3Tail(bank: string)
    requires Bank3(bank)
    ensures GreedyValueFrom(bank, 9, 6) == 234278
  {
    assert |bank| == 15 && AllDigits(bank);
    GreedyValueStep(bank, 14, 1, 15, 14, 8, 1, 0);
    GreedyValueStep(bank, 13, 2, 14, 13, 7, 10, 8);
    GreedyValueStep(bank, 12, 3, 13, 12, 2, 100, 78);
    GreedyValueStep(bank, 11, 4, 12, 11, 4, 1000, 278);
    GreedyValueStep(bank, 10, 5, 11, 10, 3, 10000, 4278);
    GreedyValueStep(bank, 9, 6, 10, 9, 2, 100000, 34278);
  }

  lemma TwelveExample3Head(bank: string)
    requires Bank3(bank)
    ensures GreedyValue(bank, 12) == 434234234278
  {
    assert |bank| == 15 && AllDigits(bank);
    TwelveExample3Tail(bank);
    assert LeftmostMax(bank, 0, 2) == 1;
    assert LeftmostMax(bank, 0, 3) == 2;
    assert LeftmostMax(bank, 0, 4) == 2;
    assert LeftmostMax(bank, 3, 5) == 4;
    GreedyValueStep(bank, 8, 7, 9, 8, 4, 1000000, 234278);
    GreedyValueStep(bank, 7, 8, 8, 7, 3, 10000000, 4234278);
    GreedyValueStep(bank, 6, 9, 7, 6, 2, 100000000, 34234278);
    GreedyValueStep(bank, 5, 10, 6, 5, 4, 1000000000, 234234278);
    GreedyValueStep(bank, 3, 11, 5, 4, 3, 10000000000, 4234234278);
    GreedyValueStep(bank, 0, 12, 4, 2, 4, 100000000000, 34234234278);
  }

  lemma TwelveExample4Tail(bank: string)
    requires Bank4(bank)
    ensures GreedyValueFrom(bank, 9, 6) == 112111
  {
    assert |bank| == 15 && AllDigits(bank);
    GreedyValueStep(bank, 14, 1, 15, 14, 1, 1, 0);
    GreedyValueStep(bank, 13, 2, 14, 13, 1, 10, 1);
    GreedyValueStep(bank, 12, 3, 13, 12, 1, 100, 11);
    GreedyValueStep(bank, 11, 4, 12, 11, 2, 1000, 111);
    GreedyValueStep(bank, 10, 5, 11, 10, 1, 10000, 2111);
    GreedyValueStep(bank, 9, 6, 10, 9, 1, 100000, 12111);
  }

  lemma TwelveExample4Head(bank: string)
    requires Bank4(bank)
    ensures GreedyValue(bank, 12) == 888911112111
  {
    assert |bank| == 15 && AllDigits(bank);
    TwelveExample4Tail(bank);
    assert LeftmostMax(bank, 0, 2) == 0;
    assert LeftmostMax(bank, 0, 3) == 0;
    assert LeftmostMax(bank, 0, 4) == 0;
    assert LeftmostMax(bank, 1, 3) == 2;
    assert LeftmostMax(bank, 1, 4) == 2;
    assert LeftmostMax(bank, 1, 5) == 2;
    assert LeftmostMax(bank, 3, 5) == 4;
    assert LeftmostMax(bank, 3, 6) == 4;
    assert LeftmostMax(bank, 5, 7) == 6;
    GreedyValueStep(bank, 8, 7, 9, 8, 1, 1000000, 112111);
    GreedyValueStep(bank, 7, 8, 8, 7, 1, 10000000, 1112111);
    GreedyValueStep(bank, 5, 9, 7, 6, 9, 100000000, 11112111);
    GreedyValueStep(bank, 3, 10, 6, 4, 8, 1000000000, 911112111);
    GreedyValueStep(bank, 1, 11, 5, 2, 8, 10000000000, 8911112111);
    GreedyValueStep(bank, 0, 12, 4, 0, 8, 100000000000, 88911112111);
  }

  // ---------------------------------------------------------------------
  // The examples of the tests, on the literal banks

  /** `987654321111111`, one character at a time. */
  predicate Bank1(bank: string) {
    |bank| == 15 && bank[0] == '9' && bank[1] == '8' && bank[2] == '7' && bank[3] == '6' && bank[4] == '5' && bank[5] == '4' && bank[6] == '3' && bank[7] == '2' && bank[8] == '1' && bank[9] == '1' && bank[10] == '1' && bank[11] == '1' && bank[12] == '1' && bank[13] == '1' && bank[14] == '1'
  }

  lemma Bank1Spelled(bank: string)
    requires bank == "987654321111111"
    ensures Bank1(bank)
  {
  }

  /** `811111111111119`, one character at a time. */
  predicate Bank2(bank: string) {
    |bank| == 15 && bank[0] == '8' && bank[1] == '1' && bank[2] == '1' && bank[3] == '1' && bank[4] == '1' && bank[5] == '1' && bank[6] == '1' && bank[7] == '1' && bank[8] == '1' && bank[9] == '1' && bank[10] == '1' && bank[11] == '1' && bank[12] == '1' && bank[13] == '1' && bank[14] == '9'
  }

  lemma Bank2Spelled(bank: string)
    requires bank == "811111111111119"
    ensures Bank2(bank)
  {
  }

  /** `234234234234278`, one character at a time. */
  predicate Bank3(bank: string) {
    |bank| == 15 && bank[0] == '2' && bank[1] == '3' && bank[2] == '4' && bank[3] == '2' && bank[4] == '3' && bank[5] == '4' && bank[6] == '2' && bank[7] == '3' && bank[8] == '4' && bank[9] == '2' && bank[10] == '3' && bank[11] == '4' && bank[12] == '2' && bank[13] == '7' && bank[14] == '8'
  }

  lemma Bank3Spelled(bank: string)
    requires bank == "234234234234278"
    ensures Bank3(bank)
  {
  }

  /** `818181911112111`, one character at a time. */
  predicate Bank4(bank: string) {
    |bank| == 15 && bank[0] == '8' && bank[1] == '1' && bank[2] == '8' && bank[3] == '1' && bank[4] == '8' && bank[5] == '1' && bank[6] == '9' && bank[7] == '1' && bank[8] == '1' && bank[9] == '1' && bank[10] == '1' && bank[11] == '2' && bank[12] == '1' && bank[13] == '1' && bank[14] == '1'
  }

  lemma Bank4Spelled(bank: string)
    requires bank == "818181911112111"
    ensures Bank4(bank)
  {
  }

  /** The best pair of `987654321111111` is 98. */
  lemma PairExample1(bank: string)
    requires bank == "987654321111111"
    ensures GreedyValue(bank, 2) == 98
  {
    Bank1Spelled(bank);
    PairExample1Steps(bank);
  }

  /** The best pair of `811111111111119` is 89. */
  lemma PairExample2(bank: string)
    requires bank == "811111111111119"
    ensures GreedyValue(bank, 2) == 89
  {
    Bank2Spelled(bank);
    PairExample2Steps(bank);
  }

  /** The best pair of `234234234234278` is 78. */
  lemma PairExample3(bank: string)
    requires bank == "234234234234278"
    ensures GreedyValue(bank, 2) == 78
  {
    Bank3Spelled(bank);
    PairExample3Steps(bank);
  }

  /** The best pair of `818181911112111` is 92. */
  lemma PairExample4(bank: string)
    requires bank == "818181911112111"
    ensures GreedyValue(bank, 2) == 92
  {
    Bank4Spelled(bank);
    PairExample4Steps(bank);
  }

  /** Twelve batteries of `987654321111111` give 987654321111. */
  lemma TwelveExample1(bank: string)
    requires bank == "987654321111111"
    ensures GreedyValue(bank, 12) == 987654321111
  {
    Bank1Spelled(bank);
    TwelveExample1Head(bank);
  }

  /** Twelve batteries of `811111111111119` give 811111111119. */
  lemma TwelveExample2(bank: string)
    requires bank == "811111111111119"
    ensures GreedyValue(bank, 12) == 811111111119
  {
    Bank2Spelled(bank);
    TwelveExample2Head(bank);
  }

  /** Twelve batteries of `234234234234278` give 434234234278. */
  lemma TwelveExample3(bank: string)
    requires bank == "234234234234278"
    ensures GreedyValue(bank, 12) == 434234234278
  {
    Bank3Spelled(bank);
    TwelveExample3Head(bank);
  }

  /** Twelve batteries of `818181911112111` give 888911112111. */
  lemma TwelveExample4(bank: string)
    requires bank == "818181911112111"
    ensures GreedyValue(bank, 12) == 888911112111
  {
    Bank4Spelled(bank);
    TwelveExample4Head(bank);
  }
}
