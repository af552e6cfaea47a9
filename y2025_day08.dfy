/** 2025 day 8: junction boxes are joined, closest pair first, into circuits
    kept in a union-find forest (union by rank, path compression). */
module Circuits {
  import opened Common

  // ---------------------------------------------------------------------
  // Classes of equal values in a sequence
  // ---------------------------------------------------------------------

  /** The values of `s` in order of first appearance: the key order of a
      dictionary filled from `s`. */
  function FirstOccurrences(s: seq<int>): seq<int>
  {
    if s == [] then []
    else
      var d := FirstOccurrences(s[..|s| - 1]);
      if s[|s| - 1] in s[..|s| - 1] then d else d + [s[|s| - 1]]
  }

  ghost predicate Distinct(s: seq<int>)
  {
    forall i, j :: 0 <= i < j < |s| ==> s[i] != s[j]
  }

  lemma {:induction false} FirstOccurrencesMeaning(s: seq<int>)
    ensures Distinct(FirstOccurrences(s))
    ensures forall x :: x in FirstOccurrences(s) <==> x in s
  {
    if s != [] {
      var init := s[..|s| - 1];
      FirstOccurrencesMeaning(init);
      assert s == init + [s[|s| - 1]];
    }
  }

  /** A sequence without repetitions has one element per value. */
  lemma {:induction false} DistinctCard(d: seq<int>)
    requires Distinct(d)
    ensures |set x | x in d| == |d|
  {
    if d != [] {
      var init := d[..|d| - 1];
      DistinctCard(init);
      assert (set x | x in d) == (set x | x in init) + {d[|d| - 1]};
    }
  }

  /** A value of a sequence without repetitions occurs exactly once. */
  lemma {:induction false} CountDistinct(d: seq<int>, x: int)
    requires Distinct(d)
    ensures Count(d, x) == if x in d then 1 else 0
  {
    if d != [] {
      var init := d[..|d| - 1];
      CountDistinct(init, x);
      assert d == init + [d[|d| - 1]];
      CountZero(init, x);
    }
  }

  lemma CountSnoc(s: seq<int>, x: int, y: int)
    ensures Count(s + [x], y) == Count(s, y) + (if x == y then 1 else 0)
  {
    assert (s + [x])[..|s|] == s;
  }

  /** How many elements of `s` equal each value of `d`. */
  function Counts(d: seq<int>, s: seq<int>): seq<int>
  {
    seq(|d|, k requires 0 <= k < |d| => Count(s, d[k]))
  }

  /** The size of each class of equal values, classes in order of first
      appearance. */
  function ClassSizes(s: seq<int>): seq<int>
  {
    Counts(FirstOccurrences(s), s)
  }

  lemma {:induction false} SumCountsSnoc(d: seq<int>, s: seq<int>, x: int)
    ensures Sum(Counts(d, s + [x])) == Sum(Counts(d, s)) + Count(d, x)
  {
    if d != [] {
      var init := d[..|d| - 1];
      SumCountsSnoc(init, s, x);
      assert Counts(d, s + [x])[..|d| - 1] == Counts(init, s + [x]);
      assert Counts(d, s)[..|d| - 1] == Counts(init, s);
      CountSnoc(s, x, d[|d| - 1]);
    }
  }

  /** The classes of `s` together hold all of its elements. */
  lemma {:induction false} ClassSizesSum(s: seq<int>)
    ensures Sum(ClassSizes(s)) == |s|
  {
    if s != [] {
      var init := s[..|s| - 1];
      var x := s[|s| - 1];
      assert s == init + [x];
      var d := FirstOccurrences(init);
      ClassSizesSum(init);
      FirstOccurrencesMeaning(init);
      SumCountsSnoc(d, init, x);
      CountDistinct(d, x);
      if x !in init {
        assert Counts(d + [x], s)[..|d|] == Counts(d, s);
        CountSnoc(init, x, x);
        CountZero(init, x);
      }
    }
  }

  /** Every class holds at least one element. */
  lemma ClassSizesPositive(s: seq<int>)
    ensures forall k :: 0 <= k < |ClassSizes(s)| ==> ClassSizes(s)[k] >= 1
  {
    FirstOccurrencesMeaning(s);
    forall k | 0 <= k < |ClassSizes(s)|
      ensures ClassSizes(s)[k] >= 1
    {
      CountZero(s, FirstOccurrences(s)[k]);
    }
  }

  /** `t` is `s` with every value renamed by `g`, and `g` tells the values of
      `s` apart. */
  ghost predicate Renamed(s: seq<int>, t: seq<int>, g: int -> int)
  {
    |s| == |t|
    && (forall i :: 0 <= i < |s| ==> t[i] == g(s[i]))
    && (forall i, j :: 0 <= i < |s| && 0 <= j < |s| && g(s[i]) == g(s[j]) ==> s[i] == s[j])
  }

  lemma {:induction false} RenamedCount(s: seq<int>, t: seq<int>, g: int -> int, j: int)
    requires Renamed(s, t, g) && 0 <= j < |s|
    ensures Count(t, g(s[j])) == Count(s, s[j])
  {
    var n := |s| - 1;
    assert Renamed(s[..n], t[..n], g) by {
      RenamedPrefix(s, t, g);
    }
    assert Count(s, s[j]) == Count(s[..n], s[j]) + (if s[n] == s[j] then 1 else 0);
    assert Count(t, g(s[j])) == Count(t[..n], g(s[j])) + (if t[n] == g(s[j]) then 1 else 0);
    if j < n {
      RenamedCount(s[..n], t[..n], g, j);
    } else if exists i :: 0 <= i < n && s[i] == s[n] {
      var i :| 0 <= i < n && s[i] == s[n];
      RenamedCount(s[..n], t[..n], g, i);
    } else {
      assert s[n] !in s[..n];
      assert g(s[n]) !in t[..n];
      CountZero(s[..n], s[n]);
      CountZero(t[..n], g(s[n]));
    }
  }

  lemma RenamedPrefix(s: seq<int>, t: seq<int>, g: int -> int)
    requires Renamed(s, t, g) && s != []
    ensures Renamed(s[..|s| - 1], t[..|s| - 1], g)
  {
  }

  /** Renaming values one-to-one renames the classes and keeps their sizes. */
  lemma {:induction false} RenamedClasses(s: seq<int>, t: seq<int>, g: int -> int)
    requires Renamed(s, t, g)
    ensures |FirstOccurrences(t)| == |FirstOccurrences(s)|
    ensures forall k :: 0 <= k < |FirstOccurrences(s)| ==>
      FirstOccurrences(t)[k] == g(FirstOccurrences(s)[k])
  {
    if s != [] {
      var n := |s| - 1;
      assert Renamed(s[..n], t[..n], g);
      RenamedClasses(s[..n], t[..n], g);
      if s[n] in s[..n] {
        var i :| 0 <= i < n && s[i] == s[n];
        assert t[i] == t[n];
      } else {
        forall i | 0 <= i < n
          ensures t[i] != t[n]
        {
          assert s[i] != s[n];
        }
      }
    }
  }

  lemma RenamedSizes(s: seq<int>, t: seq<int>, g: int -> int)
    requires Renamed(s, t, g)
    ensures ClassSizes(t) == ClassSizes(s)
  {
    RenamedClasses(s, t, g);
    FirstOccurrencesMeaning(s);
    forall k | 0 <= k < |ClassSizes(s)|
      ensures ClassSizes(t)[k] == ClassSizes(s)[k]
    {
      var d := FirstOccurrences(s);
      assert d[k] in d;
      var j :| 0 <= j < |s| && s[j] == d[k];
      RenamedCount(s, t, g, j);
    }
  }

  /** Renaming a value `b` into another value `a` merges their classes. */
  lemma {:induction false} MergedCount(s: seq<int>, t: seq<int>, a: int, b: int)
    requires |s| == |t| && a != b
    requires forall i :: 0 <= i < |s| ==> t[i] == if s[i] == b then a else s[i]
    ensures Count(t, a) == Count(s, a) + Count(s, b)
    ensures Count(t, b) == 0
    ensures forall r :: r != a && r != b ==> Count(t, r) == Count(s, r)
  {
    if s != [] {
      var n := |s| - 1;
      MergedCount(s[..n], t[..n], a, b);
      assert s == s[..n] + [s[n]] && t == t[..n] + [t[n]];
      forall r
        ensures Count(t, r) == Count(t[..n], r) + (if t[n] == r then 1 else 0)
        ensures Count(s, r) == Count(s[..n], r) + (if s[n] == r then 1 else 0)
      {
        CountSnoc(t[..n], t[n], r);
        CountSnoc(s[..n], s[n], r);
      }
    }
  }

  // ---------------------------------------------------------------------
  // The union-find forest as values
  // ---------------------------------------------------------------------

  /** The largest rank (0 for none). */
  function MaxRank(rank: seq<nat>): nat
  {
    if rank == [] then 0
    else
      var m := MaxRank(rank[..|rank| - 1]);
      if rank[|rank| - 1] > m then rank[|rank| - 1] else m
  }

  lemma {:induction false} MaxRankBound(rank: seq<nat>, i: int)
    requires 0 <= i < |rank|
    ensures rank[i] <= MaxRank(rank)
  {
    if i < |rank| - 1 {
      MaxRankBound(rank[..|rank| - 1], i);
    }
  }

  /** Every parent link stays among the elements and climbs strictly in
      rank, so following parents always ends at a root. */
  ghost predicate Forest(parent: seq<int>, rank: seq<nat>)
  {
    |parent| == |rank|
    && (forall i :: 0 <= i < |parent| ==> 0 <= parent[i] < |parent|)
    && (forall i :: 0 <= i < |parent| && parent[i] != i ==> rank[i] < rank[parent[i]])
  }

  /** The root `find` reaches from `x`: a root, and above `x` in rank unless
      it is `x` itself. */
  ghost function Root(parent: seq<int>, rank: seq<nat>, x: int): (r: int)
    requires Forest(parent, rank) && 0 <= x < |parent|
    ensures 0 <= r < |parent| && parent[r] == r
    ensures r == x || rank[x] < rank[r]
    decreases MaxRank(rank) - rank[x]
  {
    if parent[x] == x then x
    else
      MaxRankBound(rank, parent[x]);
      Root(parent, rank, parent[x])
  }

  /** `a` and `b` are in the same circuit. */
  ghost predicate Same(parent: seq<int>, rank: seq<nat>, a: int, b: int)
    requires Forest(parent, rank) && 0 <= a < |parent| && 0 <= b < |parent|
  {
    Root(parent, rank, a) == Root(parent, rank, b)
  }

  /** `a` lies in the circuit of `x` and `b` in that of `y`, or the reverse. */
  ghost predicate Joined(parent: seq<int>, rank: seq<nat>, x: int, y: int, a: int, b: int)
    requires Forest(parent, rank)
    requires 0 <= x < |parent| && 0 <= y < |parent| && 0 <= a < |parent| && 0 <= b < |parent|
  {
    (Same(parent, rank, a, x) && Same(parent, rank, b, y))
    || (Same(parent, rank, a, y) && Same(parent, rank, b, x))
  }

  /** The root of every element, element by element. */
  ghost function RootSeq(parent: seq<int>, rank: seq<nat>): (s: seq<int>)
    requires Forest(parent, rank)
    ensures |s| == |parent|
  {
    seq(|parent|, i requires 0 <= i < |parent| && Forest(parent, rank) => Root(parent, rank, i))
  }

  /** The roots: one per circuit. */
  function Roots(parent: seq<int>): set<int>
  {
    set r | 0 <= r < |parent| && parent[r] == r
  }

  /** The size stored at each root is the number of elements below it. */
  ghost predicate SizesMatch(parent: seq<int>, rank: seq<nat>, size: seq<nat>)
    requires Forest(parent, rank)
  {
    |size| == |parent|
    && forall r :: 0 <= r < |parent| && parent[r] == r ==> size[r] == Count(RootSeq(parent, rank), r)
  }

  /** The stored sizes of the circuits, circuits in order of their smallest
      element. */
  ghost function CircuitSizes(parent: seq<int>, rank: seq<nat>, size: seq<nat>): seq<int>
    requires Forest(parent, rank) && |size| == |parent|
  {
    var d := FirstOccurrences(RootSeq(parent, rank));
    CircuitRoots(parent, rank);
    assert forall k :: 0 <= k < |d| ==> d[k] in d;
    seq(|d|, k requires 0 <= k < |d| && 0 <= d[k] < |size| => size[d[k]])
  }

  /** Each circuit is named by a root. */
  lemma CircuitRoots(parent: seq<int>, rank: seq<nat>)
    requires Forest(parent, rank)
    ensures forall r :: r in FirstOccurrences(RootSeq(parent, rank)) ==> 0 <= r < |parent| && parent[r] == r
  {
    FirstOccurrencesMeaning(RootSeq(parent, rank));
  }

  lemma CircuitSizesAreClassSizes(parent: seq<int>, rank: seq<nat>, size: seq<nat>)
    requires Forest(parent, rank) && SizesMatch(parent, rank, size)
    ensures CircuitSizes(parent, rank, size) == ClassSizes(RootSeq(parent, rank))
  {
    CircuitRoots(parent, rank);
    var d := FirstOccurrences(RootSeq(parent, rank));
    assert forall k :: 0 <= k < |d| ==> d[k] in d;
  }

  /** The stored circuit sizes add up to the number of boxes. */
  lemma CircuitSizesSum(parent: seq<int>, rank: seq<nat>, size: seq<nat>)
    requires Forest(parent, rank) && SizesMatch(parent, rank, size)
    ensures Sum(CircuitSizes(parent, rank, size)) == |parent|
  {
    CircuitSizesAreClassSizes(parent, rank, size);
    ClassSizesSum(RootSeq(parent, rank));
  }

  lemma RootOfRoot(parent: seq<int>, rank: seq<nat>, r: int)
    requires Forest(parent, rank) && 0 <= r < |parent| && parent[r] == r
    ensures Root(parent, rank, r) == r
  {
  }

  /** There are as many circuits as roots. */
  lemma {:induction false} RootsAreCircuits(parent: seq<int>, rank: seq<nat>)
    requires Forest(parent, rank)
    ensures |Roots(parent)| == |FirstOccurrences(RootSeq(parent, rank))|
  {
    var s := RootSeq(parent, rank);
    FirstOccurrencesMeaning(s);
    DistinctCard(FirstOccurrences(s));
    forall r | r in Roots(parent)
      ensures r in s
    {
      RootOfRoot(parent, rank, r);
      assert s[r] == r;
    }
    assert Roots(parent) == set x | x in FirstOccurrences(s);
  }

  // Path compression

  lemma CompressForest(parent: seq<int>, rank: seq<nat>, x: int)
    requires Forest(parent, rank) && 0 <= x < |parent|
    ensures Forest(parent[x := Root(parent, rank, x)], rank)
  {
  }

  /** Pointing `x` straight at its root changes no element's root. */
  lemma {:induction false} CompressKeepsRoot(parent: seq<int>, rank: seq<nat>, x: int, y: int)
    requires Forest(parent, rank) && 0 <= x < |parent| && 0 <= y < |parent|
    requires Forest(parent[x := Root(parent, rank, x)], rank)
    ensures Root(parent[x := Root(parent, rank, x)], rank, y) == Root(parent, rank, y)
    decreases MaxRank(rank) - rank[y]
  {
    var r := Root(parent, rank, x);
    var p := parent[x := r];
    if y == x {
      if r != x {
        assert p[r] == r;
      }
    } else if parent[y] != y {
      MaxRankBound(rank, parent[y]);
      CompressKeepsRoot(parent, rank, x, parent[y]);
    }
  }

  /** After compressing `x`, every root is where it was and so is every size. */
  lemma CompressKeepsCircuits(parent: seq<int>, rank: seq<nat>, size: seq<nat>, x: int)
    requires Forest(parent, rank) && SizesMatch(parent, rank, size) && 0 <= x < |parent|
    ensures Forest(parent[x := Root(parent, rank, x)], rank)
    ensures RootSeq(parent[x := Root(parent, rank, x)], rank) == RootSeq(parent, rank)
    ensures Roots(parent[x := Root(parent, rank, x)]) == Roots(parent)
    ensures SizesMatch(parent[x := Root(parent, rank, x)], rank, size)
  {
    CompressForest(parent, rank, x);
    forall y | 0 <= y < |parent|
      ensures Root(parent[x := Root(parent, rank, x)], rank, y) == Root(parent, rank, y)
    {
      CompressKeepsRoot(parent, rank, x, y);
    }
  }

  // Linking two roots

  /** Ranks after hanging root `py` under root `px`. */
  function Bump(rank: seq<nat>, px: int, py: int): seq<nat>
    requires 0 <= px < |rank| && 0 <= py < |rank|
  {
    if rank[px] == rank[py] then rank[px := rank[px] + 1] else rank
  }

  ghost predicate Linkable(parent: seq<int>, rank: seq<nat>, px: int, py: int)
  {
    Forest(parent, rank) && 0 <= px < |parent| && 0 <= py < |parent| && px != py
    && parent[px] == px && parent[py] == py && rank[px] >= rank[py]
  }

  lemma LinkForest(parent: seq<int>, rank: seq<nat>, px: int, py: int)
    requires Linkable(parent, rank, px, py)
    ensures Forest(parent[py := px], Bump(rank, px, py))
  {
  }

  /** Hanging `py` under `px` moves `py`'s whole circuit to `px` and nothing else. */
  lemma {:induction false} LinkRoot(parent: seq<int>, rank: seq<nat>, px: int, py: int, z: int)
    requires Linkable(parent, rank, px, py) && 0 <= z < |parent|
    requires Forest(parent[py := px], Bump(rank, px, py))
    ensures Root(parent[py := px], Bump(rank, px, py), z)
      == if Root(parent, rank, z) == py then px else Root(parent, rank, z)
    decreases MaxRank(rank) - rank[z]
  {
    var p := parent[py := px];
    var rk := Bump(rank, px, py);
    if z == py {
      assert Root(p, rk, z) == Root(p, rk, px);
    } else if parent[z] != z {
      MaxRankBound(rank, parent[z]);
      LinkRoot(parent, rank, px, py, parent[z]);
    }
  }

  /** Linking merges the two circuits: roots, counts, stored sizes and the
      number of circuits follow. */
  lemma LinkCircuits(parent: seq<int>, rank: seq<nat>, size: seq<nat>, px: int, py: int)
    requires Linkable(parent, rank, px, py) && SizesMatch(parent, rank, size)
    ensures Forest(parent[py := px], Bump(rank, px, py))
    ensures forall z :: 0 <= z < |parent| ==>
      (Root(parent[py := px], Bump(rank, px, py), z) == if Root(parent, rank, z) == py then px else Root(parent, rank, z))
    ensures SizesMatch(parent[py := px], Bump(rank, px, py), size[px := size[px] + size[py]])
    ensures Roots(parent[py := px]) == Roots(parent) - {py}
  {
    var p := parent[py := px];
    var rk := Bump(rank, px, py);
    LinkForest(parent, rank, px, py);
    forall z | 0 <= z < |parent|
      ensures Root(p, rk, z) == if Root(parent, rank, z) == py then px else Root(parent, rank, z)
    {
      LinkRoot(parent, rank, px, py, z);
    }
    LinkSizes(parent, rank, size, px, py);
    assert Roots(p) == Roots(parent) - {py};
  }

  /** The stored sizes after linking: `px` counts both circuits. */
  lemma LinkSizes(parent: seq<int>, rank: seq<nat>, size: seq<nat>, px: int, py: int)
    requires Linkable(parent, rank, px, py) && SizesMatch(parent, rank, size)
    requires Forest(parent[py := px], Bump(rank, px, py))
    requires forall z :: 0 <= z < |parent| ==>
      (Root(parent[py := px], Bump(rank, px, py), z) == if Root(parent, rank, z) == py then px else Root(parent, rank, z))
    ensures SizesMatch(parent[py := px], Bump(rank, px, py), size[px := size[px] + size[py]])
  {
    var p := parent[py := px];
    var rk := Bump(rank, px, py);
    var before, after := RootSeq(parent, rank), RootSeq(p, rk);
    assert forall i :: 0 <= i < |before| ==> after[i] == if before[i] == py then px else before[i];
    MergedCount(before, after, px, py);
  }

  // ---------------------------------------------------------------------
  // Circuits as labels: the reference the forest is checked against
  // ---------------------------------------------------------------------

  /** Every pair names two of the `n` boxes. */
  ghost predicate InRange(n: nat, pairs: seq<(int, int)>)
  {
    forall k :: 0 <= k < |pairs| ==> 0 <= pairs[k].0 < n && 0 <= pairs[k].1 < n
  }

  /** Joining `a` and `b`: the circuit label of `b` becomes that of `a`. */
  function Relabel(l: seq<int>, a: int, b: int): (m: seq<int>)
    requires 0 <= a < |l| && 0 <= b < |l|
    ensures |m| == |l|
  {
    seq(|l|, i requires 0 <= i < |l| => if l[i] == l[b] then l[a] else l[i])
  }

  /** Circuit labels of the `n` boxes after joining `pairs` in order. */
  ghost function Labels(n: nat, pairs: seq<(int, int)>): (l: seq<int>)
    requires InRange(n, pairs)
    ensures |l| == n
  {
    if pairs == [] then seq(n, i => i)
    else
      var last := pairs[|pairs| - 1];
      Relabel(Labels(n, pairs[..|pairs| - 1]), last.0, last.1)
  }

  /** The sizes of the circuits after joining `pairs`. */
  ghost function ComponentSizes(n: nat, pairs: seq<(int, int)>): seq<int>
    requires InRange(n, pairs)
  {
    ClassSizes(Labels(n, pairs))
  }

  /** The number of circuits after joining `pairs`. */
  ghost function NumComponents(n: nat, pairs: seq<(int, int)>): nat
    requires InRange(n, pairs)
  {
    |FirstOccurrences(Labels(n, pairs))|
  }

  /** The forest puts two boxes in one circuit exactly when the labels agree. */
  ghost predicate Partitioned(parent: seq<int>, rank: seq<nat>, l: seq<int>)
    requires Forest(parent, rank)
  {
    |l| == |parent|
    && forall a, b :: 0 <= a < |parent| && 0 <= b < |parent| ==>
      (Same(parent, rank, a, b) <==> l[a] == l[b])
  }

  /** The circuits of the forest `(p2, r2)` are those of `(p1, r1)` with the
      circuits of `x` and `y` made one, and no other change. */
  ghost predicate Merged(p1: seq<int>, r1: seq<nat>, p2: seq<int>, r2: seq<nat>, x: int, y: int)
    requires Forest(p1, r1) && Forest(p2, r2) && |p1| == |p2| && 0 <= x < |p1| && 0 <= y < |p1|
  {
    forall a, b :: 0 <= a < |p1| && 0 <= b < |p1| ==>
      (Same(p2, r2, a, b) <==> Same(p1, r1, a, b) || Joined(p1, r1, x, y, a, b))
  }

  /** A union that merges the circuits of `x` and `y` matches relabelling. */
  lemma JoinRelabels(p1: seq<int>, r1: seq<nat>, p2: seq<int>, r2: seq<nat>, l: seq<int>, x: int, y: int)
    requires Forest(p1, r1) && Forest(p2, r2) && |p1| == |p2|
    requires 0 <= x < |p1| && 0 <= y < |p1| && Partitioned(p1, r1, l)
    requires Merged(p1, r1, p2, r2, x, y)
    ensures Partitioned(p2, r2, Relabel(l, x, y))
  {
  }

  /** When the forest and the labels agree, they agree on the number of
      circuits and on their sizes. */
  lemma PartitionedCircuits(parent: seq<int>, rank: seq<nat>, l: seq<int>)
    requires Forest(parent, rank) && Partitioned(parent, rank, l)
    ensures |Roots(parent)| == |FirstOccurrences(l)|
    ensures ClassSizes(l) == ClassSizes(RootSeq(parent, rank))
  {
    var s := RootSeq(parent, rank);
    var g := (r: int) => if 0 <= r < |l| then l[r] else 0;
    forall i | 0 <= i < |s|
      ensures l[i] == g(s[i])
    {
      RootOfRoot(parent, rank, s[i]);
      assert Same(parent, rank, i, s[i]);
    }
    forall i, j | 0 <= i < |s| && 0 <= j < |s| && g(s[i]) == g(s[j])
      ensures s[i] == s[j]
    {
      RootOfRoot(parent, rank, s[i]);
      RootOfRoot(parent, rank, s[j]);
      assert Same(parent, rank, s[i], s[j]);
    }
    assert Renamed(s, l, g);
    RenamedClasses(s, l, g);
    RenamedSizes(s, l, g);
    RootsAreCircuits(parent, rank);
  }

  /** Forests with the same roots element by element agree on every root. */
  lemma SameRoots(p1: seq<int>, p0: seq<int>, rank: seq<nat>, z: int)
    requires Forest(p0, rank) && Forest(p1, rank) && RootSeq(p1, rank) == RootSeq(p0, rank)
    requires 0 <= z < |p0|
    ensures Root(p1, rank, z) == Root(p0, rank, z)
  {
    assert RootSeq(p1, rank)[z] == RootSeq(p0, rank)[z];
  }

  /** Reading one more element adds it to the first occurrences when it is new. */
  lemma KeysStep(s: seq<int>, i: int, keys: seq<int>)
    requires 0 <= i < |s| && keys == FirstOccurrences(s[..i])
    ensures FirstOccurrences(s[..i + 1]) == if s[i] in keys then keys else keys + [s[i]]
  {
    var t := s[..i + 1];
    assert t[..|t| - 1] == s[..i] && t[|t| - 1] == s[i];
    FirstOccurrencesMeaning(s[..i]);
  }

  /** `sizeOf` is a dictionary with the keys `keys` holding each key's stored size. */
  ghost predicate Tabulates(sizeOf: map<int, int>, keys: seq<int>, size: seq<nat>)
  {
    (forall r :: r in sizeOf <==> r in keys)
    && (forall r :: r in sizeOf ==> 0 <= r < |size| && sizeOf[r] == size[r])
  }

  lemma TabulateStep(sizeOf: map<int, int>, keys: seq<int>, size: seq<nat>, root: int)
    requires Tabulates(sizeOf, keys, size) && 0 <= root < |size|
    ensures Tabulates(sizeOf[root := size[root]], if root in keys then keys else keys + [root], size)
  {
  }

  /** Reading the dictionary in key order gives the stored circuit sizes. */
  lemma TabulatedSizes(sizeOf: map<int, int>, parent: seq<int>, rank: seq<nat>, size: seq<nat>)
    requires Forest(parent, rank) && |size| == |parent|
    requires Tabulates(sizeOf, FirstOccurrences(RootSeq(parent, rank)), size)
    ensures var keys := FirstOccurrences(RootSeq(parent, rank));
      |CircuitSizes(parent, rank, size)| == |keys|
      && forall k :: 0 <= k < |keys| ==> keys[k] in sizeOf && CircuitSizes(parent, rank, size)[k] == sizeOf[keys[k]]
  {
    var keys := FirstOccurrences(RootSeq(parent, rank));
    forall k | 0 <= k < |keys|
      ensures keys[k] in sizeOf && CircuitSizes(parent, rank, size)[k] == sizeOf[keys[k]]
    {
      assert keys[k] in keys;
      CircuitRoots(parent, rank);
      assert CircuitSizes(parent, rank, size)[k] == size[keys[k]];
    }
  }

  /** Forests with the same roots element by element make the same circuits,
      so merging two boxes already in one circuit changes nothing. */
  lemma SameAll(p1: seq<int>, p0: seq<int>, rank: seq<nat>, x: int, y: int)
    requires Forest(p0, rank) && Forest(p1, rank) && RootSeq(p1, rank) == RootSeq(p0, rank)
    requires 0 <= x < |p0| && 0 <= y < |p0| && Same(p0, rank, x, y)
    ensures Merged(p0, rank, p1, rank, x, y)
  {
    forall z | 0 <= z < |p0|
      ensures Root(p1, rank, z) == Root(p0, rank, z)
    {
      SameRoots(p1, p0, rank, z);
    }
  }

  /** Linking the roots of `x` and `y` (found in `p0`, now compressed into
      `p1`) merges exactly the circuits of `x` and `y`. */
  lemma LinkJoins(p0: seq<int>, p1: seq<int>, rank: seq<nat>, size: seq<nat>, x: int, y: int, px: int, py: int)
    requires Forest(p0, rank) && Forest(p1, rank) && RootSeq(p1, rank) == RootSeq(p0, rank)
    requires Linkable(p1, rank, px, py) && SizesMatch(p1, rank, size)
    requires 0 <= x < |p0| && 0 <= y < |p0|
    requires (px == Root(p0, rank, x) && py == Root(p0, rank, y)) || (px == Root(p0, rank, y) && py == Root(p0, rank, x))
    ensures Forest(p1[py := px], Bump(rank, px, py))
    ensures SizesMatch(p1[py := px], Bump(rank, px, py), size[px := size[px] + size[py]])
    ensures Merged(p0, rank, p1[py := px], Bump(rank, px, py), x, y)
    ensures Roots(p1[py := px]) == Roots(p1) - {py} && py in Roots(p1)
    ensures !Same(p0, rank, x, y)
  {
    LinkCircuits(p1, rank, size, px, py);
    var p2, r2 := p1[py := px], Bump(rank, px, py);
    forall z | 0 <= z < |p0|
      ensures Root(p2, r2, z) == if Root(p0, rank, z) == py then px else Root(p0, rank, z)
    {
      SameRoots(p1, p0, rank, z);
    }
    RelinkMerges(p0, rank, p2, r2, x, y, px, py);
  }

  /** Moving the circuit of root `py` onto root `px`, the roots of `x` and
      `y`, merges exactly those two circuits. */
  lemma RelinkMerges(p0: seq<int>, r0: seq<nat>, p2: seq<int>, r2: seq<nat>, x: int, y: int, px: int, py: int)
    requires Forest(p0, r0) && Forest(p2, r2) && |p0| == |p2| && 0 <= x < |p0| && 0 <= y < |p0|
    requires (px == Root(p0, r0, x) && py == Root(p0, r0, y)) || (px == Root(p0, r0, y) && py == Root(p0, r0, x))
    requires forall z :: 0 <= z < |p0| ==> Root(p2, r2, z) == if Root(p0, r0, z) == py then px else Root(p0, r0, z)
    ensures Merged(p0, r0, p2, r2, x, y)
  {
  }

  /** The numbers `0 .. n-1`. */
  ghost function Below(n: nat): (b: set<int>)
    ensures forall r :: r in b <==> 0 <= r < n
  {
    if n == 0 then {} else Below(n - 1) + {n - 1}
  }

  lemma {:induction false} BelowCard(n: nat)
    ensures |Below(n)| == n
  {
    if n > 0 {
      BelowCard(n - 1);
    }
  }

  // ---------------------------------------------------------------------
  // The union-find structure
  // ---------------------------------------------------------------------

  class UnionFind {
    var parent: seq<int>
    var rank: seq<nat>
    var size: seq<nat>

    ghost predicate Valid()
      reads this
    {
      Forest(parent, rank) && SizesMatch(parent, rank, size)
    }

    /** `n` boxes, each a circuit of its own. */
    constructor (n: nat)
      ensures Valid() && |parent| == n
      ensures forall a, b :: 0 <= a < n && 0 <= b < n ==> (Same(parent, rank, a, b) <==> a == b)
      ensures forall r :: r in Roots(parent) <==> 0 <= r < n
      ensures |Roots(parent)| == n
    {
      parent := seq(n, i => i);
      rank := seq(n, i => 0);
      size := seq(n, i => 1);
      new;
      assert RootSeq(parent, rank) == parent;
      assert Distinct(parent);
      forall r | 0 <= r < n
        ensures Count(parent, r) == 1
      {
        assert parent[r] == r;
        CountDistinct(parent, r);
      }
      BelowCard(n);
      assert Roots(parent) == Below(n);
    }

    /** The root of `x`'s circuit; every node on the way is then pointed
        straight at it. */
    method Find(x: int) returns (root: int)
      requires Valid() && 0 <= x < |parent|
      modifies this
      ensures Valid() && rank == old(rank) && size == old(size) && |parent| == |old(parent)|
      ensures root == Root(old(parent), rank, x) && parent[root] == root
      ensures RootSeq(parent, rank) == RootSeq(old(parent), rank)
      ensures Roots(parent) == Roots(old(parent))
      decreases MaxRank(rank) - rank[x]
    {
      if parent[x] != x {
        MaxRankBound(rank, parent[x]);
        var r := Find(parent[x]);
        assert Root(parent, rank, x) == r by {
          assert RootSeq(parent, rank)[x] == RootSeq(old(parent), rank)[x];
        }
        CompressKeepsCircuits(parent, rank, size, x);
        parent := parent[x := r];
      }
      root := parent[x];
    }

    /** Joins the circuits of `x` and `y`, hanging the root of lower rank
        under the other; false when they already share a circuit. */
    method Union(x: int, y: int) returns (merged: bool)
      requires Valid() && 0 <= x < |parent| && 0 <= y < |parent|
      modifies this
      ensures Valid() && |parent| == |old(parent)|
      ensures merged <==> !Same(old(parent), old(rank), x, y)
      ensures Merged(old(parent), old(rank), parent, rank, x, y)
      ensures |Roots(parent)| == |Roots(old(parent))| - if merged then 1 else 0
    {
      ghost var p0 := parent;
      var px := Find(x);
      assert px in Roots(parent);
      ghost var pm := parent;
      var py := Find(y);
      assert px in Roots(parent) && py in Roots(parent);
      SameRoots(pm, p0, rank, y);
      if px == py {
        SameAll(parent, p0, rank, x, y);
        return false;
      }
      if rank[px] < rank[py] {
        px, py := py, px;
      }
      Link(px, py, p0, x, y);
      merged := true;
    }

    /** Hangs root `py` under root `px`, the roots of the circuits of `x` and
        `y` in the forest `p0`, and adds up the sizes. */
    method Link(px: int, py: int, ghost p0: seq<int>, ghost x: int, ghost y: int)
      requires Valid() && Forest(p0, rank) && RootSeq(parent, rank) == RootSeq(p0, rank)
      requires Linkable(parent, rank, px, py) && 0 <= x < |p0| && 0 <= y < |p0|
      requires (px == Root(p0, rank, x) && py == Root(p0, rank, y)) || (px == Root(p0, rank, y) && py == Root(p0, rank, x))
      modifies this
      ensures Valid() && |parent| == |p0|
      ensures !Same(p0, old(rank), x, y)
      ensures Merged(p0, old(rank), parent, rank, x, y)
      ensures Roots(parent) == old(Roots(parent)) - {py} && py in old(Roots(parent))
    {
      var p, s, r := parent[py := px], size[px := size[px] + size[py]], Bump(rank, px, py);
      ghost var r0 := rank;
      LinkJoins(p0, parent, rank, size, x, y, px, py);
      assert Forest(p, r) && SizesMatch(p, r, s);
      ghost var merged := Merged(p0, r0, p, r, x, y);
      assert merged;
      parent, size, rank := p, s, r;
      assert Merged(p0, r0, parent, rank, x, y) by {
        assert merged;
      }
    }

    /** The size of every circuit, circuits in order of their smallest box. */
    method GetCircuitSizes() returns (sizes: seq<int>)
      requires Valid()
      modifies this
      ensures Valid() && rank == old(rank) && size == old(size) && |parent| == |old(parent)|
      ensures RootSeq(parent, rank) == RootSeq(old(parent), rank)
      ensures Roots(parent) == Roots(old(parent))
      ensures sizes == CircuitSizes(parent, rank, size)
    {
      ghost var s := RootSeq(parent, rank);
      // the dictionary from roots to sizes, and its keys in insertion order
      var sizeOf: map<int, int> := map[];
      var keys: seq<int> := [];
      for i := 0 to |parent|
        invariant Valid() && rank == old(rank) && size == old(size) && |parent| == |s|
        invariant RootSeq(parent, rank) == s && Roots(parent) == Roots(old(parent))
        invariant keys == FirstOccurrences(s[..i]) && Tabulates(sizeOf, keys, size)
      {
        ghost var pi := parent;
        var root := Find(i);
        assert root == s[i] by { assert s[i] == RootSeq(pi, rank)[i]; }
        KeysStep(s, i, keys);
        TabulateStep(sizeOf, keys, size, root);
        sizeOf := sizeOf[root := size[root]];
        if root !in keys {
          keys := keys + [root];
        }
      }
      assert s[..|s|] == s;
      TabulatedSizes(sizeOf, parent, rank, size);
      sizes := seq(|keys|, k requires 0 <= k < |keys| => sizeOf[keys[k]]);
    }
  }

  // ---------------------------------------------------------------------
  // Sorting and the part 1 answer
  // ---------------------------------------------------------------------

  ghost predicate Descending(s: seq<int>)
  {
    forall i, j :: 0 <= i < j < |s| ==> s[i] >= s[j]
  }

  function Insert(x: int, s: seq<int>): seq<int>
  {
    if s == [] || x >= s[0] then [x] + s else [s[0]] + Insert(x, s[1..])
  }

  /** `sorted(s, reverse=True)` */
  function SortDescending(s: seq<int>): seq<int>
  {
    if s == [] then [] else Insert(s[0], SortDescending(s[1..]))
  }

  lemma {:induction false} InsertPerm(x: int, s: seq<int>)
    ensures multiset(Insert(x, s)) == multiset(s) + multiset{x} && |Insert(x, s)| == |s| + 1
  {
    if s != [] && x < s[0] {
      InsertPerm(x, s[1..]);
      assert s == [s[0]] + s[1..];
    }
  }

  lemma {:induction false} InsertSorted(x: int, s: seq<int>)
    requires Descending(s)
    ensures Descending(Insert(x, s))
  {
    if s != [] && x < s[0] {
      var t := Insert(x, s[1..]);
      InsertSorted(x, s[1..]);
      InsertPerm(x, s[1..]);
      forall j | 0 <= j < |t|
        ensures s[0] >= t[j]
      {
        assert t[j] in multiset(t);
        if t[j] != x {
          assert t[j] in multiset(s[1..]);
          var k :| 0 <= k < |s[1..]| && s[1..][k] == t[j];
          assert s[k + 1] == t[j];
        }
      }
      assert Insert(x, s) == [s[0]] + t;
    }
  }

  /** Sorting puts the values in descending order and keeps them all. */
  lemma {:induction false} SortDescendingCorrect(s: seq<int>)
    ensures Descending(SortDescending(s)) && multiset(SortDescending(s)) == multiset(s)
  {
    if s != [] {
      SortDescendingCorrect(s[1..]);
      InsertSorted(s[0], SortDescending(s[1..]));
      InsertPerm(s[0], SortDescending(s[1..]));
      assert s == [s[0]] + s[1..];
    }
  }

  /** The list after `while len(sizes) < 3: sizes.append(1)`. */
  function PadToThree(s: seq<int>): (r: seq<int>)
    decreases 3 - |s|
  {
    if |s| >= 3 then s else PadToThree(s + [1])
  }

  lemma {:induction false} PadToThreeShape(s: seq<int>)
    ensures |PadToThree(s)| == if |s| >= 3 then |s| else 3
    ensures PadToThree(s)[..|s|] == s
    ensures forall k :: |s| <= k < |PadToThree(s)| ==> PadToThree(s)[k] == 1
    decreases 3 - |s|
  {
    if |s| < 3 {
      PadToThreeShape(s + [1]);
      assert (s + [1])[..|s|] == s;
    }
  }

  /** The product of the three largest circuit sizes, a missing circuit
      counting as 1. */
  function TopThreeProduct(sizes: seq<int>): int
  {
    var t := PadToThree(SortDescending(sizes));
    PadToThreeShape(SortDescending(sizes));
    t[0] * t[1] * t[2]
  }

  /** The answer takes the three largest sizes: no size outside the first
      three exceeds any of them. */
  lemma TopThreeAreLargest(sizes: seq<int>)
    ensures var t := SortDescending(sizes);
      |t| == |sizes| && multiset(t) == multiset(sizes)
      && forall i, j :: 0 <= i < 3 && i < j < |t| ==> t[i] >= t[j]
  {
    SortDescendingCorrect(sizes);
    assert |multiset(SortDescending(sizes))| == |multiset(sizes)|;
  }

  /** How many pairs `for idx in range(min(num_connections, len(pairs)))` takes. */
  function Attempts(numConnections: int, pairCount: nat): (m: nat)
    ensures m <= pairCount
  {
    if numConnections <= 0 then 0 else if numConnections < pairCount then numConnections else pairCount
  }

  lemma InRangePrefix(n: nat, pairs: seq<(int, int)>, k: nat)
    requires InRange(n, pairs) && k <= |pairs|
    ensures InRange(n, pairs[..k])
  {
  }

  lemma LabelsStep(n: nat, pairs: seq<(int, int)>, k: nat)
    requires InRange(n, pairs) && k < |pairs|
    ensures InRange(n, pairs[..k]) && InRange(n, pairs[..k + 1])
    ensures Labels(n, pairs[..k + 1]) == Relabel(Labels(n, pairs[..k]), pairs[k].0, pairs[k].1)
  {
    assert pairs[..k + 1][..k] == pairs[..k];
  }

  /** Every box is its own circuit before any pair is joined. */
  lemma InitialPartition(parent: seq<int>, rank: seq<nat>, n: nat)
    requires Forest(parent, rank) && |parent| == n
    requires forall a, b :: 0 <= a < n && 0 <= b < n ==> (Same(parent, rank, a, b) <==> a == b)
    ensures Partitioned(parent, rank, Labels(n, []))
  {
  }

  /** One union step keeps the forest in step with the labels. */
  lemma UnionStep(p1: seq<int>, r1: seq<nat>, p2: seq<int>, r2: seq<nat>, n: nat, pairs: seq<(int, int)>, k: nat)
    requires InRange(n, pairs) && k < |pairs|
    requires Forest(p1, r1) && Forest(p2, r2) && |p1| == n && |p2| == n
    requires InRange(n, pairs[..k]) && Partitioned(p1, r1, Labels(n, pairs[..k]))
    requires Merged(p1, r1, p2, r2, pairs[k].0, pairs[k].1)
    ensures InRange(n, pairs[..k + 1]) && Partitioned(p2, r2, Labels(n, pairs[..k + 1]))
  {
    LabelsStep(n, pairs, k);
    JoinRelabels(p1, r1, p2, r2, Labels(n, pairs[..k]), pairs[k].0, pairs[k].1);
  }

  /** `uf.union(i, j)` for the pair `pairs[k]`: the forest now partitions
      the boxes as the first `k + 1` pairs join them, and one circuit fewer
      remains exactly when the pair joined two circuits. */
  method JoinPair(uf: UnionFind, n: nat, pairs: seq<(int, int)>, k: nat) returns (merged: bool)
    requires InRange(n, pairs) && k < |pairs|
    requires uf.Valid() && |uf.parent| == n
    requires InRange(n, pairs[..k]) && Partitioned(uf.parent, uf.rank, Labels(n, pairs[..k]))
    modifies uf
    ensures uf.Valid() && |uf.parent| == n
    ensures InRange(n, pairs[..k + 1]) && Partitioned(uf.parent, uf.rank, Labels(n, pairs[..k + 1]))
    ensures merged == Joins(n, pairs[..k + 1], k)
    ensures |Roots(uf.parent)| == |Roots(old(uf.parent))| - if merged then 1 else 0
  {
    ghost var p1, r1 := uf.parent, uf.rank;
    var (i, j) := pairs[k];
    merged := uf.Union(i, j);
    UnionStep(p1, r1, uf.parent, uf.rank, n, pairs, k);
    assert pairs[..k + 1][..k] == pairs[..k];
  }

  /** Part 1: join the first `numConnections` pairs (closest first), then
      multiply the three largest circuit sizes. */
  method ConnectClosest(n: nat, pairs: seq<(int, int)>, numConnections: int) returns (product: int)
    requires InRange(n, pairs)
    ensures InRange(n, pairs[..Attempts(numConnections, |pairs|)])
    ensures product == TopThreeProduct(ComponentSizes(n, pairs[..Attempts(numConnections, |pairs|)]))
  {
    var uf := new UnionFind(n);
    InitialPartition(uf.parent, uf.rank, n);
    var m := Attempts(numConnections, |pairs|);
    for k := 0 to m
      invariant uf.Valid() && |uf.parent| == n
      invariant InRange(n, pairs[..k]) && Partitioned(uf.parent, uf.rank, Labels(n, pairs[..k]))
    {
      var _ := JoinPair(uf, n, pairs, k);
    }
    PartitionedCircuits(uf.parent, uf.rank, Labels(n, pairs[..m]));
    var sizes := uf.GetCircuitSizes();
    CircuitSizesAreClassSizes(uf.parent, uf.rank, uf.size);
    sizes := SortDescending(sizes);
    while |sizes| < 3
      invariant PadToThree(sizes) == PadToThree(SortDescending(ComponentSizes(n, pairs[..m])))
      decreases 3 - |sizes|
    {
      sizes := sizes + [1];
    }
    product := sizes[0] * sizes[1] * sizes[2];
  }

  // ---------------------------------------------------------------------
  // Part 2: join until everything is one circuit
  // ---------------------------------------------------------------------

  /** `pairs[k]` joins two circuits that were apart before it. */
  ghost predicate Joins(n: nat, pairs: seq<(int, int)>, k: nat)
    requires InRange(n, pairs) && k < |pairs|
  {
    InRangePrefix(n, pairs, k);
    var l := Labels(n, pairs[..k]);
    l[pairs[k].0] != l[pairs[k].1]
  }

  /** The last pair that joined two circuits, or `(0, 0)` if none did. */
  ghost function LastJoin(n: nat, pairs: seq<(int, int)>): (last: (int, int))
    requires InRange(n, pairs)
    ensures last == (0, 0) || last in pairs
  {
    if pairs == [] then (0, 0)
    else
      var k := |pairs| - 1;
      InRangePrefix(n, pairs, k);
      if Joins(n, pairs, k) then pairs[k] else LastJoin(n, pairs[..k])
  }

  lemma LastJoinStep(n: nat, pairs: seq<(int, int)>, k: nat)
    requires InRange(n, pairs) && k < |pairs|
    ensures InRange(n, pairs[..k]) && InRange(n, pairs[..k + 1])
    ensures LastJoin(n, pairs[..k + 1]) == if Joins(n, pairs[..k + 1], k) then pairs[k] else LastJoin(n, pairs[..k])
  {
    InRangePrefix(n, pairs, k);
    InRangePrefix(n, pairs, k + 1);
    assert pairs[..k + 1][..k] == pairs[..k];
  }

  /** All boxes are in one circuit. */
  ghost predicate Connected(l: seq<int>)
  {
    forall a :: 0 <= a < |l| ==> l[a] == l[0]
  }

  /** Once everything is connected no later pair joins anything, so the last
      joining pair is already known. */
  lemma {:induction false} LastJoinSettled(n: nat, pairs: seq<(int, int)>, k: nat)
    requires InRange(n, pairs) && k <= |pairs|
    requires InRange(n, pairs[..k]) && Connected(Labels(n, pairs[..k]))
    ensures Connected(Labels(n, pairs)) && LastJoin(n, pairs) == LastJoin(n, pairs[..k])
    decreases |pairs| - k
  {
    if k < |pairs| {
      LabelsStep(n, pairs, k);
      LastJoinSettled(n, pairs, k + 1);
      assert pairs[..k + 1][..k] == pairs[..k];
      assert !Joins(n, pairs[..k + 1], k);
    } else {
      assert pairs[..k] == pairs;
    }
  }

  /** A single root means one circuit. */
  lemma OneRootConnected(parent: seq<int>, rank: seq<nat>, l: seq<int>)
    requires Forest(parent, rank) && Partitioned(parent, rank, l) && |Roots(parent)| == 1
    ensures Connected(l)
  {
    forall a | 0 <= a < |l|
      ensures l[a] == l[0]
    {
      var ra, r0 := Root(parent, rank, a), Root(parent, rank, 0);
      assert ra in Roots(parent) && r0 in Roots(parent);
      if ra != r0 {
        assert {ra, r0} <= Roots(parent);
        SubsetCardinality({ra, r0}, Roots(parent));
      }
    }
  }

  /** A non-empty forest has a root. */
  lemma SomeRoot(parent: seq<int>, rank: seq<nat>)
    requires Forest(parent, rank) && |parent| >= 1
    ensures |Roots(parent)| >= 1
  {
    assert Root(parent, rank, 0) in Roots(parent);
  }

  /** Part 2: join pairs in order until one circuit remains, and multiply the
      X coordinates of the last pair that joined two circuits. */
  method ConnectAll(n: nat, pairs: seq<(int, int)>, xs: seq<int>) returns (product: int)
    requires n >= 1 && |xs| == n && InRange(n, pairs)
    ensures var last := LastJoin(n, pairs);
      0 <= last.0 < n && 0 <= last.1 < n && product == xs[last.0] * xs[last.1]
  {
    var uf := new UnionFind(n);
    InitialPartition(uf.parent, uf.rank, n);
    var lastI, lastJ := JoinUntilConnected(uf, n, pairs);
    product := xs[lastI] * xs[lastJ];
  }

  /** The loop of part 2: join pairs in order, remembering the last pair
      that joined two circuits, and stop once one circuit remains. */
  method JoinUntilConnected(uf: UnionFind, n: nat, pairs: seq<(int, int)>) returns (lastI: int, lastJ: int)
    requires n >= 1 && InRange(n, pairs)
    requires uf.Valid() && |uf.parent| == n && |Roots(uf.parent)| == n
    requires InRange(n, pairs[..0]) && Partitioned(uf.parent, uf.rank, Labels(n, pairs[..0]))
    modifies uf
    ensures (lastI, lastJ) == LastJoin(n, pairs)
  {
    var numCircuits := n;
    lastI, lastJ := 0, 0;
    ghost var joined: nat := 0;
    var k := 0;
    while k < |pairs|
      invariant 0 <= k <= |pairs|
      invariant uf.Valid() && |uf.parent| == n
      invariant InRange(n, pairs[..k]) && Partitioned(uf.parent, uf.rank, Labels(n, pairs[..k]))
      invariant numCircuits == |Roots(uf.parent)| == n - joined >= 1
      invariant (lastI, lastJ) == LastJoin(n, pairs[..k])
    {
      var (i, j) := pairs[k];
      var merged := JoinPair(uf, n, pairs, k);
      LastJoinStep(n, pairs, k);
      k := k + 1;
      if merged {
        SomeRoot(uf.parent, uf.rank);
        numCircuits := numCircuits - 1;
        joined := joined + 1;
        lastI, lastJ := i, j;
        if numCircuits == 1 {
          OneRootConnected(uf.parent, uf.rank, Labels(n, pairs[..k]));
          LastJoinSettled(n, pairs, k);
          return;
        }
      }
    }
    assert pairs[..k] == pairs;
  }
}
