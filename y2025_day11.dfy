/** 2025 day 11: a directed graph of devices; count the paths from one
    device to another, optionally only those that pass through every
    device of a required set. The search is a depth-first search that
    skips devices already on the current path and memoises its counts by
    (device, required devices seen so far). */
module DevicePaths {

  /** The adjacency lists `parse_input` builds. */
  type Graph = map<string, seq<string>>

  /** One input line `source: dest dest ...`, already split. */
  datatype Line = Line(source: string, dests: seq<string>)

  // ---------------------------------------------------------------------
  // Building the graph
  // ---------------------------------------------------------------------

  /** Every device a line names, as source or destination. */
  function Mentioned(lines: seq<Line>): set<string>
  {
    if lines == [] then {}
    else
      var last := lines[|lines| - 1];
      Mentioned(lines[..|lines| - 1]) + {last.source} + set d | d in last.dests
  }

  /** The destinations of every line for `node`, in input order. */
  function Successors(lines: seq<Line>, node: string): seq<string>
  {
    if lines == [] then []
    else
      var last := lines[|lines| - 1];
      Successors(lines[..|lines| - 1], node) + (if last.source == node then last.dests else [])
  }

  /** A device no line has as its source has no successors. */
  lemma {:induction false} NoLinesNoSuccessors(lines: seq<Line>, node: string)
    requires node !in Mentioned(lines)
    ensures Successors(lines, node) == []
  {
    if lines != [] {
      NoLinesNoSuccessors(lines[..|lines| - 1], node);
    }
  }

  /** The names and successors after one more line. */
  lemma LineStep(lines: seq<Line>, i: nat)
    requires i < |lines|
    ensures Mentioned(lines[..i + 1]) == Mentioned(lines[..i]) + {lines[i].source} + set d | d in lines[i].dests
    ensures forall node ::
      Successors(lines[..i + 1], node) == Successors(lines[..i], node) + (if lines[i].source == node then lines[i].dests else [])
  {
    assert lines[..i + 1][..i] == lines[..i];
  }

  /** `parse_input` after the lines are split: every device named becomes a
      key; a repeated source extends its list instead of replacing it. */
  method BuildGraph(lines: seq<Line>) returns (graph: Graph)
    ensures graph.Keys == Mentioned(lines)
    ensures forall node :: node in graph ==> graph[node] == Successors(lines, node)
  {
    graph := map[];
    for i := 0 to |lines|
      invariant graph.Keys == Mentioned(lines[..i])
      invariant forall node :: node in graph ==> graph[node] == Successors(lines[..i], node)
    {
      var source, destinations := lines[i].source, lines[i].dests;
      LineStep(lines, i);
      graph := AddSource(graph, lines[..i], source, destinations);
      graph := AddDestinations(graph, lines, i);
    }
    assert lines[..|lines|] == lines;
  }

  /** `for dest in destinations: if dest not in graph: graph[dest] = []`
      for line `i`. */
  method AddDestinations(graph0: Graph, lines: seq<Line>, i: nat) returns (graph: Graph)
    requires i < |lines|
    requires graph0.Keys == Mentioned(lines[..i]) + {lines[i].source}
    requires forall node :: node in graph0 ==> graph0[node] == Successors(lines[..i + 1], node)
    ensures graph.Keys == Mentioned(lines[..i + 1])
    ensures forall node :: node in graph ==> graph[node] == Successors(lines[..i + 1], node)
  {
    LineStep(lines, i);
    var destinations := lines[i].dests;
    graph := graph0;
    for k := 0 to |destinations|
      invariant forall n :: n in graph <==> n in graph0 || n in destinations[..k]
      invariant forall node :: node in graph ==> graph[node] == Successors(lines[..i + 1], node)
    {
      var dest := destinations[k];
      if dest !in graph {
        NoLinesNoSuccessors(lines[..i], dest);
        graph := graph[dest := []];
      }
      assert forall n :: n in destinations[..k + 1] <==> n in destinations[..k] || n == dest;
    }
    assert destinations[..|destinations|] == destinations;
  }

  /** `if source not in graph: graph[source] = []` then
      `graph[source].extend(destinations)`. */
  method AddSource(graph0: Graph, earlier: seq<Line>, source: string, destinations: seq<string>) returns (graph: Graph)
    requires graph0.Keys == Mentioned(earlier)
    requires forall node :: node in graph0 ==> graph0[node] == Successors(earlier, node)
    ensures graph.Keys == Mentioned(earlier) + {source}
    ensures graph[source] == Successors(earlier, source) + destinations
    ensures forall node :: node in graph && node != source ==> graph[node] == Successors(earlier, node)
  {
    graph := graph0;
    if source !in graph {
      NoLinesNoSuccessors(earlier, source);
      graph := graph[source := []];
    }
    graph := graph[source := graph[source] + destinations];
  }

  // ---------------------------------------------------------------------
  // The search without its cache
  // ---------------------------------------------------------------------

  /** `graph.get(node, [])` */
  function Succ(graph: Graph, node: string): seq<string>
  {
    if node in graph then graph[node] else []
  }

  /** Every device the graph names. */
  ghost function Universe(graph: Graph): set<string>
  {
    graph.Keys + set n, m | n in graph && m in graph[n] :: m
  }

  /** `visited_required` after arriving at `node`. */
  function Arrive(required: set<string>, node: string, visited: set<string>): set<string>
  {
    if node in required then visited + {node} else visited
  }

  lemma PathGrows(u: set<string>, path: set<string>, m: string)
    requires m in u && m !in path
    ensures |u - (path + {m})| < |u - path|
  {
    assert u - path == (u - (path + {m})) + {m};
  }

  /** The number of paths the search counts from `node`, with `path` the
      devices already on the current path: it stops at `end` (counting 1
      when every required device was seen) and otherwise extends the path
      by each successor not already on it. */
  ghost function SimplePaths(graph: Graph, end: string, required: set<string>,
                             node: string, visited: set<string>, path: set<string>): nat
    decreases |Universe(graph) - path|, 1
  {
    var seen := Arrive(required, node, visited);
    if node == end then (if seen == required then 1 else 0)
    else SimpleSum(graph, end, required, node, Succ(graph, node), seen, path)
  }

  /** The sum over the successors `ns` of `node`. */
  ghost function SimpleSum(graph: Graph, end: string, required: set<string>,
                           node: string, ns: seq<string>, seen: set<string>, path: set<string>): nat
    requires forall m :: m in ns ==> m in Succ(graph, node)
    decreases |Universe(graph) - path|, 0, |ns|
  {
    if ns == [] then 0
    else
      var m := ns[|ns| - 1];
      SimpleSum(graph, end, required, node, ns[..|ns| - 1], seen, path)
        + if m in path then 0
          else
            assert m in Succ(graph, node);
            assert node in graph && m in graph[node];
            assert m in Universe(graph);
            PathGrows(Universe(graph), path, m);
            SimplePaths(graph, end, required, m, seen, path + {m})
  }

  // ---------------------------------------------------------------------
  // Acyclic graphs: the count does not depend on the path
  // ---------------------------------------------------------------------

  /** Every edge goes down in `rank`: a witness that the graph is acyclic. */
  ghost predicate Ranked(graph: Graph, rank: map<string, nat>)
  {
    forall n, m :: n in graph && m in graph[n] ==> n in rank && m in rank && rank[m] < rank[n]
  }

  ghost function Rank(rank: map<string, nat>, node: string): nat
  {
    if node in rank then rank[node] else 0
  }

  /** The count from `node` on an acyclic graph, where no successor can
      already be on the path. */
  ghost function DagPaths(graph: Graph, rank: map<string, nat>, end: string, required: set<string>,
                          node: string, visited: set<string>): nat
    requires Ranked(graph, rank)
    decreases Rank(rank, node), 1
  {
    var seen := Arrive(required, node, visited);
    if node == end then (if seen == required then 1 else 0)
    else DagSum(graph, rank, end, required, node, Succ(graph, node), seen)
  }

  /** The value the search caches under `(node, seen)`. */
  ghost function DagSum(graph: Graph, rank: map<string, nat>, end: string, required: set<string>,
                        node: string, ns: seq<string>, seen: set<string>): nat
    requires Ranked(graph, rank)
    requires forall m :: m in ns ==> m in Succ(graph, node)
    decreases Rank(rank, node), 0, |ns|
  {
    if ns == [] then 0
    else
      var m := ns[|ns| - 1];
      assert m in Succ(graph, node);
      assert node in graph && m in graph[node];
      DagSum(graph, rank, end, required, node, ns[..|ns| - 1], seen)
        + DagPaths(graph, rank, end, required, m, seen)
  }

  /** On an acyclic graph the test `neighbor not in path` never fails, so
      the count from `node` is the same whatever path led to it: this is
      what makes caching by `(node, seen)` sound. */
  lemma {:induction false} SimpleIsDag(graph: Graph, rank: map<string, nat>, end: string, required: set<string>,
                                       node: string, visited: set<string>, path: set<string>)
    requires Ranked(graph, rank)
    requires forall p :: p in path ==> Rank(rank, p) >= Rank(rank, node)
    ensures SimplePaths(graph, end, required, node, visited, path)
      == DagPaths(graph, rank, end, required, node, visited)
    decreases Rank(rank, node), 1
  {
    var seen := Arrive(required, node, visited);
    if node != end {
      SimpleSumIsDagSum(graph, rank, end, required, node, Succ(graph, node), seen, path);
    }
  }

  lemma {:induction false} SimpleSumIsDagSum(graph: Graph, rank: map<string, nat>, end: string, required: set<string>,
                                             node: string, ns: seq<string>, seen: set<string>, path: set<string>)
    requires Ranked(graph, rank)
    requires forall m :: m in ns ==> m in Succ(graph, node)
    requires forall p :: p in path ==> Rank(rank, p) >= Rank(rank, node)
    ensures SimpleSum(graph, end, required, node, ns, seen, path)
      == DagSum(graph, rank, end, required, node, ns, seen)
    decreases Rank(rank, node), 0, |ns|
  {
    if ns != [] {
      var m := ns[|ns| - 1];
      assert m in Succ(graph, node);
      assert node in graph && m in graph[node];
      SimpleSumIsDagSum(graph, rank, end, required, node, ns[..|ns| - 1], seen, path);
      assert m !in path;
      SimpleIsDag(graph, rank, end, required, m, seen, path + {m});
    }
  }

  /** A device the graph has no entry for reaches `end` only by being it. */
  lemma NoEntryNoPaths(graph: Graph, rank: map<string, nat>, end: string, required: set<string>,
                       node: string, visited: set<string>)
    requires Ranked(graph, rank) && node !in graph && node != end
    ensures DagPaths(graph, rank, end, required, node, visited) == 0
  {
  }

  /** Arriving at `end` counts one path exactly when every required device
      has been seen, `end` included. */
  lemma AtEnd(graph: Graph, rank: map<string, nat>, end: string, required: set<string>, visited: set<string>)
    requires Ranked(graph, rank)
    ensures DagPaths(graph, rank, end, required, end, visited)
      == if required <= visited + {end} && visited <= required then 1 else 0
  {
    var seen := Arrive(required, end, visited);
    if required <= visited + {end} && visited <= required {
      assert seen == required;
    }
  }

  // ---------------------------------------------------------------------
  // The memoised search
  // ---------------------------------------------------------------------

  /** The state `count_paths` shares with its inner `dfs`: the graph, the
      goal, the required devices and the cache. */
  class PathCounter {
    const graph: Graph
    const end: string
    const required: set<string>
    ghost const rank: map<string, nat>
    var cache: map<(string, set<string>), nat>

    /** Every cached count is the count from that device with those
        required devices seen, and records only required devices. */
    ghost predicate Valid()
      reads this
    {
      Ranked(graph, rank)
      && forall key :: key in cache ==>
           key.1 <= required && cache[key] == DagSum(graph, rank, end, required, key.0, Succ(graph, key.0), key.1)
    }

    constructor(graph: Graph, end: string, required: set<string>, ghost rank: map<string, nat>)
      requires Ranked(graph, rank)
      ensures Valid() && cache == map[]
      ensures this.graph == graph && this.end == end && this.required == required && this.rank == rank
    {
      this.graph, this.end, this.required, this.rank := graph, end, required, rank;
      cache := map[];
    }

    /** `dfs(node, visited_required, path)`: the required devices seen stay
        within `required`, every device on `path` lies upstream of `node`,
        and the count is the uncached search's. */
    method Dfs(node: string, visitedRequired: set<string>, path: set<string>) returns (total: nat)
      requires Valid() && visitedRequired <= required && node in path
      requires forall p :: p in path ==> Rank(rank, p) >= Rank(rank, node)
      modifies this
      ensures Valid()
      ensures total == SimplePaths(graph, end, required, node, visitedRequired, path)
      ensures total == DagPaths(graph, rank, end, required, node, visitedRequired)
      decreases Rank(rank, node)
    {
      SimpleIsDag(graph, rank, end, required, node, visitedRequired, path);
      var seen := visitedRequired;
      if node in required {
        seen := seen + {node};
      }
      if node == end {
        return if seen == required then 1 else 0;
      }
      var cacheKey := (node, seen);
      if cacheKey in cache {
        return cache[cacheKey];
      }
      var neighbors := Succ(graph, node);
      total := 0;
      for k := 0 to |neighbors|
        invariant Valid()
        invariant total == SimpleSum(graph, end, required, node, neighbors[..k], seen, path)
      {
        var neighbor := neighbors[k];
        assert neighbors[..k + 1][..k] == neighbors[..k];
        if neighbor !in path {
          assert neighbor in graph[node];
          var sub := Dfs(neighbor, seen, path + {neighbor});
          total := total + sub;
        }
      }
      assert neighbors[..|neighbors|] == neighbors;
      SimpleSumIsDagSum(graph, rank, end, required, node, neighbors, seen, path);
      cache := cache[cacheKey := total];
    }
  }

  /** `count_paths(graph, start, end, required_nodes)` on an acyclic graph
      (`rank` is the witness): the number of paths from `start` to `end`
      through every required device, as the uncached search counts them. */
  method CountPaths(graph: Graph, start: string, end: string, required: set<string>, ghost rank: map<string, nat>)
    returns (count: nat)
    requires Ranked(graph, rank)
    ensures count == SimplePaths(graph, end, required, start, {}, {start})
    ensures count == DagPaths(graph, rank, end, required, start, {})
  {
    var counter := new PathCounter(graph, end, required, rank);
    count := counter.Dfs(start, {}, {start});
  }
}
