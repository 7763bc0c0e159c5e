/** The acyclicity test that build_graph runs on its finished graph
    (`nx.is_directed_acyclic_graph`, and `nx.simple_cycles` for the report).
    A graph is acyclic when no node reaches itself along one or more edges;
    the check below is Kahn's algorithm: take away, one at a time, a node whose
    in-degree among the nodes still present is zero. If every node goes, the
    order of removal ranks each edge's source below its target; if the removal
    gets stuck, walking backwards along edges inside the stuck set must revisit
    a node, and that closes a cycle. */
module Acyclicity {
  import opened Results

  /** A directed edge src -> dst. */
  datatype Edge = Edge(src: int, dst: int)

  /** c is a closed path c[0] -> c[1] -> ... -> c[|c|-1] -> c[0] along edges,
      listed the way networkx lists a cycle (the first node is not repeated). */
  ghost predicate IsCycle(edges: set<Edge>, c: seq<int>)
  {
    && |c| >= 1
    && (forall i :: 0 <= i < |c| - 1 ==> Edge(c[i], c[i + 1]) in edges)
    && Edge(c[|c| - 1], c[0]) in edges
  }

  ghost predicate Acyclic(edges: set<Edge>)
  {
    forall c :: !IsCycle(edges, c)
  }

  /** pos numbers the nodes so that every edge climbs: a topological order. */
  ghost predicate IsTopoRank(edges: set<Edge>, pos: map<int, int>)
  {
    forall u, v :: Edge(u, v) in edges ==> u in pos && v in pos && pos[u] < pos[v]
  }

  lemma {:induction false} CycleClimbs(edges: set<Edge>, pos: map<int, int>, c: seq<int>, k: nat)
    requires IsTopoRank(edges, pos) && IsCycle(edges, c)
    requires k < |c|
    ensures c[0] in pos && c[k] in pos && pos[c[0]] + k <= pos[c[k]]
  {
    assert Edge(c[|c| - 1], c[0]) in edges;
    if k > 0 {
      CycleClimbs(edges, pos, c, k - 1);
      assert Edge(c[k - 1], c[k]) in edges;
    }
  }

  /** A graph that has a topological order has no cycle. */
  lemma TopoRankAcyclic(edges: set<Edge>, pos: map<int, int>)
    requires IsTopoRank(edges, pos)
    ensures Acyclic(edges)
  {
    forall c | IsCycle(edges, c) ensures false {
      CycleClimbs(edges, pos, c, |c| - 1);
    }
  }

  /** A graph whose every edge goes from a smaller node to a larger one is acyclic. */
  lemma IncreasingEdgesAcyclic(edges: set<Edge>)
    requires forall e :: e in edges ==> e.src < e.dst
    ensures Acyclic(edges)
  {
    var ends := (set e | e in edges :: e.src) + (set e | e in edges :: e.dst);
    var pos := map x | x in ends :: x;
    forall u, v | Edge(u, v) in edges ensures u in pos && v in pos && pos[u] < pos[v] {
      var e := Edge(u, v);
      assert e.src in ends && e.dst in ends;
    }
    TopoRankAcyclic(edges, pos);
  }

  /** A node with an edge to itself is a cycle of length one. */
  lemma SelfLoopNotAcyclic(edges: set<Edge>, r: int)
    requires Edge(r, r) in edges
    ensures !Acyclic(edges)
  {
    assert IsCycle(edges, [r]);
  }

  /** v still has a predecessor among the nodes in remaining. */
  predicate HasPredIn(edges: set<Edge>, remaining: set<int>, v: int)
  {
    exists u :: u in remaining && Edge(u, v) in edges
  }

  /** Kahn's algorithm: None when the graph is acyclic, otherwise a cycle. */
  method FindCycle(nodes: set<int>, edges: set<Edge>) returns (cycle: Option<seq<int>>)
    requires forall e :: e in edges ==> e.src in nodes && e.dst in nodes
    ensures cycle.None? <==> Acyclic(edges)
    ensures cycle.Some? ==> IsCycle(edges, cycle.value)
    ensures cycle.Some? ==> forall i, j :: 0 <= i < j < |cycle.value| ==> cycle.value[i] != cycle.value[j]
  {
    var remaining := nodes;
    ghost var pos: map<int, int> := map[];
    ghost var next := 0;
    while remaining != {}
      invariant remaining <= nodes
      invariant forall v :: v in nodes && v !in remaining ==> v in pos
      invariant forall v :: v in pos ==> v !in remaining && pos[v] < next
      invariant forall u, w :: Edge(u, w) in edges && w in pos ==> u in pos && pos[u] < pos[w]
      decreases remaining
    {
      if v :| v in remaining && !HasPredIn(edges, remaining, v) {
        pos := pos[v := next];
        next := next + 1;
        remaining := remaining - {v};
      } else {
        assert exists x :: x in remaining by {
          if forall x :: x !in remaining {
            assert false;
          }
        }
        var start :| start in remaining;
        var c := WalkBack(edges, remaining, start);
        return Some(c);
      }
    }
    TopoRankAcyclic(edges, pos);
    return None;
  }

  /** Inside a set where every node has a predecessor in the set, follow
      predecessors from start until a node repeats; the stretch between the
      two visits is a cycle, and a simple one: no node occurs twice. */
  method WalkBack(edges: set<Edge>, remaining: set<int>, start: int) returns (c: seq<int>)
    requires start in remaining
    requires forall v :: v in remaining ==> HasPredIn(edges, remaining, v)
    ensures IsCycle(edges, c)
    ensures forall x :: x in c ==> x in remaining
    ensures forall i, j :: 0 <= i < j < |c| ==> c[i] != c[j]
  {
    var path := [start];
    var visited := {start};
    assert HasPredIn(edges, remaining, start);
    var u :| u in remaining && Edge(u, start) in edges;
    while u !in visited
      invariant |path| >= 1
      invariant forall x :: x in visited <==> x in path
      invariant forall i, j :: 0 <= i < j < |path| ==> path[i] != path[j]
      invariant visited <= remaining
      invariant forall i :: 0 <= i < |path| - 1 ==> Edge(path[i], path[i + 1]) in edges
      invariant u in remaining && Edge(u, path[0]) in edges
      decreases remaining - visited
    {
      path := [u] + path;
      visited := visited + {u};
      assert HasPredIn(edges, remaining, u);
      u :| u in remaining && Edge(u, path[0]) in edges;
    }
    var j :| 0 <= j < |path| && path[j] == u;
    c := path[..j + 1];
  }
}
