/** build_graph: turn a copy of the registry into a directed graph, one node
    per rank labelled with the record's name and one edge from each declared
    source rank to the rank that declares it, or fail. The failures, in the
    order they are checked: an empty registry (ValueError), a `connect` entry
    naming an unknown rank (NodeConnectionError, raised from inside the edge
    loop, so before any cycle test), and a cycle (CycleError). */
module GraphBuilder {
  import opened Results
  import opened NodeRegistry
  import opened Acyclicity

  /** The networkx DiGraph that build_graph returns, as plain data. */
  datatype Graph = Graph(nodes: set<int>, labels: map<int, string>, edges: set<Edge>)

  datatype BuildError =
    | EmptyRegistry
    | NodeConnection(rank: int, name: string, missingSource: int)
    | Cycle(cycle: seq<int>)

  /** The edges the registry declares: source -> dependent for every source
      listed in a record's `connect`. */
  ghost function EdgeSet<C, V>(entries: map<int, Node<C, V>>): set<Edge>
  {
    set r, s | r in entries && s in entries[r].connect :: Edge(s, r)
  }

  lemma EdgeSetMembership<C, V>(entries: map<int, Node<C, V>>, s: int, r: int)
    ensures Edge(s, r) in EdgeSet(entries) <==> r in entries && s in entries[r].connect
  {
  }

  /** The label attribute of every node. */
  ghost function NodeLabels<C, V>(entries: map<int, Node<C, V>>): map<int, string>
  {
    map k | k in entries :: entries[k].name
  }

  /** The first entry of conn that is not a registered rank, if any. */
  function MissingSource<C, V>(entries: map<int, Node<C, V>>, conn: seq<int>): (m: Option<int>)
    ensures m.None? <==> forall s :: s in conn ==> s in entries
    ensures m.Some? ==> m.value in conn && m.value !in entries
  {
    if conn == [] then None
    else
      var s := conn[0];
      if s !in entries then assert s in conn; Some(s)
      else MissingSource(entries, conn[1..])
  }

  /** The NodeConnectionError that the edge loop of build_graph raises when it
      visits the ranks in this order: the first record, in that order, with a
      source that is not registered, and the first such source in its `connect`. */
  function FirstDangling<C, V>(entries: map<int, Node<C, V>>, ranks: seq<int>): (d: Option<BuildError>)
    requires forall r :: r in ranks ==> r in entries
    ensures d.None? <==> forall r, s :: r in ranks && s in entries[r].connect ==> s in entries
    ensures d.Some? ==>
      && d.value.NodeConnection?
      && d.value.rank in ranks
      && d.value.name == entries[d.value.rank].name
      && d.value.missingSource in entries[d.value.rank].connect
      && d.value.missingSource !in entries
  {
    if ranks == [] then None
    else
      var r := ranks[0];
      assert r in ranks;
      match MissingSource(entries, entries[r].connect)
      case Some(s) => Some(NodeConnection(r, entries[r].name, s))
      case None => FirstDangling(entries, ranks[1..])
  }

  /** The edges contributed by the records of ranks, in the loop's order. */
  ghost function EdgesOf<C, V>(entries: map<int, Node<C, V>>, ranks: seq<int>): set<Edge>
    requires forall r :: r in ranks ==> r in entries
  {
    if ranks == [] then {}
    else
      var last := ranks[|ranks| - 1];
      EdgesOf(entries, ranks[..|ranks| - 1]) + IncomingEdges(last, entries[last].connect)
  }

  ghost function IncomingEdges(r: int, conn: seq<int>): set<Edge>
  {
    set s | s in conn :: Edge(s, r)
  }

  lemma IncomingEdgesExtend(r: int, conn: seq<int>, j: nat)
    requires j < |conn|
    ensures IncomingEdges(r, conn[..j + 1]) == IncomingEdges(r, conn[..j]) + {Edge(conn[j], r)}
  {
  }

  lemma {:induction false} EdgesOfMembership<C, V>(entries: map<int, Node<C, V>>, ranks: seq<int>, s: int, r: int)
    requires forall r :: r in ranks ==> r in entries
    ensures Edge(s, r) in EdgesOf(entries, ranks) <==> r in ranks && s in entries[r].connect
  {
    if ranks != [] {
      var init := ranks[..|ranks| - 1];
      assert ranks == init + [ranks[|ranks| - 1]];
      EdgesOfMembership(entries, init, s, r);
    }
  }

  /** Walking every rank of the registry yields exactly the declared edges. */
  lemma EdgesOfAll<C, V>(s: Snapshot<C, V>)
    requires WellFormed(s)
    ensures EdgesOf(s.entries, s.order) == EdgeSet(s.entries)
  {
    forall e | e in EdgesOf(s.entries, s.order) ensures e in EdgeSet(s.entries) {
      EdgesOfMembership(s.entries, s.order, e.src, e.dst);
    }
    forall e | e in EdgeSet(s.entries) ensures e in EdgesOf(s.entries, s.order) {
      EdgesOfMembership(s.entries, s.order, e.src, e.dst);
    }
  }

  /** A record listing its own rank in `connect` makes the declared graph cyclic. */
  lemma SelfConnectIsCycle<C, V>(entries: map<int, Node<C, V>>, r: int)
    requires r in entries && r in entries[r].connect
    ensures !Acyclic(EdgeSet(entries))
  {
    EdgeSetMembership(entries, r, r);
    SelfLoopNotAcyclic(EdgeSet(entries), r);
  }

  /** What one turn of the outer edge loop, at index i, does to the edges
      gathered so far and to the error still ahead. */
  lemma LoopStep<C, V>(entries: map<int, Node<C, V>>, ranks: seq<int>, i: nat)
    requires forall r :: r in ranks ==> r in entries
    requires i < |ranks|
    ensures EdgesOf(entries, ranks[..i + 1]) == EdgesOf(entries, ranks[..i]) + IncomingEdges(ranks[i], entries[ranks[i]].connect)
    ensures var m := MissingSource(entries, entries[ranks[i]].connect);
      FirstDangling(entries, ranks[i..]) ==
        if m.Some? then Some(NodeConnection(ranks[i], entries[ranks[i]].name, m.value))
        else FirstDangling(entries, ranks[i + 1..])
  {
    assert ranks[..i + 1][..i] == ranks[..i];
    assert ranks[i..][0] == ranks[i];
    assert ranks[i..][1..] == ranks[i + 1..];
  }

  /** With no dangling source, every declared edge joins two registered ranks. */
  lemma EdgesWithinNodes<C, V>(s: Snapshot<C, V>)
    requires WellFormed(s)
    requires FirstDangling(s.entries, s.order).None?
    ensures forall e :: e in EdgeSet(s.entries) ==> e.src in s.entries && e.dst in s.entries
  {
  }

  /** The node loop of build_graph: one node per rank, labelled with its name. */
  method AddNodes<C, V>(s: Snapshot<C, V>) returns (nodes: set<int>, labels: map<int, string>)
    requires WellFormed(s)
    ensures nodes == s.entries.Keys
    ensures labels == NodeLabels(s.entries)
  {
    nodes := {};
    labels := map[];
    for i := 0 to |s.order|
      invariant forall k :: k in nodes <==> k in s.order[..i]
      invariant labels.Keys == nodes
      invariant forall k :: k in labels ==> labels[k] == s.entries[k].name
    {
      var rank := s.order[i];
      nodes := nodes + {rank};
      labels := labels[rank := s.entries[rank].name];
    }
    assert s.order[..|s.order|] == s.order;
    forall k ensures k in nodes <==> k in s.entries {
      assert k in s.entries <==> k in s.order;
    }
    assert nodes == s.entries.Keys;
    assert labels.Keys == NodeLabels(s.entries).Keys;
    assert forall k :: k in labels ==> labels[k] == NodeLabels(s.entries)[k];
  }

  /** The inner edge loop for one record: an edge from each source in its
      `connect` to its rank, or NodeConnectionError at the first unknown source. */
  method AddIncoming<C, V>(entries: map<int, Node<C, V>>, rank: int, edges: set<Edge>)
    returns (res: Result<set<Edge>, BuildError>)
    requires rank in entries
    ensures MissingSource(entries, entries[rank].connect).None? ==>
      res == Success(edges + IncomingEdges(rank, entries[rank].connect))
    ensures MissingSource(entries, entries[rank].connect).Some? ==>
      res == Failure(NodeConnection(rank, entries[rank].name, MissingSource(entries, entries[rank].connect).value))
  {
    var conn := entries[rank].connect;
    var acc := edges;
    for j := 0 to |conn|
      invariant acc == edges + IncomingEdges(rank, conn[..j])
      invariant MissingSource(entries, conn) == MissingSource(entries, conn[j..])
    {
      var source := conn[j];
      if source !in entries {
        return Failure(NodeConnection(rank, entries[rank].name, source));
      }
      assert conn[j..][1..] == conn[j + 1..];
      IncomingEdgesExtend(rank, conn, j);
      acc := acc + {Edge(source, rank)};
    }
    assert conn[..|conn|] == conn;
    return Success(acc);
  }

  /** The outer edge loop: every record in registry order. A dangling source
      ends the loop at once, so it is reported whatever cycles there are. */
  method AddEdges<C, V>(s: Snapshot<C, V>) returns (res: Result<set<Edge>, BuildError>)
    requires WellFormed(s)
    ensures FirstDangling(s.entries, s.order).Some? ==> res == Failure(FirstDangling(s.entries, s.order).value)
    ensures FirstDangling(s.entries, s.order).None? ==> res == Success(EdgeSet(s.entries))
  {
    var edges: set<Edge> := {};
    for i := 0 to |s.order|
      invariant edges == EdgesOf(s.entries, s.order[..i])
      invariant FirstDangling(s.entries, s.order) == FirstDangling(s.entries, s.order[i..])
    {
      var rank := s.order[i];
      LoopStep(s.entries, s.order, i);
      var step := AddIncoming(s.entries, rank, edges);
      if step.Failure? {
        return step;
      }
      edges := step.value;
    }
    assert s.order[..|s.order|] == s.order;
    EdgesOfAll(s);
    return Success(edges);
  }

  /** build_graph. It reads the registry and never changes it. */
  method BuildGraph<C, V>(registry: Registry<C, V>) returns (res: Result<Graph, BuildError>)
    requires registry.Valid()
    ensures |registry.entries| == 0 <==> res == Failure(EmptyRegistry)
    ensures |registry.entries| != 0 && FirstDangling(registry.entries, registry.order).Some? ==>
      res == Failure(FirstDangling(registry.entries, registry.order).value)
    ensures
      && |registry.entries| != 0
      && FirstDangling(registry.entries, registry.order).None?
      && !Acyclic(EdgeSet(registry.entries))
      ==> res.Failure? && res.error.Cycle?
    ensures res.Failure? && res.error.Cycle? ==>
      && FirstDangling(registry.entries, registry.order).None?
      && IsCycle(EdgeSet(registry.entries), res.error.cycle)
      && forall i, j :: 0 <= i < j < |res.error.cycle| ==> res.error.cycle[i] != res.error.cycle[j]
    ensures res.Success? <==>
      && |registry.entries| != 0
      && FirstDangling(registry.entries, registry.order).None?
      && Acyclic(EdgeSet(registry.entries))
    ensures res.Success? ==>
      && res.value.nodes == registry.entries.Keys
      && res.value.labels == NodeLabels(registry.entries)
      && res.value.edges == EdgeSet(registry.entries)
  {
    var snapshot := registry.GetRegistry();
    if |snapshot.entries| == 0 {
      return Failure(EmptyRegistry);
    }
    var nodes, labels := AddNodes(snapshot);
    var edgesOrError := AddEdges(snapshot);
    if edgesOrError.Failure? {
      return Failure(edgesOrError.error);
    }
    var edges := edgesOrError.value;
    EdgesWithinNodes(snapshot);
    var cycle := FindCycle(nodes, edges);
    if cycle.Some? {
      return Failure(Cycle(cycle.value));
    }
    return Success(Graph(nodes, labels, edges));
  }
}
