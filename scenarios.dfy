/** Callers of the registry and of build_graph: the ten-node pipeline of
    test/test_example_flow.py, the small failing pipelines, and what the
    registry promises to a caller that holds a copy, clears, or builds twice. */
module Scenarios {
  import opened Results
  import opened NodeRegistry
  import opened Acyclicity
  import opened GraphBuilder

  /** What `@Pipeline(rank=..., name=..., connect=...)` passes to
      register_node for one function of the example: the explicit name,
      `connect or []` and `meta or {}`. */
  function Declared(funcName: string, rank: int, name: string, connect: seq<int>): Decl<int, int>
  {
    Decl(Func(funcName, rank), rank, Some(name), Some(connect), Some(map[]))
  }

  /** The decorated functions of the ten-node pipeline, in the order the
      module defines them: ranks 1, 5 and 7 have no inputs, 2, 3 and 4 read 1,
      6 reads 2 and 5, 8 reads 3, 4 and 7, 9 reads 6 and 8, 10 reads 9. */
  function ExampleDecls(): seq<Decl<int, int>>
  {
    [ Declared("node_1", 1, "Start Data Ingest", []),
      Declared("node_5", 5, "Load External Rules", []),
      Declared("node_7", 7, "Load Validation Schema", []),
      Declared("node_2", 2, "Clean Data", [1]),
      Declared("node_3", 3, "Transform Data", [1]),
      Declared("node_4", 4, "Feature Engineer", [1]),
      Declared("node_6", 6, "Apply Business Rules", [2, 5]),
      Declared("node_8", 8, "Validate Features", [3, 4, 7]),
      Declared("node_9", 9, "Aggregate Results", [6, 8]),
      Declared("node_10", 10, "Generate Report", [9]) ]
  }

  /** Importing the pipeline module applies the decorators one after the
      other, each a register_node call. A DuplicateRankError raised by one of
      them propagates out of the import, so the decorators after it never run:
      the result is the first failure, or Pass when every call succeeded. */
  method DeclareAll(registry: Registry<int, int>, decls: seq<Decl<int, int>>) returns (out: Outcome<RegistryError>)
    requires registry.Valid()
    modifies registry
    ensures registry.Valid()
    ensures (registry.Contents(), out) == RegisterUntilFail(old(registry.Contents()), decls)
  {
    ghost var start := registry.Contents();
    out := Pass;
    for i := 0 to |decls|
      invariant registry.Valid()
      invariant out == Pass
      invariant RegisterUntilFail(start, decls) == RegisterUntilFail(registry.Contents(), decls[i..])
    {
      var d := decls[i];
      assert decls[i..][0] == d && decls[i..][1..] == decls[i + 1..];
      out := registry.RegisterNode(d.func, d.rank, d.name, d.connect, d.meta);
      if out.Fail? {
        return;
      }
    }
  }

  /** The example pipeline: clear the registry, declare the ten functions,
      build. Whatever the registry held before, the build succeeds with ten
      nodes and eleven edges. */
  method ExampleFlow(registry: Registry<int, int>) returns (res: Result<Graph, BuildError>)
    modifies registry
    ensures res.Success?
    ensures |res.value.nodes| == 10 && |res.value.edges| == 11
    ensures Acyclic(res.value.edges)
    ensures 1 in res.value.labels && res.value.labels[1] == "Start Data Ingest"
    ensures 10 in res.value.labels && res.value.labels[10] == "Generate Report"
  {
    registry.ClearRegistry();
    var _ := DeclareAll(registry, ExampleDecls());
    ExampleRegistered(ExampleDecls(), registry.Contents());
    ExampleGraphFacts(registry.Contents());
    res := BuildGraph(registry);
  }

  /** The declarations have pairwise-distinct ranks, so each is filed under
      its own rank, in declaration order, as the record its decorator asked for. */
  lemma ExampleRegistered(ds: seq<Decl<int, int>>, s: Snapshot<int, int>)
    requires ds == ExampleDecls() && s == RegisterUntilFail(Empty(), ds).0
    ensures RegisterUntilFail(Empty(), ds).1 == Pass
    ensures forall i :: 0 <= i < |ds| ==> ds[i].rank in s.entries && s.entries[ds[i].rank] == MakeNode(ds[i])
    ensures WellFormed(s) && ExampleConnections(s)
    ensures |s.entries.Keys| == 10
    ensures s.entries[1].name == "Start Data Ingest"
    ensures s.entries[10].name == "Generate Report"
  {
    ExampleDeclsRanks();
    RegisterUntilFailDistinct(Empty(), ds);
    RegisterAllDistinct(Empty(), ds);
    ExampleKeys(s);
    ExampleRecords(ds, s);
  }

  lemma ExampleKeys(s: Snapshot<int, int>)
    requires WellFormed(s)
    requires s.order == [1, 5, 7, 2, 3, 4, 6, 8, 9, 10]
    ensures s.entries.Keys == {1, 2, 3, 4, 5, 6, 7, 8, 9, 10}
    ensures |s.entries.Keys| == 10
  {
    forall k ensures k in s.entries <==> k in {1, 2, 3, 4, 5, 6, 7, 8, 9, 10} {
      assert k in s.entries <==> k in s.order;
    }
    SizeIsOrderLength(s);
  }

  lemma ExampleRecords(ds: seq<Decl<int, int>>, s: Snapshot<int, int>)
    requires ds == ExampleDecls()
    requires s.entries.Keys == {1, 2, 3, 4, 5, 6, 7, 8, 9, 10}
    requires forall i :: 0 <= i < |ds| ==> ds[i].rank in s.entries && s.entries[ds[i].rank] == MakeNode(ds[i])
    ensures s.entries[1].connect == [] && s.entries[5].connect == [] && s.entries[7].connect == []
    ensures s.entries[2].connect == [1] && s.entries[3].connect == [1] && s.entries[4].connect == [1]
    ensures s.entries[6].connect == [2, 5] && s.entries[8].connect == [3, 4, 7]
    ensures s.entries[9].connect == [6, 8] && s.entries[10].connect == [9]
    ensures s.entries[1].name == "Start Data Ingest"
    ensures s.entries[10].name == "Generate Report"
  {
    assert s.entries[1] == MakeNode(ds[0]) && s.entries[5] == MakeNode(ds[1]) by {
      assert ds[0].rank == 1 && ds[1].rank == 5;
    }
    assert s.entries[7] == MakeNode(ds[2]) && s.entries[2] == MakeNode(ds[3]) by {
      assert ds[2].rank == 7 && ds[3].rank == 2;
    }
    assert s.entries[3] == MakeNode(ds[4]) && s.entries[4] == MakeNode(ds[5]) by {
      assert ds[4].rank == 3 && ds[5].rank == 4;
    }
    assert s.entries[6] == MakeNode(ds[6]) && s.entries[8] == MakeNode(ds[7]) by {
      assert ds[6].rank == 6 && ds[7].rank == 8;
    }
    assert s.entries[9] == MakeNode(ds[8]) && s.entries[10] == MakeNode(ds[9]) by {
      assert ds[8].rank == 9 && ds[9].rank == 10;
    }
  }


  lemma ExampleDeclsRanks()
    ensures DistinctRanks(ExampleDecls())
    ensures Ranks(ExampleDecls()) == [1, 5, 7, 2, 3, 4, 6, 8, 9, 10]
  {
    var ranks := [1, 5, 7, 2, 3, 4, 6, 8, 9, 10];
    assert forall i :: 0 <= i < 10 ==> ExampleDecls()[i].rank == ranks[i];
    assert forall i, j :: 0 <= i < j < 10 ==> ranks[i] != ranks[j];
    assert forall i :: 0 <= i < 10 ==> Ranks(ExampleDecls())[i] == ranks[i];
  }

  /** The ten records of the example, by rank: their sources. */
  ghost predicate ExampleConnections<C, V>(s: Snapshot<C, V>)
  {
    && s.entries.Keys == {1, 2, 3, 4, 5, 6, 7, 8, 9, 10}
    && s.entries[1].connect == [] && s.entries[5].connect == [] && s.entries[7].connect == []
    && s.entries[2].connect == [1] && s.entries[3].connect == [1] && s.entries[4].connect == [1]
    && s.entries[6].connect == [2, 5] && s.entries[8].connect == [3, 4, 7]
    && s.entries[9].connect == [6, 8] && s.entries[10].connect == [9]
  }

  function ExampleEdges(): set<Edge>
  {
    {Edge(1, 2), Edge(1, 3), Edge(1, 4), Edge(2, 6), Edge(5, 6), Edge(3, 8),
     Edge(4, 8), Edge(7, 8), Edge(6, 9), Edge(8, 9), Edge(9, 10)}
  }

  lemma ExampleNoDangling<C, V>(s: Snapshot<C, V>)
    requires WellFormed(s) && ExampleConnections(s)
    ensures FirstDangling(s.entries, s.order).None?
  {
    forall r, x | r in s.order && x in s.entries[r].connect ensures x in s.entries {
      assert r in s.entries.Keys;
    }
  }

  lemma ExampleEdgeSet<C, V>(s: Snapshot<C, V>)
    requires ExampleConnections(s)
    ensures EdgeSet(s.entries) == ExampleEdges()
  {
    forall e | e in EdgeSet(s.entries) ensures e in ExampleEdges() {
      EdgeSetMembership(s.entries, e.src, e.dst);
      assert e.dst in s.entries.Keys;
    }
    forall e | e in ExampleEdges() ensures e in EdgeSet(s.entries) {
      EdgeSetMembership(s.entries, e.src, e.dst);
    }
  }

  lemma ExampleEdgesShape()
    ensures |ExampleEdges()| == 11
    ensures Acyclic(ExampleEdges())
  {
    IncreasingEdgesAcyclic(ExampleEdges());
  }

  lemma ExampleGraphFacts<C, V>(s: Snapshot<C, V>)
    requires WellFormed(s) && ExampleConnections(s)
    ensures FirstDangling(s.entries, s.order).None?
    ensures EdgeSet(s.entries) == ExampleEdges()
    ensures |EdgeSet(s.entries)| == 11
    ensures Acyclic(EdgeSet(s.entries))
  {
    ExampleNoDangling(s);
    ExampleEdgeSet(s);
    ExampleEdgesShape();
  }

  /** A dangling source is reported even when the declared edges also close a
      cycle: 1 and 2 read each other, 3 reads the unknown rank 99. */
  method DanglingBeforeCycle() returns (res: Result<Graph, BuildError>)
    ensures res == Failure(NodeConnection(3, "Report", 99))
  {
    var registry := new Registry<int, int>();
    var _ := DeclareAll(registry, DanglingDecls());
    DanglingRegistered(DanglingDecls(), registry.Contents());
    FirstDanglingAt(registry.Contents());
    res := BuildGraph(registry);
  }

  function DanglingDecls(): seq<Decl<int, int>>
  {
    [Declared("a", 1, "A", [2]), Declared("b", 2, "B", [1]), Declared("c", 3, "Report", [99])]
  }

  lemma DanglingRegistered(ds: seq<Decl<int, int>>, s: Snapshot<int, int>)
    requires ds == DanglingDecls() && s == RegisterUntilFail(Empty(), ds).0
    ensures WellFormed(s) && s.order == [1, 2, 3]
    ensures s.entries[1].connect == [2] && s.entries[2].connect == [1]
    ensures s.entries[3].connect == [99] && s.entries[3].name == "Report"
  {
    DanglingDeclsRanks();
    RegisterUntilFailDistinct(Empty(), ds);
    RegisterAllDistinct(Empty(), ds);
    DanglingRecords(ds, s);
  }

  lemma DanglingDeclsRanks()
    ensures DistinctRanks(DanglingDecls())
    ensures Ranks(DanglingDecls()) == [1, 2, 3]
  {
    assert forall i :: 0 <= i < 3 ==> DanglingDecls()[i].rank == i + 1;
  }

  lemma DanglingRecords(ds: seq<Decl<int, int>>, s: Snapshot<int, int>)
    requires ds == DanglingDecls()
    requires forall i :: 0 <= i < |ds| ==> ds[i].rank in s.entries && s.entries[ds[i].rank] == MakeNode(ds[i])
    ensures 1 in s.entries && s.entries[1].connect == [2]
    ensures 2 in s.entries && s.entries[2].connect == [1]
    ensures 3 in s.entries && s.entries[3].connect == [99] && s.entries[3].name == "Report"
  {
    assert ds[0].rank == 1 && ds[1].rank == 2 && ds[2].rank == 3;
  }

  lemma FirstDanglingAt<C, V>(s: Snapshot<C, V>)
    requires WellFormed(s) && s.order == [1, 2, 3]
    requires s.entries[1].connect == [2] && s.entries[2].connect == [1]
    requires s.entries[3].connect == [99]
    ensures FirstDangling(s.entries, s.order) == Some(NodeConnection(3, s.entries[3].name, 99))
  {
    assert s.order[1..] == [2, 3] && s.order[2..] == [3];
    assert 99 !in s.entries by {
      assert 99 !in s.order;
    }
  }

  /** Two decorators with rank 1, then one with rank 2: the second raises,
      the import stops there, and rank 2 is never registered. */
  method ImportStopsAtDuplicate() returns (out: Outcome<RegistryError>, snapshot: Snapshot<int, int>)
    ensures out == Fail(DuplicateRank(1, "A"))
    ensures snapshot.order == [1] && 2 !in snapshot.entries
  {
    var registry := new Registry<int, int>();
    out := DeclareAll(registry, ClashingDecls());
    snapshot := registry.GetRegistry();
    StopsAtDuplicate(ClashingDecls(), RegisterUntilFail(Empty(), ClashingDecls()));
  }

  function ClashingDecls(): seq<Decl<int, int>>
  {
    [Declared("a", 1, "A", []), Declared("b", 1, "B", []), Declared("c", 2, "C", [])]
  }

  lemma StopsAtDuplicate(ds: seq<Decl<int, int>>, r: (Snapshot<int, int>, Outcome<RegistryError>))
    requires ds == ClashingDecls() && r == RegisterUntilFail(Empty(), ds)
    ensures r.1 == Fail(DuplicateRank(1, "A"))
    ensures r.0.order == [1] && 2 !in r.0.entries
  {
    var s1 := Add(Empty(), ds[0]);
    assert RegisterUntilFail(Empty(), ds) == RegisterUntilFail(s1, ds[1..]);
    assert ds[1..][0] == ds[1];
    assert RegisterUntilFail(s1, ds[1..]) == (s1, Fail(DuplicateRank(1, "A")));
  }

  /** A record that lists its own rank is a cycle of length one, and the only
      cycle there is. */
  method SelfLoop() returns (res: Result<Graph, BuildError>)
    ensures res.Failure? && res.error.Cycle?
    ensures forall i :: 0 <= i < |res.error.cycle| ==> res.error.cycle[i] == 1
  {
    var registry := new Registry<int, int>();
    var _ := registry.RegisterNode(Func("loop", 0), 1, None, Some([1]), None);
    assert registry.order == [1];
    assert FirstDangling(registry.entries, registry.order).None? by {
      assert registry.order[1..] == [];
    }
    SelfConnectIsCycle(registry.entries, 1);
    res := BuildGraph(registry);
    assert res.Failure? && res.error.Cycle?;
    forall i | 0 <= i < |res.error.cycle| ensures res.error.cycle[i] == 1 {
      OnlyEdgeIsSelfLoop(registry.entries, res.error.cycle, i);
    }
  }

  lemma OnlyEdgeIsSelfLoop<C, V>(entries: map<int, Node<C, V>>, c: seq<int>, i: nat)
    requires entries.Keys == {1} && entries[1].connect == [1]
    requires IsCycle(EdgeSet(entries), c) && i < |c|
    ensures c[i] == 1
  {
    var e := if i < |c| - 1 then Edge(c[i], c[i + 1]) else Edge(c[|c| - 1], c[0]);
    assert e in EdgeSet(entries);
    EdgeSetMembership(entries, e.src, e.dst);
  }

  /** Registering a taken rank is refused with the name already there, and
      the first record stays. */
  method RegisterTwice() returns (first: Outcome<RegistryError>, second: Outcome<RegistryError>, kept: string)
    ensures first == Pass
    ensures second == Fail(DuplicateRank(4, "Load"))
    ensures kept == "Load"
  {
    var registry := new Registry<int, int>();
    first := registry.RegisterNode(Func("load", 0), 4, Some("Load"), None, None);
    second := registry.RegisterNode(Func("save", 0), 4, Some("Save"), None, None);
    var snapshot := registry.GetRegistry();
    kept := snapshot.entries[4].name;
  }

  /** A copy taken by get_registry does not follow later registrations or a
      clear; after the clear, any rank can be registered again. */
  method SnapshotIsolation(registry: Registry<int, int>, func: Func<int>, rank: int)
    returns (before: Snapshot<int, int>, out: Outcome<RegistryError>)
    requires registry.Valid()
    modifies registry
    ensures before == old(registry.Contents())
    ensures out == Pass
    ensures registry.Contents() == Add(Empty(), Decl(func, rank, None, None, None))
  {
    before := registry.GetRegistry();
    var _ := registry.RegisterNode(func, rank, None, None, None);
    registry.ClearRegistry();
    out := registry.RegisterNode(func, rank, None, None, None);
  }

  /** build_graph only reads the registry: two calls in a row agree on
      whether they succeed, on the graph, and on any error other than the
      cycle they happen to report. */
  method BuildTwice<C, V>(registry: Registry<C, V>) returns (r1: Result<Graph, BuildError>, r2: Result<Graph, BuildError>)
    requires registry.Valid()
    ensures r1.Success? <==> r2.Success?
    ensures r1.Success? ==> r1 == r2
    ensures r1.Failure? && !r1.error.Cycle? ==> r1 == r2
    ensures r1.Failure? && r1.error.Cycle? ==> r2.Failure? && r2.error.Cycle?
  {
    r1 := BuildGraph(registry);
    r2 := BuildGraph(registry);
  }
}
