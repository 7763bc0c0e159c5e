# plot-flow: the node registry and the graph builder

plot-flow lets a Python module describe a pipeline by decorating functions
with `@Pipeline(rank=..., name=..., connect=..., meta=...)`. Each decoration
calls `register_node`, which files a record `{name, rank, connect, meta, func}`
under its integer rank in a module-level dict, `_REGISTRY`. `build_graph` then
takes a copy of that dict and turns it into a directed graph. Each rank becomes a
node labelled with its record's name. Each rank listed in a record's `connect`
gives an edge from that source to the record's rank. The build fails in three
ways, checked in this order:

- an empty registry (`ValueError`);
- a `connect` entry naming an unregistered rank (`NodeConnectionError`);
- a cycle (`CycleError`).

This project models those two files in Dafny and proves their contracts.

- `results.dfy` (`Results`): `Option`, `Result` and `Outcome` (pass or fail with an error).
- `labels.dfy` (`Labels`): how `register_node` picks a label. The rule is
  `name or func.__name__.replace("_", " ").title() or str(rank)`.
  - ASCII title-casing is defined twice: as a left-to-right scan and position by position. A lemma proves the two agree.
  - `str(rank)` comes with a parser, and a lemma proves the round trip.
- `registry.dfy` (`NodeRegistry`): the registry as a class `Registry`. It has the
  insertion order (`order`, a `seq<int>`) and the records (`entries`, a `map<int, Node>`).
  - Python dicts iterate in insertion order, and `build_graph` reports the first dangling source it meets in that order. That is why the order is kept.
  - `register_node`, `get_registry` and `clear_registry` are methods. `RegisterNode`'s new state and outcome are given by the pure functions `Step` and `Add`. `GetRegistry` returns a value equal to `Contents()`. `ClearRegistry` leaves `Empty()`.
  - `RegisterUntilFail` is a sequence of calls in which the first `DuplicateRankError` propagates, so the later calls never run. A lemma splits its result into the all-pass case and the first failing call.
  - `RegisterAll` is a sequence of calls each of whose errors is caught, so every call runs. Lemmas about it cover key sets, order, the records and order independence. For distinct new ranks, nothing fails and the two agree.
- `acyclicity.dfy` (`Acyclicity`): a cycle is a closed path along one or more edges, and a graph is acyclic when it has none.
  - `FindCycle` is Kahn's algorithm. It returns `None` exactly when the graph is acyclic, and otherwise a genuine cycle in which no node repeats, as networkx's simple cycles are.
  - A topological rank proves acyclicity.
- `graph.dfy` (`GraphBuilder`): `build_graph` as the method `BuildGraph`. It uses the same loops as the source:
  - the node loop (`AddNodes`);
  - the edge loop (`AddEdges`), whose inner loop over one record's `connect` is `AddIncoming`;
  - the acyclicity test.

  The postconditions are stated against pure specifications:
  - `AddNodes` against the registry's keys and `NodeLabels`;
  - `AddIncoming` against `IncomingEdges` and `MissingSource`;
  - `AddEdges` against the declared edge set `EdgeSet` and the error the edge loop meets first, `FirstDangling`;
  - `BuildGraph` against `EdgeSet`, `FirstDangling`, `NodeLabels`, and `Acyclic` and `IsCycle` from `Acyclicity`.
- `scenarios.dfy` (`Scenarios`): callers of the two files.
  - the ten-node pipeline of `test/test_example_flow.py`;
  - a dangling source that is reported in preference to a cycle;
  - a self-loop;
  - a duplicate rank;
  - a duplicate rank that stops the remaining decorators;
  - a snapshot that does not follow later calls;
  - two builds that agree.

  Importing a module applies its decorators one after the other. `DeclareAll` models this as a loop over the declarations, each one a `register_node` call. A `DuplicateRankError` propagates out of the decorator and ends the import, so the loop stops at the first failure and returns it.

In the code, `func` and `meta` are never inspected. They are the type parameters `C` (the function object, beside its `__name__`) and `V` (metadata values).

The ten-node example's `connect` lists declare eleven edges, and `ExampleFlow` proves eleven.

## Model

| member | source | states |
|---|---|---|
| Labels.ReplaceUnderscores | plotflow/registry.py:45 | `replace("_", " ")`: same length, every `_` becomes a space, every other character is kept, no `_` remains |
| Labels.TitleCaseSpec | plotflow/registry.py:45 | the `title()` scan keeps the length and puts at each index exactly what the position rule says: an upper-case letter at the start of a word, lower-case inside a word, anything else unchanged |
| Labels.TitleCaseIdempotent | plotflow/registry.py:45 | title-casing a title-cased label changes nothing |
| Labels.NatToDecimal | plotflow/registry.py:45 | `str(n)` of a natural number is a non-empty string of digits without a leading zero |
| Labels.NatToDecimalRoundTrip | plotflow/registry.py:45 | parsing the digits of n gives back n |
| Labels.IntToDecimalRoundTrip | plotflow/registry.py:45 | `str(rank)` for any int, negative included, is a decimal literal that parses back to rank |
| Labels.ResolveName | plotflow/registry.py:45 | the label is never empty. A non-empty `name` is used as is. Otherwise, for a non-empty function name, it has that name's length, no `_`, and is the title-cased, underscore-free name position by position. Otherwise it is a decimal string that parses back to the rank |
| NodeRegistry.MakeNode | plotflow/registry.py:45-53 | the stored record carries the resolved non-empty name, the rank and the function; `connect or []` and `meta or {}` |
| NodeRegistry.Add | plotflow/registry.py:47-53 | inserting a new rank keeps the registry well formed, adds exactly that key with its record, leaves every other record unchanged and appends the rank to the iteration order |
| NodeRegistry.SizeIsOrderLength | plotflow/registry.py:47-53 | the number of records equals the number of ranks in the iteration order |
| NodeRegistry.RegisterAllSnoc | plotflow/registry.py:38-53 | a sequence of calls followed by one more call is that call applied to the sequence's result |
| NodeRegistry.RegisterUntilFailSpec | plotflow/registry.py:38-53 | calls whose first `DuplicateRankError` propagates either all pass, each finding its rank new, and leave the registry of `RegisterAll`; or stop at the first call whose rank the earlier calls already filed, return its `DuplicateRankError` naming the existing record, and leave exactly the registry of the calls before it |
| NodeRegistry.RegisterUntilFailDistinct | plotflow/registry.py:38-53 | calls with pairwise-distinct new ranks all pass, so stopping at the first error and catching each error give the same registry |
| NodeRegistry.RegisterAllShape | plotflow/registry.py:38-53 | calls with pairwise-distinct new ranks keep the registry well formed: distinct order, keys equal to the order, every record filed under its own rank with a non-empty name |
| NodeRegistry.RegisterUntilFailPasses | plotflow/registry.py:38-53 | when no call of the sequence fails, each call found its rank new and the registry is that of `RegisterAll` |
| NodeRegistry.RegisterUntilFailStops | plotflow/registry.py:38-53 | when a call fails, it is the first whose rank the calls before it had filed; its error names the existing record, and the registry is what those calls left |
| NodeRegistry.RegisterAllKeys | plotflow/registry.py:38-53 | calls with pairwise-distinct new ranks add exactly those ranks as keys |
| NodeRegistry.RegisterAllSequence | plotflow/registry.py:38-53 | calls with pairwise-distinct new ranks append those ranks to the iteration order in call order |
| NodeRegistry.RegisterAllOrder | plotflow/registry.py:38-53 | calls with pairwise-distinct new ranks add exactly those ranks, appended to the iteration order in call order |
| NodeRegistry.RegisterAllRecords | plotflow/registry.py:38-53 | calls with pairwise-distinct new ranks file each declaration's record under its rank and leave every earlier record unchanged |
| NodeRegistry.RegisterAllDistinct | plotflow/registry.py:38-53 | the three lemmas above together |
| NodeRegistry.RegisterAllOrderIrrelevant | plotflow/registry.py:38-53 | two call sequences with the same distinct new declarations, in any order, give the same records |
| NodeRegistry.Registry.constructor | plotflow/registry.py:11 | a new registry is empty and well formed |
| NodeRegistry.Registry.RegisterNode | plotflow/registry.py:38-53 | a taken rank gives `DuplicateRankError` with the existing record's name and changes nothing. A new rank succeeds with exactly `Add` applied. The registry stays well formed |
| NodeRegistry.Registry.GetRegistry | plotflow/registry.py:55-57 | returns a value equal to the current contents, which is well formed; the registry is not changed |
| NodeRegistry.Registry.ClearRegistry | plotflow/registry.py:59-66 | the registry becomes empty and well formed |
| Acyclicity.TopoRankAcyclic | plotflow/graph.py:60 | a graph whose every edge climbs a numbering of its nodes has no cycle |
| Acyclicity.IncreasingEdgesAcyclic | plotflow/graph.py:60 | a graph whose every edge goes from a smaller to a larger node has no cycle |
| Acyclicity.SelfLoopNotAcyclic | plotflow/graph.py:60-62 | an edge from a node to itself is a cycle |
| Acyclicity.FindCycle | plotflow/graph.py:60-62 | `None` exactly when no cycle exists (`is_directed_acyclic_graph`); otherwise a closed path along graph edges in which no node occurs twice, a simple cycle as `nx.simple_cycles` reports |
| Acyclicity.WalkBack | plotflow/graph.py:61 | in a node set where every node has a predecessor inside the set, returns a closed path along graph edges that stays inside the set and visits no node twice |
| GraphBuilder.MissingSource | plotflow/graph.py:49-55 | `None` exactly when every source in the list is registered; otherwise a listed source that is not registered |
| GraphBuilder.FirstDangling | plotflow/graph.py:48-55 | `None` exactly when every source of every visited record is registered. Otherwise a `NodeConnectionError` naming a visited rank, that record's name and a source of that record that is not registered |
| GraphBuilder.EdgesOfMembership | plotflow/graph.py:48-57 | an edge s -> r is produced by the edge loop over some ranks exactly when r is one of them and s is in r's `connect` |
| GraphBuilder.EdgesOfAll | plotflow/graph.py:48-57 | the edge loop over the whole registry produces exactly the declared edge set |
| GraphBuilder.LoopStep | plotflow/graph.py:48-57 | one turn of the outer loop adds that record's incoming edges; the first error ahead is that record's own missing source if it has one, else the first error after it |
| GraphBuilder.EdgesWithinNodes | plotflow/graph.py:48-57 | with no dangling source, every edge joins two registered ranks |
| GraphBuilder.SelfConnectIsCycle | plotflow/graph.py:49-62 | a record listing its own rank in `connect` makes the graph cyclic |
| GraphBuilder.AddNodes | plotflow/graph.py:39-45 | the node set is exactly the registry's keys, and each node's label is its record's name |
| GraphBuilder.AddIncoming | plotflow/graph.py:49-57 | one record's inner loop: the edges so far plus one edge from each source to the rank, or `NodeConnectionError` for the first unregistered source |
| GraphBuilder.AddEdges | plotflow/graph.py:47-57 | the whole edge loop: the first `NodeConnectionError` in registry order if there is one, otherwise exactly the declared edge set |
| GraphBuilder.BuildGraph | plotflow/graph.py:31-64 | empty registry exactly when `ValueError`. Otherwise a dangling source gives that `NodeConnectionError` before any cycle test. Otherwise a cycle gives `CycleError` with a real cycle in which no rank repeats. Success exactly when non-empty, no dangling source and acyclic, and then nodes are the keys, labels the names, edges the declared edges. The registry is only read |
| Scenarios.DeclareAll | plotflow/decorator.py:37-50 | decorating functions one after the other applies their `register_node` calls in order; the first `DuplicateRankError` ends the sequence and is returned, and the registry is what the calls before it left |
| Scenarios.ImportStopsAtDuplicate | plotflow/registry.py:38-42 | with ranks 1, 1, 2 the second decorator fails naming the first record, and rank 2 is never registered |
| Scenarios.ExampleRegistered | test/test_example_flow.py:24-52 | after the ten declarations every call has passed, each declaration's record (its name, `connect`, `meta` and function) is filed under its rank, and the registry holds exactly ranks 1 to 10 |
| Scenarios.ExampleGraphFacts | test/test_example_flow.py:24-52 | the ten-node registry has no dangling source and declares eleven edges, and they form no cycle |
| Scenarios.ExampleFlow | test/test_example_flow.py:21-52 | after `clear_registry()` and the ten declarations, `build_graph` succeeds with 10 nodes and 11 edges, acyclic, labelled "Start Data Ingest" at 1 and "Generate Report" at 10 |
| Scenarios.DanglingBeforeCycle | plotflow/graph.py:47-62 | with 1 and 2 reading each other and 3 reading the unknown 99, the result is `NodeConnectionError(3, "Report", 99)`, not a cycle |
| Scenarios.SelfLoop | plotflow/graph.py:59-62 | a single record connected to itself fails with `CycleError`, and the reported cycle consists of that rank only |
| Scenarios.RegisterTwice | plotflow/registry.py:38-42 | registering rank 4 twice passes once, then fails naming the first record, which stays |
| Scenarios.SnapshotIsolation | plotflow/registry.py:55-66 | a copy from `get_registry` is the state at that moment whatever follows; after `clear_registry` any rank registers successfully |
| Scenarios.BuildTwice | plotflow/graph.py:31-64 | two builds of an unchanged registry agree on success, on the graph and on every error except which cycle is reported |

## Left out

- `plotflow/plotter.py` is not part of this model. It covers drawing, layout, file output and the printed error messages: all rendering and I/O.
- `plotflow/decorator.py` is not part of this model beyond what `Scenarios.Declared` passes on (`connect or []` and `meta or {}`) and the error propagation that `Scenarios.DeclareAll` follows. Its `isinstance(rank, int)` test has nothing to check once ranks are typed `int`.
- `plotflow/__init__.py` only re-exports names.
- The networkx `DiGraph` is a value `Graph(nodes, labels, edges)`. The `label` node attribute is the `labels` map.
- GraphBuilder.BuildGraph: reports one cycle rather than the list of every simple cycle that `nx.simple_cycles` enumerates. It does not fix which cycle or where it starts, because that is networkx's internal choice.
- Acyclicity.FindCycle: decides acyclicity with Kahn's algorithm rather than networkx's own traversal. The two give the same yes/no answer on every graph, since both equal `Acyclic`.
- The text of the exception messages is not modelled. Errors are datatype variants carrying the rank, the name, the missing source or the cycle.
- Labels.TitleCaseSpec: title-casing is modelled over ASCII letters only. Python's `str.title()` also cases other Unicode letters.
- `func` and `meta` are never inspected by the code. They are type parameters, and only `func.__name__` is modelled.
- `_REGISTRY` is a module-level global. Here it is an explicit `Registry` object, so there is no concurrency.
- NodeRegistry.Registry.GetRegistry: records are values. In Python the stored record keeps the caller's own `connect` list (registry.py:50), and `_REGISTRY.copy()` is shallow (registry.py:57), so the registry, every snapshot and the caller share the record dicts and `connect` lists. That aliasing is not captured.
- NodeRegistry.MakeNode: the record is frozen at registration. `build_graph` reads `node_data['connect']` when it runs (graph.py:49), so in Python a `connect` list mutated after registration changes the edges, and earlier snapshots with it. That is not modelled.
- Labels.ResolveName: every `Func` carries a `funcName`. When `name` is falsy, Python evaluates `func.__name__` (registry.py:45), which raises `AttributeError` for a callable without one (a `functools.partial`, a callable instance) before anything is stored. That error path is not modelled.
- `connect` entries are `int`s. Python would also accept other hashable values and test them with `in registry`.
