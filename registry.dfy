/** The node registry: a store of node records keyed by their integer rank.
    Python's `_REGISTRY` is a module-level dict; here it is an explicit
    Registry object. A dict remembers insertion order, and build_graph walks it
    in that order, so the model keeps the ranks in insertion order (`order`)
    beside the map from rank to record (`entries`). */
module NodeRegistry {
  import opened Results
  import opened Labels

  /** The decorated Python function: only its `__name__` is ever looked at;
      `code` stands for the function object itself, threaded through untouched. */
  datatype Func<C> = Func(funcName: string, code: C)

  /** One stored record `{name, rank, connect, meta, func}`. */
  datatype Node<C, V> = Node(name: string, rank: int, connect: seq<int>, meta: map<string, V>, func: Func<C>)

  /** The arguments of one register_node call. `None` is Python's `None`. */
  datatype Decl<C, V> = Decl(func: Func<C>, rank: int, name: Option<string>,
                             connect: Option<seq<int>>, meta: Option<map<string, V>>)

  /** A copy of the registry: the ranks in insertion order and the records. */
  datatype Snapshot<C, V> = Snapshot(order: seq<int>, entries: map<int, Node<C, V>>)

  datatype RegistryError = DuplicateRank(rank: int, existingName: string)

  function Empty<C, V>(): Snapshot<C, V>
  {
    Snapshot([], map[])
  }

  /** What a dict with these contents looks like: every key once in the
      iteration order, and each record filed under its own rank with a
      non-empty name. */
  ghost predicate WellFormed<C, V>(s: Snapshot<C, V>)
  {
    && (forall i, j :: 0 <= i < j < |s.order| ==> s.order[i] != s.order[j])
    && (forall k :: k in s.entries <==> k in s.order)
    && (forall k :: k in s.entries ==> s.entries[k].rank == k && s.entries[k].name != [])
  }

  /** The registry holds as many records as its iteration order lists ranks. */
  lemma SizeIsOrderLength<C, V>(s: Snapshot<C, V>)
    requires WellFormed(s)
    ensures |s.entries| == |s.order|
  {
    forall k ensures k in s.entries.Keys <==> k in (set k | k in s.order) {
      assert k in s.entries <==> k in s.order;
    }
    assert s.entries.Keys == set k | k in s.order;
    assert |s.entries| == |s.entries.Keys|;
    DistinctCard(s.order);
  }

  lemma {:induction false} DistinctCard(xs: seq<int>)
    requires forall i, j :: 0 <= i < j < |xs| ==> xs[i] != xs[j]
    ensures |set x | x in xs| == |xs|
  {
    if xs != [] {
      var init, last := xs[..|xs| - 1], xs[|xs| - 1];
      DistinctCard(init);
      assert xs == init + [last];
      assert (set x | x in xs) == (set x | x in init) + {last};
      assert last !in init;
    }
  }

  /** The record register_node stores for a declaration: the resolved name,
      `connect or []` and `meta or {}`. */
  function MakeNode<C, V>(d: Decl<C, V>): (n: Node<C, V>)
    ensures n.rank == d.rank && n.func == d.func
    ensures n.name != []
    ensures d.name.Some? && d.name.value != [] ==> n.name == d.name.value
    ensures d.connect.Some? ==> n.connect == d.connect.value
    ensures d.connect.None? ==> n.connect == []
    ensures d.meta.Some? ==> n.meta == d.meta.value
    ensures d.meta.None? ==> n.meta == map[]
  {
    Node(ResolveName(d.name, d.func.funcName, d.rank), d.rank,
         d.connect.GetOr([]), d.meta.GetOr(map[]), d.func)
  }

  /** Inserting a declaration whose rank is new. */
  function Add<C, V>(s: Snapshot<C, V>, d: Decl<C, V>): (r: Snapshot<C, V>)
    requires d.rank !in s.entries
    ensures WellFormed(s) ==> WellFormed(r)
    ensures r.entries.Keys == s.entries.Keys + {d.rank}
    ensures r.entries[d.rank] == MakeNode(d)
    ensures forall k :: k in s.entries ==> r.entries[k] == s.entries[k]
    ensures r.order == s.order + [d.rank]
  {
    Snapshot(s.order + [d.rank], s.entries[d.rank := MakeNode(d)])
  }

  /** One register_node call on a registry value: refused, with the registry
      untouched, when the rank is taken; otherwise the record is added. */
  function Step<C, V>(s: Snapshot<C, V>, d: Decl<C, V>): (Snapshot<C, V>, Outcome<RegistryError>)
  {
    if d.rank in s.entries then (s, Fail(DuplicateRank(d.rank, s.entries[d.rank].name)))
    else (Add(s, d), Pass)
  }

  /** A sequence of register_node calls, one after the other, each of whose
      DuplicateRankError is caught by the caller so the next call still runs. */
  function RegisterAll<C, V>(s: Snapshot<C, V>, ds: seq<Decl<C, V>>): Snapshot<C, V>
    decreases |ds|
  {
    if ds == [] then s else RegisterAll(Step(s, ds[0]).0, ds[1..])
  }

  /** A sequence of register_node calls whose first DuplicateRankError
      propagates: the calls after the failing one never run. */
  function RegisterUntilFail<C, V>(s: Snapshot<C, V>, ds: seq<Decl<C, V>>): (Snapshot<C, V>, Outcome<RegistryError>)
    decreases |ds|
  {
    if ds == [] then (s, Pass)
    else
      var (next, out) := Step(s, ds[0]);
      if out.Fail? then (next, out) else RegisterUntilFail(next, ds[1..])
  }

  /** The calls either all succeed, and then they are the calls of RegisterAll,
      or the k-th is the first to fail: it finds its rank taken in the registry
      left by the calls before it, which is the registry that remains. */
  lemma RegisterUntilFailSpec<C, V>(s: Snapshot<C, V>, ds: seq<Decl<C, V>>)
    ensures RegisterUntilFail(s, ds).1.Pass? ==>
      && RegisterUntilFail(s, ds).0 == RegisterAll(s, ds)
      && forall i :: 0 <= i < |ds| ==> ds[i].rank !in RegisterAll(s, ds[..i]).entries
    ensures RegisterUntilFail(s, ds).1.Fail? ==>
      exists k :: 0 <= k < |ds|
        && (forall i :: 0 <= i < k ==> ds[i].rank !in RegisterAll(s, ds[..i]).entries)
        && RegisterUntilFail(s, ds).0 == RegisterAll(s, ds[..k])
        && ds[k].rank in RegisterAll(s, ds[..k]).entries
        && RegisterUntilFail(s, ds).1
           == Fail(DuplicateRank(ds[k].rank, RegisterAll(s, ds[..k]).entries[ds[k].rank].name))
  {
    RegisterUntilFailPasses(s, ds);
    RegisterUntilFailStops(s, ds);
  }

  /** When no call fails, each call found its rank new, and the registry is
      that of RegisterAll. */
  lemma {:induction false} RegisterUntilFailPasses<C, V>(s: Snapshot<C, V>, ds: seq<Decl<C, V>>)
    ensures RegisterUntilFail(s, ds).1.Pass? ==>
      && RegisterUntilFail(s, ds).0 == RegisterAll(s, ds)
      && forall i :: 0 <= i < |ds| ==> ds[i].rank !in RegisterAll(s, ds[..i]).entries
    decreases |ds|
  {
    if ds != [] && ds[0].rank !in s.entries {
      var rest := ds[1..];
      RegisterUntilFailPasses(Add(s, ds[0]), rest);
      if RegisterUntilFail(s, ds).1.Pass? {
        forall i | 0 <= i < |ds|
          ensures ds[i].rank !in RegisterAll(s, ds[..i]).entries
        {
          if i == 0 {
            assert ds[..0] == [];
          } else {
            PrefixCons(s, ds, i - 1);
            assert ds[i] == rest[i - 1];
          }
        }
      }
    }
  }

  /** When a call fails, it is the first whose rank the calls before it had
      already filed, and the registry is what those calls left. */
  lemma {:induction false} RegisterUntilFailStops<C, V>(s: Snapshot<C, V>, ds: seq<Decl<C, V>>)
    ensures RegisterUntilFail(s, ds).1.Fail? ==>
      exists k :: 0 <= k < |ds|
        && (forall i :: 0 <= i < k ==> ds[i].rank !in RegisterAll(s, ds[..i]).entries)
        && RegisterUntilFail(s, ds).0 == RegisterAll(s, ds[..k])
        && ds[k].rank in RegisterAll(s, ds[..k]).entries
        && RegisterUntilFail(s, ds).1
           == Fail(DuplicateRank(ds[k].rank, RegisterAll(s, ds[..k]).entries[ds[k].rank].name))
    decreases |ds|
  {
    if ds != [] {
      assert ds[..0] == [];
      if ds[0].rank !in s.entries && RegisterUntilFail(s, ds).1.Fail? {
        var next, rest := Add(s, ds[0]), ds[1..];
        RegisterUntilFailStops(next, rest);
        var k :| 0 <= k < |rest|
          && (forall i :: 0 <= i < k ==> rest[i].rank !in RegisterAll(next, rest[..i]).entries)
          && RegisterUntilFail(next, rest).0 == RegisterAll(next, rest[..k])
          && rest[k].rank in RegisterAll(next, rest[..k]).entries
          && RegisterUntilFail(next, rest).1
             == Fail(DuplicateRank(rest[k].rank, RegisterAll(next, rest[..k]).entries[rest[k].rank].name));
        PrefixCons(s, ds, k);
        assert ds[k + 1] == rest[k];
        forall i | 0 <= i < k + 1
          ensures ds[i].rank !in RegisterAll(s, ds[..i]).entries
        {
          if i > 0 {
            PrefixCons(s, ds, i - 1);
            assert ds[i] == rest[i - 1];
          }
        }
      }
    }
  }

  /** The calls of the first i + 1 declarations are the first call followed
      by the calls of the next i. */
  lemma PrefixCons<C, V>(s: Snapshot<C, V>, ds: seq<Decl<C, V>>, i: nat)
    requires i < |ds|
    ensures RegisterAll(s, ds[..i + 1]) == RegisterAll(Step(s, ds[0]).0, ds[1..][..i])
  {
    assert ds[..i + 1][1..] == ds[1..][..i];
  }

  /** A batch of distinct new ranks never fails, so letting the first error
      propagate and catching each error give the same registry. */
  lemma {:induction false} RegisterUntilFailDistinct<C, V>(s: Snapshot<C, V>, ds: seq<Decl<C, V>>)
    requires DistinctRanks(ds)
    requires forall i :: 0 <= i < |ds| ==> ds[i].rank !in s.entries
    ensures RegisterUntilFail(s, ds) == (RegisterAll(s, ds), Pass)
    decreases |ds|
  {
    if ds != [] {
      RestFresh(s, ds);
      RegisterUntilFailDistinct(Add(s, ds[0]), ds[1..]);
    }
  }

  /** One more call after a sequence of calls. */
  lemma {:induction false} RegisterAllSnoc<C, V>(s: Snapshot<C, V>, ds: seq<Decl<C, V>>, d: Decl<C, V>)
    ensures RegisterAll(s, ds + [d]) == Step(RegisterAll(s, ds), d).0
    decreases |ds|
  {
    if ds == [] {
      assert [d][1..] == [];
    } else {
      assert (ds + [d])[1..] == ds[1..] + [d];
      RegisterAllSnoc(Step(s, ds[0]).0, ds[1..], d);
    }
  }

  predicate DistinctRanks<C, V>(ds: seq<Decl<C, V>>)
  {
    forall i, j :: 0 <= i < j < |ds| ==> ds[i].rank != ds[j].rank
  }

  ghost function RankSet<C, V>(ds: seq<Decl<C, V>>): set<int>
  {
    set d | d in ds :: d.rank
  }

  function Ranks<C, V>(ds: seq<Decl<C, V>>): seq<int>
  {
    seq(|ds|, i requires 0 <= i < |ds| => ds[i].rank)
  }

  /** Registering declarations with pairwise-distinct, new ranks adds exactly
      those ranks, each with its own record, appends them to the iteration
      order, and leaves every earlier record as it was. */
  lemma RegisterAllDistinct<C, V>(s: Snapshot<C, V>, ds: seq<Decl<C, V>>)
    requires WellFormed(s)
    requires DistinctRanks(ds)
    requires forall i :: 0 <= i < |ds| ==> ds[i].rank !in s.entries
    ensures WellFormed(RegisterAll(s, ds))
    ensures RegisterAll(s, ds).entries.Keys == s.entries.Keys + RankSet(ds)
    ensures forall i :: 0 <= i < |ds| ==>
      ds[i].rank in RegisterAll(s, ds).entries && RegisterAll(s, ds).entries[ds[i].rank] == MakeNode(ds[i])
    ensures forall k :: k in s.entries ==> RegisterAll(s, ds).entries[k] == s.entries[k]
    ensures RegisterAll(s, ds).order == s.order + Ranks(ds)
  {
    RegisterAllShape(s, ds);
    RegisterAllOrder(s, ds);
    RegisterAllRecords(s, ds);
  }

  /** Every step of a batch of distinct new ranks keeps the registry well formed. */
  lemma {:induction false} RegisterAllShape<C, V>(s: Snapshot<C, V>, ds: seq<Decl<C, V>>)
    requires WellFormed(s)
    requires DistinctRanks(ds)
    requires forall i :: 0 <= i < |ds| ==> ds[i].rank !in s.entries
    ensures WellFormed(RegisterAll(s, ds))
    decreases |ds|
  {
    if ds != [] {
      RegisterAllCons(s, ds);
      RestFresh(s, ds);
      RegisterAllShape(Add(s, ds[0]), ds[1..]);
    }
  }

  /** A batch of distinct new ranks adds exactly those ranks, appended to the
      iteration order in the order of the calls. */
  lemma RegisterAllOrder<C, V>(s: Snapshot<C, V>, ds: seq<Decl<C, V>>)
    requires DistinctRanks(ds)
    requires forall i :: 0 <= i < |ds| ==> ds[i].rank !in s.entries
    ensures RegisterAll(s, ds).entries.Keys == s.entries.Keys + RankSet(ds)
    ensures RegisterAll(s, ds).order == s.order + Ranks(ds)
  {
    RegisterAllKeys(s, ds);
    RegisterAllSequence(s, ds);
  }

  lemma {:induction false} RegisterAllKeys<C, V>(s: Snapshot<C, V>, ds: seq<Decl<C, V>>)
    requires DistinctRanks(ds)
    requires forall i :: 0 <= i < |ds| ==> ds[i].rank !in s.entries
    ensures RegisterAll(s, ds).entries.Keys == s.entries.Keys + RankSet(ds)
    decreases |ds|
  {
    if ds != [] {
      var d, rest := ds[0], ds[1..];
      RegisterAllCons(s, ds);
      RestFresh(s, ds);
      RegisterAllKeys(Add(s, d), rest);
      assert RankSet(ds) == {d.rank} + RankSet(rest) by {
        assert ds == [d] + rest;
      }
    }
  }

  lemma {:induction false} RegisterAllSequence<C, V>(s: Snapshot<C, V>, ds: seq<Decl<C, V>>)
    requires DistinctRanks(ds)
    requires forall i :: 0 <= i < |ds| ==> ds[i].rank !in s.entries
    ensures RegisterAll(s, ds).order == s.order + Ranks(ds)
    decreases |ds|
  {
    if ds == [] {
      assert s.order + Ranks(ds) == s.order;
    } else {
      var d, rest := ds[0], ds[1..];
      RegisterAllCons(s, ds);
      RestFresh(s, ds);
      RegisterAllSequence(Add(s, d), rest);
      assert Ranks(ds) == [d.rank] + Ranks(rest) by {
        forall i | 0 <= i < |ds| ensures Ranks(ds)[i] == ([d.rank] + Ranks(rest))[i] {
          if i > 0 {
            assert ds[i] == rest[i - 1];
          }
        }
      }
      assert s.order + Ranks(ds) == (s.order + [d.rank]) + Ranks(rest);
    }
  }


  /** After the first of a batch of distinct new ranks is added, the rest are
      still distinct and new. */
  lemma RestFresh<C, V>(s: Snapshot<C, V>, ds: seq<Decl<C, V>>)
    requires ds != []
    requires DistinctRanks(ds)
    requires forall i :: 0 <= i < |ds| ==> ds[i].rank !in s.entries
    ensures DistinctRanks(ds[1..])
    ensures forall i :: 0 <= i < |ds| - 1 ==> ds[1..][i].rank !in Add(s, ds[0]).entries
  {
    var rest := ds[1..];
    forall i, j | 0 <= i < j < |rest| ensures rest[i].rank != rest[j].rank {
      assert rest[i] == ds[i + 1] && rest[j] == ds[j + 1];
    }
    forall i | 0 <= i < |rest| ensures rest[i].rank !in Add(s, ds[0]).entries {
      assert rest[i] == ds[i + 1];
    }
  }

  /** The records part of RegisterAllDistinct: it needs neither a well-formed
      start nor anything about the iteration order. */
  lemma {:induction false} RegisterAllRecords<C, V>(s: Snapshot<C, V>, ds: seq<Decl<C, V>>)
    requires DistinctRanks(ds)
    requires forall i :: 0 <= i < |ds| ==> ds[i].rank !in s.entries
    ensures forall i :: 0 <= i < |ds| ==>
      ds[i].rank in RegisterAll(s, ds).entries && RegisterAll(s, ds).entries[ds[i].rank] == MakeNode(ds[i])
    ensures forall k :: k in s.entries ==> k in RegisterAll(s, ds).entries && RegisterAll(s, ds).entries[k] == s.entries[k]
    decreases |ds|
  {
    if ds != [] {
      var s', rest := Add(s, ds[0]), ds[1..];
      RegisterAllCons(s, ds);
      RestFresh(s, ds);
      RegisterAllRecords(s', rest);
      var r := RegisterAll(s', rest);
      forall i | 0 <= i < |ds| ensures ds[i].rank in r.entries && r.entries[ds[i].rank] == MakeNode(ds[i]) {
        if i > 0 {
          assert rest[i - 1] == ds[i];
        }
      }
    }
  }

  lemma RegisterAllCons<C, V>(s: Snapshot<C, V>, ds: seq<Decl<C, V>>)
    requires ds != [] && ds[0].rank !in s.entries
    ensures RegisterAll(s, ds) == RegisterAll(Add(s, ds[0]), ds[1..])
  {
  }

  /** With pairwise-distinct new ranks, the order of the calls does not change
      which record is filed under which rank. */
  lemma RegisterAllOrderIrrelevant<C, V>(s: Snapshot<C, V>, ds1: seq<Decl<C, V>>, ds2: seq<Decl<C, V>>)
    requires DistinctRanks(ds1) && DistinctRanks(ds2)
    requires forall d :: d in ds1 <==> d in ds2
    requires forall d :: d in ds1 ==> d.rank !in s.entries
    ensures RegisterAll(s, ds1).entries == RegisterAll(s, ds2).entries
  {
    var r1, r2 := RegisterAll(s, ds1).entries, RegisterAll(s, ds2).entries;
    SameKeys(s, ds1, ds2);
    forall k | k in r1 ensures r1[k] == r2[k] {
      SameRecord(s, ds1, ds2, k);
    }
  }

  lemma SameKeys<C, V>(s: Snapshot<C, V>, ds1: seq<Decl<C, V>>, ds2: seq<Decl<C, V>>)
    requires DistinctRanks(ds1) && DistinctRanks(ds2)
    requires forall d :: d in ds1 <==> d in ds2
    requires forall d :: d in ds1 ==> d.rank !in s.entries
    ensures RegisterAll(s, ds1).entries.Keys == RegisterAll(s, ds2).entries.Keys
  {
    RegisterAllKeys(s, ds1);
    RegisterAllKeys(s, ds2);
    assert RankSet(ds1) == RankSet(ds2);
  }

  lemma SameRecord<C, V>(s: Snapshot<C, V>, ds1: seq<Decl<C, V>>, ds2: seq<Decl<C, V>>, k: int)
    requires DistinctRanks(ds1) && DistinctRanks(ds2)
    requires forall d :: d in ds1 <==> d in ds2
    requires forall d :: d in ds1 ==> d.rank !in s.entries
    requires k in RegisterAll(s, ds1).entries
    ensures k in RegisterAll(s, ds2).entries
    ensures RegisterAll(s, ds1).entries[k] == RegisterAll(s, ds2).entries[k]
  {
    assert k in s.entries || k in RankSet(ds1) by {
      RegisterAllKeys(s, ds1);
    }
    RegisterAllRecords(s, ds1);
    RegisterAllRecords(s, ds2);
    if k !in s.entries {
      var d :| d in ds1 && d.rank == k;
      var i :| 0 <= i < |ds1| && ds1[i] == d;
      var j :| 0 <= j < |ds2| && ds2[j] == d;
    }
  }


  /** The registry, `_REGISTRY` as an object. */
  class Registry<C, V> {
    var order: seq<int>
    var entries: map<int, Node<C, V>>

    ghost predicate Valid()
      reads this
    {
      WellFormed(Contents())
    }

    function Contents(): Snapshot<C, V>
      reads this
    {
      Snapshot(order, entries)
    }

    constructor ()
      ensures Valid() && Contents() == Empty()
    {
      order := [];
      entries := map[];
    }

    /** register_node: check, then insert. A taken rank raises
        DuplicateRankError naming the record already there, and nothing changes. */
    method RegisterNode(func: Func<C>, rank: int, name: Option<string>,
                        connect: Option<seq<int>>, meta: Option<map<string, V>>)
      returns (out: Outcome<RegistryError>)
      requires Valid()
      modifies this
      ensures Valid()
      ensures rank in old(entries) ==>
        && out == Fail(DuplicateRank(rank, old(entries)[rank].name))
        && Contents() == old(Contents())
      ensures rank !in old(entries) ==>
        && out == Pass
        && Contents() == Add(old(Contents()), Decl(func, rank, name, connect, meta))
      ensures (Contents(), out) == Step(old(Contents()), Decl(func, rank, name, connect, meta))
    {
      if rank in entries {
        return Fail(DuplicateRank(rank, entries[rank].name));
      }
      var node := MakeNode(Decl(func, rank, name, connect, meta));
      entries := entries[rank := node];
      order := order + [rank];
      out := Pass;
    }

    /** get_registry: a copy of the current contents. */
    method GetRegistry() returns (snapshot: Snapshot<C, V>)
      requires Valid()
      ensures snapshot == Contents()
      ensures WellFormed(snapshot)
    {
      snapshot := Snapshot(order, entries);
    }

    /** clear_registry: empties the registry unconditionally. */
    method ClearRegistry()
      modifies this
      ensures Valid() && Contents() == Empty()
    {
      order := [];
      entries := map[];
    }
  }
}
