/** The forest of selector queries that aggregates a log of calls, and what it must
    say of the log.

    A call is a query run on an element (or on none); its results are texts or
    elements.  Elements have an identity; samples are taken as formatted. */
module QueryForest {
  import opened Wrappers

  type ElementId = nat

  datatype Item = Text(sample: string) | Element(id: ElementId, sample: string)

  /** What the first call of a query fixes. */
  datatype Query = Query(selector: string, grammar: string, description: string, expectedMin: int, expectedMax: Option<int>)

  datatype Call = Call(query: Query, results: seq<Item>, on: Option<ElementId>)

  type Key = (Option<nat>, string)

  /** A query, by its number in order of creation. */
  datatype Node = Node(query: Query, parent: Option<nat>, matchCount: nat, samples: seq<string>, children: seq<nat>)

  datatype Forest = Forest(nodes: seq<Node>, roots: seq<nat>, owner: map<ElementId, nat>, index: map<Key, nat>)

  const EMPTY := Forest([], [], map[], map[])

  // --- Recording one call -----------------------------------------------------------

  /** Python's `results[:n]`: the first `n`, or for a negative `n` all but the last. */
  function Slice<T>(xs: seq<T>, n: int): (r: seq<T>)
    ensures r <= xs
    ensures n >= 0 ==> |r| == if n < |xs| then n else |xs|
    ensures n < 0 ==> |r| == if |xs| + n > 0 then |xs| + n else 0
  {
    if n >= |xs| then xs
    else if n >= 0 then xs[..n]
    else if |xs| + n >= 0 then xs[..|xs| + n]
    else []
  }

  function Samples(results: seq<Item>): (r: seq<string>)
    ensures |r| == |results| && forall i :: 0 <= i < |r| ==> r[i] == results[i].sample
  {
    seq(|results|, i requires 0 <= i < |results| => results[i].sample)
  }

  function ParentIn(f: Forest, call: Call): Option<nat> {
    if call.on.Some? && call.on.value in f.owner then Some(f.owner[call.on.value]) else None
  }

  function KeyIn(f: Forest, call: Call): Key {
    (ParentIn(f, call), call.query.selector)
  }

  /** The query a call is recorded under: the one with its key, or a new one. */
  function NodeFor(f: Forest, call: Call): nat {
    if KeyIn(f, call) in f.index then f.index[KeyIn(f, call)] else |f.nodes|
  }

  /** Every element among the results now belongs to the query. */
  function Owned(owner: map<ElementId, nat>, results: seq<Item>, q: nat): map<ElementId, nat> {
    if results == [] then owner
    else
      var before := Owned(owner, results[..|results| - 1], q);
      var last := results[|results| - 1];
      if last.Element? then before[last.id := q] else before
  }

  function MoreSamples(samples: seq<string>, results: seq<Item>, maxSamples: int): seq<string> {
    if maxSamples > |samples| then samples + Samples(Slice(results, maxSamples - |samples|)) else samples
  }

  function Aggregated(n: Node, call: Call, maxSamples: int): Node {
    n.(matchCount := n.matchCount + |call.results|, samples := MoreSamples(n.samples, call.results, maxSamples))
  }

  function NewNode(call: Call, parent: Option<nat>, maxSamples: int): Node {
    Node(call.query, parent, |call.results|, Samples(Slice(call.results, maxSamples)), [])
  }

  function WithChild(nodes: seq<Node>, parent: Option<nat>, q: nat): seq<Node> {
    if parent.Some? && parent.value < |nodes|
    then nodes[parent.value := nodes[parent.value].(children := nodes[parent.value].children + [q])]
    else nodes
  }

  function Recorded(f: Forest, call: Call, maxSamples: int): Forest {
    var parent, key, q := ParentIn(f, call), KeyIn(f, call), NodeFor(f, call);
    if key in f.index && q < |f.nodes| then
      f.(nodes := f.nodes[q := Aggregated(f.nodes[q], call, maxSamples)], owner := Owned(f.owner, call.results, q))
    else
      Forest(
        WithChild(f.nodes, parent, q) + [NewNode(call, parent, maxSamples)],
        if parent.Some? then f.roots else f.roots + [q],
        Owned(f.owner, call.results, q),
        f.index[key := q])
  }

  function After(log: seq<Call>, maxSamples: int): Forest {
    if log == [] then EMPTY else Recorded(After(log[..|log| - 1], maxSamples), log[|log| - 1], maxSamples)
  }

  // --- The log on its own -------------------------------------------------------------

  /** The query each call was recorded under. */
  function Placed(log: seq<Call>, maxSamples: int): (r: seq<nat>)
    ensures |r| == |log|
  {
    if log == [] then []
    else Placed(log[..|log| - 1], maxSamples) + [NodeFor(After(log[..|log| - 1], maxSamples), log[|log| - 1])]
  }

  predicate Has(results: seq<Item>, e: ElementId) {
    exists i :: 0 <= i < |results| && results[i].Element? && results[i].id == e
  }

  /** The last of the first `n` calls whose results include an element. */
  function LastWith(log: seq<Call>, n: nat, e: ElementId): (r: Option<nat>)
    requires n <= |log|
    ensures r.Some? ==> r.value < n
  {
    if n == 0 then None
    else if Has(log[n - 1].results, e) then Some(n - 1)
    else LastWith(log, n - 1, e)
  }

  /** The query whose results the call's element came from, at the time of the call. */
  function ParentQuery(log: seq<Call>, placed: seq<nat>, i: nat): Option<nat>
    requires i < |log| == |placed|
  {
    if log[i].on.None? then None
    else
      var j := LastWith(log, i, log[i].on.value);
      if j.None? then None else Some(placed[j.value])
  }

  function KeyOf(log: seq<Call>, placed: seq<nat>, i: nat): Key
    requires i < |log| == |placed|
  {
    (ParentQuery(log, placed, i), log[i].query.selector)
  }

  /** The results recorded under one query, in order. */
  function ResultsOf(log: seq<Call>, placed: seq<nat>, q: nat): seq<Item>
    requires |log| == |placed|
  {
    if log == [] then []
    else
      ResultsOf(log[..|log| - 1], placed[..|log| - 1], q) +
      if placed[|log| - 1] == q then log[|log| - 1].results else []
  }

  /** The results of the first call recorded under one query. */
  function FirstResults(log: seq<Call>, placed: seq<nat>, q: nat): seq<Item>
    requires |log| == |placed|
  {
    if log == [] then []
    else if q in placed[..|log| - 1] then FirstResults(log[..|log| - 1], placed[..|log| - 1], q)
    else if placed[|log| - 1] == q then log[|log| - 1].results
    else []
  }

  function FirstN<T>(xs: seq<T>, n: int): seq<T> {
    if n <= 0 then [] else if n >= |xs| then xs else xs[..n]
  }

  /** The queries under a parent, in order of creation. */
  function ChildrenAmong(nodes: seq<Node>, parent: Option<nat>): seq<nat> {
    if nodes == [] then []
    else
      ChildrenAmong(nodes[..|nodes| - 1], parent) +
      if nodes[|nodes| - 1].parent == parent then [|nodes| - 1] else []
  }

  // --- Keys and queries ----------------------------------------------------------------

  /** Queries and keys are the same things, and a parent comes before its children. */
  ghost predicate Indexed(f: Forest) {
    && (forall key :: key in f.index ==>
          f.index[key] < |f.nodes| && f.nodes[f.index[key]].parent == key.0 && f.nodes[f.index[key]].query.selector == key.1)
    && (forall q :: 0 <= q < |f.nodes| ==>
          (f.nodes[q].parent, f.nodes[q].query.selector) in f.index
          && f.index[(f.nodes[q].parent, f.nodes[q].query.selector)] == q)
    && (forall q :: 0 <= q < |f.nodes| && f.nodes[q].parent.Some? ==> f.nodes[q].parent.value < q)
    && (forall e :: e in f.owner ==> f.owner[e] < |f.nodes|)
  }

  lemma {:induction false} OwnedByResults(owner: map<ElementId, nat>, results: seq<Item>, q: nat, e: ElementId)
    ensures e in Owned(owner, results, q) <==> e in owner || Has(results, e)
    ensures Has(results, e) ==> Owned(owner, results, q)[e] == q
    ensures !Has(results, e) && e in owner ==> Owned(owner, results, q)[e] == owner[e]
  {
    if results != [] {
      var init, last := results[..|results| - 1], results[|results| - 1];
      OwnedByResults(owner, init, q, e);
      assert Has(init, e) ==> Has(results, e);
      assert last.Element? && last.id == e ==> Has(results, e);
    }
  }

  lemma RecordedKeepsOwners(f: Forest, call: Call, maxSamples: int)
    requires Indexed(f)
    ensures var f' := Recorded(f, call, maxSamples); forall e :: e in f'.owner ==> f'.owner[e] < |f'.nodes|
  {
    var q, f' := NodeFor(f, call), Recorded(f, call, maxSamples);
    forall e | e in f'.owner
      ensures f'.owner[e] < |f'.nodes|
    {
      OwnedByResults(f.owner, call.results, q, e);
    }
  }

  /** The queries and parents a recorded call leaves. */
  lemma RecordedNodes(f: Forest, call: Call, maxSamples: int)
    requires Indexed(f)
    ensures var f' := Recorded(f, call, maxSamples); var known := KeyIn(f, call) in f.index;
            && |f'.nodes| == (if known then |f.nodes| else |f.nodes| + 1)
            && (forall q :: 0 <= q < |f.nodes| ==> f'.nodes[q].query == f.nodes[q].query && f'.nodes[q].parent == f.nodes[q].parent)
            && (!known ==> f'.nodes[|f.nodes|] == NewNode(call, ParentIn(f, call), maxSamples))
            && f'.index == (if known then f.index else f.index[KeyIn(f, call) := |f.nodes|])
  {
  }

  lemma RecordedKeepsIndexed(f: Forest, call: Call, maxSamples: int)
    requires Indexed(f)
    ensures Indexed(Recorded(f, call, maxSamples))
  {
    RecordedNodes(f, call, maxSamples);
    RecordedKeepsOwners(f, call, maxSamples);
  }

  lemma {:induction false} AfterIsIndexed(log: seq<Call>, maxSamples: int)
    ensures Indexed(After(log, maxSamples))
  {
    if log != [] {
      AfterIsIndexed(log[..|log| - 1], maxSamples);
      RecordedKeepsIndexed(After(log[..|log| - 1], maxSamples), log[|log| - 1], maxSamples);
    }
  }

  // --- Calls and queries ---------------------------------------------------------------

  lemma {:induction false} LastWithPrefix(log: seq<Call>, m: nat, n: nat, e: ElementId)
    requires n <= m <= |log|
    ensures LastWith(log[..m], n, e) == LastWith(log, n, e)
  {
    if n > 0 {
      LastWithPrefix(log, m, n - 1, e);
    }
  }

  /** The owner of an element is the query of the last call that returned it. */
  lemma {:induction false} OwnersAreLast(log: seq<Call>, maxSamples: int, e: ElementId)
    ensures var f := After(log, maxSamples); var j := LastWith(log, |log|, e);
            && (e in f.owner <==> j.Some?)
            && (j.Some? ==> f.owner[e] == Placed(log, maxSamples)[j.value])
  {
    if log != [] {
      var n := |log| - 1;
      OwnersAreLast(log[..n], maxSamples, e);
      LastWithPrefix(log, n, n, e);
      var f := After(log[..n], maxSamples);
      AfterIsIndexed(log[..n], maxSamples);
      OwnedByResults(f.owner, log[n].results, NodeFor(f, log[n]), e);
    }
  }

  /** The key a call is recorded under is the one the log gives it. */
  lemma LastKey(log: seq<Call>, maxSamples: int)
    requires log != []
    ensures var n := |log| - 1;
            KeyIn(After(log[..n], maxSamples), log[n]) == KeyOf(log, Placed(log, maxSamples), n)
  {
    var n := |log| - 1;
    if log[n].on.Some? {
      OwnersAreLast(log[..n], maxSamples, log[n].on.value);
      LastWithPrefix(log, n, n, log[n].on.value);
    }
  }

  lemma KeyOfPrefix(log: seq<Call>, placed: seq<nat>, n: nat, i: nat)
    requires i < n <= |log| == |placed|
    ensures KeyOf(log[..n], placed[..n], i) == KeyOf(log, placed, i)
  {
    if log[i].on.Some? {
      LastWithPrefix(log, n, i, log[i].on.value);
    }
  }

  /** Each call is recorded under the query with its key, and each query is some
      call's: the first such call's, with what that call fixed. */
  ghost predicate Places(log: seq<Call>, placed: seq<nat>, f: Forest)
    requires |log| == |placed|
  {
    && (forall i :: 0 <= i < |log| ==>
          KeyOf(log, placed, i) in f.index && f.index[KeyOf(log, placed, i)] == placed[i] < |f.nodes|)
    && (forall q :: 0 <= q < |f.nodes| ==> MadeByFirst(log, placed, q, f.nodes[q].query))
  }

  ghost predicate MadeByFirst(log: seq<Call>, placed: seq<nat>, q: nat, query: Query)
    requires |log| == |placed|
  {
    exists i :: 0 <= i < |log| && placed[i] == q && q !in placed[..i] && log[i].query == query
  }

  lemma MadeByFirstGrows(log: seq<Call>, placed: seq<nat>, n: nat, q: nat, query: Query)
    requires n <= |log| == |placed| && MadeByFirst(log[..n], placed[..n], q, query)
    ensures MadeByFirst(log, placed, q, query)
  {
  }

  /** What a recorded call does to the queries and their index. */
  ghost predicate Adds(f: Forest, call: Call, f': Forest) {
    var known := KeyIn(f, call) in f.index;
    && |f'.nodes| == (if known then |f.nodes| else |f.nodes| + 1)
    && (forall q :: 0 <= q < |f.nodes| ==> f'.nodes[q].query == f.nodes[q].query)
    && (!known ==> f'.nodes[|f.nodes|].query == call.query)
    && f'.index == (if known then f.index else f.index[KeyIn(f, call) := |f.nodes|])
  }

  lemma KeysPlaced(log: seq<Call>, placed: seq<nat>, f: Forest, n: nat, f': Forest)
    requires |log| == |placed| == n + 1 && Indexed(f) && Adds(f, log[n], f')
    requires placed[n] == NodeFor(f, log[n]) && KeyOf(log, placed, n) == KeyIn(f, log[n])
    requires Places(log[..n], placed[..n], f)
    ensures forall i :: 0 <= i < |log| ==>
              KeyOf(log, placed, i) in f'.index && f'.index[KeyOf(log, placed, i)] == placed[i] < |f'.nodes|
  {
    forall i | 0 <= i < |log|
      ensures KeyOf(log, placed, i) in f'.index && f'.index[KeyOf(log, placed, i)] == placed[i] < |f'.nodes|
    {
      if i < n {
        KeyOfPrefix(log, placed, n, i);
        assert KeyOf(log[..n], placed[..n], i) in f.index;
      }
    }
  }

  lemma QueriesPlaced(log: seq<Call>, placed: seq<nat>, f: Forest, n: nat, f': Forest)
    requires |log| == |placed| == n + 1 && Adds(f, log[n], f') && placed[n] == NodeFor(f, log[n])
    requires Places(log[..n], placed[..n], f)
    ensures forall q :: 0 <= q < |f'.nodes| ==> MadeByFirst(log, placed, q, f'.nodes[q].query)
  {
    forall q | 0 <= q < |f'.nodes|
      ensures MadeByFirst(log, placed, q, f'.nodes[q].query)
    {
      if q < |f.nodes| {
        MadeByFirstGrows(log, placed, n, q, f.nodes[q].query);
      } else {
        NoneYet(log[..n], placed[..n], f, q);
        assert placed[n] == q && log[n].query == f'.nodes[q].query;
      }
    }
  }

  lemma NoneYet(log: seq<Call>, placed: seq<nat>, f: Forest, q: nat)
    requires |log| == |placed| && Places(log, placed, f) && q >= |f.nodes|
    ensures q !in placed
  {
  }

  lemma RecordedAdds(f: Forest, call: Call, maxSamples: int)
    requires Indexed(f)
    ensures Adds(f, call, Recorded(f, call, maxSamples))
  {
  }

  lemma {:induction false} AfterPlaces(log: seq<Call>, maxSamples: int)
    ensures Places(log, Placed(log, maxSamples), After(log, maxSamples))
  {
    if log != [] {
      var n := |log| - 1;
      AfterPlaces(log[..n], maxSamples);
      AfterIsIndexed(log[..n], maxSamples);
      var f, f', placed := After(log[..n], maxSamples), After(log, maxSamples), Placed(log, maxSamples);
      assert placed[..n] == Placed(log[..n], maxSamples);
      RecordedAdds(f, log[n], maxSamples);
      LastKey(log, maxSamples);
      KeysPlaced(log, placed, f, n, f');
      QueriesPlaced(log, placed, f, n, f');
    }
  }

  /** Two calls share a query exactly when they ran the same selector under the same
      parent query. */
  lemma OneQueryPerKey(log: seq<Call>, maxSamples: int, i: nat, j: nat)
    requires i < |log| && j < |log|
    ensures var placed := Placed(log, maxSamples);
            placed[i] == placed[j] <==> KeyOf(log, placed, i) == KeyOf(log, placed, j)
  {
    AfterPlaces(log, maxSamples);
    AfterIsIndexed(log, maxSamples);
  }

  /** A query has the parent and the selector of every call recorded under it, and its
      parent was created before it. */
  lemma QueryOfACall(log: seq<Call>, maxSamples: int, i: nat)
    requires i < |log|
    ensures var placed, f := Placed(log, maxSamples), After(log, maxSamples);
            && placed[i] < |f.nodes|
            && (f.nodes[placed[i]].parent, f.nodes[placed[i]].query.selector) == KeyOf(log, placed, i)
            && (f.nodes[placed[i]].parent.Some? ==> f.nodes[placed[i]].parent.value < placed[i])
  {
    AfterPlaces(log, maxSamples);
    AfterIsIndexed(log, maxSamples);
  }

  // --- Counts and samples ----------------------------------------------------------------

  lemma FirstNExtends<T>(xs: seq<T>, ys: seq<T>, n: int)
    ensures FirstN(xs + ys, n) == if n > |FirstN(xs, n)| then FirstN(xs, n) + Slice(ys, n - |FirstN(xs, n)|) else FirstN(xs, n)
  {
  }

  /** What a query aggregates: all its results, and samples of the first of them - or,
      under a negative limit, of its first call's but for the last. */
  predicate Aggregates(n: Node, first: seq<Item>, results: seq<Item>, maxSamples: int) {
    && n.matchCount == |results|
    && n.samples == Samples(if maxSamples >= 0 then FirstN(results, maxSamples) else Slice(first, maxSamples))
  }

  lemma AggregatedAggregates(n: Node, first: seq<Item>, results: seq<Item>, call: Call, maxSamples: int)
    requires Aggregates(n, first, results, maxSamples)
    ensures Aggregates(Aggregated(n, call, maxSamples), first, results + call.results, maxSamples)
  {
  }

  lemma {:induction false} NoResults(log: seq<Call>, placed: seq<nat>, q: nat)
    requires |log| == |placed| && q !in placed
    ensures ResultsOf(log, placed, q) == []
  {
    if log != [] {
      NoResults(log[..|log| - 1], placed[..|log| - 1], q);
    }
  }

  /** The count and the samples of a query after one call more. */
  lemma RecordedAggregate(f: Forest, call: Call, maxSamples: int, q: nat, first: seq<Item>, results: seq<Item>)
    requires Indexed(f) && q < |Recorded(f, call, maxSamples).nodes|
    requires if q < |f.nodes| then Aggregates(f.nodes[q], first, results, maxSamples) else results == []
    ensures Aggregates(Recorded(f, call, maxSamples).nodes[q], if q < |f.nodes| then first else call.results,
                       results + if NodeFor(f, call) == q then call.results else [], maxSamples)
  {
    assert results + [] == results;
    if q < |f.nodes| {
      if NodeFor(f, call) == q {
        AggregatedAggregates(f.nodes[q], first, results, call, maxSamples);
      }
    } else {
      assert [] + call.results == call.results;
      FirstNExtends([], call.results, maxSamples);
    }
  }

  lemma {:induction false} QueryAggregates(log: seq<Call>, maxSamples: int, q: nat)
    requires q < |After(log, maxSamples).nodes|
    ensures var placed := Placed(log, maxSamples);
            Aggregates(After(log, maxSamples).nodes[q], FirstResults(log, placed, q), ResultsOf(log, placed, q), maxSamples)
  {
    var n := |log| - 1;
    var f, placed := After(log[..n], maxSamples), Placed(log, maxSamples);
    assert placed[..n] == Placed(log[..n], maxSamples);
    AfterIsIndexed(log[..n], maxSamples);
    AfterPlaces(log[..n], maxSamples);
    if q < |f.nodes| {
      QueryAggregates(log[..n], maxSamples, q);
      SomeCallMadeIt(log[..n], placed[..n], f, q);
    } else {
      NoneYet(log[..n], placed[..n], f, q);
      NoResults(log[..n], placed[..n], q);
    }
    RecordedAggregate(f, log[n], maxSamples, q, FirstResults(log[..n], placed[..n], q), ResultsOf(log[..n], placed[..n], q));
  }

  lemma SomeCallMadeIt(log: seq<Call>, placed: seq<nat>, f: Forest, q: nat)
    requires |log| == |placed| && Places(log, placed, f) && q < |f.nodes|
    ensures q in placed
  {
    assert MadeByFirst(log, placed, q, f.nodes[q].query);
  }

  // --- The forest ------------------------------------------------------------------------

  /** Each query stands once under its parent, in order of creation, and those without
      a parent are the roots. */
  ghost predicate Rooted(f: Forest) {
    && f.roots == ChildrenAmong(f.nodes, None)
    && forall q :: 0 <= q < |f.nodes| ==> f.nodes[q].children == ChildrenAmong(f.nodes, Some(q))
  }

  lemma {:induction false} SameParents(nodes: seq<Node>, nodes': seq<Node>, parent: Option<nat>)
    requires |nodes| == |nodes'| && forall q :: 0 <= q < |nodes| ==> nodes[q].parent == nodes'[q].parent
    ensures ChildrenAmong(nodes, parent) == ChildrenAmong(nodes', parent)
  {
    if nodes != [] {
      SameParents(nodes[..|nodes| - 1], nodes'[..|nodes| - 1], parent);
    }
  }

  lemma {:induction false} NoChildrenYet(nodes: seq<Node>, q: nat)
    requires forall k :: 0 <= k < |nodes| && nodes[k].parent.Some? ==> nodes[k].parent.value < q
    ensures ChildrenAmong(nodes, Some(q)) == []
  {
    if nodes != [] {
      NoChildrenYet(nodes[..|nodes| - 1], q);
    }
  }

  /** The list names each query with that parent, and in order: so once. */
  lemma {:induction false} ChildrenAreListed(nodes: seq<Node>, parent: Option<nat>, q: nat)
    ensures q in ChildrenAmong(nodes, parent) <==> q < |nodes| && nodes[q].parent == parent
  {
    if nodes != [] {
      ChildrenAreListed(nodes[..|nodes| - 1], parent, q);
    }
  }

  lemma {:induction false} ChildrenAreInOrder(nodes: seq<Node>, parent: Option<nat>)
    ensures forall i :: 0 <= i < |ChildrenAmong(nodes, parent)| ==> ChildrenAmong(nodes, parent)[i] < |nodes|
    ensures InOrder(ChildrenAmong(nodes, parent))
  {
    if nodes != [] {
      ChildrenAreInOrder(nodes[..|nodes| - 1], parent);
    }
  }

  lemma ChildrenAppend(nodes: seq<Node>, n: Node, parent: Option<nat>)
    ensures ChildrenAmong(nodes + [n], parent) == ChildrenAmong(nodes, parent) + if n.parent == parent then [|nodes|] else []
  {
    assert (nodes + [n])[..|nodes|] == nodes;
  }

  lemma ChildrenAfter(f: Forest, call: Call, maxSamples: int, parent: Option<nat>)
    requires Indexed(f) && KeyIn(f, call) !in f.index
    ensures ChildrenAmong(Recorded(f, call, maxSamples).nodes, parent) ==
            ChildrenAmong(f.nodes, parent) + if ParentIn(f, call) == parent then [|f.nodes|] else []
  {
    var nodes := WithChild(f.nodes, ParentIn(f, call), |f.nodes|);
    SameParents(nodes, f.nodes, parent);
    ChildrenAppend(nodes, NewNode(call, ParentIn(f, call), maxSamples), parent);
  }

  lemma KnownKeepsRooted(f: Forest, call: Call, maxSamples: int)
    requires Indexed(f) && Rooted(f) && KeyIn(f, call) in f.index
    ensures Rooted(Recorded(f, call, maxSamples))
  {
    var f' := Recorded(f, call, maxSamples);
    SameParents(f'.nodes, f.nodes, None);
    forall q | 0 <= q < |f'.nodes|
      ensures f'.nodes[q].children == ChildrenAmong(f'.nodes, Some(q))
    {
      SameParents(f'.nodes, f.nodes, Some(q));
    }
  }

  lemma NewKeepsRooted(f: Forest, call: Call, maxSamples: int)
    requires Indexed(f) && Rooted(f) && KeyIn(f, call) !in f.index
    ensures Rooted(Recorded(f, call, maxSamples))
  {
    var f' := Recorded(f, call, maxSamples);
    ChildrenAfter(f, call, maxSamples, None);
    forall q | 0 <= q < |f'.nodes|
      ensures f'.nodes[q].children == ChildrenAmong(f'.nodes, Some(q))
    {
      ChildrenAfter(f, call, maxSamples, Some(q));
      if q == |f.nodes| {
        NoChildrenYet(f.nodes, q);
      }
    }
  }

  predicate InOrder(numbers: seq<nat>) {
    forall i, j :: 0 <= i < j < |numbers| ==> numbers[i] < numbers[j]
  }

  /** No query stands twice in a list, as the lists are in order of creation. */
  lemma RootedIsInOrder(f: Forest)
    requires Rooted(f)
    ensures InOrder(f.roots) && forall q :: 0 <= q < |f.nodes| ==> InOrder(f.nodes[q].children)
  {
    ChildrenAreInOrder(f.nodes, None);
    forall q | 0 <= q < |f.nodes|
      ensures InOrder(f.nodes[q].children)
    {
      ChildrenAreInOrder(f.nodes, Some(q));
    }
  }

  lemma {:induction false} AfterIsRooted(log: seq<Call>, maxSamples: int)
    ensures var f := After(log, maxSamples);
            Rooted(f) && InOrder(f.roots) && forall q :: 0 <= q < |f.nodes| ==> InOrder(f.nodes[q].children)
  {
    if log != [] {
      AfterIsRooted(log[..|log| - 1], maxSamples);
      AfterIsIndexed(log[..|log| - 1], maxSamples);
      var f, call := After(log[..|log| - 1], maxSamples), log[|log| - 1];
      if KeyIn(f, call) in f.index {
        KnownKeepsRooted(f, call, maxSamples);
      } else {
        NewKeepsRooted(f, call, maxSamples);
      }
    }
    RootedIsInOrder(After(log, maxSamples));
  }

  // --- Absolute selectors ------------------------------------------------------------------

  /** Parents come first, so walking up ends. */
  predicate ParentsFirst(nodes: seq<Node>) {
    forall q :: 0 <= q < |nodes| && nodes[q].parent.Some? ==> nodes[q].parent.value < q
  }

  /** The queries from the root down to one. */
  function Path(nodes: seq<Node>, q: nat): (path: seq<Query>)
    requires ParentsFirst(nodes) && q < |nodes|
    ensures path != []
    decreases q
  {
    (if nodes[q].parent.None? then [] else Path(nodes, nodes[q].parent.value)) + [nodes[q].query]
  }

  /** CSS: the descendant combinator is a space. */
  function ComposeCss(path: seq<Query>): string
    requires path != []
  {
    if |path| == 1 then path[0].selector else ComposeCss(path[..|path| - 1]) + " " + path[|path| - 1].selector
  }

  /** XPath: a relative selector loses its dot, and keeps what followed it. */
  function ComposeXPath(path: seq<Query>): string
    requires path != []
  {
    if |path| == 1 then path[0].selector
    else
      var part := path[|path| - 1].selector;
      ComposeXPath(path[..|path| - 1]) + if |part| > 0 && part[0] == '.' then part[1..] else "//" + part
  }

  /** A CSS path is its parts' paths with a space between them. */
  lemma {:induction false} CssPathsJoin(path: seq<Query>, more: seq<Query>)
    requires path != [] && more != []
    ensures ComposeCss(path + more) == ComposeCss(path) + " " + ComposeCss(more)
    ensures |more| == 1 ==> ComposeCss(more) == more[0].selector
  {
    var whole := path + more;
    assert whole[..|whole| - 1] == path + more[..|more| - 1];
    if |more| > 1 {
      CssPathsJoin(path, more[..|more| - 1]);
      var last := more[|more| - 1].selector;
      assert ComposeCss(path) + " " + ComposeCss(more[..|more| - 1]) + " " + last
          == ComposeCss(path) + " " + (ComposeCss(more[..|more| - 1]) + " " + last);
    } else {
      assert more[..|more| - 1] == [] && whole[..|whole| - 1] == path;
    }
  }

  /** An XPath path goes on with what follows the dot of a relative selector, or anywhere
      below for one without a dot. */
  lemma XPathPathsGoOn(path: seq<Query>, last: Query, rest: string)
    requires path != []
    ensures ComposeXPath([last]) == last.selector
    ensures last.selector == "." + rest ==> ComposeXPath(path + [last]) == ComposeXPath(path) + rest
    ensures last.selector == rest && (rest == "" || rest[0] != '.') ==>
              ComposeXPath(path + [last]) == ComposeXPath(path) + ("//" + rest)
  {
    assert (path + [last])[..|path|] == path;
    assert last.selector == "." + rest ==> last.selector[1..] == rest;
  }

  /** `.//tr` under `//table`, and `./td` under that. */
  lemma TableCells(table: Query, row: Query, cell: Query)
    requires table.selector == "//table" && row.selector == ".//tr" && cell.selector == "./td"
    requires table.grammar == row.grammar == cell.grammar == "xpath"
    ensures Absolute([table, row, cell]) == Some("//table//tr/td")
  {
    XPathPathsGoOn([table], row, "//tr");
    XPathPathsGoOn([table, row], cell, "/td");
    assert [table] + [row] == [table, row] && [table, row] + [cell] == [table, row, cell];
    var path := [table, row, cell];
    assert ComposeXPath(path) == "//table" + "//tr" + "/td" == "//table//tr/td";
    assert OneGrammar(path) && path[0].grammar == "xpath";
  }

  predicate OneGrammar(path: seq<Query>) {
    forall i, j :: 0 <= i < |path| && 0 <= j < |path| ==> path[i].grammar == path[j].grammar
  }

  /** A root is its own absolute selector; a chain composes in its one grammar. */
  function Absolute(path: seq<Query>): Option<string>
    requires path != []
  {
    if |path| == 1 then Some(path[0].selector)
    else if !OneGrammar(path) then None
    else if path[0].grammar == "css" then Some(ComposeCss(path))
    else if path[0].grammar == "xpath" then Some(ComposeXPath(path))
    else None
  }

  /** There is none exactly for a chain of more than one query that mixes grammars, or
      whose grammar is neither. */
  lemma AbsoluteIfOneGrammar(path: seq<Query>)
    requires path != []
    ensures Absolute(path).None? <==>
              && |path| > 1
              && ((exists i :: 0 < i < |path| && path[i].grammar != path[0].grammar) ||
                  (path[0].grammar != "css" && path[0].grammar != "xpath"))
  {
    if !OneGrammar(path) {
      var i, j :| 0 <= i < |path| && 0 <= j < |path| && path[i].grammar != path[j].grammar;
      assert path[i].grammar != path[0].grammar || path[j].grammar != path[0].grammar;
    }
  }
}
