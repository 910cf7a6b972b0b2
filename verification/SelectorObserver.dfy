/** The selector observer: linked query objects, the indexes that find them, and the
    walk up their parents. */
module SelectorObservers {
  import opened Wrappers
  import opened QueryForest

  class SelectorQuery {
    const query: Query
    const number: nat
    const parent: SelectorQuery?
    var matchCount: nat
    var samples: seq<string>
    var children: seq<SelectorQuery>

    constructor (query: Query, number: nat, parent: SelectorQuery?, matchCount: nat, samples: seq<string>)
      ensures this.query == query && this.number == number && this.parent == parent
      ensures this.matchCount == matchCount && this.samples == samples && children == []
    {
      this.query, this.number, this.parent := query, number, parent;
      this.matchCount, this.samples, this.children := matchCount, samples, [];
    }
  }

  /** The objects a list of numbers stands for. */
  predicate Lists(objects: seq<SelectorQuery>, numbers: seq<nat>, all: seq<SelectorQuery>) {
    |objects| == |numbers| &&
    forall i :: 0 <= i < |numbers| ==> numbers[i] < |all| && objects[i] == all[numbers[i]]
  }

  predicate Points<K(!new)>(objects: map<K, SelectorQuery>, numbers: map<K, nat>, all: seq<SelectorQuery>) {
    objects.Keys == numbers.Keys &&
    forall k :: k in numbers ==> numbers[k] < |all| && objects[k] == all[numbers[k]]
  }

  /** A query object with its links, as the forest has it. */
  predicate Shows(q: SelectorQuery, k: nat, n: Node, all: seq<SelectorQuery>)
    reads q
  {
    && q.number == k && q.query == n.query && q.matchCount == n.matchCount && q.samples == n.samples
    && (n.parent.None? <==> q.parent == null)
    && (n.parent.Some? ==> n.parent.value < |all| && q.parent == all[n.parent.value])
    && Lists(q.children, n.children, all)
  }

  class SelectorObserver {
    const maxSamples: int
    var queries: seq<SelectorQuery>
    var counter: nat
    var elementToQuery: map<ElementId, SelectorQuery>
    var dedupIndex: map<Key, SelectorQuery>
    ghost var all: seq<SelectorQuery>
    ghost var log: seq<Call>

    ghost predicate NodesShown(nodes: seq<Node>)
      reads this`all, this`counter, all
    {
      counter == |all| == |nodes| && forall k :: 0 <= k < |all| ==> Shows(all[k], k, nodes[k], all)
    }

    /** The objects and the indexes are those of a forest. */
    ghost predicate IsForest(f: Forest)
      reads this`all, this`counter, this`queries, this`elementToQuery, this`dedupIndex, all
    {
      && NodesShown(f.nodes)
      && Lists(queries, f.roots, all)
      && Points(elementToQuery, f.owner, all)
      && Points(dedupIndex, f.index, all)
    }

    /** What the observer holds is the forest of the calls recorded. */
    ghost predicate Valid()
      reads this, all
    {
      IsForest(After(log, maxSamples))
    }

    constructor (maxSamples: int := 3)
      ensures Valid() && fresh(all) && log == [] && this.maxSamples == maxSamples
    {
      this.maxSamples := maxSamples;
      queries, counter, elementToQuery, dedupIndex := [], 0, map[], map[];
      all, log := [], [];
    }

    method ExtractSamples(results: seq<Item>) returns (samples: seq<string>)
      ensures samples == Samples(results)
    {
      samples := [];
      for i := 0 to |results|
        invariant samples == Samples(results[..i])
      {
        assert results[..i + 1] == results[..i] + [results[i]];
        samples := samples + [results[i].sample];
      }
      assert results[..|results|] == results;
    }

    /** Every element among the results now points to the query. */
    method TrackElements(ghost f: Forest, results: seq<Item>, q: SelectorQuery)
      requires Points(elementToQuery, f.owner, all) && q.number < |all| && all[q.number] == q
      modifies this`elementToQuery
      ensures Points(elementToQuery, Owned(f.owner, results, q.number), all)
    {
      for i := 0 to |results|
        invariant Points(elementToQuery, Owned(f.owner, results[..i], q.number), all)
      {
        assert results[..i + 1][..i] == results[..i];
        if results[i].Element? {
          elementToQuery := elementToQuery[results[i].id := q];
        }
      }
      assert results[..|results|] == results;
    }

    /** `record_query`: the forest of one call more. */
    method RecordQuery(call: Call)
      requires Valid()
      modifies this, all
      ensures Valid() && log == old(log) + [call]
      ensures old(all) <= all && forall k :: |old(all)| <= k < |all| ==> fresh(all[k])
    {
      RecordNext(call);
      log := log + [call];
    }

    method RecordNext(call: Call)
      requires Valid()
      modifies this, all
      ensures IsForest(After(log + [call], maxSamples)) && log == old(log)
      ensures old(all) <= all && forall k :: |old(all)| <= k < |all| ==> fresh(all[k])
    {
      AfterIsIndexed(log, maxSamples);
      AfterAppend(log, call, maxSamples);
      RecordInto(After(log, maxSamples), call);
    }

    method RecordInto(ghost f: Forest, call: Call)
      requires IsForest(f) && Indexed(f)
      modifies this, all
      ensures IsForest(Recorded(f, call, maxSamples)) && log == old(log)
      ensures old(all) <= all && forall k :: |old(all)| <= k < |all| ==> fresh(all[k])
    {
      var parent: SelectorQuery? := null;
      if call.on.Some? && call.on.value in elementToQuery {
        parent := elementToQuery[call.on.value];
      }
      var key := (if parent == null then None else Some(parent.number), call.query.selector);
      if key in dedupIndex {
        RecordKnown(f, call, key);
      } else {
        RecordNew(f, call, parent, key);
      }
    }

    method RecordKnown(ghost f: Forest, call: Call, key: Key)
      requires IsForest(f) && Indexed(f) && key == KeyIn(f, call) && key in dedupIndex
      modifies this`elementToQuery, all
      ensures IsForest(Recorded(f, call, maxSamples))
    {
      Aggregate(f, call, dedupIndex[key]);
    }

    method RecordNew(ghost f: Forest, call: Call, parent: SelectorQuery?, key: Key)
      requires IsForest(f) && Indexed(f) && key == KeyIn(f, call) && key !in dedupIndex
      requires if key.0.None? then parent == null else key.0.value < |all| && parent == all[key.0.value]
      modifies this, parent
      ensures IsForest(Recorded(f, call, maxSamples)) && log == old(log) && |all| == |old(all)| + 1
      ensures all == old(all) + [all[|old(all)|]] && fresh(all[|old(all)|])
    {
      RecordedNew(f, call, maxSamples);
      Create(f, call, parent, key);
    }

    method Aggregate(ghost f: Forest, call: Call, q: SelectorQuery)
      requires IsForest(f) && q.number < |all| && q == all[q.number]
      modifies this`elementToQuery, q
      ensures IsForest(WithCall(f, call, q.number, maxSamples))
    {
      q.matchCount := q.matchCount + |call.results|;
      var needed := maxSamples - |q.samples|;
      if needed > 0 {
        var samples := ExtractSamples(Slice(call.results, needed));
        q.samples := q.samples + samples;
      }
      TrackElements(f, call.results, q);
    }

    method Create(ghost f: Forest, call: Call, parent: SelectorQuery?, key: Key)
      requires IsForest(f)
      requires if key.0.None? then parent == null else key.0.value < |all| && parent == all[key.0.value]
      modifies this, parent
      ensures IsForest(WithQuery(f, call, key, maxSamples)) && log == old(log) && |all| == |old(all)| + 1
      ensures all == old(all) + [all[|old(all)|]] && fresh(all[|old(all)|])
    {
      var query := Register(f, call, parent, key);
      ghost var g := Registered(f, call, key, maxSamples);
      if parent != null {
        AddChild(g, parent, query);
      } else {
        AddRoot(g, query);
      }
    }

    method NewQuery(ghost nodes: seq<Node>, call: Call, parent: SelectorQuery?, ghost on: Option<nat>) returns (query: SelectorQuery)
      requires NodesShown(nodes)
      requires if on.None? then parent == null else on.value < |all| && parent == all[on.value]
      modifies this`all, this`counter
      ensures NodesShown(nodes + [NewNode(call, on, maxSamples)])
      ensures all == old(all) + [query] && query.number == |old(all)| && fresh(query)
    {
      var samples := ExtractSamples(Slice(call.results, maxSamples));
      ghost var before := all;
      query := new SelectorQuery(call.query, counter, parent, |call.results|, samples);
      counter := counter + 1;
      all := all + [query];
      assert forall k :: 0 <= k < |before| ==> Shows(before[k], k, nodes[k], before);
    }

    /** The new query, in both indexes but not yet under its parent. */
    method Register(ghost f: Forest, call: Call, parent: SelectorQuery?, key: Key) returns (query: SelectorQuery)
      requires IsForest(f)
      requires if key.0.None? then parent == null else key.0.value < |all| && parent == all[key.0.value]
      modifies this
      ensures IsForest(Registered(f, call, key, maxSamples)) && log == old(log)
      ensures all == old(all) + [query] && query.number == |old(all)| && fresh(query) && queries == old(queries)
    {
      ghost var before := all;
      query := NewQuery(f.nodes, call, parent, key.0);
      dedupIndex := dedupIndex[key := query];
      TrackElements(f, call.results, query);
    }

    method AddRoot(ghost g: Forest, query: SelectorQuery)
      requires IsForest(g) && query.number < |all| && query == all[query.number]
      modifies this`queries
      ensures IsForest(g.(roots := g.roots + [query.number]))
    {
      queries := queries + [query];
    }

    method AddChild(ghost g: Forest, parent: SelectorQuery, query: SelectorQuery)
      requires IsForest(g) && parent.number < |all| && parent == all[parent.number]
      requires query.number < |all| && query == all[query.number]
      modifies parent`children
      ensures IsForest(g.(nodes := WithChild(g.nodes, Some(parent.number), query.number)))
    {
      parent.children := parent.children + [query];
    }

    /** `compose_absolute_selector`: up the parents, which come to an end, and down
        again as one selector. */
    method ComposeAbsoluteSelector(query: SelectorQuery) returns (r: Option<string>)
      requires Valid() && query.number < |all| && query == all[query.number]
      ensures ParentsFirst(After(log, maxSamples).nodes) && query.number < |After(log, maxSamples).nodes|
      ensures r == Absolute(Path(After(log, maxSamples).nodes, query.number))
    {
      ghost var f := After(log, maxSamples);
      AfterIsIndexed(log, maxSamples);
      assert Shows(all[query.number], query.number, f.nodes[query.number], all);
      if query.parent == null {
        return Some(query.query.selector);
      }
      LongerThanOne(f.nodes, query.number);
      var path := ParentChain(f.nodes, query);
      r := Compose(path);
    }

    /** The queries from the root down to one, found by walking up. */
    method ParentChain(ghost nodes: seq<Node>, query: SelectorQuery) returns (path: seq<Query>)
      requires NodesShown(nodes) && ParentsFirst(nodes) && query.number < |all| && query == all[query.number]
      ensures path == Path(nodes, query.number)
    {
      var selectors: seq<Query> := [];
      var current: SelectorQuery? := query;
      while current != null
        invariant current != null ==> current.number < |all| && current == all[current.number]
        invariant Path(nodes, query.number) == (if current == null then [] else Path(nodes, current.number)) + Reversed(selectors)
        decreases if current == null then 0 else current.number + 1
      {
        assert Shows(all[current.number], current.number, nodes[current.number], all);
        StepUp(nodes, current.number, selectors);
        selectors := selectors + [current.query];
        current := current.parent;
      }
      path := Reversed(selectors);
    }

    static method Compose(path: seq<Query>) returns (r: Option<string>)
      requires |path| > 1
      ensures r == Absolute(path)
    {
      var grammars := set q | q in path :: q.grammar;
      GrammarsAgree(path, grammars);
      if |grammars| > 1 {
        return None;
      }
      if path[0].grammar == "css" {
        return Some(ComposeCss(path));
      } else if path[0].grammar == "xpath" {
        return Some(ComposeXPath(path));
      }
      return None;
    }
  }

  function Reversed<T>(xs: seq<T>): (r: seq<T>)
    ensures |r| == |xs| && forall i :: 0 <= i < |r| ==> r[i] == xs[|xs| - 1 - i]
  {
    seq(|xs|, i requires 0 <= i < |xs| => xs[|xs| - 1 - i])
  }

  lemma StepUp(nodes: seq<Node>, q: nat, selectors: seq<Query>)
    requires ParentsFirst(nodes) && q < |nodes|
    ensures Path(nodes, q) + Reversed(selectors) ==
            (if nodes[q].parent.None? then [] else Path(nodes, nodes[q].parent.value)) + Reversed(selectors + [nodes[q].query])
  {
    assert Reversed(selectors + [nodes[q].query]) == [nodes[q].query] + Reversed(selectors);
  }

  lemma LongerThanOne(nodes: seq<Node>, q: nat)
    requires ParentsFirst(nodes) && q < |nodes| && nodes[q].parent.Some?
    ensures |Path(nodes, q)| > 1
  {
  }

  lemma GrammarsAgree(path: seq<Query>, grammars: set<string>)
    requires grammars == set q | q in path :: q.grammar
    ensures |grammars| > 1 <==> !OneGrammar(path)
  {
    if OneGrammar(path) {
      assert path != [] ==> grammars == {path[0].grammar};
      assert path == [] ==> grammars == {};
    } else {
      var i, j :| 0 <= i < |path| && 0 <= j < |path| && path[i].grammar != path[j].grammar;
      assert {path[i].grammar, path[j].grammar} <= grammars;
      SubsetSize({path[i].grammar, path[j].grammar}, grammars);
    }
  }

  lemma SubsetSize(a: set<string>, b: set<string>)
    requires a <= b
    ensures |a| <= |b|
  {
    assert b == a + (b - a);
  }

  /** The forest with one call more under a query it has. */
  function WithCall(f: Forest, call: Call, q: nat, maxSamples: int): Forest
    requires q < |f.nodes|
  {
    f.(nodes := f.nodes[q := Aggregated(f.nodes[q], call, maxSamples)], owner := Owned(f.owner, call.results, q))
  }

  /** The forest with a new query in its indexes. */
  function Registered(f: Forest, call: Call, key: Key, maxSamples: int): Forest {
    f.(nodes := f.nodes + [NewNode(call, key.0, maxSamples)],
       owner := Owned(f.owner, call.results, |f.nodes|),
       index := f.index[key := |f.nodes|])
  }

  /** And under its parent, or among the roots. */
  function WithQuery(f: Forest, call: Call, key: Key, maxSamples: int): Forest {
    var g := Registered(f, call, key, maxSamples);
    if key.0.Some? then g.(nodes := WithChild(g.nodes, key.0, |f.nodes|)) else g.(roots := g.roots + [|f.nodes|])
  }

  lemma AfterAppend(log: seq<Call>, call: Call, maxSamples: int)
    ensures After(log + [call], maxSamples) == Recorded(After(log, maxSamples), call, maxSamples)
  {
  }

  lemma RecordedNew(f: Forest, call: Call, maxSamples: int)
    requires Indexed(f) && KeyIn(f, call) !in f.index
    ensures Recorded(f, call, maxSamples) == WithQuery(f, call, KeyIn(f, call), maxSamples)
  {
  }
}
