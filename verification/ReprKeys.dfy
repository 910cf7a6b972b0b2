/** When `_bytes_to_repr` fails: a dictionary key that is itself a container is rewritten
    to a list or a dictionary, which cannot be a key - unless it is elided. */
module ReprKeys {
  import opened Wrappers
  import opened Graphs
  import opened ReprRewrite

  // --- Reachability along rewritten edges -------------------------------------------------

  predicate Edge(h: Heap, a: Id, b: Id) {
    a in h && Ref(b) in Rewritten(h[a])
  }

  predicate IsPath(h: Heap, path: seq<Id>) {
    path != [] && forall i :: 0 <= i < |path| - 1 ==> Edge(h, path[i], path[i + 1])
  }

  ghost predicate Leads(h: Heap, a: Id, b: Id) {
    exists path :: IsPath(h, path) && path[0] == a && path[|path| - 1] == b
  }

  lemma LeadsHere(h: Heap, a: Id)
    ensures Leads(h, a, a)
  {
    assert IsPath(h, [a]);
  }

  lemma LeadsOn(h: Heap, a: Id, b: Id, c: Id)
    requires Leads(h, a, b) && Edge(h, b, c)
    ensures Leads(h, a, c)
  {
    var path :| IsPath(h, path) && path[0] == a && path[|path| - 1] == b;
    var longer := path + [c];
    assert forall i :: 0 <= i < |path| ==> longer[i] == path[i];
    assert IsPath(h, longer);
  }

  lemma LeadsFrom(h: Heap, a: Id, b: Id, c: Id)
    requires Edge(h, a, b) && Leads(h, b, c)
    ensures Leads(h, a, c)
  {
    var path :| IsPath(h, path) && path[0] == b && path[|path| - 1] == c;
    var longer := [a] + path;
    forall i | 0 <= i < |longer| - 1
      ensures Edge(h, longer[i], longer[i + 1])
    {
      if i > 0 {
        assert Edge(h, path[i - 1], path[i - 1 + 1]);
      }
    }
    assert IsPath(h, longer);
  }

  /** A path from a set its edges stay in stays in it. */
  lemma {:induction false} PathStaysIn(h: Heap, within: set<Id>, path: seq<Id>, i: nat)
    requires IsPath(h, path) && i < |path| && path[0] in within
    requires forall a, b :: a in within && Edge(h, a, b) ==> b in within
    ensures path[i] in within
  {
    if i > 0 {
      PathStaysIn(h, within, path, i - 1);
      assert Edge(h, path[i - 1], path[i - 1 + 1]);
    }
  }

  // --- What the walk enters ---------------------------------------------------------------

  /** The objects the walk rewrites, once or more. */
  function Entered(h: Heap, v: Value, seen: set<Id>): set<Id>
    decreases |h.Keys - seen|, 0
  {
    if !v.Ref? || v.id in seen || v.id !in h then {}
    else
      CardinalityDrops(h.Keys, seen, v.id);
      {v.id} + EnteredAll(h, Rewritten(h[v.id]), seen + {v.id})
  }

  function EnteredAll(h: Heap, vs: seq<Value>, seen: set<Id>): set<Id>
    decreases |h.Keys - seen|, 1 + |vs|
  {
    if vs == [] then {}
    else
      var first := Walk(h, vs[0], seen);
      SubsetCardinality(h.Keys - first.seen, h.Keys - seen);
      Entered(h, vs[0], seen) + EnteredAll(h, vs[1..], first.seen)
  }

  /** What stays in the set are models and data classes, all entered. */
  lemma {:induction false} SeenIsEntered(h: Heap, v: Value, seen: set<Id>)
    ensures forall x :: x in Walk(h, v, seen).seen ==> x in seen || (x in Entered(h, v, seen) && x in h && Rebound(h[x]))
    decreases |h.Keys - seen|, 0
  {
    if v.Ref? && v.id !in seen && v.id in h {
      CardinalityDrops(h.Keys, seen, v.id);
      SeenIsEnteredAll(h, Rewritten(h[v.id]), seen + {v.id});
    }
  }

  lemma {:induction false} SeenIsEnteredAll(h: Heap, vs: seq<Value>, seen: set<Id>)
    ensures forall x :: x in WalkAll(h, vs, seen).seen ==> x in seen || (x in EnteredAll(h, vs, seen) && x in h && Rebound(h[x]))
    decreases |h.Keys - seen|, 1 + |vs|
  {
    if vs != [] {
      var first := Walk(h, vs[0], seen);
      SubsetCardinality(h.Keys - first.seen, h.Keys - seen);
      SeenIsEntered(h, vs[0], seen);
      SeenIsEnteredAll(h, vs[1..], first.seen);
    }
  }

  predicate IsIn(h: Heap, v: Value, within: set<Id>) {
    v.Ref? && v.id in h ==> v.id in within
  }

  ghost predicate ChildrenIn(h: Heap, ids: set<Id>, within: set<Id>) {
    forall id, i :: id in ids && id in h && 0 <= i < |Rewritten(h[id])| ==> IsIn(h, Rewritten(h[id])[i], within)
  }

  /** What is entered has all its children entered, or in the set before. */
  lemma {:induction false} EnteredIsClosed(h: Heap, v: Value, seen: set<Id>)
    ensures IsIn(h, v, seen + Entered(h, v, seen))
    ensures ChildrenIn(h, Entered(h, v, seen), seen + Entered(h, v, seen))
    decreases |h.Keys - seen|, 0
  {
    if v.Ref? && v.id !in seen && v.id in h {
      CardinalityDrops(h.Keys, seen, v.id);
      EnteredAllIsClosed(h, Rewritten(h[v.id]), seen + {v.id});
    }
  }

  lemma {:induction false} EnteredAllIsClosed(h: Heap, vs: seq<Value>, seen: set<Id>)
    ensures forall i :: 0 <= i < |vs| ==> IsIn(h, vs[i], seen + EnteredAll(h, vs, seen))
    ensures ChildrenIn(h, EnteredAll(h, vs, seen), seen + EnteredAll(h, vs, seen))
    decreases |h.Keys - seen|, 1 + |vs|
  {
    if vs != [] {
      var first := Walk(h, vs[0], seen);
      SubsetCardinality(h.Keys - first.seen, h.Keys - seen);
      EnteredIsClosed(h, vs[0], seen);
      EnteredAllIsClosed(h, vs[1..], first.seen);
      SeenIsEntered(h, vs[0], seen);
      forall i | 0 <= i < |vs|
        ensures IsIn(h, vs[i], seen + EnteredAll(h, vs, seen))
      {
        assert i > 0 ==> IsIn(h, vs[1..][i - 1], first.seen + EnteredAll(h, vs[1..], first.seen));
      }
    }
  }

  lemma {:induction false} EnteredIsReached(h: Heap, v: Value, seen: set<Id>)
    ensures forall id :: id in Entered(h, v, seen) ==> v.Ref? && id in h && Leads(h, v.id, id)
    decreases |h.Keys - seen|, 0
  {
    if v.Ref? && v.id !in seen && v.id in h {
      CardinalityDrops(h.Keys, seen, v.id);
      EnteredAllIsReached(h, v.id, Rewritten(h[v.id]), seen + {v.id});
      LeadsHere(h, v.id);
    }
  }

  lemma {:induction false} EnteredAllIsReached(h: Heap, parent: Id, vs: seq<Value>, seen: set<Id>)
    requires forall i :: 0 <= i < |vs| && vs[i].Ref? ==> Edge(h, parent, vs[i].id)
    ensures forall id :: id in EnteredAll(h, vs, seen) ==> id in h && Leads(h, parent, id)
    decreases |h.Keys - seen|, 1 + |vs|
  {
    if vs != [] {
      var first := Walk(h, vs[0], seen);
      SubsetCardinality(h.Keys - first.seen, h.Keys - seen);
      EnteredIsReached(h, vs[0], seen);
      forall id | id in Entered(h, vs[0], seen)
        ensures Leads(h, parent, id)
      {
        LeadsFrom(h, parent, vs[0].id, id);
      }
      EnteredAllIsReached(h, parent, vs[1..], first.seen);
    }
  }

  /** From the top the walk enters exactly what is reachable, models or not. */
  lemma WalkEntersWhatIsReachable(h: Heap, top: Id, id: Id)
    requires Closed(h) && top in h
    ensures id in Entered(h, Ref(top), {}) <==> Leads(h, top, id)
  {
    var all := Entered(h, Ref(top), {});
    EnteredIsReached(h, Ref(top), {});
    EnteredIsClosed(h, Ref(top), {});
    if Leads(h, top, id) {
      var path :| IsPath(h, path) && path[0] == top && path[|path| - 1] == id;
      forall a, b | a in all && Edge(h, a, b)
        ensures b in all
      {
        EdgeStaysIn(h, a, b, all);
      }
      PathStaysIn(h, all, path, |path| - 1);
    }
  }

  lemma EdgeStaysIn(h: Heap, a: Id, b: Id, all: set<Id>)
    requires Closed(h) && a in all && Edge(h, a, b) && ChildrenIn(h, all, {} + all)
    ensures b in all
  {
    var i :| 0 <= i < |Rewritten(h[a])| && Rewritten(h[a])[i] == Ref(b);
    assert Resolves(h, Rewritten(h[a])[i]);
    assert IsIn(h, Rewritten(h[a])[i], {} + all);
  }

  // --- Keys ---------------------------------------------------------------------------------

  /** A key that is rewritten to a list or a dictionary when it is not elided. */
  predicate ContainerKey(h: Heap, key: Value) {
    key.Ref? && key.id in h && !h[key.id].Other?
  }

  predicate HasContainerKey(h: Heap, id: Id) {
    id in h && h[id].Dict? && exists i :: 0 <= i < |h[id].items| && ContainerKey(h, h[id].items[i].0)
  }

  /** Wherever the walk meets it, a container key fails it unless it was met before and
      is still in the set: on the path, or - a model or a data class - at any time. */
  lemma KeyIsHashableIfMet(h: Heap, key: Value, seen: set<Id>)
    ensures Hashable(Walk(h, key, seen).tree) <==> !ContainerKey(h, key) || key.id in seen
  {
  }

  lemma {:induction false} FlattenedKey(items: seq<(Value, Value)>, i: nat)
    requires i < |items|
    ensures |Flattened(items)| == 2 * |items| && Flattened(items)[2 * i] == items[i].0
  {
    if i > 0 {
      FlattenedKey(items[1..], i - 1);
    } else if |items| > 1 {
      FlattenedKey(items[1..], 0);
    }
  }

  lemma {:induction false} EvenIsKey(items: seq<(Value, Value)>, k: nat)
    requires k < |Flattened(items)| && k % 2 == 0
    ensures k / 2 < |items| && Flattened(items)[k] == items[k / 2].0
  {
    if k >= 2 {
      EvenIsKey(items[1..], k - 2);
    }
  }

  lemma {:induction false} EvenIsName(fields: seq<Field>, k: nat)
    requires k < |NamedValues(fields)| && k % 2 == 0
    ensures NamedValues(fields)[k].Str?
  {
    if k >= 2 {
      EvenIsName(fields[1..], k - 2);
    }
  }

  /** In an object without container keys no key position holds a container. */
  lemma KeyPositions(h: Heap, id: Id)
    requires id in h && DictLike(h[id]) && !HasContainerKey(h, id)
    ensures forall k :: 0 <= k < |Rewritten(h[id])| && k % 2 == 0 ==> !ContainerKey(h, Rewritten(h[id])[k])
  {
    var o := h[id];
    forall k | 0 <= k < |Rewritten(o)| && k % 2 == 0
      ensures !ContainerKey(h, Rewritten(o)[k])
    {
      if o.Dict? {
        EvenIsKey(o.items, k);
      } else {
        EvenIsName(FieldsOf(o), k);
      }
    }
  }

  lemma {:induction false} NoContainerKeysNoFailure(h: Heap, v: Value, seen: set<Id>)
    requires forall id :: id in Entered(h, v, seen) ==> !HasContainerKey(h, id)
    ensures Keyed(Walk(h, v, seen).tree)
    decreases |h.Keys - seen|, 0
  {
    if v.Ref? && v.id !in seen && v.id in h {
      CardinalityDrops(h.Keys, seen, v.id);
      assert v.id in Entered(h, v, seen);
      NoContainerKeysNoFailureAll(h, Rewritten(h[v.id]), seen + {v.id});
      if DictLike(h[v.id]) {
        KeyPositions(h, v.id);
      }
    }
  }

  lemma {:induction false} NoContainerKeysNoFailureAll(h: Heap, vs: seq<Value>, seen: set<Id>)
    requires forall id :: id in EnteredAll(h, vs, seen) ==> !HasContainerKey(h, id)
    ensures AllKeyed(WalkAll(h, vs, seen).trees)
    ensures forall i :: 0 <= i < |vs| && !ContainerKey(h, vs[i]) ==> Hashable(WalkAll(h, vs, seen).trees[i])
    decreases |h.Keys - seen|, 1 + |vs|
  {
    if vs != [] {
      var first := Walk(h, vs[0], seen);
      SubsetCardinality(h.Keys - first.seen, h.Keys - seen);
      NoContainerKeysNoFailure(h, vs[0], seen);
      KeyIsHashableIfMet(h, vs[0], seen);
      NoContainerKeysNoFailureAll(h, vs[1..], first.seen);
      var rest := WalkAll(h, vs[1..], first.seen);
      assert WalkAll(h, vs, seen).trees == [first.tree] + rest.trees;
      assert ([first.tree] + rest.trees)[1..] == rest.trees;
      assert forall i :: 1 <= i < |vs| ==> vs[i] == vs[1..][i - 1];
    }
  }

  /** No container is a key of a dictionary it reaches - a dictionary is not hashable - and
      none is a model or a data class. */
  ghost predicate KeysArePlain(h: Heap) {
    forall id, i :: id in h && h[id].Dict? && 0 <= i < |h[id].items| && ContainerKey(h, h[id].items[i].0) ==>
      !Rebound(h[h[id].items[i].0.id]) && !Leads(h, h[id].items[i].0.id, id)
  }

  /** The plain objects in the set are on the path to the value. */
  ghost predicate PathTo(h: Heap, seen: set<Id>, v: Value) {
    forall x :: x in seen && x in h && !Rebound(h[x]) && v.Ref? ==> Leads(h, x, v.id)
  }

  lemma PathToChild(h: Heap, id: Id, seen: set<Id>, child: Value)
    requires id in h && PathTo(h, seen, Ref(id)) && child in Rewritten(h[id])
    ensures PathTo(h, seen + {id}, child)
  {
    forall x | x in seen + {id} && x in h && !Rebound(h[x]) && child.Ref?
      ensures Leads(h, x, child.id)
    {
      if x == id {
        LeadsHere(h, id);
      }
      LeadsOn(h, x, id, child.id);
    }
  }

  lemma {:induction false} NoFailureNoContainerKeys(h: Heap, v: Value, seen: set<Id>)
    requires KeysArePlain(h) && PathTo(h, seen, v) && Keyed(Walk(h, v, seen).tree)
    ensures forall id :: id in Entered(h, v, seen) ==> !HasContainerKey(h, id)
    decreases |h.Keys - seen|, 0
  {
    if v.Ref? && v.id !in seen && v.id in h {
      CardinalityDrops(h.Keys, seen, v.id);
      var vs := Rewritten(h[v.id]);
      forall i | 0 <= i < |vs|
        ensures PathTo(h, seen + {v.id}, vs[i])
      {
        PathToChild(h, v.id, seen, vs[i]);
      }
      var inner := WalkAll(h, vs, seen + {v.id});
      assert Walk(h, v, seen).tree == Wrap(h[v.id], v.id, inner.trees);
      assert h[v.id].Other? ==> vs == [];
      NoFailureNoContainerKeysAll(h, vs, seen + {v.id});
      if h[v.id].Dict? {
        NoContainerKeyHere(h, v.id, seen, inner.trees);
      }
    }
  }

  /** A dictionary on the path with hashable keys has no container for one: that would be
      on the path too. */
  lemma NoContainerKeyHere(h: Heap, id: Id, seen: set<Id>, trees: seq<Tree>)
    requires KeysArePlain(h) && PathTo(h, seen, Ref(id)) && id in h && h[id].Dict?
    requires |trees| == |Rewritten(h[id])| && KeysHashable(trees)
    requires forall i :: 0 <= i < |trees| && ContainerKey(h, Rewritten(h[id])[i]) && !Rebound(h[Rewritten(h[id])[i].id]) && Hashable(trees[i]) ==>
               Rewritten(h[id])[i].id in seen + {id}
    ensures !HasContainerKey(h, id)
  {
    forall i | 0 <= i < |h[id].items|
      ensures !ContainerKey(h, h[id].items[i].0)
    {
      FlattenedKey(h[id].items, i);
      LeadsHere(h, id);
      assert Hashable(trees[2 * i]);
    }
  }

  lemma {:induction false} NoFailureNoContainerKeysAll(h: Heap, vs: seq<Value>, seen: set<Id>)
    requires KeysArePlain(h) && AllKeyed(WalkAll(h, vs, seen).trees)
    requires forall i :: 0 <= i < |vs| ==> PathTo(h, seen, vs[i])
    ensures forall id :: id in EnteredAll(h, vs, seen) ==> !HasContainerKey(h, id)
    ensures forall i :: 0 <= i < |vs| && ContainerKey(h, vs[i]) && !Rebound(h[vs[i].id]) && Hashable(WalkAll(h, vs, seen).trees[i]) ==>
              vs[i].id in seen
    decreases |h.Keys - seen|, 1 + |vs|
  {
    if vs != [] {
      var first := Walk(h, vs[0], seen);
      SubsetCardinality(h.Keys - first.seen, h.Keys - seen);
      var rest := WalkAll(h, vs[1..], first.seen);
      assert WalkAll(h, vs, seen).trees == [first.tree] + rest.trees;
      assert ([first.tree] + rest.trees)[1..] == rest.trees;
      KeyIsHashableIfMet(h, vs[0], seen);
      NoFailureNoContainerKeys(h, vs[0], seen);
      SeenIsEntered(h, vs[0], seen);
      assert forall i :: 0 <= i < |vs[1..]| ==> vs[1..][i] == vs[i + 1] && PathTo(h, seen, vs[i + 1]);
      assert forall i :: 0 <= i < |vs[1..]| ==> PathTo(h, first.seen, vs[1..][i]);
      NoFailureNoContainerKeysAll(h, vs[1..], first.seen);
      assert forall i :: 1 <= i < |vs| ==> vs[i] == vs[1..][i - 1];
    }
  }

  /** If no key is a model or a data class, the rewriting fails if and only if a dictionary
      with a container for a key is reachable - through models and data classes too. */
  lemma FailsIffContainerKeyIsReachable(h: Heap, top: Id)
    requires Closed(h) && KeysArePlain(h) && top in h
    ensures !Keyed(Walk(h, Ref(top), {}).tree) <==> exists id :: Leads(h, top, id) && HasContainerKey(h, id)
  {
    forall id
      ensures id in Entered(h, Ref(top), {}) <==> Leads(h, top, id)
    {
      WalkEntersWhatIsReachable(h, top, id);
    }
    if Keyed(Walk(h, Ref(top), {}).tree) {
      NoFailureNoContainerKeys(h, Ref(top), {});
    } else if forall id :: id in Entered(h, Ref(top), {}) ==> !HasContainerKey(h, id) {
      NoContainerKeysNoFailure(h, Ref(top), {});
    }
  }

  /** The rewriting `dump_json(bytes_as_repr=True)` makes of a value: the walk's, with
      equal keys merged, or the TypeError of such a key. */
  method BytesToRepr(heap: Heap, value: Value) returns (r: Option<Tree>)
    ensures var t := Walk(heap, value, {}).tree;
            if Keyed(t) then r == Some(Collapsed(t)) else r.None?
    ensures Closed(heap) && KeysArePlain(heap) && value.Ref? && value.id in heap ==>
              (r.None? <==> exists id :: Leads(heap, value.id, id) && HasContainerKey(heap, id))
  {
    var writer := new Writer(heap);
    r := writer.Rewrite(value);
    if Closed(heap) && KeysArePlain(heap) && value.Ref? && value.id in heap {
      FailsIffContainerKeyIsReachable(heap, value.id);
    }
  }

  // --- A data class for a key ---------------------------------------------------------------

  lemma ListOfTwo(h: Heap, id: Id, a: Value, b: Value)
    requires id in h && h[id] == Sequence([a, b])
    ensures var first := Walk(h, a, {id}); var second := Walk(h, b, first.seen);
            Walk(h, Ref(id), {}).tree == ListOf([first.tree, second.tree])
  {
    var vs := [a, b];
    assert vs[1..] == [b] && [b][1..] == [] && {} + {id} == {id};
    var first := Walk(h, a, {id});
    assert WalkAll(h, [b], first.seen).trees == [Walk(h, b, first.seen).tree];
    assert WalkAll(h, vs, {id}).trees == [first.tree] + [Walk(h, b, first.seen).tree];
  }

  lemma DictOfOne(h: Heap, id: Id, key: Id, seen: set<Id>)
    requires key in h && h[key] == DataClass([]) && id in h && h[id] == Dict([(Ref(key), Null)]) && id !in seen && id != key
    ensures Walk(h, Ref(id), seen).tree == DictOf([if key in seen then Elided else DictOf([]), Leaf(Null)])
  {
    var item := [(Ref(key), Null)];
    assert item[1..] == [];
    var vs := [Ref(key), Null];
    assert Rewritten(h[id]) == vs + Flattened([]) == vs;
    assert vs[1..] == [Null] && [Null][1..] == [];
    var first := Walk(h, Ref(key), seen + {id});
    assert WalkAll(h, [Null], first.seen).trees == [Leaf(Null)];
    assert WalkAll(h, vs, seen + {id}).trees == [first.tree] + [Leaf(Null)];
  }

  /** With a data class for a key an earlier meeting decides: met as a value first it is
      elided as a key, and the rewriting succeeds; the other way round it fails. */
  lemma DataClassKeyDependsOnOrder(h: Heap, list: Id, dict: Id, key: Id)
    requires key in h && h[key] == DataClass([]) && dict in h && h[dict] == Dict([(Ref(key), Null)]) && list in h
    requires list != key && list != dict
    ensures h[list] == Sequence([Ref(key), Ref(dict)]) ==> Keyed(Walk(h, Ref(list), {}).tree)
    ensures h[list] == Sequence([Ref(dict), Ref(key)]) ==> !Keyed(Walk(h, Ref(list), {}).tree)
  {
    if h[list] == Sequence([Ref(key), Ref(dict)]) {
      ListOfTwo(h, list, Ref(key), Ref(dict));
      assert Walk(h, Ref(key), {list}) == Out(DictOf([]), {list} + {key});
      DictOfOne(h, dict, key, {list} + {key});
      BothKeyed(DictOf([]), DictOf([Elided, Leaf(Null)]));
    } else if h[list] == Sequence([Ref(dict), Ref(key)]) {
      ListOfTwo(h, list, Ref(dict), Ref(key));
      DictOfOne(h, dict, key, {list});
      BothKeyed(DictOf([DictOf([]), Leaf(Null)]), Walk(h, Ref(key), Walk(h, Ref(dict), {list}).seen).tree);
    }
  }

  lemma BothKeyed(a: Tree, b: Tree)
    ensures Keyed(ListOf([a, b])) <==> Keyed(a) && Keyed(b)
    ensures Keyed(DictOf([Elided, Leaf(Null)])) && !Keyed(DictOf([DictOf([]), Leaf(Null)])) && Keyed(DictOf([]))
  {
    assert [a, b][1..] == [b] && [b][1..] == [];
    assert AllKeyed([b]) <==> Keyed(b);
    assert AllKeyed([a, b]) <==> Keyed(a) && AllKeyed([b]);
    assert [Elided, Leaf(Null)][1..] == [Leaf(Null)] && [Leaf(Null)][1..] == [];
    assert AllKeyed([Leaf(Null)]);
    assert AllKeyed([Elided, Leaf(Null)]);
    assert !Hashable([DictOf([]), Leaf(Null)][0]);
  }
}
