/** `_bytes_to_repr`: a rewriting walk with a path set - except that a model or a
    data class never leaves the set, because the name whose id is discarded was
    rebound to the dictionary of its fields. */
module ReprRewrite {
  import opened Wrappers
  import opened Graphs

  /** The rewritten value.  A dictionary's keys and values alternate. */
  datatype Tree =
    | Leaf(value: Value)
    | Opaque(id: Id)
    | Elided
    | DictOf(entries: seq<Tree>)
    | ListOf(items: seq<Tree>)

  function Children(t: Tree): seq<Tree> {
    if t.DictOf? then t.entries else if t.ListOf? then t.items else []
  }

  predicate Rebound(o: Object) {
    o.Model? || o.DataClass?
  }

  predicate DictLike(o: Object) {
    o.Dict? || Rebound(o)
  }

  function Wrap(o: Object, id: Id, trees: seq<Tree>): Tree {
    if o.Other? then Opaque(id) else if DictLike(o) then DictOf(trees) else ListOf(trees)
  }

  // --- The walk ---------------------------------------------------------------

  datatype Out = Out(tree: Tree, seen: set<Id>)

  datatype OutAll = OutAll(trees: seq<Tree>, seen: set<Id>)

  /** The walk with the set it mutates threaded through. */
  function Walk(h: Heap, v: Value, seen: set<Id>): (r: Out)
    ensures seen <= r.seen
    decreases |h.Keys - seen|, 0
  {
    match v
    case RawBytes(repr) => Out(Leaf(Str(repr)), seen)
    case Ref(id) =>
      if id in seen then Out(Elided, seen)
      else if id !in h then Out(Opaque(id), seen)
      else
        CardinalityDrops(h.Keys, seen, id);
        var inner := WalkAll(h, Rewritten(h[id]), seen + {id});
        Out(Wrap(h[id], id, inner.trees), if Rebound(h[id]) then inner.seen else inner.seen - {id})
    case _ => Out(Leaf(v), seen)
  }

  function WalkAll(h: Heap, vs: seq<Value>, seen: set<Id>): (r: OutAll)
    ensures seen <= r.seen && |r.trees| == |vs|
    decreases |h.Keys - seen|, 1 + |vs|
  {
    if vs == [] then OutAll([], seen)
    else
      var first := Walk(h, vs[0], seen);
      SubsetCardinality(h.Keys - first.seen, h.Keys - seen);
      var rest := WalkAll(h, vs[1..], first.seen);
      OutAll([first.tree] + rest.trees, rest.seen)
  }

  /** The walk of a prefix, one value further. */
  lemma {:induction false} WalkAllStep(h: Heap, vs: seq<Value>, seen: set<Id>, n: nat)
    requires n < |vs|
    ensures var before := WalkAll(h, vs[..n], seen);
            var next := Walk(h, vs[n], before.seen);
            && WalkAll(h, vs[..n + 1], seen) == OutAll(before.trees + [next.tree], next.seen)
            && WalkAll(h, vs, seen).trees[n] == next.tree
    decreases n
  {
    var first := Walk(h, vs[0], seen);
    if n == 0 {
      assert vs[..1][1..] == [];
    } else {
      assert vs[..n + 1][1..] == vs[1..][..n] && vs[..n][1..] == vs[1..][..n - 1];
      WalkAllStep(h, vs[1..], first.seen, n - 1);
    }
  }

  predicate NoRawBytes(t: Tree) {
    (t.Leaf? ==> !t.value.RawBytes? && !t.value.Ref?) && forall i :: 0 <= i < |Children(t)| ==> NoRawBytes(Children(t)[i])
  }

  /** Every value graph rewrites to a finite tree without raw bytes. */
  lemma {:induction false} WalkHasNoRawBytes(h: Heap, v: Value, seen: set<Id>)
    ensures NoRawBytes(Walk(h, v, seen).tree)
    decreases |h.Keys - seen|, 0
  {
    if v.Ref? && v.id !in seen && v.id in h {
      CardinalityDrops(h.Keys, seen, v.id);
      WalkAllHasNoRawBytes(h, Rewritten(h[v.id]), seen + {v.id});
    }
  }

  lemma {:induction false} WalkAllHasNoRawBytes(h: Heap, vs: seq<Value>, seen: set<Id>)
    ensures forall i :: 0 <= i < |vs| ==> NoRawBytes(WalkAll(h, vs, seen).trees[i])
    decreases |h.Keys - seen|, 1 + |vs|
  {
    if vs != [] {
      var first := Walk(h, vs[0], seen);
      SubsetCardinality(h.Keys - first.seen, h.Keys - seen);
      WalkHasNoRawBytes(h, vs[0], seen);
      WalkAllHasNoRawBytes(h, vs[1..], first.seen);
    }
  }

  // --- Plain containers: a path set -------------------------------------------

  ghost predicate Plain(h: Heap) {
    forall id :: id in h ==> !Rebound(h[id])
  }

  /** The intended rewriting: a reference is elided exactly when it leads back
      into the path from the root. */
  function PathTree(h: Heap, v: Value, path: set<Id>): Tree
    decreases |h.Keys - path|, 0
  {
    match v
    case RawBytes(repr) => Leaf(Str(repr))
    case Ref(id) =>
      if id in path then Elided
      else if id !in h then Opaque(id)
      else
        CardinalityDrops(h.Keys, path, id);
        Wrap(h[id], id, PathTrees(h, Rewritten(h[id]), path + {id}))
    case _ => Leaf(v)
  }

  function PathTrees(h: Heap, vs: seq<Value>, path: set<Id>): seq<Tree>
    decreases |h.Keys - path|, 1 + |vs|
  {
    if vs == [] then [] else [PathTree(h, vs[0], path)] + PathTrees(h, vs[1..], path)
  }

  /** On plain containers the walk elides exactly the references back into the
      current path, and leaves its set as it found it. */
  lemma {:induction false} PlainWalk(h: Heap, v: Value, seen: set<Id>)
    requires Plain(h)
    ensures Walk(h, v, seen) == Out(PathTree(h, v, seen), seen)
    decreases |h.Keys - seen|, 0
  {
    if v.Ref? && v.id !in seen && v.id in h {
      CardinalityDrops(h.Keys, seen, v.id);
      PlainWalkAll(h, Rewritten(h[v.id]), seen + {v.id});
      assert seen + {v.id} - {v.id} == seen;
    }
  }

  lemma {:induction false} PlainWalkAll(h: Heap, vs: seq<Value>, seen: set<Id>)
    requires Plain(h)
    ensures WalkAll(h, vs, seen) == OutAll(PathTrees(h, vs, seen), seen)
    decreases |h.Keys - seen|, 1 + |vs|
  {
    if vs != [] {
      PlainWalk(h, vs[0], seen);
      PlainWalkAll(h, vs[1..], seen);
    }
  }

  // --- What "whole" means -----------------------------------------------------

  /** Nothing is elided. */
  predicate Whole(t: Tree)
    decreases t
  {
    match t
    case Elided => false
    case DictOf(entries) => AllWhole(entries)
    case ListOf(items) => AllWhole(items)
    case _ => true
  }

  predicate AllWhole(ts: seq<Tree>)
    decreases ts
  {
    ts == [] || (Whole(ts[0]) && AllWhole(ts[1..]))
  }

  /** `t` is the full unfolding of `v`: sharing copied out, bytes as their repr.  A
      value that reaches a cycle has none. */
  predicate Represents(h: Heap, v: Value, t: Tree)
    decreases t
  {
    match t
    case Leaf(w) => !v.Ref? && w == if v.RawBytes? then Str(v.repr) else v
    case Opaque(id) => v == Ref(id) && id in h && h[id].Other?
    case Elided => false
    case _ =>
      && v.Ref? && v.id in h && !h[v.id].Other? && (t.DictOf? <==> DictLike(h[v.id]))
      && RepresentsAll(h, Rewritten(h[v.id]), Children(t))
  }

  predicate RepresentsAll(h: Heap, vs: seq<Value>, ts: seq<Tree>)
    decreases ts
  {
    if ts == [] then vs == []
    else vs != [] && Represents(h, vs[0], ts[0]) && RepresentsAll(h, vs[1..], ts[1..])
  }

  function Size(t: Tree): (n: nat)
    decreases t
  {
    match t
    case DictOf(entries) => 1 + SizeAll(entries)
    case ListOf(items) => 1 + SizeAll(items)
    case _ => 1
  }

  function SizeAll(ts: seq<Tree>): nat
    decreases ts
  {
    if ts == [] then 0 else Size(ts[0]) + SizeAll(ts[1..])
  }

  /** The models and data classes met in an unfolding. */
  function Models(h: Heap, v: Value, t: Tree): set<Id>
    decreases t
  {
    if !v.Ref? || v.id !in h then {}
    else
      var own := if Rebound(h[v.id]) then {v.id} else {};
      match t
      case DictOf(entries) => own + ModelsAll(h, Rewritten(h[v.id]), entries)
      case ListOf(items) => own + ModelsAll(h, Rewritten(h[v.id]), items)
      case _ => {}
  }

  function ModelsAll(h: Heap, vs: seq<Value>, ts: seq<Tree>): set<Id>
    decreases ts
  {
    if ts == [] || vs == [] then {} else Models(h, vs[0], ts[0]) + ModelsAll(h, vs[1..], ts[1..])
  }

  /** No model or data class is met twice. */
  predicate MetOnce(h: Heap, v: Value, t: Tree)
    decreases t
  {
    if !v.Ref? || v.id !in h then true
    else
      var vs := Rewritten(h[v.id]);
      match t
      case DictOf(entries) =>
        MetOnceAll(h, vs, entries) && (Rebound(h[v.id]) ==> v.id !in ModelsAll(h, vs, entries))
      case ListOf(items) =>
        MetOnceAll(h, vs, items) && (Rebound(h[v.id]) ==> v.id !in ModelsAll(h, vs, items))
      case _ => true
  }

  predicate MetOnceAll(h: Heap, vs: seq<Value>, ts: seq<Tree>)
    decreases ts
  {
    ts == [] || vs == [] ||
    (&& MetOnce(h, vs[0], ts[0]) && MetOnceAll(h, vs[1..], ts[1..])
     && Models(h, vs[0], ts[0]) !! ModelsAll(h, vs[1..], ts[1..]))
  }

  lemma {:induction false} ModelsAreRebound(h: Heap, v: Value, t: Tree)
    ensures forall id :: id in Models(h, v, t) ==> id in h && Rebound(h[id])
    decreases t
  {
    if v.Ref? && v.id in h {
      if t.DictOf? {
        ModelsAllAreRebound(h, Rewritten(h[v.id]), t.entries);
      } else if t.ListOf? {
        ModelsAllAreRebound(h, Rewritten(h[v.id]), t.items);
      }
    }
  }

  lemma {:induction false} ModelsAllAreRebound(h: Heap, vs: seq<Value>, ts: seq<Tree>)
    ensures forall id :: id in ModelsAll(h, vs, ts) ==> id in h && Rebound(h[id])
    decreases ts
  {
    if ts != [] && vs != [] {
      ModelsAreRebound(h, vs[0], ts[0]);
      ModelsAllAreRebound(h, vs[1..], ts[1..]);
    }
  }

  /** The walk's result `r` from `seen` is an unfolding that meets its models once,
      each new to the set - which they never leave. */
  ghost predicate Unfolded(h: Heap, v: Value, seen: set<Id>, r: Out) {
    var models := Models(h, v, r.tree);
    Represents(h, v, r.tree) && MetOnce(h, v, r.tree) && models !! seen && r.seen == seen + models
  }

  ghost predicate UnfoldedAll(h: Heap, vs: seq<Value>, seen: set<Id>, r: OutAll) {
    var models := ModelsAll(h, vs, r.trees);
    RepresentsAll(h, vs, r.trees) && MetOnceAll(h, vs, r.trees) && models !! seen && r.seen == seen + models
  }

  /** An object unfolds when its children do. */
  lemma UnfoldedObject(h: Heap, id: Id, seen: set<Id>)
    requires id in h && id !in seen && !h[id].Other?
    requires UnfoldedAll(h, Rewritten(h[id]), seen + {id}, WalkAll(h, Rewritten(h[id]), seen + {id}))
    ensures Unfolded(h, Ref(id), seen, Walk(h, Ref(id), seen))
  {
  }

  lemma {:induction false} WholeWalk(h: Heap, v: Value, seen: set<Id>)
    requires Closed(h) && Resolves(h, v) && Whole(Walk(h, v, seen).tree)
    ensures Unfolded(h, v, seen, Walk(h, v, seen))
    decreases |h.Keys - seen|, 0
  {
    if !v.Ref? || h[v.id].Other? {
      WholeLeaf(h, v, seen);
    } else {
      CardinalityDrops(h.Keys, seen, v.id);
      var inner := WalkAll(h, Rewritten(h[v.id]), seen + {v.id});
      assert AllWhole(inner.trees) by {
        assert Walk(h, v, seen).tree == Wrap(h[v.id], v.id, inner.trees);
      }
      WholeWalkAll(h, Rewritten(h[v.id]), seen + {v.id});
      UnfoldedObject(h, v.id, seen);
    }
  }

  lemma WholeLeaf(h: Heap, v: Value, seen: set<Id>)
    requires Resolves(h, v) && (v.Ref? ==> h[v.id].Other? && v.id !in seen)
    ensures Unfolded(h, v, seen, Walk(h, v, seen))
  {
  }

  lemma {:induction false} WholeWalkAll(h: Heap, vs: seq<Value>, seen: set<Id>)
    requires Closed(h) && AllResolve(h, vs) && AllWhole(WalkAll(h, vs, seen).trees)
    ensures UnfoldedAll(h, vs, seen, WalkAll(h, vs, seen))
    decreases |h.Keys - seen|, 1 + |vs|
  {
    if vs != [] {
      var first := Walk(h, vs[0], seen);
      SubsetCardinality(h.Keys - first.seen, h.Keys - seen);
      var rest := WalkAll(h, vs[1..], first.seen);
      WalkAllWhole(h, vs, seen);
      WholeWalk(h, vs[0], seen);
      WholeWalkAll(h, vs[1..], first.seen);
      UnfoldedStep(h, vs, seen, first, rest);
    }
  }

  lemma WalkAllWhole(h: Heap, vs: seq<Value>, seen: set<Id>)
    requires vs != []
    ensures var first := Walk(h, vs[0], seen);
            var rest := WalkAll(h, vs[1..], first.seen);
            && WalkAll(h, vs, seen) == OutAll([first.tree] + rest.trees, rest.seen)
            && (AllWhole(WalkAll(h, vs, seen).trees) <==> Whole(first.tree) && AllWhole(rest.trees))
  {
  }

  lemma UnfoldedStep(h: Heap, vs: seq<Value>, seen: set<Id>, first: Out, rest: OutAll)
    requires vs != [] && Unfolded(h, vs[0], seen, first) && UnfoldedAll(h, vs[1..], first.seen, rest)
    ensures UnfoldedAll(h, vs, seen, OutAll([first.tree] + rest.trees, rest.seen))
  {
  }

  lemma {:induction false} RepresentsIsWhole(h: Heap, v: Value, t: Tree)
    requires Represents(h, v, t)
    ensures Whole(t)
    decreases t
  {
    if t.DictOf? {
      RepresentsAllIsWhole(h, Rewritten(h[v.id]), t.entries);
    } else if t.ListOf? {
      RepresentsAllIsWhole(h, Rewritten(h[v.id]), t.items);
    }
  }

  lemma {:induction false} RepresentsAllIsWhole(h: Heap, vs: seq<Value>, ts: seq<Tree>)
    requires RepresentsAll(h, vs, ts)
    ensures AllWhole(ts)
    decreases ts
  {
    if ts != [] {
      RepresentsIsWhole(h, vs[0], ts[0]);
      RepresentsAllIsWhole(h, vs[1..], ts[1..]);
    }
  }

  lemma {:induction false} UnfoldingIsUnique(h: Heap, v: Value, t: Tree, u: Tree)
    requires Represents(h, v, t) && Represents(h, v, u)
    ensures t == u
    decreases t
  {
    if t.DictOf? {
      UnfoldingsAreUnique(h, Rewritten(h[v.id]), t.entries, Children(u));
    } else if t.ListOf? {
      UnfoldingsAreUnique(h, Rewritten(h[v.id]), t.items, Children(u));
    }
  }

  lemma {:induction false} UnfoldingsAreUnique(h: Heap, vs: seq<Value>, ts: seq<Tree>, us: seq<Tree>)
    requires RepresentsAll(h, vs, ts) && RepresentsAll(h, vs, us)
    ensures ts == us
    decreases ts
  {
    if ts != [] {
      UnfoldingIsUnique(h, vs[0], ts[0], us[0]);
      UnfoldingsAreUnique(h, vs[1..], ts[1..], us[1..]);
    }
  }

  /** Every plain object of the set unfolds to more than `bound` nodes - so it does
      not occur inside an unfolding that small. */
  ghost predicate Above(h: Heap, seen: set<Id>, bound: nat) {
    forall id, t :: id in seen && id in h && !Rebound(h[id]) && Represents(h, Ref(id), t) ==> Size(t) > bound
  }

  /** A value with an unfolding that meets its models once, all new to the set,
      comes back as that unfolding. */
  lemma {:induction false} WalkUnfolds(h: Heap, v: Value, seen: set<Id>, t: Tree)
    requires Represents(h, v, t) && MetOnce(h, v, t) && Models(h, v, t) !! seen && Above(h, seen, Size(t))
    ensures Walk(h, v, seen) == Out(t, seen + Models(h, v, t))
    decreases t
  {
    if v.Ref? {
      var id := v.id;
      assert Represents(h, Ref(id), t);
      assert id !in seen;
      ModelsAllAreRebound(h, Rewritten(h[id]), Children(t));
      if t.DictOf? {
        AboveChildren(h, id, seen, t, t.entries);
        WalkAllUnfolds(h, Rewritten(h[id]), seen + {id}, t.entries);
        UnfoldedObject(h, id, seen);
      } else if t.ListOf? {
        AboveChildren(h, id, seen, t, t.items);
        WalkAllUnfolds(h, Rewritten(h[id]), seen + {id}, t.items);
        UnfoldedObject(h, id, seen);
      } else {
        assert seen + {id} - {id} == seen;
      }
    }
  }

  lemma AboveChildren(h: Heap, id: Id, seen: set<Id>, t: Tree, ts: seq<Tree>)
    requires Represents(h, Ref(id), t) && Above(h, seen, Size(t)) && SizeAll(ts) < Size(t)
    ensures Above(h, seen + {id}, SizeAll(ts))
  {
    forall other, u | other in seen + {id} && other in h && !Rebound(h[other]) && Represents(h, Ref(other), u)
      ensures Size(u) > SizeAll(ts)
    {
      if other == id {
        UnfoldingIsUnique(h, Ref(id), t, u);
      }
    }
  }

  lemma {:induction false} WalkAllUnfolds(h: Heap, vs: seq<Value>, seen: set<Id>, ts: seq<Tree>)
    requires RepresentsAll(h, vs, ts) && MetOnceAll(h, vs, ts) && ModelsAll(h, vs, ts) !! seen
    requires Above(h, seen, SizeAll(ts))
    ensures WalkAll(h, vs, seen) == OutAll(ts, seen + ModelsAll(h, vs, ts))
    decreases ts
  {
    if ts != [] {
      WalkUnfolds(h, vs[0], seen, ts[0]);
      var models := Models(h, vs[0], ts[0]);
      ModelsAreRebound(h, vs[0], ts[0]);
      assert Above(h, seen + models, SizeAll(ts[1..]));
      WalkAllUnfolds(h, vs[1..], seen + models, ts[1..]);
      assert seen + models + ModelsAll(h, vs[1..], ts[1..]) == seen + ModelsAll(h, vs, ts);
    }
  }

  /** `v` unfolds to a finite tree that meets no model or data class twice. */
  ghost predicate UnfoldsOnce(h: Heap, v: Value) {
    exists t :: Represents(h, v, t) && MetOnce(h, v, t)
  }

  /** Nothing is lost exactly when the value reaches no cycle and no model or data
      class is met twice; what comes back is then the full unfolding. */
  lemma NothingIsLost(h: Heap, v: Value)
    requires Closed(h) && Resolves(h, v)
    ensures Whole(Walk(h, v, {}).tree) <==> UnfoldsOnce(h, v)
    ensures Whole(Walk(h, v, {}).tree) <==> Represents(h, v, Walk(h, v, {}).tree)
  {
    if Whole(Walk(h, v, {}).tree) {
      WholeWalk(h, v, {});
    }
    if UnfoldsOnce(h, v) {
      var t :| Represents(h, v, t) && MetOnce(h, v, t);
      WalkUnfolds(h, v, {}, t);
      RepresentsIsWhole(h, v, t);
    }
    if Represents(h, v, Walk(h, v, {}).tree) {
      RepresentsIsWhole(h, v, Walk(h, v, {}).tree);
    }
  }

  lemma {:induction false} PlainMeetsNoModels(h: Heap, v: Value, t: Tree)
    requires Plain(h)
    ensures MetOnce(h, v, t) && Models(h, v, t) == {}
    decreases t
  {
    if v.Ref? && v.id in h {
      if t.DictOf? {
        PlainMeetsNoModelsAll(h, Rewritten(h[v.id]), t.entries);
      } else if t.ListOf? {
        PlainMeetsNoModelsAll(h, Rewritten(h[v.id]), t.items);
      }
    }
  }

  lemma {:induction false} PlainMeetsNoModelsAll(h: Heap, vs: seq<Value>, ts: seq<Tree>)
    requires Plain(h)
    ensures MetOnceAll(h, vs, ts) && ModelsAll(h, vs, ts) == {}
    decreases ts
  {
    if ts != [] && vs != [] {
      PlainMeetsNoModels(h, vs[0], ts[0]);
      PlainMeetsNoModelsAll(h, vs[1..], ts[1..]);
    }
  }

  /** Over plain containers sharing costs nothing: the value comes back whole
      exactly when it has a finite unfolding, that is, reaches no cycle. */
  lemma PlainIsWholeUnlessCyclic(h: Heap, v: Value)
    requires Closed(h) && Resolves(h, v) && Plain(h)
    ensures Whole(Walk(h, v, {}).tree) <==> exists t :: Represents(h, v, t)
  {
    NothingIsLost(h, v);
    if t :| Represents(h, v, t) {
      PlainMeetsNoModels(h, v, t);
    }
  }

  /** A data class referenced twice is elided the second time, though the value
      reaches no cycle. */
  lemma SharedDataClassIsElided()
    ensures var h := map[0 := Sequence([Ref(1), Ref(1)]), 1 := DataClass([])];
            && Closed(h) && Represents(h, Ref(0), ListOf([DictOf([]), DictOf([])]))
            && Walk(h, Ref(0), {}).tree == ListOf([DictOf([]), Elided])
  {
    var h := map[0 := Sequence([Ref(1), Ref(1)]), 1 := DataClass([])];
    var vs := [Ref(1), Ref(1)];
    var once := [DictOf([])];
    assert vs[1..] == [Ref(1)] && vs[1..][1..] == [];
    assert Rewritten(h[0]) == vs && Rewritten(h[1]) == [] && Walked(h[1]) == [];
    var ts := [DictOf([]), DictOf([])];
    assert ts[1..] == once && once[1..] == [];
    assert Represents(h, Ref(1), DictOf([]));
    assert RepresentsAll(h, vs[1..], once);
    assert RepresentsAll(h, vs, ts);
    var first := Walk(h, Ref(1), {0});
    assert first == Out(DictOf([]), {0, 1});
    assert WalkAll(h, vs[1..], {0, 1}) == OutAll([Elided], {0, 1});
    assert WalkAll(h, vs, {0}) == OutAll([DictOf([])] + [Elided], {0, 1});
    assert Walk(h, Ref(0), {}).tree == Wrap(h[0], 0, WalkAll(h, vs, {} + {0}).trees);
    assert {} + {0} == {0};
  }

  // --- Dictionaries as they are built -----------------------------------------

  /** A key as Python compares it: an elided reference is a string. */
  function Form(t: Tree): Tree {
    if t.Elided? then Leaf(Str("<circular reference>")) else t
  }

  /** Two rewritten keys are equal only if they are the same, or one is an elided reference
      and the other the text that stands for it. */
  lemma FormTellsApart(t: Tree, u: Tree)
    ensures Form(t) == Form(u) <==>
              || t == u
              || (t == Elided && u == Leaf(Str("<circular reference>")))
              || (u == Elided && t == Leaf(Str("<circular reference>")))
  {
  }

  /** What the comprehension's assignment does: an equal key keeps its place and
      takes the new value. */
  function PutEntry(es: seq<Tree>, key: Tree, value: Tree): seq<Tree> {
    if |es| < 2 then [key, value]
    else if Form(es[0]) == Form(key) then [es[0], value] + es[2..]
    else es[..2] + PutEntry(es[2..], key, value)
  }

  function Gathered(es: seq<Tree>): seq<Tree> {
    if |es| < 2 then [] else PutEntry(Gathered(es[..|es| - 2]), es[|es| - 2], es[|es| - 1])
  }

  /** The rewritten value with every dictionary's equal keys merged. */
  function Collapsed(t: Tree): Tree
    decreases t
  {
    match t
    case DictOf(entries) => DictOf(Gathered(CollapsedAll(entries)))
    case ListOf(items) => ListOf(CollapsedAll(items))
    case _ => t
  }

  function CollapsedAll(ts: seq<Tree>): (r: seq<Tree>)
    ensures |r| == |ts|
    decreases ts
  {
    if ts == [] then [] else [Collapsed(ts[0])] + CollapsedAll(ts[1..])
  }

  /** A list or a dictionary cannot be a dictionary key. */
  predicate Hashable(t: Tree) {
    !t.DictOf? && !t.ListOf?
  }

  predicate KeysHashable(es: seq<Tree>) {
    forall i :: 0 <= i < |es| && i % 2 == 0 ==> Hashable(es[i])
  }

  /** Every dictionary in the tree can be built. */
  predicate Keyed(t: Tree)
    decreases t
  {
    match t
    case DictOf(entries) => KeysHashable(entries) && AllKeyed(entries)
    case ListOf(items) => AllKeyed(items)
    case _ => true
  }

  predicate AllKeyed(ts: seq<Tree>)
    decreases ts
  {
    ts == [] || (Keyed(ts[0]) && AllKeyed(ts[1..]))
  }

  lemma {:induction false} AllKeyedAppend(ts: seq<Tree>, t: Tree)
    ensures AllKeyed(ts + [t]) <==> AllKeyed(ts) && Keyed(t)
  {
    if ts == [] {
      assert (ts + [t])[1..] == [];
    } else {
      assert (ts + [t])[1..] == ts[1..] + [t];
      AllKeyedAppend(ts[1..], t);
    }
  }

  lemma {:induction false} CollapsedAllAppend(ts: seq<Tree>, t: Tree)
    ensures CollapsedAll(ts + [t]) == CollapsedAll(ts) + [Collapsed(t)]
  {
    if ts == [] {
      assert (ts + [t])[1..] == [];
    } else {
      assert (ts + [t])[1..] == ts[1..] + [t];
      CollapsedAllAppend(ts[1..], t);
    }
  }

  /** The writer: one `seen` set, mutated along the walk. */
  class Writer {
    const heap: Heap
    var seen: set<Id>

    constructor (heap: Heap)
      ensures this.heap == heap && seen == {}
    {
      this.heap := heap;
      seen := {};
    }

    /** None is the TypeError of a dictionary key rewritten to a list or a
        dictionary; `seen` matters to nobody then. */
    method Rewrite(value: Value) returns (r: Option<Tree>)
      modifies this
      ensures var w := Walk(heap, value, old(seen));
              if Keyed(w.tree) then r == Some(Collapsed(w.tree)) && seen == w.seen else r.None?
      decreases |heap.Keys - seen|, 0
    {
      if value.RawBytes? {
        return Some(Leaf(Str(value.repr)));
      }
      if !value.Ref? {
        return Some(Leaf(value));
      }
      if value.id in seen {
        return Some(Elided);
      }
      if value.id !in heap {
        return Some(Opaque(value.id));
      }
      CardinalityDrops(heap.Keys, seen, value.id);
      seen := seen + {value.id};
      var o := heap[value.id];
      RewrittenIsEven(o);
      var children := RewriteAll(Rewritten(o), DictLike(o));
      if children.None? {
        return None;
      }
      if !Rebound(o) {
        seen := seen - {value.id};
      }
      r := Some(if o.Other? then Opaque(value.id)
                else if DictLike(o) then DictOf(children.value) else ListOf(children.value));
    }

    /** The comprehensions: the values of one object, gathered into a dictionary
        when they are one. */
    method RewriteAll(values: seq<Value>, dict: bool) returns (r: Option<seq<Tree>>)
      requires dict ==> |values| % 2 == 0
      modifies this
      ensures var w := WalkAll(heap, values, old(seen));
              if Buildable(w.trees, dict) then r == Some(Built(w.trees, dict)) && seen == w.seen else r.None?
      decreases |heap.Keys - seen|, 1 + |values|
    {
      ghost var start := seen;
      var out: seq<Tree> := [];
      var key := Elided;
      assert values[..0] == [];
      for i := 0 to |values|
        invariant start <= seen && Underway(heap, values, dict, start, i, seen, out, key)
      {
        SubsetCardinality(heap.Keys - seen, heap.Keys - start);
        NextIsUnderway(heap, values, dict, start, i, seen, out, key);
        var t := Rewrite(values[i]);
        if t.None? || (dict && i % 2 == 0 && !Hashable(t.value)) {
          return None;
        }
        if !dict {
          out := out + [t.value];
        } else if i % 2 == 0 {
          key := t.value;
        } else {
          out := PutEntry(out, key, t.value);
        }
      }
      assert values[..|values|] == values;
      r := Some(out);
    }
  }

  /** The loop after `n` values: nothing has failed, and what is built is theirs. */
  ghost predicate Underway(h: Heap, values: seq<Value>, dict: bool, start: set<Id>, n: nat, seen: set<Id>, out: seq<Tree>, key: Tree)
    requires n <= |values|
  {
    var done := WalkAll(h, values[..n], start);
    seen == done.seen && |done.trees| == n && Buildable(done.trees, dict) && Holds(done.trees, dict, out, key)
  }

  /** The next value fails the whole, or is taken in. */
  lemma NextIsUnderway(h: Heap, values: seq<Value>, dict: bool, start: set<Id>, n: nat, seen: set<Id>, out: seq<Tree>, key: Tree)
    requires n < |values| && Underway(h, values, dict, start, n, seen, out, key)
    ensures var next := Walk(h, values[n], seen); var t := Collapsed(next.tree);
            if !Keyed(next.tree) || (dict && n % 2 == 0 && !Hashable(t)) then !Buildable(WalkAll(h, values, start).trees, dict)
            else
              Underway(h, values, dict, start, n + 1, next.seen,
                       if !dict then out + [t] else if n % 2 == 0 then out else PutEntry(out, key, t),
                       if dict && n % 2 == 0 then t else key)
  {
    NextValue(h, values, dict, start, n);
    HoldsStep(WalkAll(h, values[..n], start).trees, Walk(h, values[n], seen).tree, dict, out, key);
  }

  /** Failing on a value is failing on the whole. */
  lemma NextValue(h: Heap, values: seq<Value>, dict: bool, start: set<Id>, n: nat)
    requires n < |values|
    ensures var done := WalkAll(h, values[..n], start);
            var next := Walk(h, values[n], done.seen);
            && WalkAll(h, values[..n + 1], start) == OutAll(done.trees + [next.tree], next.seen)
            && (Buildable(done.trees + [next.tree], dict) <==>
                Buildable(done.trees, dict) && Keyed(next.tree) && (dict && n % 2 == 0 ==> Hashable(next.tree)))
            && (Buildable(WalkAll(h, values, start).trees, dict) ==> Buildable(done.trees + [next.tree], dict))
  {
    var done := WalkAll(h, values[..n], start);
    var next := Walk(h, values[n], done.seen);
    WalkAllStep(h, values, start, n);
    BuildableAppend(done.trees, next.tree, dict);
    WalkAllPrefix(h, values, start, n + 1);
    if Buildable(WalkAll(h, values, start).trees, dict) {
      BuildablePrefix(WalkAll(h, values, start).trees, n + 1, dict);
    }
  }

  predicate Buildable(ts: seq<Tree>, dict: bool) {
    AllKeyed(ts) && (dict ==> KeysHashable(ts))
  }

  function Built(ts: seq<Tree>, dict: bool): seq<Tree> {
    if dict then Gathered(CollapsedAll(ts)) else CollapsedAll(ts)
  }

  lemma BuildableAppend(ts: seq<Tree>, t: Tree, dict: bool)
    ensures Buildable(ts + [t], dict) <==>
            Buildable(ts, dict) && Keyed(t) && (dict && |ts| % 2 == 0 ==> Hashable(t))
  {
    AllKeyedAppend(ts, t);
    assert KeysHashable(ts + [t]) ==> KeysHashable(ts) by {
      assert forall i :: 0 <= i < |ts| ==> (ts + [t])[i] == ts[i];
    }
    assert |ts| % 2 == 0 && KeysHashable(ts + [t]) ==> Hashable((ts + [t])[|ts|]);
  }

  /** What the loop holds after rewriting to `ts`: in a dictionary, a key may wait
      for its value. */
  predicate Holds(ts: seq<Tree>, dict: bool, out: seq<Tree>, key: Tree) {
    if dict && |ts| % 2 == 1 then out == Built(ts[..|ts| - 1], dict) && key == Collapsed(ts[|ts| - 1])
    else out == Built(ts, dict)
  }

  lemma HoldsStep(ts: seq<Tree>, t: Tree, dict: bool, out: seq<Tree>, key: Tree)
    requires Holds(ts, dict, out, key)
    ensures !dict ==> Holds(ts + [t], dict, out + [Collapsed(t)], key)
    ensures dict && |ts| % 2 == 0 ==> Holds(ts + [t], dict, out, Collapsed(t))
    ensures dict && |ts| % 2 == 1 ==> Holds(ts + [t], dict, PutEntry(out, key, Collapsed(t)), key)
  {
    CollapsedAllAppend(ts, t);
    assert (ts + [t])[..|ts|] == ts;
    if dict && |ts| % 2 == 1 {
      var init, last := ts[..|ts| - 1], ts[|ts| - 1];
      assert ts == init + [last];
      CollapsedAllAppend(init, last);
      var es := CollapsedAll(ts + [t]);
      assert es[..|es| - 2] == CollapsedAll(init);
    }
  }

  lemma {:induction false} WalkAllPrefix(h: Heap, values: seq<Value>, start: set<Id>, n: nat)
    requires n <= |values|
    ensures WalkAll(h, values[..n], start).trees == WalkAll(h, values, start).trees[..n]
  {
    if n == 0 {
      assert values[..0] == [];
    } else {
      WalkAllPrefix(h, values, start, n - 1);
      WalkAllStep(h, values, start, n - 1);
    }
  }

  lemma {:induction false} BuildablePrefix(ts: seq<Tree>, n: nat, dict: bool)
    requires n <= |ts| && Buildable(ts, dict)
    ensures Buildable(ts[..n], dict)
    decreases |ts| - n
  {
    if n < |ts| {
      BuildablePrefix(ts, n + 1, dict);
      assert ts[..n + 1] == ts[..n] + [ts[n]];
      BuildableAppend(ts[..n], ts[n], dict);
    } else {
      assert ts[..n] == ts;
    }
  }

  lemma {:induction false} FlattenedIsEven(items: seq<(Value, Value)>)
    ensures |Flattened(items)| % 2 == 0
  {
    if items != [] {
      FlattenedIsEven(items[1..]);
    }
  }

  lemma {:induction false} NamedValuesIsEven(fields: seq<Field>)
    ensures |NamedValues(fields)| % 2 == 0
  {
    if fields != [] {
      NamedValuesIsEven(fields[1..]);
    }
  }

  lemma RewrittenIsEven(o: Object)
    ensures DictLike(o) ==> |Rewritten(o)| % 2 == 0
  {
    if o.Dict? {
      FlattenedIsEven(o.items);
    } else if Rebound(o) {
      NamedValuesIsEven(FieldsOf(o));
    }
  }

  // --- When keys merge, and when they cannot be keys ---------------------------

  predicate FormsDistinct(es: seq<Tree>) {
    && |es| % 2 == 0
    && forall i, j :: 0 <= i < j < |es| && i % 2 == 0 && j % 2 == 0 ==> Form(es[i]) != Form(es[j])
  }

  predicate KeysDistinct(t: Tree)
    decreases t
  {
    match t
    case DictOf(entries) => FormsDistinct(entries) && AllKeysDistinct(entries)
    case ListOf(items) => AllKeysDistinct(items)
    case _ => true
  }

  predicate AllKeysDistinct(ts: seq<Tree>)
    decreases ts
  {
    ts == [] || (KeysDistinct(ts[0]) && AllKeysDistinct(ts[1..]))
  }

  predicate KeyAbsent(es: seq<Tree>, key: Tree) {
    forall i :: 0 <= i < |es| && i % 2 == 0 ==> Form(es[i]) != Form(key)
  }

  lemma {:induction false} PutEntryLength(es: seq<Tree>, key: Tree, value: Tree)
    requires |es| % 2 == 0
    ensures KeyAbsent(es, key) ==> PutEntry(es, key, value) == es + [key, value]
    ensures !KeyAbsent(es, key) ==> |PutEntry(es, key, value)| == |es|
  {
    if es != [] {
      PutEntryLength(es[2..], key, value);
      if Form(es[0]) != Form(key) {
        assert KeyAbsent(es[2..], key) <==> KeyAbsent(es, key) by {
          assert forall i :: 2 <= i < |es| ==> es[i] == es[2..][i - 2];
          assert forall i :: 0 <= i < |es| - 2 ==> es[2..][i] == es[i + 2];
        }
        assert es == es[..2] + es[2..];
      }
    }
  }

  /** An equal key keeps its place and its spelling, and takes the new value. */
  lemma {:induction false} PutEntryOverwrites(es: seq<Tree>, key: Tree, value: Tree, i: nat)
    requires |es| % 2 == 0 && 2 * i < |es| && Form(es[2 * i]) == Form(key)
    requires forall j :: 0 <= j < i ==> Form(es[2 * j]) != Form(key)
    ensures PutEntry(es, key, value) == es[2 * i + 1 := value]
  {
    if i > 0 {
      assert Form(es[2 * 0]) != Form(key);
      forall j | 0 <= j < i - 1
        ensures Form(es[2..][2 * j]) != Form(key)
      {
        assert es[2..][2 * j] == es[2 * (j + 1)];
      }
      PutEntryOverwrites(es[2..], key, value, i - 1);
      assert es == es[..2] + es[2..];
    }
  }

  lemma FormsDistinctAppend(es: seq<Tree>, key: Tree, value: Tree)
    requires |es| % 2 == 0
    ensures FormsDistinct(es + [key, value]) <==> FormsDistinct(es) && KeyAbsent(es, key)
  {
    var all := es + [key, value];
    assert forall i :: 0 <= i < |es| ==> all[i] == es[i];
    assert all[|es|] == key;
  }

  lemma {:induction false} GatheredBounded(es: seq<Tree>)
    ensures |Gathered(es)| <= |es| && |Gathered(es)| % 2 == 0
  {
    if |es| >= 2 {
      var init, key, value := es[..|es| - 2], es[|es| - 2], es[|es| - 1];
      GatheredBounded(init);
      PutEntryLength(Gathered(init), key, value);
    }
  }

  lemma {:induction false} GatheredKeepsDistinct(es: seq<Tree>)
    requires |es| % 2 == 0
    ensures |Gathered(es)| == |es| ==> Gathered(es) == es && FormsDistinct(es)
    ensures FormsDistinct(es) ==> Gathered(es) == es
  {
    if |es| >= 2 {
      var init, key, value := es[..|es| - 2], es[|es| - 2], es[|es| - 1];
      assert es == init + [key, value];
      GatheredKeepsDistinct(init);
      GatheredBounded(init);
      PutEntryLength(Gathered(init), key, value);
      FormsDistinctAppend(init, key, value);
    }
  }

  /** Merging equal keys loses nothing exactly when no two keys of a dictionary
      share a rewritten form. */
  lemma {:induction false} CollapseLosesNothing(t: Tree)
    ensures Collapsed(t) == t <==> KeysDistinct(t)
    decreases t
  {
    match t
    case DictOf(entries) =>
      CollapseAllLosesNothing(entries);
      GatheredBounded(CollapsedAll(entries));
      if |entries| % 2 == 0 {
        GatheredKeepsDistinct(CollapsedAll(entries));
      }
    case ListOf(items) =>
      CollapseAllLosesNothing(items);
    case _ =>
  }

  lemma {:induction false} CollapseAllLosesNothing(ts: seq<Tree>)
    ensures CollapsedAll(ts) == ts <==> AllKeysDistinct(ts)
    decreases ts
  {
    if ts != [] {
      CollapseLosesNothing(ts[0]);
      CollapseAllLosesNothing(ts[1..]);
    }
  }

  /** Keys are scalars, raw bytes or objects other than containers. */
  ghost predicate ScalarKeys(h: Heap) {
    forall id :: id in h && h[id].Dict? ==> ScalarItemKeys(h, h[id].items)
  }

  predicate ScalarItemKeys(h: Heap, items: seq<(Value, Value)>) {
    forall i :: 0 <= i < |items| ==> var key := items[i].0; key.Ref? ==> key.id in h ==> h[key.id].Other?
  }

  predicate ScalarValue(h: Heap, v: Value) {
    v.Ref? ==> v.id in h ==> h[v.id].Other?
  }

  lemma {:induction false} FlattenedKeys(h: Heap, items: seq<(Value, Value)>)
    requires ScalarItemKeys(h, items)
    ensures forall i :: 0 <= i < |Flattened(items)| && i % 2 == 0 ==> ScalarValue(h, Flattened(items)[i])
  {
    if items != [] {
      assert forall i :: 0 <= i < |items[1..]| ==> items[1..][i] == items[i + 1];
      FlattenedKeys(h, items[1..]);
      var all, rest := Flattened(items), Flattened(items[1..]);
      assert ScalarValue(h, items[0].0);
      assert forall i :: 2 <= i < |all| ==> all[i] == rest[i - 2];
    }
  }

  lemma {:induction false} NamedValuesKeys(h: Heap, fields: seq<Field>)
    ensures forall i :: 0 <= i < |NamedValues(fields)| && i % 2 == 0 ==> ScalarValue(h, NamedValues(fields)[i])
  {
    if fields != [] {
      NamedValuesKeys(h, fields[1..]);
      var all, rest := NamedValues(fields), NamedValues(fields[1..]);
      assert forall i :: 2 <= i < |all| ==> all[i] == rest[i - 2];
    }
  }

  /** With such keys the rewriting never fails. */
  lemma {:induction false} ScalarKeysNeverFail(h: Heap, v: Value, seen: set<Id>)
    requires ScalarKeys(h)
    ensures Keyed(Walk(h, v, seen).tree)
    ensures ScalarValue(h, v) ==> Hashable(Walk(h, v, seen).tree)
    decreases |h.Keys - seen|, 0
  {
    if v.Ref? && v.id !in seen && v.id in h {
      CardinalityDrops(h.Keys, seen, v.id);
      var o := h[v.id];
      ScalarKeysNeverFailAll(h, Rewritten(o), seen + {v.id});
      if o.Dict? {
        FlattenedKeys(h, o.items);
      } else if Rebound(o) {
        NamedValuesKeys(h, FieldsOf(o));
      }
    }
  }

  lemma {:induction false} ScalarKeysNeverFailAll(h: Heap, vs: seq<Value>, seen: set<Id>)
    requires ScalarKeys(h)
    ensures AllKeyed(WalkAll(h, vs, seen).trees)
    ensures forall i :: 0 <= i < |vs| && ScalarValue(h, vs[i]) ==> Hashable(WalkAll(h, vs, seen).trees[i])
    decreases |h.Keys - seen|, 1 + |vs|
  {
    if vs != [] {
      var first := Walk(h, vs[0], seen);
      SubsetCardinality(h.Keys - first.seen, h.Keys - seen);
      ScalarKeysNeverFail(h, vs[0], seen);
      ScalarKeysNeverFailAll(h, vs[1..], first.seen);
      var rest := WalkAll(h, vs[1..], first.seen);
      assert WalkAll(h, vs, seen).trees == [first.tree] + rest.trees;
      assert ([first.tree] + rest.trees)[1..] == rest.trees;
    }
  }

  /** A tuple key fails it: the key is rewritten to a list. */
  lemma TupleKeyFails()
    ensures var h := map[0 := Dict([(Ref(1), Null)]), 1 := Sequence([])];
            Closed(h) && !Keyed(Walk(h, Ref(0), {}).tree)
  {
  }
}
