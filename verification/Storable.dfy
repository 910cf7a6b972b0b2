/** `_refuse_unstorable`: a depth-first search with one visited set. */
module Storable {
  import opened Wrappers
  import opened Graphs

  /** Where a walk of edge positions leads. */
  function Follow(h: Heap, v: Value, steps: seq<nat>): Option<Value>
    decreases steps
  {
    if steps == [] then Some(v)
    else if v.Ref? && v.id in h && steps[0] < |Walked(h[v.id])| then
      Follow(h, Walked(h[v.id])[steps[0]], steps[1..])
    else None
  }

  /** Something unstorable is reachable. */
  ghost predicate ReachesUnstorable(h: Heap, v: Value) {
    exists steps: seq<nat> :: LeadsToUnstorable(h, v, steps)
  }

  predicate LeadsToUnstorable(h: Heap, v: Value, steps: seq<nat>) {
    Follow(h, v, steps).Some? && Unstorable(Follow(h, v, steps).value)
  }

  /** The walk has dealt with `v` once the objects of `seen` are entered. */
  predicate Cleared(v: Value, seen: set<Id>) {
    !Unstorable(v) && (v.Ref? ==> v.id in seen)
  }

  /** The first `n` values are dealt with. */
  predicate AllCleared(values: seq<Value>, n: nat, seen: set<Id>) {
    n <= |values| && forall i :: 0 <= i < n ==> Cleared(values[i], seen)
  }

  /** Every object of `seen` but those of `open` is walked in full: its edges lead
      to cleared values. */
  ghost predicate EdgesCleared(h: Heap, seen: set<Id>, open: set<Id>) {
    forall id :: id in seen && id !in open && id in h ==> AllCleared(Walked(h[id]), |Walked(h[id])|, seen)
  }

  /** `entered` lists the objects of `seen`, each once. */
  ghost predicate EnteredOnce(entered: seq<Id>, seen: set<Id>) {
    && (forall i, j :: 0 <= i < j < |entered| ==> entered[i] != entered[j])
    && (forall id :: id in seen <==> id in entered)
  }

  /** The first unstorable value reached, and the edge positions that led to it. */
  datatype Refusal = Refusal(path: seq<nat>, value: Value)

  class Walker {
    const heap: Heap
    var seen: set<Id>
    ghost var entered: seq<Id>

    constructor (heap: Heap)
      ensures this.heap == heap && seen == {} && entered == []
    {
      this.heap := heap;
      seen := {};
      entered := [];
    }

    ghost predicate Valid()
      reads this
    {
      seen <= heap.Keys && EnteredOnce(entered, seen)
    }

    /** Nothing is removed from `seen`, each object is entered at most once, and
        an object newly entered is walked in full unless the walk is refused. */
    method Refuse(value: Value, path: seq<nat>) returns (refusal: Option<Refusal>)
      requires Closed(heap) && Valid() && Resolves(heap, value)
      modifies this
      ensures Valid() && old(seen) <= seen
      ensures refusal.None? ==> Cleared(value, seen) && EdgesCleared(heap, seen, old(seen))
      ensures refusal.Some? ==>
                && Unstorable(refusal.value.value) && path <= refusal.value.path
                && Follow(heap, value, refusal.value.path[|path|..]) == Some(refusal.value.value)
      decreases |heap.Keys - seen|, 0
    {
      if Unstorable(value) {
        return Some(Refusal(path, value));
      }
      if !value.Ref? || value.id in seen {
        return None;
      }
      ghost var start := seen;
      Enter(value.id);
      refusal := RefuseEdges(value.id, path);
      if refusal.Some? {
        return;
      }
      LoopDone(heap, start, value.id, seen);
    }

    /** The branch loops of the walk, over the edges of one object just entered. */
    method RefuseEdges(id: Id, path: seq<nat>) returns (refusal: Option<Refusal>)
      requires Closed(heap) && Valid() && id in heap
      modifies this
      ensures Valid() && old(seen) <= seen
      ensures refusal.None? ==>
                AllCleared(Walked(heap[id]), |Walked(heap[id])|, seen) && EdgesCleared(heap, seen, old(seen))
      ensures refusal.Some? ==>
                && Unstorable(refusal.value.value) && path <= refusal.value.path
                && Follow(heap, Ref(id), refusal.value.path[|path|..]) == Some(refusal.value.value)
      decreases |heap.Keys - seen|, 1
    {
      var edges := Walked(heap[id]);
      for i := 0 to |edges|
        invariant Valid() && old(seen) <= seen
        invariant |heap.Keys - seen| <= old(|heap.Keys - seen|)
        invariant AllCleared(edges, i, seen)
        invariant EdgesCleared(heap, seen, old(seen))
      {
        ghost var before := seen;
        refusal := Refuse(edges[i], path + [i]);
        if refusal.Some? {
          FollowOneStep(heap, Ref(id), path, i, refusal.value);
          return;
        }
        LoopStep(heap, edges, i, old(seen), before, seen);
      }
      refusal := None;
    }

    method Enter(id: Id)
      requires Valid() && id in heap && id !in seen
      modifies this
      ensures Valid() && seen == old(seen) + {id} && entered == old(entered) + [id]
      ensures |heap.Keys - seen| < old(|heap.Keys - seen|)
    {
      CardinalityDrops(heap.Keys, seen, id);
      seen := seen + {id};
      entered := entered + [id];
    }
  }

  lemma FollowOneStep(h: Heap, v: Value, path: seq<nat>, i: nat, r: Refusal)
    requires v.Ref? && v.id in h && i < |Walked(h[v.id])| && path + [i] <= r.path
    requires Follow(h, Walked(h[v.id])[i], r.path[|path + [i]|..]) == Some(r.value)
    ensures path <= r.path && Follow(h, v, r.path[|path|..]) == Some(r.value)
  {
  }

  lemma LoopStep(h: Heap, edges: seq<Value>, i: nat, open: set<Id>, before: set<Id>, after: set<Id>)
    requires i < |edges| && before <= after
    requires AllCleared(edges, i, before) && Cleared(edges[i], after)
    requires EdgesCleared(h, before, open) && EdgesCleared(h, after, before)
    ensures AllCleared(edges, i + 1, after)
    ensures EdgesCleared(h, after, open)
    ensures |h.Keys - after| <= |h.Keys - before|
  {
    SubsetCardinality(h.Keys - after, h.Keys - before);
  }

  lemma LoopDone(h: Heap, start: set<Id>, id: Id, seen: set<Id>)
    requires id in h && AllCleared(Walked(h[id]), |Walked(h[id])|, seen) && EdgesCleared(h, seen, start + {id})
    ensures EdgesCleared(h, seen, start)
  {
  }

  /** Cleared values lead only to cleared values. */
  lemma {:induction false} ClearedLeadsToCleared(h: Heap, seen: set<Id>, v: Value, steps: seq<nat>)
    requires EdgesCleared(h, seen, {}) && Cleared(v, seen)
    ensures !LeadsToUnstorable(h, v, steps)
    decreases steps
  {
    if steps != [] && v.Ref? && v.id in h && steps[0] < |Walked(h[v.id])| {
      ClearedLeadsToCleared(h, seen, Walked(h[v.id])[steps[0]], steps[1..]);
    }
  }

  // --- What is reachable, object by object ------------------------------------------

  /** An object reaches something unstorable through one of its edges. */
  lemma ReachesOneStep(h: Heap, id: Id)
    requires id in h
    ensures ReachesUnstorable(h, Ref(id)) <==> exists v :: v in Walked(h[id]) && ReachesUnstorable(h, v)
  {
    var edges := Walked(h[id]);
    if ReachesUnstorable(h, Ref(id)) {
      var steps :| LeadsToUnstorable(h, Ref(id), steps);
      assert LeadsToUnstorable(h, edges[steps[0]], steps[1..]);
      assert edges[steps[0]] in edges && ReachesUnstorable(h, edges[steps[0]]);
    }
    if v :| v in edges && ReachesUnstorable(h, v) {
      var k: nat :| k < |edges| && edges[k] == v;
      var rest: seq<nat> :| LeadsToUnstorable(h, v, rest);
      var steps: seq<nat> := [k] + rest;
      assert steps[1..] == rest;
      assert LeadsToUnstorable(h, Ref(id), steps);
    }
  }

  /** An immediate value is refused for what it is: raw bytes or a non-finite float. */
  lemma ReachesAtOnce(h: Heap, v: Value)
    requires !v.Ref?
    ensures ReachesUnstorable(h, v) <==> v.RawBytes? || (v.Number? && !v.finite)
  {
    if v.RawBytes? || (v.Number? && !v.finite) {
      assert LeadsToUnstorable(h, v, []);
    }
  }

  /** A list or set is refused for an element, a dictionary for a raw-bytes key or a
      value, a data class for a field, a model for an extra field or one that is not
      excluded, and nothing else is. */
  lemma ReachesThrough(h: Heap, id: Id)
    requires id in h
    ensures ReachesUnstorable(h, Ref(id)) <==>
            match h[id]
            case Sequence(values) => exists v :: v in values && ReachesUnstorable(h, v)
            case Bag(values) => exists v :: v in values && ReachesUnstorable(h, v)
            case Dict(items) => exists item :: item in items && (item.0.RawBytes? || ReachesUnstorable(h, item.1))
            case Model(fields, extra) => exists f :: ((f in fields && !f.excluded) || f in extra) && ReachesUnstorable(h, f.value)
            case DataClass(fields) => exists f :: f in fields && ReachesUnstorable(h, f.value)
            case Other => false
  {
    ReachesOneStep(h, id);
    match h[id]
    case Sequence(_) =>
    case Bag(_) =>
    case Dict(items) => DictReaches(h, items);
    case Model(fields, extra) => ModelReaches(h, fields, extra);
    case DataClass(fields) => DataClassReaches(h, fields);
    case Other =>
  }

  lemma DictReaches(h: Heap, items: seq<(Value, Value)>)
    ensures (exists v :: v in Walked(Dict(items)) && ReachesUnstorable(h, v)) <==>
            exists item :: item in items && (item.0.RawBytes? || ReachesUnstorable(h, item.1))
  {
    if v :| v in Walked(Dict(items)) && ReachesUnstorable(h, v) {
      DictWalks(items, v);
    }
    if item :| item in items && (item.0.RawBytes? || ReachesUnstorable(h, item.1)) {
      var v := if item.0.RawBytes? then item.0 else item.1;
      DictWalks(items, v);
      if item.0.RawBytes? {
        ReachesAtOnce(h, v);
      }
      assert v in Walked(Dict(items)) && ReachesUnstorable(h, v);
    }
  }

  lemma ModelReaches(h: Heap, fields: seq<Field>, extra: seq<Field>)
    ensures (exists v :: v in Walked(Model(fields, extra)) && ReachesUnstorable(h, v)) <==>
            exists f :: ((f in fields && !f.excluded) || f in extra) && ReachesUnstorable(h, f.value)
  {
    if v :| v in Walked(Model(fields, extra)) && ReachesUnstorable(h, v) {
      ModelWalks(fields, extra, v);
    }
    if f :| ((f in fields && !f.excluded) || f in extra) && ReachesUnstorable(h, f.value) {
      ModelWalks(fields, extra, f.value);
      assert f.value in Walked(Model(fields, extra));
    }
  }

  lemma DataClassReaches(h: Heap, fields: seq<Field>)
    ensures (exists v :: v in Walked(DataClass(fields)) && ReachesUnstorable(h, v)) <==>
            exists f :: f in fields && ReachesUnstorable(h, f.value)
  {
    if v :| v in Walked(DataClass(fields)) && ReachesUnstorable(h, v) {
      FieldsHold(fields, v);
    }
    if f :| f in fields && ReachesUnstorable(h, f.value) {
      FieldsHold(fields, f.value);
      assert f.value in Walked(DataClass(fields));
    }
  }

  /** The check `dump_json` makes: it is refused exactly when something
      unstorable is reachable, and the refusal's path leads to it. */
  method RefuseUnstorable(heap: Heap, value: Value) returns (refusal: Option<Refusal>)
    requires Closed(heap) && Resolves(heap, value)
    ensures refusal.Some? <==> ReachesUnstorable(heap, value)
    ensures refusal.Some? ==>
              && Unstorable(refusal.value.value)
              && Follow(heap, value, refusal.value.path) == Some(refusal.value.value)
    ensures !value.Ref? ==> (refusal.Some? <==> value.RawBytes? || (value.Number? && !value.finite))
    ensures value.Ref? && heap[value.id].Model? ==>
              (refusal.Some? <==> exists f :: ((f in heap[value.id].fields && !f.excluded) || f in heap[value.id].extra)
                                              && ReachesUnstorable(heap, f.value))
  {
    if value.Ref? {
      ReachesThrough(heap, value.id);
    } else {
      ReachesAtOnce(heap, value);
    }
    var walker := new Walker(heap);
    refusal := walker.Refuse(value, []);
    if refusal.Some? {
      assert refusal.value.path[0..] == refusal.value.path;
      assert LeadsToUnstorable(heap, value, refusal.value.path);
    } else {
      forall steps: seq<nat>
        ensures !LeadsToUnstorable(heap, value, steps)
      {
        ClearedLeadsToCleared(heap, walker.seen, value, steps);
      }
    }
  }

  /** Only raw-bytes keys are looked at: a non-finite float key is not refused. */
  lemma NonFiniteKeyIsNotRefused()
    ensures var h := map[0 := Dict([(Number(false, 0), Null)])];
            Closed(h) && !ReachesUnstorable(h, Ref(0))
  {
    var h := map[0 := Dict([(Number(false, 0), Null)])];
    assert ItemEdges([(Number(false, 0), Null)]) == [Null];
    assert Walked(h[0]) == [Null];
    assert Flattened([(Number(false, 0), Null)]) == [Number(false, 0), Null];
    assert EdgesCleared(h, {0}, {});
    forall steps: seq<nat>
      ensures !LeadsToUnstorable(h, Ref(0), steps)
    {
      ClearedLeadsToCleared(h, {0}, Ref(0), steps);
    }
  }
}
