/** What a value that comes back whole holds, part by part. */
module ReprParts {
  import opened Graphs
  import opened ReprRewrite

  lemma {:induction false} RepresentsAllAt(h: Heap, vs: seq<Value>, ts: seq<Tree>, i: nat)
    requires RepresentsAll(h, vs, ts)
    ensures |vs| == |ts| && (i < |vs| ==> Represents(h, vs[i], ts[i]))
    decreases ts
  {
    if ts != [] {
      RepresentsAllAt(h, vs[1..], ts[1..], if i > 0 then i - 1 else 0);
    }
  }

  /** The `at`-th entry of `t` is the field's name and the field unfolded. */
  predicate HoldsField(h: Heap, f: Field, t: Tree, at: nat) {
    t.DictOf? && 2 * at + 1 < |t.entries| && t.entries[2 * at] == Leaf(Str(f.name)) && Represents(h, f.value, t.entries[2 * at + 1])
  }

  /** The k-th part of a full unfolding of `o`: a list's or set's element, a dictionary's
      key and value, a data class's field, of a model the k-th field, unless it is
      excluded, and the k-th extra one, which comes after all of those. */
  predicate PartUnfolded(h: Heap, id: Id, o: Object, t: Tree, k: nat) {
    match o
    case Sequence(values) => t.ListOf? && |t.items| == |values| && (k < |values| ==> Represents(h, values[k], t.items[k]))
    case Bag(values) => t.ListOf? && |t.items| == |values| && (k < |values| ==> Represents(h, values[k], t.items[k]))
    case Dict(items) =>
      && t.DictOf? && |t.entries| == 2 * |items|
      && (k < |items| ==> Represents(h, items[k].0, t.entries[2 * k]) && Represents(h, items[k].1, t.entries[2 * k + 1]))
    case Model(fields, extra) =>
      && t.DictOf? && |t.entries| == 2 * (Rank(fields, |fields|) + |extra|)
      && (k < |fields| && !fields[k].excluded ==> HoldsField(h, fields[k], t, Rank(fields, k)))
      && (k < |extra| ==> HoldsField(h, extra[k], t, Rank(fields, |fields|) + k))
    case DataClass(fields) => t.DictOf? && |t.entries| == 2 * |fields| && (k < |fields| ==> HoldsField(h, fields[k], t, k))
    case Other => t == Opaque(id)
  }

  lemma FieldHeld(h: Heap, f: Field, vs: seq<Value>, ts: seq<Tree>, at: nat)
    requires RepresentsAll(h, vs, ts) && NamedAt(vs, at, f)
    ensures HoldsField(h, f, DictOf(ts), at)
  {
    RepresentsAllAt(h, vs, ts, 2 * at);
    RepresentsAllAt(h, vs, ts, 2 * at + 1);
  }

  lemma ListParts(h: Heap, id: Id, o: Object, vs: seq<Value>, ts: seq<Tree>, k: nat)
    requires (o == Sequence(vs) || o == Bag(vs)) && RepresentsAll(h, vs, ts)
    ensures PartUnfolded(h, id, o, ListOf(ts), k)
  {
    RepresentsAllAt(h, vs, ts, 0);
    RepresentsAllAt(h, vs, ts, k);
  }

  lemma DictParts(h: Heap, id: Id, items: seq<(Value, Value)>, vs: seq<Value>, ts: seq<Tree>, k: nat)
    requires vs == Rewritten(Dict(items)) && RepresentsAll(h, vs, ts)
    ensures PartUnfolded(h, id, Dict(items), DictOf(ts), k)
  {
    RepresentsAllAt(h, vs, ts, 0);
    DictInOrder(items, if k < |items| then k else 0);
    RepresentsAllAt(h, vs, ts, 2 * k);
    RepresentsAllAt(h, vs, ts, 2 * k + 1);
  }

  lemma DataClassParts(h: Heap, id: Id, fields: seq<Field>, vs: seq<Value>, ts: seq<Tree>, k: nat)
    requires vs == Rewritten(DataClass(fields)) && RepresentsAll(h, vs, ts)
    ensures PartUnfolded(h, id, DataClass(fields), DictOf(ts), k)
  {
    RepresentsAllAt(h, vs, ts, 0);
    DataClassInOrder(fields, if k < |fields| then k else 0);
    if k < |fields| {
      FieldHeld(h, fields[k], vs, ts, k);
    }
  }

  lemma ModelParts(h: Heap, id: Id, fields: seq<Field>, extra: seq<Field>, vs: seq<Value>, ts: seq<Tree>, k: nat)
    requires NamesFields(vs, fields, extra, k) && RepresentsAll(h, vs, ts)
    ensures PartUnfolded(h, id, Model(fields, extra), DictOf(ts), k)
  {
    RepresentsAllAt(h, vs, ts, 0);
    if k < |fields| && !fields[k].excluded {
      FieldHeld(h, fields[k], vs, ts, Rank(fields, k));
    }
    if k < |extra| {
      FieldHeld(h, extra[k], vs, ts, Rank(fields, |fields|) + k);
    }
  }

  /** What comes back whole holds, in order, every part of the object and nothing else. */
  lemma UnfoldingHoldsParts(h: Heap, id: Id, t: Tree, k: nat)
    requires id in h && Represents(h, Ref(id), t)
    ensures PartUnfolded(h, id, h[id], t, k)
  {
    var o, ts := h[id], Children(t);
    if !o.Other? {
      var vs := Rewritten(o);
      assert RepresentsAll(h, vs, ts) && (t.DictOf? <==> DictLike(o)) && (t == DictOf(ts) || t == ListOf(ts));
      match o
      case Sequence(_) => ListParts(h, id, o, vs, ts, k);
      case Bag(_) => ListParts(h, id, o, vs, ts, k);
      case Dict(items) => DictParts(h, id, items, vs, ts, k);
      case Model(fields, extra) =>
        ModelInOrder(fields, extra, k);
        ModelParts(h, id, fields, extra, vs, ts, k);
      case DataClass(fields) => DataClassParts(h, id, fields, vs, ts, k);
    }
  }

  /** So the walk of an object from the top either elides something or holds every part
      of it, and of each object below. */
  lemma WholeHoldsParts(h: Heap, id: Id, k: nat)
    requires Closed(h) && id in h && Whole(Walk(h, Ref(id), {}).tree)
    ensures PartUnfolded(h, id, h[id], Walk(h, Ref(id), {}).tree, k)
  {
    NothingIsLost(h, Ref(id));
    UnfoldingHoldsParts(h, id, Walk(h, Ref(id), {}).tree, k);
  }
}
