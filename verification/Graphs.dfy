/** The values `dump_json` is given: a graph of Python objects with sharing and
    cycles, as `jkent/common/serialization.py` tells them apart. */
module Graphs {

  type Id = nat

  /** A reference or an immediate value.  `RawBytes` carries its `repr`. */
  datatype Value =
    | RawBytes(repr: string)
    | Str(text: string)
    | Number(finite: bool, token: int)
    | Null
    | Ref(id: Id)

  datatype Field = Field(name: string, excluded: bool, value: Value)

  datatype Object =
    | Sequence(values: seq<Value>)                    // list, tuple
    | Bag(values: seq<Value>)                         // set, frozenset
    | Dict(items: seq<(Value, Value)>)
    | Model(fields: seq<Field>, extra: seq<Field>)
    | DataClass(fields: seq<Field>)
    | Other                                           // anything else

  type Heap = map<Id, Object>

  function Kept(fields: seq<Field>): seq<Field> {
    if fields == [] then []
    else (if fields[0].excluded then [] else [fields[0]]) + Kept(fields[1..])
  }

  /** A model's fields less the excluded ones, then its extra fields; a data
      class's fields all. */
  function FieldsOf(o: Object): seq<Field>
    requires o.Model? || o.DataClass?
  {
    if o.Model? then Kept(o.fields) + o.extra else o.fields
  }

  function FieldValues(fields: seq<Field>): seq<Value> {
    if fields == [] then [] else [fields[0].value] + FieldValues(fields[1..])
  }

  /** Values a JSON column cannot carry. */
  predicate Unstorable(v: Value) {
    v.RawBytes? || (v.Number? && !v.finite)
  }

  /** What a dictionary item gives the storability walk: its key when that is raw
      bytes, then its value. */
  function ItemEdges(items: seq<(Value, Value)>): seq<Value> {
    if items == [] then []
    else (if items[0].0.RawBytes? then [items[0].0] else []) + [items[0].1] + ItemEdges(items[1..])
  }

  /** The values `_refuse_unstorable` walks from an object, in order. */
  function Walked(o: Object): seq<Value> {
    match o
    case Sequence(values) => values
    case Bag(values) => values
    case Dict(items) => ItemEdges(items)
    case Model(_, _) => FieldValues(FieldsOf(o))
    case DataClass(_) => FieldValues(FieldsOf(o))
    case Other => []
  }

  function Flattened(items: seq<(Value, Value)>): seq<Value> {
    if items == [] then [] else [items[0].0, items[0].1] + Flattened(items[1..])
  }

  function NamedValues(fields: seq<Field>): seq<Value> {
    if fields == [] then [] else [Str(fields[0].name), fields[0].value] + NamedValues(fields[1..])
  }

  /** The values `_bytes_to_repr` rewrites in an object, in order; keys and values
      alternate in what comes out as a dictionary. */
  function Rewritten(o: Object): seq<Value> {
    match o
    case Sequence(values) => values
    case Bag(values) => values
    case Dict(items) => Flattened(items)
    case Model(_, _) => NamedValues(FieldsOf(o))
    case DataClass(_) => NamedValues(FieldsOf(o))
    case Other => []
  }

  // --- What the walks take from an object ------------------------------------------

  /** The `at`-th pair of values is the field's name and its value. */
  predicate NamedAt(vs: seq<Value>, at: nat, f: Field) {
    2 * at + 1 < |vs| && vs[2 * at] == Str(f.name) && vs[2 * at + 1] == f.value
  }

  /** How many of the first `n` fields are not excluded. */
  function Rank(fields: seq<Field>, n: nat): nat
    requires n <= |fields|
  {
    if n == 0 then 0 else Rank(fields, n - 1) + if fields[n - 1].excluded then 0 else 1
  }

  lemma {:induction false} RankShifts(fields: seq<Field>, n: nat)
    requires 0 < n <= |fields|
    ensures Rank(fields, n) == (if fields[0].excluded then 0 else 1) + Rank(fields[1..], n - 1)
  {
    if n > 1 {
      RankShifts(fields, n - 1);
      assert fields[1..][n - 2] == fields[n - 1];
    }
  }

  /** A field that is not excluded is kept, after those before it. */
  lemma {:induction false} KeptAtRank(fields: seq<Field>, k: nat)
    requires k <= |fields|
    ensures |Kept(fields)| == Rank(fields, |fields|)
    ensures k < |fields| && !fields[k].excluded ==> Rank(fields, k) < |Kept(fields)| && Kept(fields)[Rank(fields, k)] == fields[k]
  {
    if fields != [] {
      KeptAtRank(fields[1..], if k > 0 then k - 1 else 0);
      RankShifts(fields, |fields|);
      if k > 0 {
        RankShifts(fields, k);
        assert k < |fields| ==> fields[1..][k - 1] == fields[k];
      }
    }
  }

  lemma {:induction false} ValuesInOrder(fields: seq<Field>, j: nat)
    requires j <= |fields|
    ensures |FieldValues(fields)| == |fields| && |NamedValues(fields)| == 2 * |fields|
    ensures j < |fields| ==> FieldValues(fields)[j] == fields[j].value && NamedAt(NamedValues(fields), j, fields[j])
  {
    if fields != [] {
      ValuesInOrder(fields[1..], if j > 0 then j - 1 else 0);
    }
  }

  /** `vs` are the values of the fields that are not excluded and then of the extra ones,
      in order, as far as the k-th of either tells. */
  predicate HoldsFields(vs: seq<Value>, fields: seq<Field>, extra: seq<Field>, k: nat) {
    var n := Rank(fields, |fields|);
    && |vs| == n + |extra|
    && (k < |fields| && !fields[k].excluded ==> Rank(fields, k) < n && vs[Rank(fields, k)] == fields[k].value)
    && (k < |extra| ==> vs[n + k] == extra[k].value)
  }

  /** `vs` alternates their names and values. */
  predicate NamesFields(vs: seq<Value>, fields: seq<Field>, extra: seq<Field>, k: nat) {
    && |vs| == 2 * (Rank(fields, |fields|) + |extra|)
    && (k < |fields| && !fields[k].excluded ==> NamedAt(vs, Rank(fields, k), fields[k]))
    && (k < |extra| ==> NamedAt(vs, Rank(fields, |fields|) + k, extra[k]))
  }

  /** Both walks take from a model its fields that are not excluded, in order, and then
      its extra ones: the one their values, the other names and values alternating. */
  lemma ModelInOrder(fields: seq<Field>, extra: seq<Field>, k: nat)
    ensures HoldsFields(Walked(Model(fields, extra)), fields, extra, k)
    ensures NamesFields(Rewritten(Model(fields, extra)), fields, extra, k)
  {
    KeptAtRank(fields, if k < |fields| then k else 0);
    FieldsAtRank(Kept(fields), fields, extra, k);
    ValuesAtRank(Kept(fields) + extra, fields, extra, k);
  }

  /** `all` lists those fields. */
  predicate ListsFields(all: seq<Field>, fields: seq<Field>, extra: seq<Field>, k: nat) {
    var n := Rank(fields, |fields|);
    && |all| == n + |extra|
    && (k < |fields| && !fields[k].excluded ==> Rank(fields, k) < n && all[Rank(fields, k)] == fields[k])
    && (k < |extra| ==> all[n + k] == extra[k])
  }

  lemma FieldsAtRank(kept: seq<Field>, fields: seq<Field>, extra: seq<Field>, k: nat)
    requires |kept| == Rank(fields, |fields|)
    requires k < |fields| && !fields[k].excluded ==> Rank(fields, k) < |kept| && kept[Rank(fields, k)] == fields[k]
    ensures ListsFields(kept + extra, fields, extra, k)
  {
  }

  lemma ValuesAtRank(all: seq<Field>, fields: seq<Field>, extra: seq<Field>, k: nat)
    requires ListsFields(all, fields, extra, k)
    ensures HoldsFields(FieldValues(all), fields, extra, k) && NamesFields(NamedValues(all), fields, extra, k)
  {
    ValuesInOrder(all, 0);
    if k < |fields| && !fields[k].excluded {
      ValuesInOrder(all, Rank(fields, k));
    }
    if k < |extra| {
      ValuesInOrder(all, Rank(fields, |fields|) + k);
    }
  }

  /** A model is walked to a value exactly when a field that is not excluded, or an extra
      one, holds it. */
  lemma ModelWalks(fields: seq<Field>, extra: seq<Field>, v: Value)
    ensures v in Walked(Model(fields, extra)) <==>
            || (exists f :: f in fields && !f.excluded && f.value == v)
            || (exists f :: f in extra && f.value == v)
  {
    KeptFields(fields);
    FieldsHold(Kept(fields) + extra, v);
  }

  lemma {:induction false} KeptFields(fields: seq<Field>)
    ensures forall f :: f in Kept(fields) <==> f in fields && !f.excluded
  {
    if fields != [] {
      KeptFields(fields[1..]);
      assert fields == [fields[0]] + fields[1..];
    }
  }

  lemma {:induction false} FieldsHold(fields: seq<Field>, v: Value)
    ensures v in FieldValues(fields) <==> exists f :: f in fields && f.value == v
  {
    if fields != [] {
      FieldsHold(fields[1..], v);
      assert fields == [fields[0]] + fields[1..];
    }
  }

  /** A data class gives all its fields, in order. */
  lemma DataClassInOrder(fields: seq<Field>, k: nat)
    requires k <= |fields|
    ensures var walked, rewritten := Walked(DataClass(fields)), Rewritten(DataClass(fields));
            && |walked| == |fields| && |rewritten| == 2 * |fields|
            && (k < |fields| ==> walked[k] == fields[k].value && NamedAt(rewritten, k, fields[k]))
  {
    ValuesInOrder(fields, k);
  }

  /** The rewriting walk takes a dictionary's keys and values, alternating. */
  lemma DictInOrder(items: seq<(Value, Value)>, k: nat)
    requires k <= |items|
    ensures var rewritten := Rewritten(Dict(items));
            && |rewritten| == 2 * |items|
            && (k < |items| ==> rewritten[2 * k] == items[k].0 && rewritten[2 * k + 1] == items[k].1)
  {
    FlattenedInOrder(items, k);
  }

  lemma {:induction false} FlattenedInOrder(items: seq<(Value, Value)>, k: nat)
    requires k <= |items|
    ensures |Flattened(items)| == 2 * |items|
    ensures k < |items| ==> Flattened(items)[2 * k] == items[k].0 && Flattened(items)[2 * k + 1] == items[k].1
  {
    if items != [] {
      FlattenedInOrder(items[1..], if k > 0 then k - 1 else 0);
    }
  }

  /** A dictionary is walked to a value exactly when it is an item's value, or an item's
      key and raw bytes. */
  lemma {:induction false} DictWalks(items: seq<(Value, Value)>, v: Value)
    ensures v in Walked(Dict(items)) <==> exists item :: item in items && (item.1 == v || (item.0 == v && v.RawBytes?))
  {
    if items != [] {
      var rest := items[1..];
      DictWalks(rest, v);
      assert items == [items[0]] + rest;
      var edges := (if items[0].0.RawBytes? then [items[0].0] else []) + [items[0].1];
      assert Walked(Dict(items)) == edges + Walked(Dict(rest));
      assert v in Walked(Dict(items)) <==> v in edges || v in Walked(Dict(rest));
      assert v in edges <==> items[0].1 == v || (items[0].0 == v && v.RawBytes?);
      if item :| item in items && (item.1 == v || (item.0 == v && v.RawBytes?)) {
        assert item == items[0] || item in rest;
      }
      assert items[0] in items && forall item :: item in rest ==> item in items;
    }
  }

  /** Item by item, a raw-bytes key before its value. */
  lemma {:induction false} DictWalksInOrder(items: seq<(Value, Value)>, key: Value, value: Value)
    ensures Walked(Dict(items + [(key, value)])) == Walked(Dict(items)) + if key.RawBytes? then [key, value] else [value]
  {
    var more := items + [(key, value)];
    if items == [] {
      assert more[1..] == [];
      assert ItemEdges(more) == (if key.RawBytes? then [key] else []) + [value] + ItemEdges([]);
    } else {
      assert more[1..] == items[1..] + [(key, value)];
      DictWalksInOrder(items[1..], key, value);
      assert Walked(Dict(items[1..])) == ItemEdges(items[1..]);
    }
  }

  predicate Resolves(h: Heap, v: Value) {
    v.Ref? ==> v.id in h
  }

  predicate AllResolve(h: Heap, vs: seq<Value>) {
    forall i :: 0 <= i < |vs| ==> Resolves(h, vs[i])
  }

  /** No reference dangles. */
  ghost predicate Closed(h: Heap) {
    forall id :: id in h ==> AllResolve(h, Walked(h[id])) && AllResolve(h, Rewritten(h[id]))
  }

  lemma SubsetCardinality(a: set<Id>, b: set<Id>)
    requires a <= b
    ensures |a| <= |b|
  {
    if a != {} {
      var x :| x in a;
      SubsetCardinality(a - {x}, b - {x});
    }
  }

  lemma CardinalityDrops(all: set<Id>, seen: set<Id>, id: Id)
    requires id in all && id !in seen
    ensures |all - (seen + {id})| < |all - seen|
  {
    assert all - (seen + {id}) == (all - seen) - {id};
  }
}
