/** `merge_headers`, and the permanent headers and cookies a request inherits.

    A dictionary is the sequence of its entries in insertion order.  Merging is
    `Normalized` of a concatenation: names in order of first appearance, each with
    its last spelling and value.  Every law below follows from that reading.  The
    name folding is a parameter: `str.lower` for headers, the identity for cookies. */
module Headers {
  import opened Wrappers

  datatype Entry = Entry(name: string, value: string)

  type Entries = seq<Entry>

  type Folding = string -> string

  function Same(name: string): string {
    name
  }

  // --- merge_headers ---------------------------------------------------------

  /** The dictionary assignment `merged[name.lower()] = (name, value)`: a key
      already present keeps its place, a new one goes last. */
  function Put(fold: Folding, m: Entries, e: Entry): Entries {
    if m == [] then [e]
    else if fold(m[0].name) == fold(e.name) then [e] + m[1..]
    else [m[0]] + Put(fold, m[1..], e)
  }

  function MergeInto(fold: Folding, m: Entries, side: Entries): Entries {
    if side == [] then m else Put(fold, MergeInto(fold, m, side[..|side| - 1]), side[|side| - 1])
  }

  function Normalized(fold: Folding, side: Entries): Entries {
    MergeInto(fold, [], side)
  }

  function Merge(fold: Folding, defaults: Entries, explicit: Entries): Entries {
    MergeInto(fold, Normalized(fold, defaults), explicit)
  }

  /** At most one entry per folded name. */
  ghost predicate Distinct(fold: Folding, m: Entries) {
    forall i, j :: 0 <= i < j < |m| ==> fold(m[i].name) != fold(m[j].name)
  }

  /** The last entry under a folded name. */
  function Lookup(fold: Folding, m: Entries, key: string): Option<Entry> {
    if m == [] then None
    else if fold(m[|m| - 1].name) == key then Some(m[|m| - 1])
    else Lookup(fold, m[..|m| - 1], key)
  }

  function OrElse(first: Option<Entry>, second: Option<Entry>): Option<Entry> {
    if first.Some? then first else second
  }

  /** Where `Put` writes, if the key is there. */
  ghost predicate KeyAt(fold: Folding, m: Entries, key: string, i: nat) {
    i < |m| && fold(m[i].name) == key && forall j :: 0 <= j < i ==> fold(m[j].name) != key
  }

  ghost predicate Absent(fold: Folding, m: Entries, key: string) {
    forall i :: 0 <= i < |m| ==> fold(m[i].name) != key
  }

  lemma {:induction false} PutPresent(fold: Folding, m: Entries, e: Entry, i: nat)
    requires KeyAt(fold, m, fold(e.name), i)
    ensures Put(fold, m, e) == m[i := e]
  {
    if i > 0 {
      assert fold(m[0].name) != fold(e.name);
      assert forall j :: 0 <= j < i - 1 ==> m[1..][j] == m[j + 1];
      PutPresent(fold, m[1..], e, i - 1);
    }
  }

  lemma {:induction false} PutAbsent(fold: Folding, m: Entries, e: Entry)
    requires Absent(fold, m, fold(e.name))
    ensures Put(fold, m, e) == m + [e]
  {
    if m != [] {
      assert fold(m[0].name) != fold(e.name);
      PutAbsent(fold, m[1..], e);
    }
  }

  /** Either the key is absent, or it has a first position. */
  lemma {:induction false} FindKey(fold: Folding, m: Entries, key: string) returns (i: nat)
    ensures if i == |m| then Absent(fold, m, key) else KeyAt(fold, m, key, i)
  {
    i := 0;
    while i < |m| && fold(m[i].name) != key
      invariant i <= |m|
      invariant forall j :: 0 <= j < i ==> fold(m[j].name) != key
    {
      i := i + 1;
    }
  }

  lemma PutKeepsDistinct(fold: Folding, m: Entries, e: Entry)
    requires Distinct(fold, m)
    ensures Distinct(fold, Put(fold, m, e))
  {
    var i := FindKey(fold, m, fold(e.name));
    if i < |m| {
      PutPresent(fold, m, e, i);
    } else {
      PutAbsent(fold, m, e);
    }
  }

  lemma {:induction false} MergeIntoDistinct(fold: Folding, m: Entries, side: Entries)
    requires Distinct(fold, m)
    ensures Distinct(fold, MergeInto(fold, m, side))
  {
    if side == [] {
    } else {
      var prefix := side[..|side| - 1];
      MergeIntoDistinct(fold, m, prefix);
      PutKeepsDistinct(fold, MergeInto(fold, m, prefix), side[|side| - 1]);
    }
  }

  lemma {:induction false} MergeIntoAppend(fold: Folding, m: Entries, a: Entries, b: Entries)
    ensures MergeInto(fold, m, a + b) == MergeInto(fold, MergeInto(fold, m, a), b)
  {
    if b == [] {
      assert a + b == a;
    } else {
      assert (a + b)[..|a + b| - 1] == a + b[..|b| - 1];
      MergeIntoAppend(fold, m, a, b[..|b| - 1]);
    }
  }

  lemma MergeIsNormalizedConcatenation(fold: Folding, a: Entries, b: Entries)
    ensures Merge(fold, a, b) == Normalized(fold, a + b)
    ensures Distinct(fold, Merge(fold, a, b))
  {
    MergeIntoAppend(fold, [], a, b);
    MergeIntoDistinct(fold, [], a + b);
  }

  /** Writing a key over an equal key forgets the earlier entry. */
  lemma {:induction false} PutTwice(fold: Folding, m: Entries, x: Entry, e: Entry)
    requires fold(x.name) == fold(e.name)
    ensures Put(fold, Put(fold, m, x), e) == Put(fold, m, e)
  {
    var i := FindKey(fold, m, fold(e.name));
    if i < |m| {
      PutPresent(fold, m, x, i);
      PutPresent(fold, m, e, i);
      PutPresent(fold, m[i := x], e, i);
      assert m[i := x][i := e] == m[i := e];
    } else {
      PutAbsent(fold, m, x);
      PutAbsent(fold, m, e);
      PutPresent(fold, m + [x], e, |m|);
      assert (m + [x])[|m| := e] == m + [e];
    }
  }

  /** Writing a key that is already present commutes with writing another. */
  lemma PutCommutes(fold: Folding, m: Entries, b: Entry, e: Entry, i: nat)
    requires KeyAt(fold, m, fold(e.name), i) && fold(b.name) != fold(e.name)
    ensures Put(fold, Put(fold, m, b), e) == Put(fold, Put(fold, m, e), b)
    ensures KeyAt(fold, Put(fold, m, b), fold(e.name), i)
  {
    var k := FindKey(fold, m, fold(b.name));
    PutPresent(fold, m, e, i);
    if k < |m| {
      PutPresent(fold, m, b, k);
      PutPresent(fold, m[k := b], e, i);
      PutPresent(fold, m[i := e], b, k);
      assert m[k := b][i := e] == m[i := e][k := b];
    } else {
      PutAbsent(fold, m, b);
      PutPresent(fold, m + [b], e, i);
      PutAbsent(fold, m[i := e], b);
      assert (m + [b])[i := e] == m[i := e] + [b];
    }
  }

  lemma {:induction false} PutCommutesWithMerge(fold: Folding, m: Entries, side: Entries, e: Entry, i: nat)
    requires KeyAt(fold, m, fold(e.name), i) && Absent(fold, side, fold(e.name))
    ensures Put(fold, MergeInto(fold, m, side), e) == MergeInto(fold, Put(fold, m, e), side)
    ensures KeyAt(fold, MergeInto(fold, m, side), fold(e.name), i)
  {
    if side == [] {
    } else {
      var prefix, last := side[..|side| - 1], side[|side| - 1];
      PutCommutesWithMerge(fold, m, prefix, e, i);
      PutCommutes(fold, MergeInto(fold, m, prefix), last, e, i);
    }
  }

  lemma PutThenKey(fold: Folding, m: Entries, e: Entry) returns (i: nat)
    ensures KeyAt(fold, Put(fold, m, e), fold(e.name), i)
  {
    i := FindKey(fold, m, fold(e.name));
    if i < |m| {
      PutPresent(fold, m, e, i);
    } else {
      PutAbsent(fold, m, e);
    }
  }

  /** Merging after one more write is one more write after merging. */
  lemma MergePut(fold: Folding, m: Entries, n: Entries, e: Entry)
    requires Distinct(fold, n)
    ensures MergeInto(fold, m, Put(fold, n, e)) == Put(fold, MergeInto(fold, m, n), e)
  {
    var i := FindKey(fold, n, fold(e.name));
    if i == |n| {
      PutAbsent(fold, n, e);
      MergeIntoAppend(fold, m, n, [e]);
      assert [e][..0] == [];
    } else {
      var before, x, after := n[..i], n[i], n[i + 1..];
      PutPresent(fold, n, e, i);
      assert n == before + [x] + after && n[i := e] == before + [e] + after;
      var base := MergeInto(fold, m, before);
      assert [x][..0] == [] && [e][..0] == [];
      MergeIntoAppend(fold, m, before, [x]);
      MergeIntoAppend(fold, m, before, [e]);
      MergeIntoAppend(fold, m, before + [x], after);
      MergeIntoAppend(fold, m, before + [e], after);
      var k := PutThenKey(fold, base, x);
      PutCommutesWithMerge(fold, Put(fold, base, x), after, e, k);
      PutTwice(fold, base, x, e);
    }
  }

  /** A layer may be normalised before it is merged: nothing changes, order and
      spelling included. */
  lemma {:induction false} NormalizedLayer(fold: Folding, m: Entries, side: Entries)
    ensures MergeInto(fold, m, Normalized(fold, side)) == MergeInto(fold, m, side)
  {
    if side == [] {
    } else {
      var prefix := side[..|side| - 1];
      NormalizedLayer(fold, m, prefix);
      MergeIntoDistinct(fold, [], prefix);
      MergePut(fold, m, Normalized(fold, prefix), side[|side| - 1]);
    }
  }

  lemma MergeLeft(fold: Folding, a: Entries, b: Entries, c: Entries)
    ensures Merge(fold, Merge(fold, a, b), c) == Normalized(fold, a + b + c)
  {
    MergeIsNormalizedConcatenation(fold, a, b);
    NormalizedLayer(fold, [], a + b);
    MergeIntoAppend(fold, [], a + b, c);
  }

  lemma MergeRight(fold: Folding, a: Entries, b: Entries, c: Entries)
    ensures Merge(fold, a, Merge(fold, b, c)) == Normalized(fold, a + (b + c))
  {
    MergeIsNormalizedConcatenation(fold, b, c);
    NormalizedLayer(fold, Normalized(fold, a), b + c);
    MergeIntoAppend(fold, [], a, b + c);
  }

  /** Merging is associative: same names, order, spelling and values. */
  lemma MergeAssociative(fold: Folding, a: Entries, b: Entries, c: Entries)
    ensures Merge(fold, Merge(fold, a, b), c) == Merge(fold, a, Merge(fold, b, c))
    ensures Merge(fold, a, Merge(fold, b, c)) == Normalized(fold, a + b + c)
  {
    MergeLeft(fold, a, b, c);
    MergeRight(fold, a, b, c);
    assert a + (b + c) == a + b + c;
  }

  /** Writing entries a dictionary already holds changes nothing. */
  lemma {:induction false} MergeOwnEntries(fold: Folding, m: Entries, side: Entries)
    requires Distinct(fold, m) && forall e :: e in side ==> e in m
    ensures MergeInto(fold, m, side) == m
  {
    if side == [] {
    } else {
      var last := side[|side| - 1];
      MergeOwnEntries(fold, m, side[..|side| - 1]);
      assert last in side;
      var i :| 0 <= i < |m| && m[i] == last;
      PutPresent(fold, m, last, i);
      assert m[i := last] == m;
    }
  }

  lemma NormalizedOfDistinct(fold: Folding, m: Entries)
    requires Distinct(fold, m)
    ensures Normalized(fold, m) == m
  {
    DistinctIsFixed(fold, m, |m|);
    assert m[..|m|] == m;
  }

  lemma {:induction false} DistinctIsFixed(fold: Folding, m: Entries, n: nat)
    requires Distinct(fold, m) && n <= |m|
    ensures Normalized(fold, m[..n]) == m[..n]
  {
    if n > 0 {
      DistinctIsFixed(fold, m, n - 1);
      assert m[..n][..n - 1] == m[..n - 1] && m[..n] == m[..n - 1] + [m[n - 1]];
      PutAbsent(fold, m[..n - 1], m[n - 1]);
    }
  }

  /** Layering a layer twice is layering it once. */
  lemma MergeAbsorbs(fold: Folding, p: Entries, h: Entries)
    ensures Merge(fold, p, Merge(fold, p, h)) == Merge(fold, p, h)
  {
    var n := Normalized(fold, p);
    MergeAssociative(fold, p, p, h);
    MergeIntoDistinct(fold, [], p);
    NormalizedLayer(fold, n, p);
    MergeOwnEntries(fold, n, n);
    NormalizedOfDistinct(fold, n);
  }

  lemma {:induction false} LookupAppend(fold: Folding, a: Entries, b: Entries, key: string)
    ensures Lookup(fold, a + b, key) == OrElse(Lookup(fold, b, key), Lookup(fold, a, key))
  {
    if b == [] {
      assert a + b == a;
    } else {
      assert (a + b)[..|a + b| - 1] == a + b[..|b| - 1];
      LookupAppend(fold, a, b[..|b| - 1], key);
    }
  }

  lemma {:induction false} LookupDistinct(fold: Folding, m: Entries, i: nat)
    requires Distinct(fold, m) && i < |m|
    ensures Lookup(fold, m, fold(m[i].name)) == Some(m[i])
  {
    if i < |m| - 1 {
      LookupDistinct(fold, m[..|m| - 1], i);
    }
  }

  lemma {:induction false} LookupAbsent(fold: Folding, m: Entries, key: string)
    ensures Lookup(fold, m, key).None? <==> Absent(fold, m, key)
  {
    if m != [] {
      LookupAbsent(fold, m[..|m| - 1], key);
    }
  }

  lemma LookupPut(fold: Folding, m: Entries, e: Entry, key: string)
    requires Distinct(fold, m)
    ensures Lookup(fold, Put(fold, m, e), key) == if fold(e.name) == key then Some(e) else Lookup(fold, m, key)
  {
    var i := FindKey(fold, m, fold(e.name));
    var r := Put(fold, m, e);
    PutKeepsDistinct(fold, m, e);
    if i < |m| {
      PutPresent(fold, m, e, i);
      LookupDistinct(fold, r, i);
      var k := FindKey(fold, m, key);
      if k < |m| {
        LookupDistinct(fold, m, k);
        LookupDistinct(fold, r, k);
      } else {
        LookupAbsent(fold, m, key);
        LookupAbsent(fold, r, key);
      }
    } else {
      PutAbsent(fold, m, e);
      assert r[..|r| - 1] == m;
    }
  }

  /** Normalising keeps every lookup: the last spelling and value win. */
  lemma {:induction false} LookupNormalized(fold: Folding, side: Entries, key: string)
    ensures Lookup(fold, Normalized(fold, side), key) == Lookup(fold, side, key)
  {
    if side == [] {
    } else {
      var prefix := side[..|side| - 1];
      LookupNormalized(fold, prefix, key);
      MergeIntoDistinct(fold, [], prefix);
      LookupPut(fold, Normalized(fold, prefix), side[|side| - 1], key);
    }
  }

  /** The folded names of a list, each where it first appears. */
  function FirstNames(fold: Folding, side: Entries): seq<string> {
    if side == [] then []
    else
      var before, name := FirstNames(fold, side[..|side| - 1]), fold(side[|side| - 1].name);
      if name in before then before else before + [name]
  }

  /** Normalising lists each name once, where it first appears, with its last spelling
      and value. */
  lemma {:induction false} NormalizedInOrder(fold: Folding, side: Entries)
    ensures var n, names := Normalized(fold, side), FirstNames(fold, side);
            |n| == |names| && forall i :: 0 <= i < |n| ==> fold(n[i].name) == names[i] && Lookup(fold, side, names[i]) == Some(n[i])
  {
    NamesInOrder(fold, side);
    MergeIntoDistinct(fold, [], side);
    var n := Normalized(fold, side);
    forall i | 0 <= i < |n|
      ensures Lookup(fold, side, fold(n[i].name)) == Some(n[i])
    {
      LookupDistinct(fold, n, i);
      LookupNormalized(fold, side, fold(n[i].name));
    }
  }

  lemma {:induction false} NamesInOrder(fold: Folding, side: Entries)
    ensures var n, names := Normalized(fold, side), FirstNames(fold, side);
            |n| == |names| && forall i :: 0 <= i < |n| ==> fold(n[i].name) == names[i]
  {
    if side != [] {
      var init, last := side[..|side| - 1], side[|side| - 1];
      NamesInOrder(fold, init);
      var n, names := Normalized(fold, init), FirstNames(fold, init);
      var i := FindKey(fold, n, fold(last.name));
      if i < |n| {
        PutPresent(fold, n, last, i);
        assert names[i] in names;
      } else {
        PutAbsent(fold, n, last);
      }
    }
  }

  /** The explicit side wins, name by name, with its own spelling. */
  lemma MergeLookup(fold: Folding, defaults: Entries, explicit: Entries, key: string)
    ensures Lookup(fold, Merge(fold, defaults, explicit), key)
            == OrElse(Lookup(fold, explicit, key), Lookup(fold, defaults, key))
  {
    MergeIsNormalizedConcatenation(fold, defaults, explicit);
    LookupNormalized(fold, defaults + explicit, key);
    LookupAppend(fold, defaults, explicit, key);
  }

  /** `merge_headers`: the nested loop, then `dict(merged.values())` - a second
      dictionary, keyed by the names as spelled. */
  method MergeHeaders(fold: Folding, defaults: Entries, explicit: Option<Entries>) returns (r: Entries)
    ensures r == Merge(fold, defaults, GetOr(explicit, []))
  {
    var merged: Entries := [];
    var sides := [defaults, GetOr(explicit, [])];
    for s := 0 to 2
      invariant merged == if s == 0 then [] else if s == 1 then Normalized(fold, defaults)
                          else Merge(fold, defaults, GetOr(explicit, []))
    {
      ghost var before := merged;
      for i := 0 to |sides[s]|
        invariant merged == MergeInto(fold, before, sides[s][..i])
      {
        assert sides[s][..i + 1][..i] == sides[s][..i];
        merged := Put(fold, merged, sides[s][i]);
      }
      assert sides[s][..|sides[s]|] == sides[s];
    }
    r := [];
    for i := 0 to |merged|
      invariant r == Normalized(Same, merged[..i])
    {
      assert merged[..i + 1][..i] == merged[..i];
      r := Put(Same, r, merged[i]);
    }
    assert merged[..|merged|] == merged;
    MergeIsNormalizedConcatenation(fold, defaults, GetOr(explicit, []));
    NormalizedOfDistinct(Same, merged);
  }

  // --- Permanent headers and cookies along a chain of requests ----------------

  /** One layered dictionary of a request: its headers, or its cookies. */
  datatype Layered = Layered(own: Option<Entries>, permanent: Option<Entries>)

  /** `__post_init__`: the permanent layer goes under the request's own. */
  function Constructed(fold: Folding, r: Layered): Layered {
    if r.permanent.None? then r
    else r.(own := Some(Merge(fold, r.permanent.value, GetOr(r.own, []))))
  }

  /** `resolve_from`: the parent's permanent layer goes under the child's, and the
      copy is constructed again. */
  function ResolvedFrom(fold: Folding, child: Layered, parent: Layered): Layered {
    var permanent :=
      if child.permanent.None? then parent.permanent
      else if parent.permanent.None? then child.permanent
      else Some(Merge(fold, parent.permanent.value, child.permanent.value));
    Constructed(fold, child.(permanent := permanent))
  }

  /** A request reached from an entry request through `resolve_from`. */
  function Resolved(fold: Folding, chain: seq<Layered>): Layered
    requires chain != []
  {
    var last := Constructed(fold, chain[|chain| - 1]);
    if |chain| == 1 then last else ResolvedFrom(fold, last, Resolved(fold, chain[..|chain| - 1]))
  }

  /** All permanent entries of a chain, entry request first. */
  function Permanents(chain: seq<Layered>): Entries {
    if chain == [] then [] else Permanents(chain[..|chain| - 1]) + GetOr(chain[|chain| - 1].permanent, [])
  }

  predicate SetsPermanent(chain: seq<Layered>) {
    exists i :: 0 <= i < |chain| && chain[i].permanent.Some?
  }

  lemma SetsPermanentSplit(chain: seq<Layered>)
    requires chain != []
    ensures SetsPermanent(chain) <==> SetsPermanent(chain[..|chain| - 1]) || chain[|chain| - 1].permanent.Some?
  {
  }

  /** Building a request from its own parts changes nothing. */
  lemma ConstructedTwice(fold: Folding, r: Layered)
    ensures Constructed(fold, Constructed(fold, r)) == Constructed(fold, r)
  {
    if r.permanent.Some? {
      MergeAbsorbs(fold, r.permanent.value, GetOr(r.own, []));
    }
  }

  /** The permanent layer a chain carries, up to normalisation. */
  lemma {:induction false} ResolvedPermanent(fold: Folding, chain: seq<Layered>)
    requires chain != []
    ensures Resolved(fold, chain).permanent.Some? <==> SetsPermanent(chain)
    ensures Normalized(fold, GetOr(Resolved(fold, chain).permanent, [])) == Normalized(fold, Permanents(chain))
  {
    var init, last := chain[..|chain| - 1], chain[|chain| - 1];
    SetsPermanentSplit(chain);
    if |chain| == 1 {
      assert init == [] && Permanents(chain) == [] + GetOr(last.permanent, []) == GetOr(last.permanent, []);
    } else {
      ResolvedPermanent(fold, init);
      var below, own := GetOr(Resolved(fold, init).permanent, []), GetOr(last.permanent, []);
      MergeIntoAppend(fold, [], Permanents(init), own);
      if last.permanent.None? {
        assert Permanents(init) + [] == Permanents(init);
      } else if Resolved(fold, init).permanent.None? {
        NoPermanents(init);
        assert [] + own == own;
      } else {
        MergeIsNormalizedConcatenation(fold, below, own);
        NormalizedOfDistinct(fold, Merge(fold, below, own));
      }
    }
  }

  lemma {:induction false} NoPermanents(chain: seq<Layered>)
    requires !SetsPermanent(chain)
    ensures Permanents(chain) == []
  {
    if chain == [] {
    } else {
      SetsPermanentSplit(chain);
      NoPermanents(chain[..|chain| - 1]);
    }
  }

  /** What a resolved request carries, order and spelling included: one merge of
      every permanent layer in chain order and then its own - or, where nothing in
      the chain is permanent, its own layer as it was written. */
  lemma ResolvedOwn(fold: Folding, chain: seq<Layered>)
    requires chain != []
    ensures var own := chain[|chain| - 1].own;
            Resolved(fold, chain).own ==
            if SetsPermanent(chain) then Some(Normalized(fold, Permanents(chain) + GetOr(own, []))) else own
  {
    var init, last := chain[..|chain| - 1], chain[|chain| - 1];
    var own := GetOr(last.own, []);
    ResolvedPermanent(fold, chain);
    if SetsPermanent(chain) {
      var all := Permanents(chain);
      var carried := Resolved(fold, chain).permanent.value;
      MergeIntoAppend(fold, [], all, own);
      if last.permanent.Some? {
        var p := last.permanent.value;
        if |chain| > 1 {
          // carried, then the child's permanent layer again, then its own.
          MergeIsNormalizedConcatenation(fold, p, own);
          NormalizedLayer(fold, Normalized(fold, carried), p + own);
          MergeIntoAppend(fold, Normalized(fold, all), p, own);
          LastLayerIsThere(fold, Permanents(init), p);
        }
      }
    } else {
      assert chain[|chain| - 1].permanent.None?;
    }
  }

  /** Writing the last layer a second time changes nothing. */
  lemma LastLayerIsThere(fold: Folding, a: Entries, p: Entries)
    ensures MergeInto(fold, Normalized(fold, a + p), p) == Normalized(fold, a + p)
  {
    MergeAssociative(fold, a, p, p);
    MergeIntoAppend(fold, [], a + p, p);
    MergeIntoAppend(fold, [], a, p);
    MergeAbsorbs(fold, p, []);
    var n := Normalized(fold, p);
    MergeIntoDistinct(fold, [], p);
    NormalizedOfDistinct(fold, n);
    MergeOwnEntries(fold, n, n);
    NormalizedLayer(fold, n, p);
    NormalizedLayer(fold, Normalized(fold, a), p);
  }

  /** The nearest request of the chain that set a name permanently. */
  function NearestPermanent(fold: Folding, chain: seq<Layered>, key: string): Option<Entry> {
    if chain == [] then None
    else OrElse(Lookup(fold, GetOr(chain[|chain| - 1].permanent, []), key),
                NearestPermanent(fold, chain[..|chain| - 1], key))
  }

  lemma {:induction false} LookupPermanents(fold: Folding, chain: seq<Layered>, key: string)
    ensures Lookup(fold, Permanents(chain), key) == NearestPermanent(fold, chain, key)
  {
    if chain == [] {
    } else {
      LookupPermanents(fold, chain[..|chain| - 1], key);
      LookupAppend(fold, Permanents(chain[..|chain| - 1]), GetOr(chain[|chain| - 1].permanent, []), key);
    }
  }

  /** Along any chain a name has its own explicit value, else that of the nearest
      request that set it permanently. */
  lemma ResolvedLookup(fold: Folding, chain: seq<Layered>, key: string)
    requires chain != []
    ensures Lookup(fold, GetOr(Resolved(fold, chain).own, []), key)
            == OrElse(Lookup(fold, GetOr(chain[|chain| - 1].own, []), key), NearestPermanent(fold, chain, key))
  {
    var own := GetOr(chain[|chain| - 1].own, []);
    ResolvedOwn(fold, chain);
    LookupPermanents(fold, chain, key);
    if SetsPermanent(chain) {
      LookupNormalized(fold, Permanents(chain) + own, key);
      LookupAppend(fold, Permanents(chain), own, key);
    } else {
      NoPermanents(chain);
    }
  }

  /** One value per name holds exactly when something in the chain is permanent,
      or the request's own layer already spelt each name once: with no permanent
      layer nothing is merged. */
  lemma ResolvedDistinct(fold: Folding, chain: seq<Layered>)
    requires chain != []
    ensures Distinct(fold, GetOr(Resolved(fold, chain).own, []))
            <==> SetsPermanent(chain) || Distinct(fold, GetOr(chain[|chain| - 1].own, []))
  {
    ResolvedOwn(fold, chain);
    MergeIntoDistinct(fold, [], Permanents(chain) + GetOr(chain[|chain| - 1].own, []));
  }

  function AsciiLower(name: string): string {
    seq(|name|, i requires 0 <= i < |name| =>
      if 'A' <= name[i] <= 'Z' then (name[i] as int + 32) as char else name[i])
  }

  /** A request that spells one header twice and inherits nothing carries both. */
  lemma TwoSpellingsSurvive()
    ensures var chain := [Layered(Some([Entry("A", "1"), Entry("a", "2")]), None)];
            !Distinct(AsciiLower, GetOr(Resolved(AsciiLower, chain).own, []))
  {
    var chain := [Layered(Some([Entry("A", "1"), Entry("a", "2")]), None)];
    ResolvedDistinct(AsciiLower, chain);
    var own := chain[0].own.value;
    assert AsciiLower(own[0].name) == AsciiLower(own[1].name);
  }

  // --- Cookies ----------------------------------------------------------------

  /** `dict(base)` then `update(over)`, or `{**base, **over}`. */
  function Updated(base: Entries, over: Entries): Entries {
    MergeInto(Same, base, over)
  }

  /** On dictionaries this is `Merge` under the identity, so the theorems above
      hold for cookies with `fold` the identity. */
  lemma CookiesMergeLikeHeaders(base: Entries, over: Entries)
    requires Distinct(Same, base)
    ensures Updated(base, over) == Merge(Same, base, over)
  {
    NormalizedOfDistinct(Same, base);
  }
}
