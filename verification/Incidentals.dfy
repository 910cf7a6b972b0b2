/** The content-addressed store of captured sub-requests: a batch replaces what its
    parent had, and payloads are shared by digest. */
module Incidentals {
  import opened Wrappers
  import opened Bodies

  type Digest = Bytes

  /** What tells one fetch from another; written for every occurrence. */
  datatype Fetch = Fetch(url: string, resourceType: string, verb: string, status: Option<int>, body: Option<Bytes>)

  datatype Payload = Payload(content: Option<Bytes>, original: Option<nat>, compressed: Option<nat>, dictId: Option<nat>)

  datatype Capture = Capture(fetch: Fetch, responseHeaders: Option<string>, payload: Payload, md5: Option<Digest>)
  {
    predicate HasBody() {
      payload.content.Some?
    }

    /** A body comes with the digest to address it by. */
    predicate Addressable() {
      HasBody() ==> md5.Some?
    }
  }

  datatype Stored = Stored(md5: Digest, payload: Payload, responseHeaders: Option<string>)

  datatype Incidental = Incidental(id: nat, parent: nat, fetch: Fetch, storageId: Option<nat>)

  /** Both tables, in id order; ids of captures are never used again. */
  datatype Tables = Tables(captures: seq<Incidental>, storage: seq<Stored>, nextId: nat)

  datatype StoreError = MissingDigest(url: string)

  // --- One batch ------------------------------------------------------------------

  /** The probe of the unique index. */
  function Probe(storage: seq<Stored>, md5: Digest): (r: Option<nat>)
    ensures r.Some? ==> r.value < |storage| && storage[r.value].md5 == md5
    ensures r.None? <==> forall k :: 0 <= k < |storage| ==> storage[k].md5 != md5
  {
    if storage == [] then None
    else if storage[|storage| - 1].md5 == md5 then Some(|storage| - 1)
    else Probe(storage[..|storage| - 1], md5)
  }

  function Addressed(storage: seq<Stored>, r: Capture): (seq<Stored>, Option<nat>)
    requires r.Addressable()
  {
    if !r.HasBody() then (storage, None)
    else
      var hit := Probe(storage, r.md5.value);
      if hit.Some? then (storage, hit)
      else (storage + [Stored(r.md5.value, r.payload, r.responseHeaders)], Some(|storage|))
  }

  function InsertOne(t: Tables, parent: nat, r: Capture): Tables
    requires r.Addressable()
  {
    var (storage, storageId) := Addressed(t.storage, r);
    Tables(t.captures + [Incidental(t.nextId, parent, r.fetch, storageId)], storage, t.nextId + 1)
  }

  predicate AllAddressable(records: seq<Capture>) {
    forall i :: 0 <= i < |records| ==> records[i].Addressable()
  }

  predicate FirstRefused(records: seq<Capture>, i: nat)
    requires i < |records|
  {
    !records[i].Addressable() && AllAddressable(records[..i])
  }

  function InsertAll(t: Tables, parent: nat, records: seq<Capture>): Tables
    requires AllAddressable(records)
  {
    if records == [] then t
    else InsertOne(InsertAll(t, parent, records[..|records| - 1]), parent, records[|records| - 1])
  }

  /** The captures of every other parent. */
  function Without(captures: seq<Incidental>, parent: nat): seq<Incidental> {
    if captures == [] then []
    else
      Without(captures[..|captures| - 1], parent) +
      if captures[|captures| - 1].parent == parent then [] else [captures[|captures| - 1]]
  }

  /** The captures of one parent, in insertion order. */
  function Of(captures: seq<Incidental>, parent: nat): seq<Incidental> {
    if captures == [] then []
    else
      Of(captures[..|captures| - 1], parent) +
      if captures[|captures| - 1].parent == parent then [captures[|captures| - 1]] else []
  }

  function Cleared(t: Tables, parent: nat): Tables {
    t.(captures := Without(t.captures, parent))
  }

  /** One transaction: a batch that cannot be addressed leaves nothing. */
  function Replaced(t: Tables, parent: nat, records: seq<Capture>): Tables {
    if AllAddressable(records) then InsertAll(Cleared(t, parent), parent, records) else t
  }

  // --- The store in place -----------------------------------------------------------

  class IncidentalStore {
    var captures: seq<Incidental>
    var storage: seq<Stored>
    var nextId: nat

    constructor ()
      ensures State() == EMPTY
    {
      captures, storage, nextId := [], [], 0;
    }

    function State(): Tables
      reads this
    {
      Tables(captures, storage, nextId)
    }

    /** A record without the digest its body needs is refused, before anything is
        written. */
    method Insert(parent: nat, r: Capture) returns (id: Result<nat, StoreError>)
      modifies this
      ensures id.Err? <==> !r.Addressable()
      ensures id.Err? ==> id.error == MissingDigest(r.fetch.url) && State() == old(State())
      ensures id.Ok? ==> id.value == old(nextId) && State() == InsertOne(old(State()), parent, r)
      ensures id.Ok? ==>
                && nextId == old(nextId) + 1 && |captures| == |old(captures)| + 1 && captures[..|old(captures)|] == old(captures)
                && var row := captures[|old(captures)|];
                && row.id == id.value && row.parent == parent && row.fetch == r.fetch
                && (row.storageId.Some? <==> r.payload.content.Some?)
                && (row.storageId.Some? ==> row.storageId.value < |storage| && r.md5 == Some(storage[row.storageId.value].md5))
      ensures id.Ok? ==>
                if r.payload.content.None? || (exists k :: 0 <= k < |old(storage)| && r.md5 == Some(old(storage)[k].md5))
                then storage == old(storage)
                else storage == old(storage) + [Stored(r.md5.value, r.payload, r.responseHeaders)]
    {
      var storageId := None;
      if r.payload.content.Some? {
        if r.md5.None? {
          return Err(MissingDigest(r.fetch.url));
        }
        storageId := Probe(storage, r.md5.value);
        if storageId.None? {
          storageId := Some(|storage|);
          storage := storage + [Stored(r.md5.value, r.payload, r.responseHeaders)];
        }
      }
      captures := captures + [Incidental(nextId, parent, r.fetch, storageId)];
      nextId := nextId + 1;
      return Ok(nextId - 1);
    }

    /** The ids returned are the new captures', in record order; on an error the
        transaction is undone. */
    method ReplaceIncidentalRequests(parent: nat, records: seq<Capture>) returns (r: Result<seq<nat>, StoreError>)
      modifies this
      ensures State() == Replaced(old(State()), parent, records)
      ensures r.Ok? <==> AllAddressable(records)
      ensures r.Ok? ==> |r.value| == |records| && forall i :: 0 <= i < |records| ==> r.value[i] == old(nextId) + i
      ensures r.Err? ==> exists i :: 0 <= i < |records| && FirstRefused(records, i) && r.error == MissingDigest(records[i].fetch.url)
      ensures r.Err? ==> State() == old(State())
      ensures r.Ok? ==>
                && old(storage) <= storage
                && var rows := Of(captures, parent);
                && |rows| == |records|
                && (forall i :: 0 <= i < |records| ==> rows[i].id == r.value[i] && rows[i].parent == parent && rows[i].fetch == records[i].fetch)
                && (forall row :: row in captures && row.parent != parent ==> row in old(captures))
                && (forall row :: row in old(captures) && row.parent != parent ==> row in captures)
    {
      ghost var before := State();
      var savedCaptures, savedStorage, savedId := captures, storage, nextId;
      captures := Without(captures, parent);
      var ids: seq<nat> := [];
      for i := 0 to |records|
        invariant AllAddressable(records[..i])
        invariant State() == InsertAll(Cleared(before, parent), parent, records[..i])
        invariant |ids| == i && nextId == before.nextId + i
        invariant forall k :: 0 <= k < i ==> ids[k] == before.nextId + k
      {
        var id := Insert(parent, records[i]);
        if id.Err? {
          captures, storage, nextId := savedCaptures, savedStorage, savedId;
          assert FirstRefused(records, i);
          return Err(id.error);
        }
        assert records[..i + 1][..i] == records[..i];
        ids := ids + [id.value];
      }
      assert records[..|records|] == records;
      BatchReplaces(before, parent, records);
      return Ok(ids);
    }
  }

  const EMPTY := Tables([], [], 0)

  // --- Row by row -----------------------------------------------------------------------

  lemma {:induction false} WithoutKeepsTheRest(captures: seq<Incidental>, parent: nat)
    ensures forall row :: row in Without(captures, parent) <==> row in captures && row.parent != parent
  {
    if captures != [] {
      var init, last := captures[..|captures| - 1], captures[|captures| - 1];
      WithoutKeepsTheRest(init, parent);
      assert captures == init + [last];
    }
  }

  lemma {:induction false} NoneOf(captures: seq<Incidental>, parent: nat)
    requires forall row :: row in captures ==> row.parent != parent
    ensures Of(captures, parent) == []
  {
    if captures != [] {
      var init := captures[..|captures| - 1];
      assert forall row :: row in init ==> row in captures;
      NoneOf(init, parent);
      assert captures[|captures| - 1] in captures;
    }
  }

  /** One capture is added for each record, with the next id. */
  lemma {:induction false} BatchAdds(t: Tables, parent: nat, records: seq<Capture>)
    requires AllAddressable(records) && Of(t.captures, parent) == []
    ensures var t' := InsertAll(t, parent, records); var rows := Of(t'.captures, parent);
            && t.storage <= t'.storage && t'.nextId == t.nextId + |records| && |rows| == |records|
            && (forall i :: 0 <= i < |records| ==> rows[i].id == t.nextId + i && rows[i].parent == parent && rows[i].fetch == records[i].fetch)
            && (forall row: Incidental :: row.parent != parent ==> (row in t'.captures <==> row in t.captures))
  {
    if records != [] {
      var init, r := records[..|records| - 1], records[|records| - 1];
      BatchAdds(t, parent, init);
      OneIsAdded(InsertAll(t, parent, init), parent, r);
    }
  }

  lemma OneIsAdded(t: Tables, parent: nat, r: Capture)
    requires r.Addressable()
    ensures var t', row := InsertOne(t, parent, r), Incidental(t.nextId, parent, r.fetch, Addressed(t.storage, r).1);
            && t.storage <= t'.storage && t'.nextId == t.nextId + 1
            && Of(t'.captures, parent) == Of(t.captures, parent) + [row]
            && (forall other: Incidental :: other.parent != parent ==> (other in t'.captures <==> other in t.captures))
  {
    var t' := InsertOne(t, parent, r);
    assert t'.captures[..|t'.captures| - 1] == t.captures;
  }

  lemma BatchReplaces(t: Tables, parent: nat, records: seq<Capture>)
    requires AllAddressable(records)
    ensures var t' := InsertAll(Cleared(t, parent), parent, records); var rows := Of(t'.captures, parent);
            && t.storage <= t'.storage && |rows| == |records|
            && (forall i :: 0 <= i < |records| ==> rows[i].id == t.nextId + i && rows[i].parent == parent && rows[i].fetch == records[i].fetch)
            && (forall row: Incidental :: row.parent != parent ==> (row in t'.captures <==> row in t.captures))
  {
    WithoutKeepsTheRest(t.captures, parent);
    NoneOf(Without(t.captures, parent), parent);
    BatchAdds(Cleared(t, parent), parent, records);
  }

  // --- What a batch leaves ------------------------------------------------------------

  predicate DigestsUnique(storage: seq<Stored>) {
    forall i, j :: 0 <= i < j < |storage| ==> storage[i].md5 != storage[j].md5
  }

  /** A capture row and the record it stands for: the same fetch, and a storage row
      with the record's digest exactly when it has a body. */
  predicate Stands(storage: seq<Stored>, row: Incidental, parent: nat, r: Capture) {
    && row.parent == parent && row.fetch == r.fetch
    && (row.storageId.Some? <==> r.HasBody())
    && (row.storageId.Some? ==> row.storageId.value < |storage| && r.md5 == Some(storage[row.storageId.value].md5))
  }

  ghost predicate AllStand(storage: seq<Stored>, rows: seq<Incidental>, parent: nat, records: seq<Capture>) {
    |rows| == |records| && forall i :: 0 <= i < |rows| ==> Stands(storage, rows[i], parent, records[i])
  }

  /** The storage row is this record's own payload, with its response headers, under its
      digest. */
  predicate Owns(r: Capture, row: Stored) {
    r.HasBody() && r.md5 == Some(row.md5) && r.payload == row.payload && r.responseHeaders == row.responseHeaders
  }

  predicate BatchOwns(records: seq<Capture>, row: Stored) {
    exists i :: 0 <= i < |records| && Owns(records[i], row)
  }

  /** Storage only grows, by payloads of addressable records. */
  ghost predicate GrewBy(before: seq<Stored>, after: seq<Stored>, records: seq<Capture>) {
    && before <= after
    && forall k :: |before| <= k < |after| ==> BatchOwns(records, after[k])
  }

  lemma {:induction false} OfWithout(captures: seq<Incidental>, parent: nat, other: nat)
    ensures Of(Without(captures, parent), other) == if other == parent then [] else Of(captures, other)
  {
    if captures != [] {
      var init, last := captures[..|captures| - 1], captures[|captures| - 1];
      OfWithout(init, parent, other);
      if last.parent != parent {
      } else {
        assert Without(captures, parent) == Without(init, parent);
      }
    }
  }

  lemma AddressedStands(t: Tables, parent: nat, r: Capture)
    requires r.Addressable() && DigestsUnique(t.storage)
    ensures var t' := InsertOne(t, parent, r);
            && DigestsUnique(t'.storage) && GrewBy(t.storage, t'.storage, [r])
            && t'.captures == t.captures + [t'.captures[|t.captures|]]
            && Stands(t'.storage, t'.captures[|t.captures|], parent, r)
  {
    assert [r][0] == r;
  }

  lemma StandOn(before: seq<Stored>, after: seq<Stored>, rows: seq<Incidental>, parent: nat, records: seq<Capture>)
    requires before <= after && AllStand(before, rows, parent, records)
    ensures AllStand(after, rows, parent, records)
  {
  }

  lemma GrowAppend(a: seq<Stored>, b: seq<Stored>, c: seq<Stored>, records: seq<Capture>, r: Capture)
    requires GrewBy(a, b, records) && GrewBy(b, c, [r])
    ensures GrewBy(a, c, records + [r])
  {
    var all := records + [r];
    forall k | |a| <= k < |c|
      ensures BatchOwns(all, c[k])
    {
      if k < |b| {
        assert c[k] == b[k];
        var i :| 0 <= i < |records| && Owns(records[i], b[k]);
        assert Owns(all[i], c[k]);
      } else {
        assert BatchOwns([r], c[k]);
        assert Owns(all[|records|], c[k]);
      }
    }
  }

  /** The parent's captures grow by one for each record, standing for it; no other
      parent's change. */
  lemma {:induction false} BatchStands(t: Tables, parent: nat, records: seq<Capture>, other: nat)
    requires AllAddressable(records) && DigestsUnique(t.storage) && Of(t.captures, parent) == []
    ensures var t' := InsertAll(t, parent, records);
            && DigestsUnique(t'.storage) && GrewBy(t.storage, t'.storage, records)
            && AllStand(t'.storage, Of(t'.captures, parent), parent, records)
            && (other != parent ==> Of(t'.captures, other) == Of(t.captures, other))
  {
    if records != [] {
      var init, r := records[..|records| - 1], records[|records| - 1];
      assert records == init + [r];
      BatchStands(t, parent, init, other);
      var mid := InsertAll(t, parent, init);
      AddressedStands(mid, parent, r);
      var t' := InsertOne(mid, parent, r);
      var row := t'.captures[|mid.captures|];
      GrowAppend(t.storage, mid.storage, t'.storage, init, r);
      StandOn(mid.storage, t'.storage, Of(mid.captures, parent), parent, init);
    }
  }

  // --- Whole histories ----------------------------------------------------------------

  datatype Batch = Batch(parent: nat, records: seq<Capture>)

  function After(history: seq<Batch>): Tables {
    if history == [] then EMPTY
    else
      var last := history[|history| - 1];
      Replaced(After(history[..|history| - 1]), last.parent, last.records)
  }

  /** The naive store: each parent's latest batch that could be stored. */
  function Latest(history: seq<Batch>, parent: nat): (records: seq<Capture>)
    ensures AllAddressable(records)
  {
    if history == [] then []
    else
      var last := history[|history| - 1];
      if last.parent == parent && AllAddressable(last.records) then last.records
      else Latest(history[..|history| - 1], parent)
  }

  predicate InHistory(history: seq<Batch>, r: Capture) {
    exists b, i :: 0 <= b < |history| && 0 <= i < |history[b].records| && history[b].records[i] == r
  }

  ghost predicate HistoryOwns(history: seq<Batch>, row: Stored) {
    exists r :: InHistory(history, r) && Owns(r, row)
  }

  /** Every storage row is some record's own payload, under that record's digest. */
  ghost predicate FromRecords(history: seq<Batch>, storage: seq<Stored>) {
    forall k :: 0 <= k < |storage| ==> HistoryOwns(history, storage[k])
  }

  lemma HistoryAppend(init: seq<Batch>, last: Batch, r: Capture)
    requires InHistory(init, r) || r in last.records
    ensures InHistory(init + [last], r)
  {
    var history := init + [last];
    if InHistory(init, r) {
      var b, i :| 0 <= b < |init| && 0 <= i < |init[b].records| && init[b].records[i] == r;
      assert history[b].records[i] == r;
    } else {
      var i :| 0 <= i < |last.records| && last.records[i] == r;
      assert history[|init|].records[i] == r;
    }
  }

  lemma RecordsAppend(init: seq<Batch>, last: Batch, before: seq<Stored>, after: seq<Stored>)
    requires FromRecords(init, before) && (after == before || GrewBy(before, after, last.records))
    ensures FromRecords(init + [last], after)
  {
    forall k | 0 <= k < |after|
      ensures HistoryOwns(init + [last], after[k])
    {
      if k < |before| {
        assert after[k] == before[k];
        var r :| InHistory(init, r) && Owns(r, before[k]);
        HistoryAppend(init, last, r);
      } else {
        var i :| 0 <= i < |last.records| && Owns(last.records[i], after[k]);
        HistoryAppend(init, last, last.records[i]);
      }
    }
  }

  /** After any history each parent holds exactly its latest batch, in order, each
      capture on a row with its own digest, and digests are unique. */
  lemma {:induction false} HistoryStands(history: seq<Batch>, parent: nat)
    ensures var t := After(history);
            && DigestsUnique(t.storage) && FromRecords(history, t.storage)
            && AllStand(t.storage, Of(t.captures, parent), parent, Latest(history, parent))
  {
    if history != [] {
      var init, last := history[..|history| - 1], history[|history| - 1];
      assert history == init + [last];
      HistoryStands(init, parent);
      var before := After(init);
      if AllAddressable(last.records) {
        OfWithout(before.captures, last.parent, parent);
        OfWithout(before.captures, last.parent, last.parent);
        BatchStands(Cleared(before, last.parent), last.parent, last.records, parent);
        RecordsAppend(init, last, before.storage, After(history).storage);
        if parent != last.parent {
          StandOn(before.storage, After(history).storage, Of(before.captures, parent), parent, Latest(init, parent));
        }
      } else {
        RecordsAppend(init, last, before.storage, before.storage);
      }
    }
  }

  // --- Refinement of one payload per capture --------------------------------------------

  /** How payloads decode, and the digest they are addressed by. */
  datatype Coding = Coding(decode: Payload -> Option<Bytes>, digest: Bytes -> Digest)

  /** `set_body`: the digest is that of the delivered body. */
  ghost predicate Honest(c: Coding, r: Capture) {
    r.HasBody() ==> c.decode(r.payload).Some? && r.md5 == Some(c.digest(c.decode(r.payload).value))
  }

  ghost predicate HonestHistory(c: Coding, history: seq<Batch>) {
    forall r :: InHistory(history, r) ==> Honest(c, r)
  }

  ghost predicate IsBody(c: Coding, history: seq<Batch>, x: Bytes) {
    exists r :: InHistory(history, r) && r.HasBody() && c.decode(r.payload) == Some(x)
  }

  /** The digest tells the bodies of the history apart. */
  ghost predicate InjectiveOn(c: Coding, history: seq<Batch>) {
    forall x, y :: IsBody(c, history, x) && IsBody(c, history, y) && c.digest(x) == c.digest(y) ==> x == y
  }

  /** The body a capture reads back with: its storage row's. */
  function BodyOf(c: Coding, t: Tables, row: Incidental): Option<Bytes> {
    if row.storageId.Some? && row.storageId.value < |t.storage| then c.decode(t.storage[row.storageId.value].payload) else None
  }

  function NaiveBody(c: Coding, r: Capture): Option<Bytes> {
    if r.HasBody() then c.decode(r.payload) else None
  }

  lemma {:induction false} LatestInHistory(history: seq<Batch>, parent: nat, i: nat)
    requires i < |Latest(history, parent)|
    ensures InHistory(history, Latest(history, parent)[i])
  {
    var init, last := history[..|history| - 1], history[|history| - 1];
    assert history == init + [last];
    if last.parent == parent && AllAddressable(last.records) {
      assert last.records[i] in last.records;
    } else {
      LatestInHistory(init, parent, i);
    }
    HistoryAppend(init, last, Latest(history, parent)[i]);
  }

  /** Given a digest that tells the stored bodies apart, every capture of a parent's
      latest batch reads back with its own fetch and its own body. */
  lemma RefinesNaiveStore(c: Coding, history: seq<Batch>, parent: nat, i: nat)
    requires HonestHistory(c, history) && InjectiveOn(c, history)
    requires i < |Latest(history, parent)|
    ensures var t := After(history); var rows := Of(t.captures, parent);
            && |rows| == |Latest(history, parent)|
            && rows[i].fetch == Latest(history, parent)[i].fetch
            && BodyOf(c, t, rows[i]) == NaiveBody(c, Latest(history, parent)[i])
  {
    HistoryStands(history, parent);
    LatestInHistory(history, parent, i);
    var t := After(history);
    var row, r := Of(t.captures, parent)[i], Latest(history, parent)[i];
    assert Stands(t.storage, row, parent, r);
    assert Honest(c, r);
    if r.HasBody() {
      var k := row.storageId.value;
      assert HistoryOwns(history, t.storage[k]);
      var owner :| InHistory(history, owner) && Owns(owner, t.storage[k]);
      assert Honest(c, owner);
      var x, y := c.decode(r.payload).value, c.decode(owner.payload).value;
      assert IsBody(c, history, x) && IsBody(c, history, y);
    }
  }

  /** Without that the store is not faithful: of two bodies with one digest the second
      to arrive reads back as the first. */
  lemma CollidingBodyReadsBackWrong(c: Coding, first: Capture, second: Capture)
    requires Honest(c, first) && Honest(c, second) && first.HasBody() && second.HasBody()
    requires c.decode(first.payload) != c.decode(second.payload) && first.md5 == second.md5
    ensures var t := After([Batch(0, [first]), Batch(1, [second])]);
            && |Of(t.captures, 1)| == 1
            && BodyOf(c, t, Of(t.captures, 1)[0]) == c.decode(first.payload) != NaiveBody(c, second)
  {
    var one, both := [Batch(0, [first])], [Batch(0, [first]), Batch(1, [second])];
    assert both[..1] == one && one[..0] == [];
    var t1 := InsertOne(EMPTY, 0, first);
    InsertOneBatch(EMPTY, 0, first);
    assert Cleared(EMPTY, 0) == EMPTY && After(one) == t1;
    assert t1.captures[..0] == [];
    assert Without(t1.captures, 1) == Without([], 1) + [t1.captures[0]];
    assert Cleared(t1, 1) == t1;
    InsertOneBatch(t1, 1, second);
    assert After(both) == InsertOne(t1, 1, second);
    assert Of(t1.captures, 1) == [];
  }

  lemma InsertOneBatch(t: Tables, parent: nat, r: Capture)
    requires r.Addressable()
    ensures InsertAll(t, parent, [r]) == InsertOne(t, parent, r)
  {
  }
}
