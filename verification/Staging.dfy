/** `StagedWrites`: one step's writes, buffered and flushed in one transaction. */
module Staging {
  import opened Wrappers
  import opened Requests

  type Callback = nat

  datatype ResultRow = ResultRow(requestId: nat, data: string)

  datatype StagedRequest = StagedRequest(insert: RequestInsert, event: string)

  /** The three buffers of one step. */
  datatype Buffer = Buffer(results: seq<string>, requests: seq<StagedRequest>, callbacks: seq<Callback>)

  const EMPTY_BUFFER := Buffer([], [], [])

  /** What a step may do to its own buffer: add to it, or reset it to nothing. */
  predicate Extends(before: Buffer, after: Buffer) {
    || after == EMPTY_BUFFER
    || (before.results <= after.results && before.requests <= after.requests && before.callbacks <= after.callbacks)
  }

  // --- Inserting a buffer's requests -------------------------------------------

  predicate KeyInTable(t: Table, key: string) {
    FindByKey(t, key).Some?
  }

  predicate KeyStaged(staged: seq<StagedRequest>, key: string) {
    exists i :: 0 <= i < |staged| && staged[i].insert.key == Some(key)
  }

  /** A staged request is new when its key is NULL, or occurs neither in the table
      nor earlier in the buffer. */
  predicate IsNew(t: Table, earlier: seq<StagedRequest>, q: StagedRequest) {
    q.insert.key.None? || (!KeyInTable(t, q.insert.key.value) && !KeyStaged(earlier, q.insert.key.value))
  }

  /** The new requests of a buffer, in order. */
  function New(t: Table, staged: seq<StagedRequest>): seq<StagedRequest> {
    if staged == [] then []
    else
      var init, last := staged[..|staged| - 1], staged[|staged| - 1];
      New(t, init) + if IsNew(t, init, last) then [last] else []
  }

  function NewRows(requests: seq<StagedRequest>): (r: Table)
    ensures |r| == |requests|
    ensures forall i :: 0 <= i < |r| ==> r[i] == NewRow(requests[i].insert)
  {
    seq(|requests|, i requires 0 <= i < |requests| => NewRow(requests[i].insert))
  }

  function Events(requests: seq<StagedRequest>): (r: seq<string>)
    ensures |r| == |requests|
    ensures forall i :: 0 <= i < |r| ==> r[i] == requests[i].event
  {
    seq(|requests|, i requires 0 <= i < |requests| => requests[i].event)
  }

  /** The flush loop: one insert after another. */
  function InsertAll(t: Table, staged: seq<StagedRequest>): (Table, seq<InsertResult>) {
    if staged == [] then (t, [])
    else
      var (before, results) := InsertAll(t, staged[..|staged| - 1]);
      var (after, result) := Inserted(before, staged[|staged| - 1].insert);
      (after, results + [result])
  }

  lemma KeyStagedAppend(init: seq<StagedRequest>, last: StagedRequest, key: string)
    ensures KeyStaged(init + [last], key) <==> KeyStaged(init, key) || last.insert.key == Some(key)
  {
    var all := init + [last];
    assert all[|init|] == last;
    assert forall i :: 0 <= i < |init| ==> all[i] == init[i];
  }

  lemma KeyInTableAppend(t: Table, row: Row, key: string)
    ensures KeyInTable(t + [row], key) <==> KeyInTable(t, key) || row.insert.key == Some(key)
  {
  }

  /** The keys held after inserting a buffer. */
  lemma {:induction false} InsertAllKeys(t: Table, staged: seq<StagedRequest>, key: string)
    ensures KeyInTable(InsertAll(t, staged).0, key) <==> KeyInTable(t, key) || KeyStaged(staged, key)
  {
    if staged != [] {
      var init, last := staged[..|staged| - 1], staged[|staged| - 1];
      assert staged == init + [last];
      InsertAllKeys(t, init, key);
      KeyStagedAppend(init, last, key);
      KeyInTableAppend(InsertAll(t, init).0, NewRow(last.insert), key);
    }
  }

  /** The constraint sees exactly what `IsNew` says: the table and the buffer so
      far. */
  lemma {:induction false} InsertedIffNew(t: Table, init: seq<StagedRequest>, q: StagedRequest)
    ensures !IsNew(t, init, q) ==> q.insert.key.Some? && KeyInTable(InsertAll(t, init).0, q.insert.key.value)
    ensures var before := InsertAll(t, init).0;
            Inserted(before, q.insert) ==
            if IsNew(t, init, q) then (before + [NewRow(q.insert)], InsertResult(|before|, true))
            else (before, InsertResult(FindByKey(before, q.insert.key.value).value, false))
  {
    if q.insert.key.Some? {
      InsertAllKeys(t, init, q.insert.key.value);
    }
  }

  /** One insert at a time comes to this: the new requests, appended in order. */
  lemma {:induction false} InsertAllAppendsTheNew(t: Table, staged: seq<StagedRequest>)
    ensures InsertAll(t, staged).0 == t + NewRows(New(t, staged))
    ensures |InsertAll(t, staged).1| == |staged|
  {
    if staged == [] {
      assert t + NewRows([]) == t;
    } else {
      var init, last := staged[..|staged| - 1], staged[|staged| - 1];
      InsertAllAppendsTheNew(t, init);
      InsertedIffNew(t, init, last);
      if IsNew(t, init, last) {
        assert NewRows(New(t, staged)) == NewRows(New(t, init)) + [NewRow(last.insert)];
        assert t + NewRows(New(t, init)) + [NewRow(last.insert)] == t + (NewRows(New(t, init)) + [NewRow(last.insert)]);
      }
    }
  }

  /** A staged request is new when its key is NULL, or neither a row nor an earlier staged
      request has it. */
  lemma NewIffNoneHasTheKey(t: Table, staged: seq<StagedRequest>, i: nat)
    requires i < |staged|
    ensures IsNew(t, staged[..i], staged[i]) <==>
              || staged[i].insert.key.None?
              || ((forall k :: 0 <= k < |t| ==> t[k].insert.key != staged[i].insert.key) &&
                  (forall k :: 0 <= k < i ==> staged[k].insert.key != staged[i].insert.key))
  {
    assert forall k :: 0 <= k < i ==> staged[..i][k] == staged[k];
  }

  /** Each insert reports whether it was new, and the id of a row holding what it
      asked for: its own row, or the row its key belongs to. */
  lemma {:induction false} InsertAllResults(t: Table, staged: seq<StagedRequest>, i: nat)
    requires i < |staged|
    ensures |InsertAll(t, staged).1| == |staged|
    ensures var (after, results) := InsertAll(t, staged);
            && (results[i].inserted <==> IsNew(t, staged[..i], staged[i]))
            && results[i].id < |after|
            && (if results[i].inserted then after[results[i].id] == NewRow(staged[i].insert)
                else staged[i].insert.key.Some? && after[results[i].id].insert.key == staged[i].insert.key)
  {
    var init, last := staged[..|staged| - 1], staged[|staged| - 1];
    InsertAllAppendsTheNew(t, staged);
    InsertAllAppendsTheNew(t, init);
    InsertedIffNew(t, init, last);
    if i < |init| {
      InsertAllResults(t, init, i);
      assert init[..i] == staged[..i];
    }
  }

  lemma {:induction false} InsertAllKeepsUniqueKeys(t: Table, staged: seq<StagedRequest>)
    requires UniqueKeys(t)
    ensures UniqueKeys(InsertAll(t, staged).0)
  {
    if staged != [] {
      InsertAllKeepsUniqueKeys(t, staged[..|staged| - 1]);
    }
  }

  /** Under the constraint the row an ignored insert resolves to is the only one
      with its key. */
  lemma IgnoredResolvesToTheOneRow(t: Table, staged: seq<StagedRequest>, i: nat, id: nat)
    requires UniqueKeys(t) && i < |staged| && staged[i].insert.key.Some?
    requires id < |InsertAll(t, staged).0| && InsertAll(t, staged).0[id].insert.key == staged[i].insert.key
    ensures |InsertAll(t, staged).1| == |staged| && InsertAll(t, staged).1[i].id == id
  {
    InsertAllKeepsUniqueKeys(t, staged);
    InsertAllResults(t, staged, i);
  }

  // --- The buffer and its flush ------------------------------------------------

  function ResultRows(requestId: nat, results: seq<string>): (r: seq<ResultRow>)
    ensures |r| == |results|
    ensures forall i :: 0 <= i < |r| ==> r[i] == ResultRow(requestId, results[i])
  {
    seq(|results|, i requires 0 <= i < |results| => ResultRow(requestId, results[i]))
  }

  /** The requests table after the flush: the new requests, and the parent done. */
  function FlushedTable(t: Table, requestId: nat, buffer: Buffer, now: int): Table {
    MarkedCompleted(t + NewRows(New(t, buffer.requests)), requestId, now)
  }

  /** Column by column: the parent is completed now, each added row is a pending one with
      nothing recorded yet, and every other row is as it was. */
  lemma FlushedInColumns(t: Table, requestId: nat, buffer: Buffer, now: int)
    ensures var t' := FlushedTable(t, requestId, buffer, now);
            && |t'| == |t| + |New(t, buffer.requests)|
            && (forall i :: 0 <= i < |t| && i != requestId ==> t'[i] == t[i])
            && (requestId < |t| ==>
                  var row := t[requestId];
                  t'[requestId] == Row(row.insert, Completed, row.startedAt, Some(now), row.lastError, row.retryCount, row.cumulativeBackoff))
            && (forall i :: |t| <= i < |t'| && i != requestId ==>
                  t'[i] == Row(New(t, buffer.requests)[i - |t|].insert, Pending, None, None, None, 0, 0.0))
  {
  }

  /** The tables a flush writes. */
  class Database {
    const requests: RequestTable
    var results: seq<ResultRow>

    constructor ()
      ensures fresh(requests) && requests.rows == [] && results == []
    {
      requests := new RequestTable();
      results := [];
    }
  }

  class StagedWrites {
    const requestId: nat
    var results: seq<string>
    var requests: seq<StagedRequest>
    var callbacks: seq<Callback>

    constructor (requestId: nat)
      ensures this.requestId == requestId && Staged() == EMPTY_BUFFER
    {
      this.requestId := requestId;
      results, requests, callbacks := [], [], [];
    }

    function Staged(): Buffer
      reads this
    {
      Buffer(results, requests, callbacks)
    }

    /** A failed attempt leaves nothing behind: all three buffers are cleared. */
    method Reset()
      modifies this
      ensures Staged() == EMPTY_BUFFER && Extends(old(Staged()), Staged())
    {
      results, requests, callbacks := [], [], [];
    }

    /** Staging appends to one buffer and leaves the others; it is what the queue
        protocol lets the holder of a claim do. */
    method StageResult(data: string)
      modifies this
      ensures Staged() == old(Staged()).(results := old(results) + [data]) && Extends(old(Staged()), Staged())
    {
      results := results + [data];
    }

    method StageRequest(q: StagedRequest)
      modifies this
      ensures Staged() == old(Staged()).(requests := old(requests) + [q]) && Extends(old(Staged()), Staged())
    {
      requests := requests + [q];
    }

    method StageCallback(cb: Callback)
      modifies this
      ensures Staged() == old(Staged()).(callbacks := old(callbacks) + [cb]) && Extends(old(Staged()), Staged())
    {
      callbacks := callbacks + [cb];
    }

    /** The transaction: results, requests, the parent's status.  Reports the events
        of the new requests, and leaves the callbacks to run after the commit. */
    method Flush(db: Database, now: int) returns (emitted: seq<string>)
      modifies db, db.requests
      ensures db.results == old(db.results) + ResultRows(requestId, results)
      ensures db.requests.rows == FlushedTable(old(db.requests.rows), requestId, Staged(), now)
      ensures emitted == Events(New(old(db.requests.rows), requests))
      ensures |db.requests.rows| == |old(db.requests.rows)| + |emitted|
      ensures forall i :: 0 <= i < |old(db.requests.rows)| && i != requestId ==> db.requests.rows[i] == old(db.requests.rows)[i]
      ensures requestId < |old(db.requests.rows)| ==>
                var row := old(db.requests.rows)[requestId];
                db.requests.rows[requestId] ==
                  Row(row.insert, Completed, row.startedAt, Some(now), row.lastError, row.retryCount, row.cumulativeBackoff)
      ensures old(UniqueKeys(db.requests.rows)) ==> UniqueKeys(db.requests.rows)
    {
      ghost var t := db.requests.rows;
      for i := 0 to |results|
        invariant db.results == old(db.results) + ResultRows(requestId, results[..i])
        invariant db.requests.rows == t
      {
        assert ResultRows(requestId, results[..i + 1])
            == ResultRows(requestId, results[..i]) + [ResultRow(requestId, results[i])];
        db.results := db.results + [ResultRow(requestId, results[i])];
      }
      assert results[..|results|] == results;
      emitted := [];
      for i := 0 to |requests|
        invariant db.requests.rows == InsertAll(t, requests[..i]).0
        invariant emitted == Events(New(t, requests[..i]))
        invariant db.results == old(db.results) + ResultRows(requestId, results)
      {
        var q := requests[i];
        assert requests[..i + 1][..i] == requests[..i];
        InsertedIffNew(t, requests[..i], q);
        var inserted := db.requests.Insert(q.insert);
        if inserted.value.inserted {
          assert Events(New(t, requests[..i]) + [q]) == Events(New(t, requests[..i])) + [q.event];
          emitted := emitted + [q.event];
        }
      }
      assert requests[..|requests|] == requests;
      InsertAllAppendsTheNew(t, requests);
      if UniqueKeys(t) {
        InsertAllKeepsUniqueKeys(t, requests);
      }
      db.requests.MarkCompleted(requestId, now);
      FlushedInColumns(t, requestId, Staged(), now);
    }
  }
}
