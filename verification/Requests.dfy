/** The requests table: insert with deduplication, atomic dequeue, retry, release,
    and the wait for the next pending row.

    A table is the sequence of its rows; a row's id is its position, and ids grow
    with insertion.  Each SQL statement is a function on tables; the class runs them
    in place, one write transaction per method.  Clocks are integer milliseconds. */
module Requests {
  import opened Wrappers

  datatype Status = Pending | InProgress | Completed | Failed

  /** What an INSERT carries; these columns never change afterwards. */
  datatype RequestInsert = RequestInsert(url: string, priority: int, key: Option<string>, parent: Option<nat>)

  datatype Row = Row(
    insert: RequestInsert,
    status: Status,
    startedAt: Option<int>,
    completedAt: Option<int>,
    lastError: Option<string>,
    retryCount: nat,
    cumulativeBackoff: real)

  type Table = seq<Row>

  // --- Insert with deduplication ----------------------------------------------

  function NewRow(p: RequestInsert): Row {
    Row(p, Pending, None, None, None, 0, 0.0)
  }

  /** The row holding a deduplication key. */
  function FindByKey(t: Table, key: string): (r: Option<nat>)
    ensures r.Some? ==> r.value < |t| && t[r.value].insert.key == Some(key)
    ensures r.None? <==> forall i :: 0 <= i < |t| ==> t[i].insert.key != Some(key)
  {
    if t == [] then None
    else if t[|t| - 1].insert.key == Some(key) then Some(|t| - 1)
    else FindByKey(t[..|t| - 1], key)
  }

  datatype InsertResult = InsertResult(id: nat, inserted: bool)

  /** `ON CONFLICT IGNORE`, then the lookup of the row the key belongs to. */
  function Inserted(t: Table, p: RequestInsert): (r: (Table, InsertResult)) {
    var existing := if p.key.Some? then FindByKey(t, p.key.value) else None;
    if existing.Some? then (t, InsertResult(existing.value, false))
    else (t + [NewRow(p)], InsertResult(|t|, true))
  }

  /** The constraint `uq_requests_dedup_key`: NULL keys repeat, others do not. */
  predicate UniqueKeys(t: Table) {
    forall i, j :: 0 <= i < j < |t| && t[i].insert.key.Some? ==> t[i].insert.key != t[j].insert.key
  }

  // --- Dequeue ----------------------------------------------------------------

  predicate Ready(row: Row, now: int) {
    row.status.Pending? && (row.startedAt.None? || row.startedAt.value <= now)
  }

  /** Ordered before, by priority and then id. */
  predicate Before(t: Table, i: nat, j: nat)
    requires i < |t| && j < |t|
  {
    t[i].insert.priority < t[j].insert.priority || (t[i].insert.priority == t[j].insert.priority && i < j)
  }

  /** `next_pending_id()`: the least ready row. */
  function NextPending(t: Table, now: int): (r: Option<nat>)
    ensures r.None? ==> forall i :: 0 <= i < |t| ==> !Ready(t[i], now)
    ensures r.Some? ==> r.value < |t| && Ready(t[r.value], now)
    ensures r.Some? ==> forall i :: 0 <= i < |t| && Ready(t[i], now) && i != r.value ==> Before(t, r.value, i)
  {
    if t == [] then None
    else
      var init, last := t[..|t| - 1], |t| - 1;
      var best := NextPending(init, now);
      if !Ready(t[last], now) then best
      else if best.None? || t[last].insert.priority < t[best.value].insert.priority then Some(last)
      else best
  }

  function Claimed(row: Row, now: int): Row {
    row.(status := InProgress, startedAt := Some(now))
  }

  function Dequeued(t: Table, now: int): Table {
    var next := NextPending(t, now);
    if next.None? then t else t[next.value := Claimed(t[next.value], now)]
  }

  // --- The wait for the next pending row --------------------------------------

  function Gap(row: Row, now: int): int {
    if row.startedAt.None? || row.startedAt.value <= now then 0 else row.startedAt.value - now
  }

  /** `min(CASE ...)` over the PENDING rows, in milliseconds. */
  function UntilNextPending(t: Table, now: int): Option<int> {
    if t == [] then None
    else
      var rest, last := UntilNextPending(t[..|t| - 1], now), t[|t| - 1];
      if !last.status.Pending? then rest
      else if rest.None? || Gap(last, now) < rest.value then Some(Gap(last, now))
      else rest
  }

  lemma {:induction false} UntilNextPendingIsMinimum(t: Table, now: int)
    ensures UntilNextPending(t, now).None? <==> forall i :: 0 <= i < |t| ==> !t[i].status.Pending?
    ensures UntilNextPending(t, now).Some? ==>
              && (exists i :: 0 <= i < |t| && t[i].status.Pending? && Gap(t[i], now) == UntilNextPending(t, now).value)
              && (forall i :: 0 <= i < |t| && t[i].status.Pending? ==> Gap(t[i], now) >= UntilNextPending(t, now).value)
  {
    if t != [] {
      var init := t[..|t| - 1];
      UntilNextPendingIsMinimum(init, now);
      if UntilNextPending(init, now).Some? {
        var i :| 0 <= i < |init| && init[i].status.Pending? && Gap(init[i], now) == UntilNextPending(init, now).value;
        assert t[i] == init[i];
      }
      assert t[|t| - 1].status.Pending? || !t[|t| - 1].status.Pending?;
      assert forall i :: 0 <= i < |init| ==> t[i] == init[i];
    }
  }

  /** The wait agrees with the dequeue at every table and clock: None when nothing
      is pending, 0 exactly when a dequeue would claim a row, and otherwise the
      time from which - the table unchanged - a dequeue first succeeds. */
  lemma WaitAgreesWithDequeue(t: Table, now: int)
    ensures var wait := UntilNextPending(t, now);
            && (wait.None? <==> forall i :: 0 <= i < |t| ==> !t[i].status.Pending?)
            && (wait == Some(0) <==> NextPending(t, now).Some?)
            && (wait.Some? ==> FirstDequeueAt(t, now, now + wait.value))
  {
    UntilNextPendingIsMinimum(t, now);
    var wait := UntilNextPending(t, now);
    if wait.Some? {
      var i :| 0 <= i < |t| && t[i].status.Pending? && Gap(t[i], now) == wait.value;
      assert Ready(t[i], now + wait.value);
      forall later | now <= later < now + wait.value
        ensures NextPending(t, later).None?
      {
        forall j | 0 <= j < |t|
          ensures !Ready(t[j], later)
        {
          assert t[j].status.Pending? ==> Gap(t[j], now) >= wait.value;
        }
      }
      if NextPending(t, now).Some? {
        assert Gap(t[NextPending(t, now).value], now) == 0;
      }
    }
  }

  /** A dequeue succeeds at that time, and at none from now until then. */
  ghost predicate FirstDequeueAt(t: Table, now: int, at: int) {
    now <= at && NextPending(t, at).Some? && forall earlier :: now <= earlier < at ==> NextPending(t, earlier).None?
  }

  // --- Settling a claim -------------------------------------------------------

  function CompletedRow(row: Row, now: int): Row {
    row.(status := Completed, completedAt := Some(now))
  }

  function FailedRow(row: Row, now: int, error: string): Row {
    row.(status := Failed, completedAt := Some(now), lastError := Some(error))
  }

  /** A delay in seconds as SQLite adds it to a millisecond stamp. */
  function DelayMillis(delay: real): int {
    (delay * 1000.0 + 0.5).Floor
  }

  function RetriedRow(row: Row, now: int, cumulative: real, delay: real, error: string): Row {
    row.(status := Pending, retryCount := row.retryCount + 1, cumulativeBackoff := cumulative,
         lastError := Some(error), startedAt := Some(now + DelayMillis(delay)))
  }

  // The UPDATEs by id: no status guard, and nothing happens for an unknown id.

  function MarkedCompleted(t: Table, id: nat, now: int): Table {
    if id < |t| then t[id := CompletedRow(t[id], now)] else t
  }

  function MarkedFailed(t: Table, id: nat, now: int, error: string): Table {
    if id < |t| then t[id := FailedRow(t[id], now, error)] else t
  }

  function Rescheduled(t: Table, id: nat, now: int, cumulative: real, delay: real, error: string): Table {
    if id < |t| then t[id := RetriedRow(t[id], now, cumulative, delay, error)] else t
  }

  function Restamped(t: Table, id: nat, now: int): Table {
    if id < |t| then t[id := t[id].(startedAt := Some(now))] else t
  }

  /** A retried row is not ready before its delay has passed, and is from then on. */
  lemma RetriedRowWaitsItsDelay(row: Row, now: int, later: int, cumulative: real, delay: real, error: string)
    ensures Ready(RetriedRow(row, now, cumulative, delay, error), later) <==> later - now >= DelayMillis(delay)
    ensures delay * 1000.0 - 0.5 <= DelayMillis(delay) as real <= delay * 1000.0 + 0.5
  {
  }

  /** Interrupted rows go back to PENDING; nothing else changes. */
  function ReleasedRow(row: Row): Row {
    if row.status.InProgress? then row.(status := Pending) else row
  }

  function Released(t: Table): (r: Table)
    ensures |r| == |t| && forall i :: 0 <= i < |t| ==> r[i] == ReleasedRow(t[i])
  {
    seq(|t|, i requires 0 <= i < |t| => ReleasedRow(t[i]))
  }

  /** No row but `id` changes, and none is added or lost. */
  predicate OnlyRow(t: Table, t': Table, id: nat) {
    |t'| == |t| && forall i :: 0 <= i < |t| && i != id ==> t'[i] == t[i]
  }

  /** A release, column by column: a row in progress is pending again with all else it
      had, and every other row is as it was. */
  predicate OnlyInterrupted(t: Table, t': Table) {
    && |t'| == |t|
    && (forall i :: 0 <= i < |t| && t[i].status != InProgress ==> t'[i] == t[i])
    && (forall i :: 0 <= i < |t| && t[i].status == InProgress ==>
          t'[i] == Row(t[i].insert, Pending, t[i].startedAt, t[i].completedAt, t[i].lastError, t[i].retryCount, t[i].cumulativeBackoff))
  }

  lemma {:induction false} CountPendingIsCardinality(t: Table)
    ensures CountPending(t) == |set i | 0 <= i < |t| && t[i].status.Pending?|
  {
    var pending := set i | 0 <= i < |t| && t[i].status.Pending?;
    if t == [] {
      assert pending == {};
    } else {
      var init := t[..|t| - 1];
      CountPendingIsCardinality(init);
      var before := set i | 0 <= i < |init| && init[i].status.Pending?;
      assert pending == if t[|t| - 1].status.Pending? then before + {|t| - 1} else before;
    }
  }

  function CountPending(t: Table): nat {
    if t == [] then 0 else CountPending(t[..|t| - 1]) + if t[|t| - 1].status.Pending? then 1 else 0
  }

  // --- The table in place -----------------------------------------------------

  datatype TableError = DelayOutOfRange | KeyHeldByNoRow

  class RequestTable {
    var rows: Table

    constructor ()
      ensures rows == []
    {
      rows := [];
    }

    /** `insert_request_in_session`: the INSERT, then the lookup.  The source's
        RuntimeError - ignored, but no row holds the key - is never reached. */
    method Insert(p: RequestInsert) returns (r: Result<InsertResult, TableError>)
      modifies this
      ensures r == Ok(Inserted(old(rows), p).1) && rows == Inserted(old(rows), p).0
      ensures old(UniqueKeys(rows)) ==> UniqueKeys(rows)
      ensures r.Ok? && r.value.inserted <==> p.key.None? || forall i :: 0 <= i < |old(rows)| ==> old(rows)[i].insert.key != p.key
      ensures r.Ok? && r.value.inserted ==>
                r.value.id == |old(rows)| && rows == old(rows) + [Row(p, Pending, None, None, None, 0, 0.0)]
      ensures r.Ok? && !r.value.inserted ==>
                r.value.id < |old(rows)| && old(rows)[r.value.id].insert.key == p.key && rows == old(rows)
    {
      var conflict := p.key.Some? && FindByKey(rows, p.key.value).Some?;
      if !conflict {
        rows := rows + [NewRow(p)];
        return Ok(InsertResult(|rows| - 1, true));
      }
      var existing := if p.key.Some? then FindByKey(rows, p.key.value) else None;
      if existing.None? {
        return Err(KeyHeldByNoRow);
      }
      return Ok(InsertResult(existing.value, false));
    }

    /** Claims exactly the least ready row, which starts now, and no other row changes. */
    method Dequeue(now: int) returns (id: Option<nat>)
      modifies this
      ensures id == NextPending(old(rows), now) && rows == Dequeued(old(rows), now)
      ensures id.None? <==> forall i :: 0 <= i < |old(rows)| && old(rows)[i].status.Pending? ==>
                old(rows)[i].startedAt.Some? && old(rows)[i].startedAt.value > now
      ensures id.None? ==> rows == old(rows)
      ensures id.Some? ==> id.value < |rows| && OnlyRow(old(rows), rows, id.value)
      ensures id.Some? ==>
                var row := old(rows)[id.value];
                && row.status.Pending? && (row.startedAt.None? || row.startedAt.value <= now)
                && rows[id.value] == Row(row.insert, InProgress, Some(now), row.completedAt, row.lastError,
                                         row.retryCount, row.cumulativeBackoff)
                && forall i :: 0 <= i < |rows| && i != id.value && rows[i].status.Pending? ==>
                     || (rows[i].startedAt.Some? && rows[i].startedAt.value > now)
                     || row.insert.priority < rows[i].insert.priority
                     || (row.insert.priority == rows[i].insert.priority && id.value < i)
    {
      id := NextPending(rows, now);
      if id.Some? {
        rows := rows[id.value := Claimed(rows[id.value], now)];
      }
    }

    method MarkCompleted(id: nat, now: int)
      modifies this
      ensures rows == MarkedCompleted(old(rows), id, now)
      ensures OnlyRow(old(rows), rows, id)
      ensures id < |rows| ==>
                var row := old(rows)[id];
                rows[id] == Row(row.insert, Completed, row.startedAt, Some(now), row.lastError, row.retryCount, row.cumulativeBackoff)
    {
      if id < |rows| {
        rows := rows[id := CompletedRow(rows[id], now)];
      }
    }

    method MarkFailed(id: nat, now: int, error: string)
      modifies this
      ensures rows == MarkedFailed(old(rows), id, now, error)
      ensures OnlyRow(old(rows), rows, id)
      ensures id < |rows| ==>
                var row := old(rows)[id];
                rows[id] == Row(row.insert, Failed, row.startedAt, Some(now), Some(error), row.retryCount, row.cumulativeBackoff)
    {
      if id < |rows| {
        rows := rows[id := FailedRow(rows[id], now, error)];
      }
    }

    /** A negative delay is refused and nothing is written. */
    method ScheduleRetry(id: nat, now: int, cumulative: real, delay: real, error: string)
      returns (r: Option<TableError>)
      modifies this
      ensures delay < 0.0 <==> r == Some(DelayOutOfRange)
      ensures r.Some? ==> rows == old(rows)
      ensures r.None? ==> rows == Rescheduled(old(rows), id, now, cumulative, delay, error)
      ensures OnlyRow(old(rows), rows, id)
      ensures r.None? && id < |rows| ==>
                var row := old(rows)[id];
                && rows[id].startedAt.Some?
                && -0.0005 <= (rows[id].startedAt.value - now) as real / 1000.0 - delay <= 0.0005
                && rows[id] == Row(row.insert, Pending, rows[id].startedAt, row.completedAt, Some(error), row.retryCount + 1, cumulative)
    {
      if delay < 0.0 {
        return Some(DelayOutOfRange);
      }
      if id < |rows| {
        rows := rows[id := RetriedRow(rows[id], now, cumulative, delay, error)];
      }
      return None;
    }

    method RestampRequestStart(id: nat, now: int)
      modifies this
      ensures rows == Restamped(old(rows), id, now)
      ensures OnlyRow(old(rows), rows, id)
      ensures id < |rows| ==>
                var row := old(rows)[id];
                rows[id] == Row(row.insert, row.status, Some(now), row.completedAt, row.lastError, row.retryCount, row.cumulativeBackoff)
    {
      if id < |rows| {
        rows := rows[id := rows[id].(startedAt := Some(now))];
      }
    }

    /** Nothing when nothing is pending; 0 when a dequeue would claim a row; and else the
        time, to the millisecond, at which - the table unchanged - one first does. */
    method SecondsUntilNextPending(now: int) returns (wait: Option<real>)
      ensures wait.None? <==> forall i :: 0 <= i < |rows| ==> !rows[i].status.Pending?
      ensures wait == Some(0.0) <==> NextPending(rows, now).Some?
      ensures wait.Some? ==> exists at :: FirstDequeueAt(rows, now, at) && wait.value == (at - now) as real / 1000.0
    {
      WaitAgreesWithDequeue(rows, now);
      var millis := UntilNextPending(rows, now);
      wait := if millis.None? then None else Some(millis.value as real / 1000.0);
    }

    /** `restore_queue`: releases, then counts what is pending. */
    method RestoreQueue() returns (pending: nat)
      modifies this
      ensures rows == Released(old(rows)) && OnlyInterrupted(old(rows), rows)
      ensures pending == |set i | 0 <= i < |old(rows)| && (old(rows)[i].status.Pending? || old(rows)[i].status.InProgress?)|
    {
      rows := Released(rows);
      pending := CountPending(rows);
      CountPendingIsCardinality(rows);
      assert (set i | 0 <= i < |old(rows)| && (old(rows)[i].status.Pending? || old(rows)[i].status.InProgress?))
          == (set i | 0 <= i < |rows| && rows[i].status.Pending?);
    }
  }

  // --- The run itself ---------------------------------------------------------

  datatype RunStatus = Created | Running | RunCompleted | RunError | Interrupted

  datatype RunMetadata = RunMetadata(status: RunStatus, endedAt: Option<int>)

  /** `close_run`'s update: only a run still running ends here. */
  function Closed(m: RunMetadata, now: int): RunMetadata {
    if m.status.Running? then RunMetadata(Interrupted, Some(now)) else m
  }

  /** However often the file is closed, the first end stands. */
  lemma {:induction false} FirstEndStands(m: RunMetadata, first: int, later: seq<int>)
    ensures ClosedAll(Closed(m, first), later) == Closed(m, first)
    decreases |later|
  {
    if later != [] {
      FirstEndStands(m, first, later[..|later| - 1]);
    }
  }

  function ClosedAll(m: RunMetadata, times: seq<int>): RunMetadata {
    if times == [] then m else Closed(ClosedAll(m, times[..|times| - 1]), times[|times| - 1])
  }

  class RunDatabase {
    const table: RequestTable
    var metadata: RunMetadata

    constructor (table: RequestTable)
      ensures this.table == table && metadata == RunMetadata(Running, None)
    {
      this.table := table;
      metadata := RunMetadata(Running, None);
    }

    /** Best effort: a close that cannot commit leaves everything for the next
        startup's restore, which then releases the same rows. */
    method Close(now: int, commits: bool)
      modifies this, table
      ensures table.rows == if commits then Released(old(table.rows)) else old(table.rows)
      ensures metadata == if commits && old(metadata).status == Running then RunMetadata(Interrupted, Some(now)) else old(metadata)
      ensures commits ==> OnlyInterrupted(old(table.rows), table.rows)
      ensures Released(table.rows) == Released(old(table.rows))
    {
      if commits {
        table.rows := Released(table.rows);
        metadata := Closed(metadata, now);
      }
    }
  }
}
