/** `RequestQueueDB`: handing requests over, and the count of those in flight. */
module RequestQueues {
  import opened Wrappers
  import opened Requests
  import opened RequestRows
  import Lanes

  datatype Handed = Handed(id: nat, request: Request, parent: Option<nat>)

  datatype QueueError = RowInvalid(id: nat) | Unreadable(id: nat, error: RowError)

  class RequestQueue {
    const formats: Formats
    const lanes: seq<string>
    const table: RequestTable
    var columns: seq<RequestRow>
    var inFlight: nat

    /** Every row of the table has its columns. */
    ghost predicate Valid()
      reads this, table
    {
      |columns| == |table.rows|
    }

    constructor (formats: Formats, lanes: seq<string>, table: RequestTable, columns: seq<RequestRow>)
      requires |columns| == |table.rows|
      ensures Valid() && inFlight == 0 && this.table == table && this.columns == columns
      ensures this.formats == formats && this.lanes == lanes
    {
      this.formats, this.lanes, this.table := formats, lanes, table;
      this.columns, this.inFlight := columns, 0;
    }

    /** `get_next_request`.  The count is raised before the dequeue and kept only by a
        request handed over.  A row that fails validation once the dequeue is committed
        stays in progress; one that cannot be read back is FAILED if it can be marked
        so.  `validates` and `marks` say whether the one and the other go through. */
    method GetNextRequest(now: int, validates: bool, marks: bool, message: string)
      returns (r: Result<Option<Handed>, QueueError>)
      requires Valid()
      modifies this`inFlight, table
      ensures Valid()
      ensures var next := NextPending(old(table.rows), now);
              match next
              case None => r == Ok(None) && inFlight == old(inFlight) && table.rows == old(table.rows)
              case Some(id) =>
                if !validates then
                  r == Err(RowInvalid(id)) && inFlight == old(inFlight) && table.rows == Dequeued(old(table.rows), now)
                else match Deserialized(formats, lanes, columns[id])
                case Ok(request) =>
                  && r == Ok(Some(Handed(id, request, columns[id].parent)))
                  && inFlight == old(inFlight) + 1 && table.rows == Dequeued(old(table.rows), now)
                case Err(error) =>
                  && r == Err(Unreadable(id, error)) && inFlight == old(inFlight)
                  && table.rows == (var claimed := Dequeued(old(table.rows), now);
                                    if marks then MarkedFailed(claimed, id, now, message) else claimed)
      ensures r.Err? ==>
                var (id, row) := (r.error.id, old(table.rows)[r.error.id]);
                && OnlyRow(old(table.rows), table.rows, id)
                && table.rows[id] ==
                     if r.error.Unreadable? && marks then
                       Row(row.insert, Failed, Some(now), Some(now), Some(message), row.retryCount, row.cumulativeBackoff)
                     else
                       Row(row.insert, InProgress, Some(now), row.completedAt, row.lastError, row.retryCount, row.cumulativeBackoff)
      ensures r.Ok? && r.value.Some? ==>
                var (id, row) := (r.value.value.id, old(table.rows)[r.value.value.id]);
                && OnlyRow(old(table.rows), table.rows, id)
                && table.rows[id] ==
                     Row(row.insert, InProgress, Some(now), row.completedAt, row.lastError, row.retryCount, row.cumulativeBackoff)
    {
      inFlight := inFlight + 1;
      var id := table.Dequeue(now);
      if id.None? {
        inFlight := inFlight - 1;
        return Ok(None);
      }
      if !validates {
        inFlight := inFlight - 1;
        return Err(RowInvalid(id.value));
      }
      var request := Deserialized(formats, lanes, columns[id.value]);
      if request.Err? {
        if marks {
          table.MarkFailed(id.value, now, message);
        }
        inFlight := inFlight - 1;
        return Err(Unreadable(id.value, request.error));
      }
      return Ok(Some(Handed(id.value, request.value, columns[id.value].parent)));
    }

    /** A claim never taken is not released: the count stays at zero. */
    method RequestDone()
      modifies this`inFlight
      ensures inFlight == if old(inFlight) == 0 then 0 else old(inFlight) - 1
    {
      if inFlight == 0 {
        return;
      }
      inFlight := inFlight - 1;
    }

    /** `insert_root_request`: a request enqueued by itself.  Without deduplication it
        always inserts; what a worker is handed for its row is the request as stored. */
    method InsertRootRequest(request: Request, deduplicate: bool) returns (r: Result<InsertResult, RowError>)
      requires Valid()
      requires formats.Sound() && LaneTable(lanes) && Typed(request) && Constructed(formats, request) == request
      modifies this`columns, table
      ensures Valid()
      ensures r.Err? <==> InsertPayload(formats, lanes, request).Err?
      ensures r.Err? ==> table.rows == old(table.rows) && columns == old(columns)
      ensures r.Ok? ==>
                var row := Keyed(InsertPayload(formats, lanes, request).value, deduplicate);
                && (table.rows, r.value) == Inserted(old(table.rows), TableColumns(row))
                && columns == (if r.value.inserted then old(columns) + [row] else old(columns))
                && (!deduplicate ==> r.value.inserted)
                && (row.step != "" ==>
                      Deserialized(formats, lanes, row) == Ok(AsStored(formats, AsKeyed(request, deduplicate))))
    {
      var payload := InsertPayload(formats, lanes, request);
      if payload.Err? {
        return Err(payload.error);
      }
      var row := Keyed(payload.value, deduplicate);
      var inserted := table.Insert(TableColumns(row));
      if inserted.value.inserted {
        columns := columns + [row];
      }
      KeyedComesBack(formats, lanes, request, deduplicate);
      return Ok(inserted.value);
    }
  }

  /** A probe's row drops its key. */
  function Keyed(row: RequestRow, deduplicate: bool): RequestRow {
    if deduplicate then row else row.(key := None)
  }

  function AsKeyed(r: Request, deduplicate: bool): Request {
    if deduplicate then r else r.(key := Skip)
  }

  /** The columns the table itself works on. */
  function TableColumns(row: RequestRow): RequestInsert {
    RequestInsert(row.url, row.priority, row.key, row.parent)
  }

  /** A row without its key reads back as the request that opts out. */
  lemma KeyedComesBack(f: Formats, lanes: seq<string>, r: Request, deduplicate: bool)
    requires f.Sound() && LaneTable(lanes) && Typed(r) && Constructed(f, r) == r && InsertPayload(f, lanes, r).Ok?
    ensures var row := Keyed(InsertPayload(f, lanes, r).value, deduplicate);
            && EffectiveKey(f, AsKeyed(r, deduplicate)).Ok? && r.step.NameOf?
            && (row.step != "" ==> Deserialized(f, lanes, row) == Ok(AsStored(f, AsKeyed(r, deduplicate))))
  {
    var row := Keyed(InsertPayload(f, lanes, r).value, deduplicate);
    PayloadParts(f, lanes, r);
    PayloadParts(f, lanes, AsKeyed(r, deduplicate));
    assert row == InsertPayload(f, lanes, AsKeyed(r, deduplicate)).value;
    if row.step != "" {
      RequestComesBack(f, lanes, AsKeyed(r, deduplicate), row);
    }
  }
}
