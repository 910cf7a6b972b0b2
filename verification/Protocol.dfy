/** The queue protocol as a transition system: any number of workers over one
    database, with crashes, restarts and a write transaction as one step.

    The status UPDATEs carry no guard, so the rule that keeps them safe is explicit
    here: only the holder of a live claim settles or retries a row, and the release
    of interrupted rows runs while nobody holds a claim.  The worker loop itself is
    not part of this model; a worker may take any step its phase allows. */
module Protocol {
  import opened Wrappers
  import opened Requests
  import opened Staging
  import Retry

  type WorkerId = nat

  type Attempt = nat

  /** Where a worker is inside `get_next_request` or the handling of its request. */
  datatype Phase =
    | Idle
    | Calling                                                    // count raised, dequeue not yet committed
    | Empty                                                      // the dequeue found nothing
    | Dequeued(id: nat, attempt: Attempt)                        // committed, row not yet read back
    | Failing(id: nat, attempt: Attempt)                         // unreadable, awaiting mark_request_failed
    | Raising                                                    // about to leave with an exception
    | Holding(id: nat, attempt: Attempt, buffer: Buffer)         // handed over
    | Settled(attempt: Attempt, callbacks: seq<Callback>)        // its row is settled, request_done still owed

  /** What has been committed: a flushed buffer, or a request inserted by itself. */
  datatype Entry =
    | Commit(id: nat, attempt: Attempt, buffer: Buffer)
    | Direct(insert: RequestInsert)

  /** Claims ever made on a row, and claims undone by a release. */
  datatype Account = Account(claims: nat, releases: nat)

  datatype State = State(
    now: int,
    rows: Table,
    results: seq<ResultRow>,
    workers: map<WorkerId, Phase>,
    inFlight: int,
    config: Retry.Config,                                        // this session's
    // History, kept for the theorems:
    nextAttempt: Attempt,
    log: seq<Entry>,
    ran: map<Attempt, seq<Callback>>,
    accounts: seq<Account>,
    budget: real)                                                // the largest of any session

  datatype Event =
    | Tick(millis: nat)
    | Spawn(w: WorkerId)
    | Begin(w: WorkerId)
    | DequeueCommits(w: WorkerId)
    | DequeueFails(w: WorkerId)
    | ReturnNone(w: WorkerId)
    | RowInvalid(w: WorkerId)
    | Unreadable(w: WorkerId)
    | UnreadableMarked(w: WorkerId, error: string, committed: bool)
    | Raise(w: WorkerId)
    | HandOver(w: WorkerId)
    | Stage(w: WorkerId, buffer: Buffer)
    | Flush(w: WorkerId)
    | Complete(w: WorkerId)
    | Fail(w: WorkerId, error: string)
    | RetryLater(w: WorkerId, failure: Retry.Failure, error: string)
    | Restamp(w: WorkerId)
    | Probe(w: WorkerId, insert: RequestInsert)
    | RunCallback(w: WorkerId)
    | Done(w: WorkerId)
    | Abandon(w: WorkerId)
    | Crash
    | Release
    | Open(config: Retry.Config)
    | Seed(insert: RequestInsert)

  // --- Claims -----------------------------------------------------------------

  predicate Claims(p: Phase) {
    p.Dequeued? || p.Failing? || p.Holding?
  }

  /** Staged children carry their parent's id; a probe or a seed has none. */
  predicate ChildrenOf(id: nat, buffer: Buffer) {
    forall i :: 0 <= i < |buffer.requests| ==> buffer.requests[i].insert.parent == Some(id)
  }

  // --- Steps ------------------------------------------------------------------

  ghost predicate NoClaims(s: State) {
    forall w :: w in s.workers ==> !Claims(s.workers[w])
  }

  function At(s: State, w: WorkerId): Phase {
    if w in s.workers then s.workers[w] else Idle
  }

  ghost predicate Enabled(s: State, e: Event) {
    match e
    case Tick(_) => true
    case Spawn(w) => w !in s.workers
    case Begin(w) => w in s.workers && s.workers[w].Idle?
    case DequeueCommits(w) => At(s, w).Calling?
    case DequeueFails(w) => At(s, w).Calling?
    case ReturnNone(w) => At(s, w).Empty?
    case RowInvalid(w) => At(s, w).Dequeued?
    case Unreadable(w) => At(s, w).Dequeued?
    case UnreadableMarked(w, _, _) => At(s, w).Failing?
    case Raise(w) => At(s, w).Raising?
    case HandOver(w) => At(s, w).Dequeued?
    case Stage(w, buffer) =>
      At(s, w).Holding? && Extends(At(s, w).buffer, buffer) && ChildrenOf(At(s, w).id, buffer)
    case Flush(w) => At(s, w).Holding?
    case Complete(w) => At(s, w).Holding?
    case Fail(w, _) => At(s, w).Holding?
    case RetryLater(w, failure, _) =>
      && At(s, w).Holding? && At(s, w).id < |s.rows| && failure.Valid()
      && Retry.Retried(s.config, RetryStateOf(s.rows[At(s, w).id]), failure).Some?
    case Restamp(w) => At(s, w).Holding?
    case Probe(w, insert) => At(s, w).Holding? && insert.parent.None?
    case RunCallback(w) => At(s, w).Settled? && At(s, w).callbacks != []
    case Done(w) => At(s, w).Settled?
    case Abandon(w) => At(s, w).Holding?
    case Crash => true
    case Release => NoClaims(s)
    case Open(config) => s.workers == map[] && config.Valid()
    case Seed(insert) => s.workers == map[] && insert.parent.None?
  }

  function RetryStateOf(row: Row): Retry.RetryState {
    Retry.RetryState(row.retryCount, row.cumulativeBackoff)
  }

  function Enter(s: State, w: WorkerId, p: Phase): State {
    s.(workers := s.workers[w := p])
  }

  /** `in_flight -= 1`, on the way out of a call or a request. */
  function Leave(s: State, w: WorkerId): State {
    Enter(s, w, Idle).(inFlight := s.inFlight - 1)
  }

  function InsertOne(s: State, insert: RequestInsert): State {
    var (rows, result) := Inserted(s.rows, insert);
    s.(rows := rows, log := s.log + [Direct(insert)],
       accounts := if result.inserted then s.accounts + [Account(0, 0)] else s.accounts)
  }

  function NewAccounts(n: nat): (r: seq<Account>)
    ensures |r| == n && forall i :: 0 <= i < n ==> r[i] == Account(0, 0)
  {
    seq(n, _ => Account(0, 0))
  }

  /** The dequeue commits.  Accounts keep pace with rows (`AccountsHold`); the step is
      total without assuming so. */
  function DequeueStep(s: State, w: WorkerId): State {
    var next := NextPending(s.rows, s.now);
    if next.None? || next.value >= |s.accounts| then Enter(s, w, Empty)
    else
      var account := s.accounts[next.value];
      Enter(s, w, Dequeued(next.value, s.nextAttempt)).(
        rows := Requests.Dequeued(s.rows, s.now),
        nextAttempt := s.nextAttempt + 1,
        accounts := s.accounts[next.value := account.(claims := account.claims + 1)])
  }

  function FlushStep(s: State, w: WorkerId): State
    requires At(s, w).Holding?
  {
    var Holding(id, attempt, buffer) := At(s, w);
    Enter(s, w, Settled(attempt, buffer.callbacks)).(
      rows := FlushedTable(s.rows, id, buffer, s.now),
      results := s.results + ResultRows(id, buffer.results),
      log := s.log + [Commit(id, attempt, buffer)],
      ran := s.ran[attempt := []],
      accounts := s.accounts + NewAccounts(|New(s.rows, buffer.requests)|))
  }

  function RetryStep(s: State, w: WorkerId, failure: Retry.Failure, error: string): State
    requires At(s, w).Holding? && At(s, w).id < |s.rows|
    requires Retry.Retried(s.config, RetryStateOf(s.rows[At(s, w).id]), failure).Some?
  {
    var id := At(s, w).id;
    var state := RetryStateOf(s.rows[id]);
    var cumulative := Retry.Retried(s.config, state, failure).value.cumulativeBackoff;
    var delay := Retry.Delay(s.config, state.retryCount, failure);
    Settle(s, w, Rescheduled(s.rows, id, s.now, cumulative, delay, error))
  }

  /** The holder's row is settled; of a buffer not flushed nothing remains. */
  function Settle(s: State, w: WorkerId, rows: Table): State
    requires At(s, w).Holding?
  {
    Enter(s, w, Settled(At(s, w).attempt, [])).(rows := rows)
  }

  function ReleasedAccounts(s: State): (r: seq<Account>)
    requires |s.accounts| == |s.rows|
    ensures |r| == |s.accounts|
  {
    seq(|s.rows|, i requires 0 <= i < |s.rows| =>
      if s.rows[i].status.InProgress? then s.accounts[i].(releases := s.accounts[i].releases + 1) else s.accounts[i])
  }

  ghost function Apply(s: State, e: Event): State
    requires Enabled(s, e)
  {
    match e
    case Tick(millis) => s.(now := s.now + millis)
    case Spawn(w) => Enter(s, w, Idle)
    case Begin(w) => Enter(s, w, Calling).(inFlight := s.inFlight + 1)
    case DequeueCommits(w) => DequeueStep(s, w)
    case DequeueFails(w) => Leave(s, w)
    case ReturnNone(w) => Leave(s, w)
    case RowInvalid(w) => Leave(s, w)
    case Unreadable(w) => Enter(s, w, Failing(At(s, w).id, At(s, w).attempt))
    case UnreadableMarked(w, error, committed) =>
      Enter(s, w, Raising).(rows := if committed then MarkedFailed(s.rows, At(s, w).id, s.now, error) else s.rows)
    case Raise(w) => Leave(s, w)
    case HandOver(w) => Enter(s, w, Holding(At(s, w).id, At(s, w).attempt, EMPTY_BUFFER))
    case Stage(w, buffer) => Enter(s, w, At(s, w).(buffer := buffer))
    case Flush(w) => FlushStep(s, w)
    case Complete(w) => Settle(s, w, MarkedCompleted(s.rows, At(s, w).id, s.now))
    case Fail(w, error) => Settle(s, w, MarkedFailed(s.rows, At(s, w).id, s.now, error))
    case RetryLater(w, failure, error) => RetryStep(s, w, failure, error)
    case Restamp(w) => s.(rows := Restamped(s.rows, At(s, w).id, s.now))
    case Probe(w, insert) => InsertOne(s, insert)
    case RunCallback(w) =>
      var Settled(attempt, callbacks) := At(s, w);
      var before := if attempt in s.ran then s.ran[attempt] else [];
      Enter(s, w, Settled(attempt, callbacks[1..])).(ran := s.ran[attempt := before + [callbacks[0]]])
    case Done(w) => Leave(s, w)
    case Abandon(w) => Leave(s, w)
    case Crash => s.(workers := map[], inFlight := 0)
    case Release =>
      if |s.accounts| == |s.rows| then s.(rows := Released(s.rows), accounts := ReleasedAccounts(s)) else s
    case Open(config) => s.(config := config, budget := Retry.Max(s.budget, config.maxBackoff))
    case Seed(insert) => InsertOne(s, insert)
  }

  ghost predicate Init(s: State) {
    && s.rows == [] && s.results == [] && s.workers == map[] && s.inFlight == 0
    && s.config.Valid() && s.budget == s.config.maxBackoff
    && s.nextAttempt == 0 && s.log == [] && s.ran == map[] && s.accounts == []
  }

  ghost predicate Step(s: State, s': State) {
    exists e :: Enabled(s, e) && s' == Apply(s, e)
  }

  /** A run: any number of events, crashes and restarts among them; each session opens
      the database with retry parameters of its own. */
  ghost predicate Run(trace: seq<State>) {
    && trace != [] && Init(trace[0])
    && forall i :: 0 <= i < |trace| - 1 ==> Step(trace[i], trace[i + 1])
  }

  // --- Invariants -------------------------------------------------------------

  /** A live claim is on a row in progress, and no two are on one row. */
  ghost predicate ClaimsAreExclusive(s: State) {
    && (forall w :: w in s.workers && Claims(s.workers[w]) ==>
          s.workers[w].id < |s.rows| && s.rows[s.workers[w].id].status.InProgress?)
    && (forall v, w :: v in s.workers && w in s.workers && v != w && Claims(s.workers[v]) && Claims(s.workers[w]) ==>
          s.workers[v].id != s.workers[w].id)
  }

  function Busy(s: State): set<WorkerId> {
    set w | w in s.workers && !s.workers[w].Idle?
  }

  /** Calls begun and not returned, plus requests handed over and not done. */
  ghost predicate CountsBusy(s: State) {
    s.inFlight == |Busy(s)|
  }

  ghost predicate AccountHolds(row: Row, a: Account) {
    a.claims == row.retryCount + a.releases + if row.status.Pending? then 0 else 1
  }

  ghost predicate AccountsHold(s: State) {
    && |s.accounts| == |s.rows|
    && forall i :: 0 <= i < |s.rows| ==> AccountHolds(s.rows[i], s.accounts[i])
  }

  /** Every status but that of row `id` is as it was, and rows are only added. */
  predicate StatusesKept(t: Table, t': Table, id: nat) {
    |t| <= |t'| && forall i :: 0 <= i < |t| && i != id ==> t'[i].status == t[i].status
  }

  /** The events that move one worker and touch at most its own row. */
  predicate MovesOne(e: Event) {
    !e.Tick? && !e.Spawn? && !e.Probe? && !e.Crash? && !e.Release? && !e.Open? && !e.Seed? && !e.DequeueCommits? && !e.Restamp?
  }

  /** The row a worker holds, or none. */
  function OwnRow(s: State, w: WorkerId): nat {
    if Claims(At(s, w)) then At(s, w).id else |s.rows|
  }

  /** One worker moved, and touched the status of no row but its own. */
  predicate MovedOne(s: State, w: WorkerId, s': State) {
    && w in s.workers && w in s'.workers && s'.workers == s.workers[w := s'.workers[w]]
    && StatusesKept(s.rows, s'.rows, OwnRow(s, w))
    && (Claims(s'.workers[w]) ==>
        Claims(s.workers[w]) && s'.workers[w].id == s.workers[w].id && s'.rows == s.rows)
  }

  lemma MoveKeepsClaimsExclusive(s: State, w: WorkerId, s': State)
    requires ClaimsAreExclusive(s) && MovedOne(s, w, s')
    ensures ClaimsAreExclusive(s')
  {
  }

  /** The remaining events leave every claim and every claimed row's status. */
  lemma OthersKeepClaimsExclusive(s: State, e: Event)
    requires Enabled(s, e) && !MovesOne(e) && !e.DequeueCommits? && ClaimsAreExclusive(s)
    ensures ClaimsAreExclusive(Apply(s, e))
  {
  }

  lemma StepKeepsClaimsExclusive(s: State, e: Event)
    requires Enabled(s, e) && ClaimsAreExclusive(s)
    ensures ClaimsAreExclusive(Apply(s, e))
  {
    if e.DequeueCommits? {
    } else if MovesOne(e) {
      MoveKeepsClaimsExclusive(s, e.w, Apply(s, e));
    } else {
      OthersKeepClaimsExclusive(s, e);
    }
  }

  lemma BusyAfter(s: State, w: WorkerId, p: Phase)
    requires w in s.workers
    ensures |Busy(Enter(s, w, p))| ==
            |Busy(s)| + (if s.workers[w].Idle? && !p.Idle? then 1 else if !s.workers[w].Idle? && p.Idle? then -1 else 0)
  {
    var before, after := Busy(s), Busy(Enter(s, w, p));
    if s.workers[w].Idle? && !p.Idle? {
      assert after == before + {w};
    } else if !s.workers[w].Idle? && p.Idle? {
      assert after == before - {w};
    } else {
      assert after == before;
    }
  }

  /** Only the workers matter to the count. */
  lemma BusyOfWorkers(s: State, s': State)
    requires s.workers == s'.workers
    ensures Busy(s) == Busy(s')
  {
  }

  lemma StepCountsBusy(s: State, e: Event)
    requires Enabled(s, e) && CountsBusy(s)
    ensures CountsBusy(Apply(s, e))
  {
    var s' := Apply(s, e);
    if MovesOne(e) || e.DequeueCommits? {
      var p := s'.workers[e.w];
      BusyAfter(s, e.w, p);
      BusyOfWorkers(Enter(s, e.w, p), s');
    } else if e.Spawn? || e.Crash? {
      assert Busy(s') == if e.Crash? then {} else Busy(s);
    } else {
      BusyOfWorkers(s, s');
    }
  }

  /** One row and its account change, rightly; the rest stay. */
  ghost predicate OneAccountChanged(s: State, s': State, id: nat) {
    && |s'.accounts| == |s'.rows| == |s.rows| == |s.accounts|
    && (forall i :: 0 <= i < |s.rows| && i != id ==> s'.rows[i] == s.rows[i] && s'.accounts[i] == s.accounts[i])
    && (id < |s.rows| ==> AccountHolds(s'.rows[id], s'.accounts[id]))
  }

  lemma OneAccountChanges(s: State, s': State, id: nat)
    requires AccountsHold(s) && |s.accounts| == |s.rows| && OneAccountChanged(s, s', id)
    ensures AccountsHold(s')
  {
  }

  lemma DequeueKeepsAccounts(s: State, w: WorkerId)
    requires AccountsHold(s)
    ensures AccountsHold(DequeueStep(s, w))
  {
  }

  lemma MoveChangesOneAccount(s: State, e: Event)
    requires Enabled(s, e) && MovesOne(e) && !e.Flush? && ClaimsAreExclusive(s) && AccountsHold(s)
    ensures OneAccountChanged(s, Apply(s, e), OwnRow(s, e.w))
  {
  }

  lemma OthersKeepAccounts(s: State, e: Event)
    requires Enabled(s, e) && AccountsHold(s)
    requires !MovesOne(e) && !e.DequeueCommits? && !e.Probe? && !e.Seed?
    ensures AccountsHold(Apply(s, e))
  {
  }

  lemma StepKeepsAccounts(s: State, e: Event)
    requires Enabled(s, e) && ClaimsAreExclusive(s) && AccountsHold(s)
    ensures AccountsHold(Apply(s, e))
  {
    if e.Probe? || e.Seed? {
    } else if e.Flush? {
    } else if e.DequeueCommits? {
      DequeueKeepsAccounts(s, e.w);
    } else if MovesOne(e) {
      MoveChangesOneAccount(s, e);
      OneAccountChanges(s, Apply(s, e), OwnRow(s, e.w));
    } else {
      OthersKeepAccounts(s, e);
    }
  }
}
