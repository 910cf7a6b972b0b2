/** What the queue can still do: no state of a run is a dead end. */
module Progress {
  import opened Wrappers
  import opened Requests
  import opened Staging
  import opened Protocol
  import opened Runs
  import Retry

  /** The states `events` lead through, from `s`. */
  ghost predicate Leads(s: State, events: seq<Event>, s': State)
    decreases |events|
  {
    if events == [] then s' == s
    else Enabled(s, events[0]) && Leads(Apply(s, events[0]), events[1..], s')
  }

  lemma {:induction false} LeadsOn(s: State, first: seq<Event>, mid: State, more: seq<Event>, s': State)
    requires Leads(s, first, mid) && Leads(mid, more, s')
    ensures Leads(s, first + more, s')
    decreases |first|
  {
    if first == [] {
      assert first + more == more;
    } else {
      assert (first + more)[1..] == first[1..] + more;
      LeadsOn(Apply(s, first[0]), first[1..], mid, more, s');
    }
  }

  lemma OneStep(s: State, e: Event)
    requires Enabled(s, e)
    ensures Leads(s, [e], Apply(s, e))
  {
    assert [e][1..] == [];
  }

  lemma {:induction false} LeadsHolds(s: State, events: seq<Event>, s': State)
    requires Inv(s) && Leads(s, events, s')
    ensures Inv(s')
    decreases |events|
  {
    if events != [] {
      StepHolds(s, events[0]);
      LeadsHolds(Apply(s, events[0]), events[1..], s');
    }
  }

  predicate IdleIn(s: State, w: WorkerId) {
    w in s.workers && s.workers[w].Idle?
  }

  lemma TwoSteps(s: State, d: Event, e: Event)
    requires Enabled(s, d) && Enabled(Apply(s, d), e)
    ensures Leads(s, [d, e], Apply(Apply(s, d), e))
  {
    OneStep(s, d);
    OneStep(Apply(s, d), e);
    LeadsOn(s, [d], Apply(s, d), [e], Apply(Apply(s, d), e));
    assert [d] + [e] == [d, e];
  }

  /** An idle worker can claim the next row. */
  lemma CanDequeue(s: State, w: WorkerId) returns (s': State)
    requires IdleIn(s, w) && NextPending(s.rows, s.now).Some? && |s.accounts| == |s.rows|
    ensures Leads(s, [Begin(w), DequeueCommits(w)], s')
    ensures var id := NextPending(s.rows, s.now).value;
            && s' == s.(workers := s.workers[w := Protocol.Dequeued(id, s.nextAttempt)], rows := s'.rows, accounts := s'.accounts,
                        inFlight := s.inFlight + 1, nextAttempt := s.nextAttempt + 1)
            && s'.rows == s.rows[id := Requests.Claimed(s.rows[id], s.now)]
  {
    s' := Apply(Apply(s, Begin(w)), DequeueCommits(w));
    TwoSteps(s, Begin(w), DequeueCommits(w));
  }

  function ClaimEvents(w: WorkerId): seq<Event> {
    [Begin(w), DequeueCommits(w)] + [HandOver(w)]
  }

  /** And be handed it. */
  lemma CanClaim(s: State, w: WorkerId) returns (s': State)
    requires IdleIn(s, w) && NextPending(s.rows, s.now).Some? && |s.accounts| == |s.rows|
    ensures Leads(s, ClaimEvents(w), s')
    ensures var id := NextPending(s.rows, s.now).value;
            && s' == s.(workers := s.workers[w := Holding(id, s.nextAttempt, EMPTY_BUFFER)], rows := s'.rows, accounts := s'.accounts,
                        inFlight := s.inFlight + 1, nextAttempt := s.nextAttempt + 1)
            && s'.rows == s.rows[id := Requests.Claimed(s.rows[id], s.now)]
  {
    var dequeued := CanDequeue(s, w);
    s' := Apply(dequeued, HandOver(w));
    OneStep(dequeued, HandOver(w));
    LeadsOn(s, [Begin(w), DequeueCommits(w)], dequeued, [HandOver(w)], s');
  }

  function RanOf(s: State, a: Attempt): seq<Callback> {
    if a in s.ran then s.ran[a] else []
  }

  /** Once its row is settled a worker can run what it owes, all of it and in order, and
      be idle again. */
  lemma {:induction false} CanFinish(s: State, w: WorkerId) returns (events: seq<Event>, s': State)
    requires At(s, w).Settled?
    ensures Leads(s, events, s')
    ensures IdleIn(s', w) && s'.rows == s.rows && s'.results == s.results && s'.log == s.log && s'.now == s.now
    ensures s'.inFlight == s.inFlight - 1
    ensures RanOf(s', At(s, w).attempt) == RanOf(s, At(s, w).attempt) + At(s, w).callbacks
    decreases |At(s, w).callbacks|
  {
    var a, callbacks := At(s, w).attempt, At(s, w).callbacks;
    if callbacks == [] {
      events, s' := [Done(w)], Apply(s, Done(w));
      OneStep(s, Done(w));
      assert RanOf(s, a) + [] == RanOf(s, a);
    } else {
      var mid := Apply(s, RunCallback(w));
      var more;
      more, s' := CanFinish(mid, w);
      OneStep(s, RunCallback(w));
      events := [RunCallback(w)] + more;
      LeadsOn(s, [RunCallback(w)], mid, more, s');
      assert RanOf(s, a) + [callbacks[0]] + callbacks[1..] == RanOf(s, a) + callbacks;
    }
  }

  /** The next request can be committed with whatever its step stages: its results stored,
      its new children inserted, its callbacks run. */
  lemma NextCanCommit(s: State, w: WorkerId, buffer: Buffer) returns (events: seq<Event>, s': State)
    requires Inv(s) && IdleIn(s, w) && NextPending(s.rows, s.now).Some? && ChildrenOf(NextPending(s.rows, s.now).value, buffer)
    ensures Leads(s, events, s') && Inv(s')
    ensures var id := NextPending(s.rows, s.now).value;
            && IdleIn(s', w) && s'.inFlight == s.inFlight
            && |s'.rows| == |s.rows| + |New(s.rows[id := Requests.Claimed(s.rows[id], s.now)], buffer.requests)|
            && s'.rows[id].status == Completed
            && s'.results == s.results + ResultRows(id, buffer.results)
            && s'.log == s.log + [Commit(id, s.nextAttempt, buffer)]
            && RanOf(s', s.nextAttempt) == buffer.callbacks
  {
    var id := NextPending(s.rows, s.now).value;
    var held := CanClaim(s, w);
    var staged := Apply(held, Stage(w, buffer));
    var flushed := Apply(staged, Flush(w));
    OneStep(held, Stage(w, buffer));
    OneStep(staged, Flush(w));
    LeadsOn(held, [Stage(w, buffer)], staged, [Flush(w)], flushed);
    var more;
    more, s' := CanFinish(flushed, w);
    LeadsOn(held, [Stage(w, buffer)] + [Flush(w)], flushed, more, s');
    LeadsOn(s, ClaimEvents(w), held, [Stage(w, buffer)] + [Flush(w)] + more, s');
    events := ClaimEvents(w) + ([Stage(w, buffer)] + [Flush(w)] + more);
    LeadsHolds(s, events, s');
    assert [] + buffer.callbacks == buffer.callbacks;
  }

  /** The row after its claim was settled so, column by column: claimed now, and completed,
      failed or put off now. */
  predicate SettledAs(config: Retry.Config, now: int, row: Row, row': Row, e: Event) {
    match e
    case Complete(_) =>
      row' == Row(row.insert, Completed, Some(now), Some(now), row.lastError, row.retryCount, row.cumulativeBackoff)
    case Fail(_, error) =>
      row' == Row(row.insert, Failed, Some(now), Some(now), Some(error), row.retryCount, row.cumulativeBackoff)
    case RetryLater(_, failure, error) =>
      var delay := Retry.Delay(config, row.retryCount, failure);
      row' == Row(row.insert, Pending, Some(now + DelayMillis(delay)), row.completedAt, Some(error),
                  row.retryCount + 1, row.cumulativeBackoff + delay)
    case _ => false
  }

  lemma HolderCanSettle(s: State, w: WorkerId, e: Event, row: Row) returns (s': State)
    requires At(s, w).Holding? && At(s, w).id < |s.rows| && s.rows[At(s, w).id] == Requests.Claimed(row, s.now)
    requires (e.Complete? || e.Fail? || e.RetryLater?) && e.w == w
    requires e.RetryLater? ==> e.failure.Valid() && Retry.Retried(s.config, RetryStateOf(row), e.failure).Some?
    ensures Leads(s, [e, Done(w)], s')
    ensures s' == s.(workers := s.workers[w := Idle], rows := s'.rows, inFlight := s.inFlight - 1)
    ensures OnlyRow(s.rows, s'.rows, At(s, w).id) && SettledAs(s.config, s.now, row, s'.rows[At(s, w).id], e)
  {
    s' := Apply(Apply(s, e), Done(w));
    TwoSteps(s, e, Done(w));
  }

  /** It can be completed without writes, failed, or - the budget permitting - put off. */
  lemma NextCanSettle(s: State, w: WorkerId, e: Event) returns (s': State)
    requires Inv(s) && IdleIn(s, w) && NextPending(s.rows, s.now).Some?
    requires (e.Complete? || e.Fail? || e.RetryLater?) && e.w == w
    requires e.RetryLater? ==>
               e.failure.Valid() && Retry.Retried(s.config, RetryStateOf(s.rows[NextPending(s.rows, s.now).value]), e.failure).Some?
    ensures Leads(s, ClaimEvents(w) + [e, Done(w)], s') && Inv(s')
    ensures var id := NextPending(s.rows, s.now).value;
            && IdleIn(s', w) && s'.inFlight == s.inFlight && s'.now == s.now
            && OnlyRow(s.rows, s'.rows, id) && SettledAs(s.config, s.now, s.rows[id], s'.rows[id], e)
  {
    var id := NextPending(s.rows, s.now).value;
    var held := CanClaim(s, w);
    s' := HolderCanSettle(held, w, e, s.rows[id]);
    LeadsOn(s, ClaimEvents(w), held, [e, Done(w)], s');
    LeadsHolds(s, ClaimEvents(w) + [e, Done(w)], s');
  }

  lemma DequeuedCanFail(s: State, w: WorkerId, error: string, committed: bool) returns (s': State)
    requires At(s, w).Dequeued?
    ensures Leads(s, [Unreadable(w), UnreadableMarked(w, error, committed)] + [Raise(w)], s')
    ensures s' == s.(workers := s.workers[w := Idle], inFlight := s.inFlight - 1,
                     rows := if committed then MarkedFailed(s.rows, At(s, w).id, s.now, error) else s.rows)
  {
    var marked := Apply(Apply(s, Unreadable(w)), UnreadableMarked(w, error, committed));
    TwoSteps(s, Unreadable(w), UnreadableMarked(w, error, committed));
    s' := Apply(marked, Raise(w));
    OneStep(marked, Raise(w));
    LeadsOn(s, [Unreadable(w), UnreadableMarked(w, error, committed)], marked, [Raise(w)], s');
  }

  /** A row that cannot be read back can be marked FAILED, or stay in progress; one that
      fails validation stays in progress. */
  lemma NextCanBeUnreadable(s: State, w: WorkerId, error: string, committed: bool) returns (failed: State, invalid: State)
    requires IdleIn(s, w) && NextPending(s.rows, s.now).Some? && |s.accounts| == |s.rows|
    ensures Leads(s, [Begin(w), DequeueCommits(w)] + ([Unreadable(w), UnreadableMarked(w, error, committed)] + [Raise(w)]), failed)
    ensures Leads(s, [Begin(w), DequeueCommits(w)] + [RowInvalid(w)], invalid)
    ensures var id := NextPending(s.rows, s.now).value;
            && IdleIn(failed, w) && failed.inFlight == s.inFlight && OnlyRow(s.rows, failed.rows, id)
            && failed.rows[id].status == (if committed then Failed else InProgress)
            && IdleIn(invalid, w) && invalid.inFlight == s.inFlight && OnlyRow(s.rows, invalid.rows, id)
            && invalid.rows[id].status == InProgress
  {
    var dequeued := CanDequeue(s, w);
    invalid := Apply(dequeued, RowInvalid(w));
    OneStep(dequeued, RowInvalid(w));
    LeadsOn(s, [Begin(w), DequeueCommits(w)], dequeued, [RowInvalid(w)], invalid);
    failed := DequeuedCanFail(dequeued, w, error, committed);
    LeadsOn(s, [Begin(w), DequeueCommits(w)], dequeued, [Unreadable(w), UnreadableMarked(w, error, committed)] + [Raise(w)], failed);
  }

  /** With nothing ready, or a dequeue that fails, a worker comes back idle and nothing has
      changed. */
  lemma CanComeBackEmpty(s: State, w: WorkerId)
    requires IdleIn(s, w)
    ensures Leads(s, [Begin(w), DequeueFails(w)], s)
    ensures NextPending(s.rows, s.now).None? ==> Leads(s, [Begin(w), DequeueCommits(w)] + [ReturnNone(w)], s)
  {
    TwoSteps(s, Begin(w), DequeueFails(w));
    assert Apply(Apply(s, Begin(w)), DequeueFails(w)) == s;
    if NextPending(s.rows, s.now).None? {
      var empty := Apply(Apply(s, Begin(w)), DequeueCommits(w));
      TwoSteps(s, Begin(w), DequeueCommits(w));
      OneStep(empty, ReturnNone(w));
      assert Apply(empty, ReturnNone(w)) == s;
      LeadsOn(s, [Begin(w), DequeueCommits(w)], empty, [ReturnNone(w)], s);
    }
  }

  /** After a crash the run can be opened again, with parameters of its own, and seeded. */
  lemma CanReopen(s: State, config: Retry.Config, insert: RequestInsert) returns (s': State)
    requires config.Valid() && insert.parent.None?
    ensures Leads(s, [Crash, Open(config)] + [Seed(insert)], s')
    ensures s'.workers == map[] && s'.inFlight == 0 && s'.config == config && s'.rows == Inserted(s.rows, insert).0
  {
    TwoSteps(s, Crash, Open(config));
    var reopened := Apply(Apply(s, Crash), Open(config));
    s' := Apply(reopened, Seed(insert));
    OneStep(reopened, Seed(insert));
    LeadsOn(s, [Crash, Open(config)], reopened, [Seed(insert)], s');
  }

  /** A holder can add to what it has staged, or start over; and restamp its row's start,
      and nothing else of it. */
  lemma HolderMay(s: State, w: WorkerId, buffer: Buffer) returns (staged: State, restamped: State)
    requires ClaimsAreExclusive(s) && At(s, w).Holding?
    requires Extends(At(s, w).buffer, buffer) && ChildrenOf(At(s, w).id, buffer)
    ensures Leads(s, [Stage(w, buffer)], staged) && Leads(s, [Restamp(w)], restamped)
    ensures staged == s.(workers := s.workers[w := At(s, w).(buffer := buffer)])
    ensures var id := At(s, w).id;
            && id < |s.rows| && OnlyRow(s.rows, restamped.rows, id) && restamped.workers == s.workers
            && var row := s.rows[id];
            restamped.rows[id] == Row(row.insert, InProgress, Some(s.now), row.completedAt, row.lastError, row.retryCount, row.cumulativeBackoff)
  {
    staged, restamped := Apply(s, Stage(w, buffer)), Apply(s, Restamp(w));
    OneStep(s, Stage(w, buffer));
    OneStep(s, Restamp(w));
  }

  /** It can insert a probe by itself, and give up, which strands its row. */
  lemma HolderMayGo(s: State, w: WorkerId, insert: RequestInsert) returns (probed: State, gone: State)
    requires ClaimsAreExclusive(s) && At(s, w).Holding? && insert.parent.None?
    ensures Leads(s, [Probe(w, insert)], probed) && Leads(s, [Abandon(w)], gone)
    ensures probed.rows == Inserted(s.rows, insert).0 && probed.workers == s.workers && probed.log == s.log + [Direct(insert)]
    ensures gone.rows == s.rows && IdleIn(gone, w) && gone.inFlight == s.inFlight - 1 && At(s, w).id in Stranded(gone)
  {
    probed, gone := Apply(s, Probe(w, insert)), Apply(s, Abandon(w));
    OneStep(s, Probe(w, insert));
    OneStep(s, Abandon(w));
  }

  // --- No dead end ---------------------------------------------------------------------

  predicate AllSettled(t: Table) {
    forall i :: 0 <= i < |t| ==> t[i].status == Completed || t[i].status == Failed
  }

  predicate NoneRunning(t: Table) {
    forall i :: 0 <= i < |t| ==> t[i].status != InProgress
  }

  lemma {:induction false} FewerPending(t: Table, t': Table, id: nat)
    requires id < |t| == |t'| && t[id].status == Pending && t'[id].status == Completed
    requires forall i :: 0 <= i < |t| && i != id ==> t'[i] == t[i]
    ensures Count(t', Pending) == Count(t, Pending) - 1
  {
    var n := |t| - 1;
    if id < n {
      FewerPending(t[..n], t'[..n], id);
    } else {
      assert t[..n] == t'[..n];
    }
  }

  /** Whoever was not pending is as it was, and nobody is in progress. */
  predicate OnlyPendingMoved(t: Table, t': Table) {
    |t'| == |t| && NoneRunning(t') && forall i :: 0 <= i < |t| && t[i].status != Pending ==> t'[i] == t[i]
  }

  lemma OneCompleted(t: Table, t': Table, id: nat)
    requires NoneRunning(t) && id < |t| && t[id].status == Pending && OnlyRow(t, t', id) && t'[id].status == Completed
    ensures OnlyPendingMoved(t, t') && Count(t', Pending) < Count(t, Pending)
  {
    FewerPending(t, t', id);
  }

  /** Waiting until one is ready, an idle worker can complete it. */
  lemma CanCompleteOne(s: State, w: WorkerId) returns (events: seq<Event>, s': State)
    requires Inv(s) && IdleIn(s, w) && NoneRunning(s.rows) && UntilNextPending(s.rows, s.now).Some?
    ensures Leads(s, events, s') && Inv(s') && IdleIn(s', w)
    ensures OnlyPendingMoved(s.rows, s'.rows) && Count(s'.rows, Pending) < Count(s.rows, Pending)
  {
    WaitAgreesWithDequeue(s.rows, s.now);
    var wait := UntilNextPending(s.rows, s.now).value;
    var ready := Apply(s, Tick(wait));
    OneStep(s, Tick(wait));
    StepHolds(s, Tick(wait));
    s' := NextCanSettle(ready, w, Complete(w));
    OneCompleted(s.rows, s'.rows, NextPending(ready.rows, ready.now).value);
    events := [Tick(wait)] + (ClaimEvents(w) + [Complete(w), Done(w)]);
    LeadsOn(s, [Tick(wait)], ready, ClaimEvents(w) + [Complete(w), Done(w)], s');
  }

  /** So it can complete whatever is pending. */
  lemma {:induction false} CanDrain(s: State, w: WorkerId) returns (events: seq<Event>, s': State)
    requires Inv(s) && IdleIn(s, w) && NoneRunning(s.rows)
    ensures Leads(s, events, s') && AllSettled(s'.rows) && OnlyPendingMoved(s.rows, s'.rows)
    decreases Count(s.rows, Pending)
  {
    if UntilNextPending(s.rows, s.now).None? {
      UntilNextPendingIsMinimum(s.rows, s.now);
      return [], s;
    }
    var first, mid := CanCompleteOne(s, w);
    var more;
    more, s' := CanDrain(mid, w);
    events := first + more;
    LeadsOn(s, first, mid, more, s');
  }

  /** From every state of every run - after a crash, a release and a worker's start - all
      that was left can be completed: no row is ever lost to the queue. */
  lemma NoDeadEnd(trace: seq<State>, i: nat) returns (events: seq<Event>, s': State)
    requires Run(trace) && i < |trace|
    ensures Leads(trace[i], events, s') && AllSettled(s'.rows) && |s'.rows| == |trace[i].rows|
    ensures forall k :: 0 <= k < |s'.rows| && (trace[i].rows[k].status == Completed || trace[i].rows[k].status == Failed) ==>
              s'.rows[k] == trace[i].rows[k]
  {
    var s := trace[i];
    RunHolds(trace, i);
    var crashed := Apply(s, Crash);
    var released := Apply(crashed, Release);
    var ready := Apply(released, Spawn(0));
    OneStep(s, Crash);
    OneStep(crashed, Release);
    OneStep(released, Spawn(0));
    LeadsOn(crashed, [Release], released, [Spawn(0)], ready);
    LeadsOn(s, [Crash], crashed, [Release] + [Spawn(0)], ready);
    LeadsHolds(s, [Crash] + ([Release] + [Spawn(0)]), ready);
    var more;
    more, s' := CanDrain(ready, 0);
    events := [Crash] + ([Release] + [Spawn(0)]) + more;
    LeadsOn(s, [Crash] + ([Release] + [Spawn(0)]), ready, more, s');
  }
}
