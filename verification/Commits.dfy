/** What the queue protocol leaves in the database: over any run, however it is
    interrupted, the results and the requests are exactly those of the flushed
    buffers, each landing whole and once, and callbacks follow their commit. */
module Commits {
  import opened Wrappers
  import opened Requests
  import opened Staging
  import opened Protocol
  import Retry

  // --- Replaying the log --------------------------------------------------------

  /** The rows the logged entries insert, one entry after another. */
  function LoggedRows(log: seq<Entry>): Table {
    if log == [] then []
    else
      var before := LoggedRows(log[..|log| - 1]);
      match log[|log| - 1]
      case Commit(_, _, buffer) => before + NewRows(New(before, buffer.requests))
      case Direct(insert) => Inserted(before, insert).0
  }

  /** The results the logged commits store, in order. */
  function LoggedResults(log: seq<Entry>): seq<ResultRow> {
    if log == [] then []
    else
      LoggedResults(log[..|log| - 1]) +
      match log[|log| - 1]
      case Commit(id, _, buffer) => ResultRows(id, buffer.results)
      case Direct(_) => []
  }

  predicate SameInserts(t: Table, t': Table) {
    |t| == |t'| && forall i :: 0 <= i < |t| ==> t[i].insert == t'[i].insert
  }

  lemma {:induction false} SameKeys(t: Table, t': Table, key: string)
    requires SameInserts(t, t')
    ensures FindByKey(t, key) == FindByKey(t', key)
  {
    if t != [] {
      SameKeys(t[..|t| - 1], t'[..|t'| - 1], key);
    }
  }

  /** What is new depends only on what was inserted, not on any status. */
  lemma {:induction false} SameNew(t: Table, t': Table, staged: seq<StagedRequest>)
    requires SameInserts(t, t')
    ensures New(t, staged) == New(t', staged)
  {
    if staged != [] {
      SameNew(t, t', staged[..|staged| - 1]);
      var key := staged[|staged| - 1].insert.key;
      if key.Some? {
        SameKeys(t, t', key.value);
      }
    }
  }

  /** The tables are what the log replays to. */
  ghost predicate Replays(s: State) {
    SameInserts(s.rows, LoggedRows(s.log)) && s.results == LoggedResults(s.log)
  }

  predicate InsertsNothing(e: Event) {
    !e.Flush? && !e.Probe? && !e.Seed?
  }

  ghost predicate InsertedNothing(s: State, s': State) {
    SameInserts(s'.rows, s.rows) && s'.log == s.log && s'.results == s.results
  }

  lemma MoveInsertsNothing(s: State, e: Event)
    requires Enabled(s, e) && InsertsNothing(e) && MovesOne(e)
    ensures InsertedNothing(s, Apply(s, e))
  {
  }

  lemma StatusStepInsertsNothing(s: State, e: Event)
    requires Enabled(s, e) && InsertsNothing(e)
    ensures InsertedNothing(s, Apply(s, e))
  {
    if MovesOne(e) {
      MoveInsertsNothing(s, e);
    }
  }

  lemma InsertReplays(s: State, insert: RequestInsert)
    requires Replays(s)
    ensures Replays(InsertOne(s, insert))
  {
  }

  lemma FlushReplays(s: State, w: WorkerId)
    requires Replays(s) && At(s, w).Holding?
    ensures Replays(FlushStep(s, w))
  {
    var s' := FlushStep(s, w);
    assert s'.log[..|s'.log| - 1] == s.log;
    SameNew(s.rows, LoggedRows(s.log), At(s, w).buffer.requests);
  }

  lemma StepReplays(s: State, e: Event)
    requires Enabled(s, e) && Replays(s)
    ensures Replays(Apply(s, e))
  {
    if e.Probe? || e.Seed? {
      InsertReplays(s, e.insert);
    } else if e.Flush? {
      FlushReplays(s, e.w);
    } else {
      StatusStepInsertsNothing(s, e);
    }
  }

  // --- Commits are final --------------------------------------------------------

  /** A committed request is COMPLETED, and its children carry its id. */
  predicate CommitStands(s: State, commit: Entry)
    requires commit.Commit?
  {
    && commit.id < |s.rows| && s.rows[commit.id].status.Completed?
    && commit.attempt < s.nextAttempt && ChildrenOf(commit.id, commit.buffer)
  }

  /** Every commit stands, and no request and no attempt commits twice. */
  ghost predicate CommitsAreFinal(s: State) {
    && (forall i :: 0 <= i < |s.log| && s.log[i].Commit? ==> CommitStands(s, s.log[i]))
    && (forall i, j :: 0 <= i < j < |s.log| && s.log[i].Commit? && s.log[j].Commit? ==>
          s.log[i].id != s.log[j].id && s.log[i].attempt != s.log[j].attempt)
    && (forall i :: 0 <= i < |s.log| && s.log[i].Direct? ==> s.log[i].insert.parent.None?)
  }

  predicate HasAttempt(p: Phase) {
    Claims(p) || p.Settled?
  }

  predicate HasCommitted(log: seq<Entry>, a: Attempt) {
    exists i :: 0 <= i < |log| && log[i].Commit? && log[i].attempt == a
  }

  /** A claim's attempt is begun, not committed, and staging its own children. */
  predicate AttemptIsLive(s: State, p: Phase) {
    && (HasAttempt(p) ==> p.attempt < s.nextAttempt)
    && (Claims(p) ==> !HasCommitted(s.log, p.attempt))
    && (p.Holding? ==> ChildrenOf(p.id, p.buffer))
  }

  ghost predicate AttemptsAreLive(s: State) {
    && (forall w :: w in s.workers ==> AttemptIsLive(s, s.workers[w]))
    && (forall v, w :: v in s.workers && w in s.workers && v != w && HasAttempt(s.workers[v]) && HasAttempt(s.workers[w]) ==>
          s.workers[v].attempt != s.workers[w].attempt)
  }

  /** A step that logs nothing and leaves every completed row completed. */
  ghost predicate LeavesCompleted(s: State, s': State) {
    && s'.log == s.log && s'.nextAttempt >= s.nextAttempt && |s'.rows| >= |s.rows|
    && forall i :: 0 <= i < |s.rows| && s.rows[i].status.Completed? ==> s'.rows[i].status.Completed?
  }

  lemma StatusStepLeavesCompleted(s: State, e: Event)
    requires Enabled(s, e) && InsertsNothing(e) && ClaimsAreExclusive(s)
    ensures LeavesCompleted(s, Apply(s, e))
  {
  }

  lemma StepKeepsCommits(s: State, e: Event)
    requires Enabled(s, e) && CommitsAreFinal(s) && AttemptsAreLive(s) && ClaimsAreExclusive(s)
    ensures CommitsAreFinal(Apply(s, e))
  {
    if e.Probe? || e.Seed? {
    } else if e.Flush? {
    } else {
      StatusStepLeavesCompleted(s, e);
    }
  }

  // --- Attempts -----------------------------------------------------------------

  /** At most one worker moved, and its attempt is the one it had, or a new one. */
  predicate AttemptMoved(s: State, w: WorkerId, s': State) {
    && w in s.workers && w in s'.workers && s'.workers == s.workers[w := s'.workers[w]]
    && s'.nextAttempt >= s.nextAttempt
    && (HasAttempt(s'.workers[w]) ==>
        || s'.workers[w].attempt == s.nextAttempt < s'.nextAttempt
        || (HasAttempt(s.workers[w]) && s'.workers[w].attempt == s.workers[w].attempt))
  }

  lemma MoveKeepsAttempts(s: State, w: WorkerId, s': State)
    requires AttemptsAreLive(s) && AttemptMoved(s, w, s') && AttemptIsLive(s', s'.workers[w])
    requires forall a | HasCommitted(s'.log, a) && !HasCommitted(s.log, a) :: HasAttempt(s.workers[w]) && s.workers[w].attempt == a
    ensures AttemptsAreLive(s')
  {
  }

  predicate MovesAttempt(e: Event) {
    MovesOne(e) || e.DequeueCommits?
  }

  lemma NewAttemptIsUncommitted(s: State)
    requires CommitsAreFinal(s)
    ensures !HasCommitted(s.log, s.nextAttempt)
  {
  }

  lemma MovedPhaseIsLive(s: State, e: Event)
    requires Enabled(s, e) && MovesAttempt(e) && !e.Flush?
    requires AttemptsAreLive(s) && CommitsAreFinal(s)
    ensures AttemptIsLive(Apply(s, e), Apply(s, e).workers[e.w])
  {
    assert AttemptIsLive(s, s.workers[e.w]);
    NewAttemptIsUncommitted(s);
  }

  lemma FlushKeepsAttempts(s: State, w: WorkerId)
    requires AttemptsAreLive(s) && At(s, w).Holding?
    ensures AttemptsAreLive(FlushStep(s, w))
  {
  }

  lemma InsertKeepsAttempts(s: State, insert: RequestInsert)
    requires AttemptsAreLive(s)
    ensures AttemptsAreLive(InsertOne(s, insert))
  {
  }

  lemma OthersKeepAttempts(s: State, e: Event)
    requires Enabled(s, e) && !MovesAttempt(e) && !e.Probe? && !e.Seed? && AttemptsAreLive(s)
    ensures AttemptsAreLive(Apply(s, e))
  {
  }

  lemma StepKeepsAttempts(s: State, e: Event)
    requires Enabled(s, e) && AttemptsAreLive(s) && CommitsAreFinal(s)
    ensures AttemptsAreLive(Apply(s, e))
  {
    if e.Flush? {
      FlushKeepsAttempts(s, e.w);
    } else if MovesAttempt(e) {
      MovedPhaseIsLive(s, e);
      StatusStepInsertsNothing(s, e);
      MoveKeepsAttempts(s, e.w, Apply(s, e));
    } else if e.Probe? || e.Seed? {
      InsertKeepsAttempts(s, e.insert);
    } else {
      OthersKeepAttempts(s, e);
    }
  }

  // --- Callbacks ----------------------------------------------------------------

  /** The attempt committed a buffer with these callbacks. */
  predicate Promised(log: seq<Entry>, a: Attempt, callbacks: seq<Callback>) {
    exists i :: 0 <= i < |log| && log[i].Commit? && log[i].attempt == a && log[i].buffer.callbacks == callbacks
  }

  /** What ran and what is left to run make up what was promised. */
  predicate Owes(s: State, p: Phase) {
    p.Settled? && p.callbacks != [] ==>
      p.attempt in s.ran && Promised(s.log, p.attempt, s.ran[p.attempt] + p.callbacks)
  }

  /** Some callbacks may be lost to a crash, but what ran is a first part, in order. */
  ghost predicate RanInOrder(s: State, a: Attempt) {
    a in s.ran ==> exists rest :: Promised(s.log, a, s.ran[a] + rest)
  }

  ghost predicate CallbacksFollowCommits(s: State) {
    && (forall a :: RanInOrder(s, a))
    && (forall w :: w in s.workers ==> Owes(s, s.workers[w]))
  }

  lemma PromisesStand(log: seq<Entry>, log': seq<Entry>, a: Attempt, callbacks: seq<Callback>)
    requires log <= log' && Promised(log, a, callbacks)
    ensures Promised(log', a, callbacks)
  {
  }

  /** Nothing runs; no worker owes more than it did. */
  ghost predicate RunsNothing(s: State, s': State) {
    && s.log <= s'.log && s'.ran == s.ran
    && forall w :: w in s'.workers && s'.workers[w].Settled? && s'.workers[w].callbacks != [] ==>
         w in s.workers && s'.workers[w] == s.workers[w]
  }

  lemma StepRunsNothing(s: State, e: Event)
    requires Enabled(s, e) && !e.Flush? && !e.RunCallback?
    ensures RunsNothing(s, Apply(s, e))
  {
  }

  lemma RunningNothingKeepsCallbacks(s: State, s': State)
    requires CallbacksFollowCommits(s) && RunsNothing(s, s')
    ensures CallbacksFollowCommits(s')
  {
    forall a | a in s'.ran
      ensures RanInOrder(s', a)
    {
      assert RanInOrder(s, a);
      var rest :| Promised(s.log, a, s.ran[a] + rest);
      PromisesStand(s.log, s'.log, a, s.ran[a] + rest);
    }
    forall w | w in s'.workers
      ensures Owes(s', s'.workers[w])
    {
      var p := s'.workers[w];
      if p.Settled? && p.callbacks != [] {
        assert Owes(s, s.workers[w]);
        PromisesStand(s.log, s'.log, p.attempt, s.ran[p.attempt] + p.callbacks);
      }
    }
  }

  /** Only worker `w` and the record of its own attempt changed. */
  ghost predicate RunsOwn(s: State, w: WorkerId, s': State, a: Attempt, rest: seq<Callback>) {
    && w in s.workers && HasAttempt(s.workers[w]) && s.workers[w].attempt == a
    && s'.workers == s.workers[w := Settled(a, rest)]
    && a in s'.ran && s'.ran == s.ran[a := s'.ran[a]] && s.log <= s'.log
    && Promised(s'.log, a, s'.ran[a] + rest)
  }

  lemma RunningOwnKeepsCallbacks(s: State, w: WorkerId, s': State, a: Attempt, rest: seq<Callback>)
    requires CallbacksFollowCommits(s) && AttemptsAreLive(s) && RunsOwn(s, w, s', a, rest)
    ensures CallbacksFollowCommits(s')
  {
    forall b | b in s'.ran
      ensures RanInOrder(s', b)
    {
      assert RanInOrder(s, b);
      if b != a {
        var others :| Promised(s.log, b, s.ran[b] + others);
        PromisesStand(s.log, s'.log, b, s.ran[b] + others);
      }
    }
    forall v | v in s'.workers
      ensures Owes(s', s'.workers[v])
    {
      var p := s'.workers[v];
      if v != w && p.Settled? && p.callbacks != [] {
        assert Owes(s, s.workers[v]);
        PromisesStand(s.log, s'.log, p.attempt, s.ran[p.attempt] + p.callbacks);
      }
    }
  }

  lemma FlushPromises(s: State, w: WorkerId)
    requires At(s, w).Holding?
    ensures RunsOwn(s, w, FlushStep(s, w), At(s, w).attempt, At(s, w).buffer.callbacks)
  {
    var s' := FlushStep(s, w);
    assert s'.log[|s.log|] == Commit(At(s, w).id, At(s, w).attempt, At(s, w).buffer);
    assert [] + At(s, w).buffer.callbacks == At(s, w).buffer.callbacks;
  }

  lemma CallbackRuns(s: State, w: WorkerId)
    requires Enabled(s, RunCallback(w)) && CallbacksFollowCommits(s)
    ensures RunsOwn(s, w, Apply(s, RunCallback(w)), At(s, w).attempt, At(s, w).callbacks[1..])
  {
  }

  lemma StepKeepsCallbacks(s: State, e: Event)
    requires Enabled(s, e) && CallbacksFollowCommits(s) && AttemptsAreLive(s)
    ensures CallbacksFollowCommits(Apply(s, e))
  {
    if e.Flush? {
      FlushPromises(s, e.w);
      RunningOwnKeepsCallbacks(s, e.w, Apply(s, e), At(s, e.w).attempt, At(s, e.w).buffer.callbacks);
    } else if e.RunCallback? {
      CallbackRuns(s, e.w);
      RunningOwnKeepsCallbacks(s, e.w, Apply(s, e), At(s, e.w).attempt, At(s, e.w).callbacks[1..]);
    } else {
      StepRunsNothing(s, e);
      RunningNothingKeepsCallbacks(s, Apply(s, e));
    }
  }
}
