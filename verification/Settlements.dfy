/** Runs told by their events: what a row's status and retry count owe to the events
    that settled it, and what becomes of every claim. */
module Settlements {
  import opened Wrappers
  import opened Requests
  import opened Protocol
  import opened Commits
  import opened Runs

  /** A run with the event of each step. */
  ghost predicate Told(trace: seq<State>, events: seq<Event>) {
    && |trace| == |events| + 1 && Init(trace[0])
    && forall i :: 0 <= i < |events| ==> Enabled(trace[i], events[i]) && trace[i + 1] == Apply(trace[i], events[i])
  }

  lemma ToldIsRun(trace: seq<State>, events: seq<Event>)
    requires Told(trace, events)
    ensures Run(trace)
  {
    forall i | 0 <= i < |trace| - 1
      ensures Step(trace[i], trace[i + 1])
    {
      assert Enabled(trace[i], events[i]);
    }
  }

  datatype Kind = ToClaim | ToComplete | ToFail | ToRetry

  /** The worker claims, or settles the row it holds. */
  ghost predicate OfKind(s: State, e: Event, kind: Kind)
    requires Enabled(s, e)
  {
    match kind
    case ToClaim => e.DequeueCommits? && Apply(s, e).workers[e.w].Dequeued?
    case ToComplete => e.Flush? || e.Complete?
    case ToFail => e.Fail? || (e.UnreadableMarked? && e.committed)
    case ToRetry => e.RetryLater?
  }

  /** It settles this row. */
  ghost predicate Settles(s: State, e: Event, kind: Kind, id: nat)
    requires Enabled(s, e)
  {
    OfKind(s, e, kind) && !kind.ToClaim? && At(s, e.w).id == id
  }

  // --- One step -------------------------------------------------------------------

  /** A step completes, fails or retries no row but the one its event names. */
  lemma StepSettles(s: State, e: Event, id: nat)
    requires Enabled(s, e) && ClaimsAreExclusive(s) && |s.accounts| == |s.rows| && id < |Apply(s, e).rows|
    ensures var row := Apply(s, e).rows[id];
            && (row.status == Completed <==> (id < |s.rows| && s.rows[id].status == Completed) || Settles(s, e, ToComplete, id))
            && (row.status == Failed <==> (id < |s.rows| && s.rows[id].status == Failed) || Settles(s, e, ToFail, id))
            && row.retryCount == (if id < |s.rows| then s.rows[id].retryCount else 0) + if Settles(s, e, ToRetry, id) then 1 else 0
  {
    StepCompletes(s, e, id);
    StepFails(s, e, id);
    StepRetries(s, e, id);
  }

  lemma StepCompletes(s: State, e: Event, id: nat)
    requires Enabled(s, e) && ClaimsAreExclusive(s) && |s.accounts| == |s.rows| && id < |Apply(s, e).rows|
    ensures Apply(s, e).rows[id].status == Completed <==>
              (id < |s.rows| && s.rows[id].status == Completed) || Settles(s, e, ToComplete, id)
  {
  }

  lemma StepFails(s: State, e: Event, id: nat)
    requires Enabled(s, e) && ClaimsAreExclusive(s) && |s.accounts| == |s.rows| && id < |Apply(s, e).rows|
    ensures Apply(s, e).rows[id].status == Failed <==>
              (id < |s.rows| && s.rows[id].status == Failed) || Settles(s, e, ToFail, id)
  {
  }

  lemma StepRetries(s: State, e: Event, id: nat)
    requires Enabled(s, e) && ClaimsAreExclusive(s) && |s.accounts| == |s.rows| && id < |Apply(s, e).rows|
    ensures Apply(s, e).rows[id].retryCount ==
            (if id < |s.rows| then s.rows[id].retryCount else 0) + if Settles(s, e, ToRetry, id) then 1 else 0
  {
  }

  // --- One row over a run -----------------------------------------------------------

  /** How often the row was settled in that way. */
  ghost function Settlings(trace: seq<State>, events: seq<Event>, n: nat, kind: Kind, id: nat): nat
    requires Told(trace, events) && n <= |events|
  {
    if n == 0 then 0
    else Settlings(trace, events, n - 1, kind, id) + if Settles(trace[n - 1], events[n - 1], kind, id) then 1 else 0
  }

  lemma {:induction false} SettlingsOf(trace: seq<State>, events: seq<Event>, n: nat, id: nat)
    requires Told(trace, events) && n <= |events|
    ensures id < |trace[n].rows| ==>
              && (trace[n].rows[id].status == Completed <==> Settlings(trace, events, n, ToComplete, id) == 1)
              && (trace[n].rows[id].status == Failed <==> Settlings(trace, events, n, ToFail, id) == 1)
              && trace[n].rows[id].retryCount == Settlings(trace, events, n, ToRetry, id)
    ensures Settlings(trace, events, n, ToComplete, id) + Settlings(trace, events, n, ToFail, id) <= 1
    ensures id >= |trace[n].rows| ==> forall kind :: Settlings(trace, events, n, kind, id) == 0
  {
    if n > 0 {
      var s, e := trace[n - 1], events[n - 1];
      SettlingsOf(trace, events, n - 1, id);
      ToldIsRun(trace, events);
      RunHolds(trace, n - 1);
      assert Enabled(s, e) && trace[n - 1 + 1] == Apply(s, e);
      SettlesItsClaim(s, e, id);
      if id < |trace[n].rows| {
        StepSettles(s, e, id);
      }
    }
  }

  /** What is settled is a row in progress, in one way. */
  lemma SettlesItsClaim(s: State, e: Event, id: nat)
    requires Enabled(s, e) && ClaimsAreExclusive(s)
    ensures forall kind :: Settles(s, e, kind, id) ==> id < |s.rows| && s.rows[id].status == InProgress
    ensures |s.rows| <= |Apply(s, e).rows|
  {
  }

  lemma {:induction false} SomeSettling(trace: seq<State>, events: seq<Event>, n: nat, kind: Kind, id: nat)
    requires Told(trace, events) && n <= |events|
    ensures Settlings(trace, events, n, kind, id) > 0 <==> exists k :: 0 <= k < n && Settles(trace[k], events[k], kind, id)
  {
    if n > 0 {
      SomeSettling(trace, events, n - 1, kind, id);
      assert Settles(trace[n - 1], events[n - 1], kind, id) ==> Settlings(trace, events, n, kind, id) > 0;
    }
  }

  /** A row is COMPLETED exactly when an event completed it, FAILED exactly when one
      failed it, no row is both or either twice, and its retry count is the number of
      its retries. */
  lemma StatusIsTheEvents(trace: seq<State>, events: seq<Event>, n: nat, id: nat)
    requires Told(trace, events) && n <= |events| && id < |trace[n].rows|
    ensures var row := trace[n].rows[id];
            && (row.status == Completed <==> exists k :: 0 <= k < n && Settles(trace[k], events[k], ToComplete, id))
            && (row.status == Failed <==> exists k :: 0 <= k < n && Settles(trace[k], events[k], ToFail, id))
            && row.retryCount == Settlings(trace, events, n, ToRetry, id)
    ensures Settlings(trace, events, n, ToComplete, id) + Settlings(trace, events, n, ToFail, id) <= 1
  {
    SettlingsOf(trace, events, n, id);
    SomeSettling(trace, events, n, ToComplete, id);
    SomeSettling(trace, events, n, ToFail, id);
  }

  // --- All rows over a run ----------------------------------------------------------

  /** How many events of a kind the run has had. */
  ghost function Tally(trace: seq<State>, events: seq<Event>, n: nat, kind: Kind): nat
    requires Told(trace, events) && n <= |events|
  {
    if n == 0 then 0
    else Tally(trace, events, n - 1, kind) + if OfKind(trace[n - 1], events[n - 1], kind) then 1 else 0
  }

  /** How many rows its releases made pending again. */
  ghost function Recovered(trace: seq<State>, events: seq<Event>, n: nat): nat
    requires Told(trace, events) && n <= |events|
  {
    if n == 0 then 0
    else Recovered(trace, events, n - 1) + if events[n - 1].Release? then |Runs.Running(trace[n - 1].rows)| else 0
  }

  function One(b: bool): nat {
    if b then 1 else 0
  }

  /** One row changes, and others are only added. */
  lemma {:induction false} CountMoves(t: Table, t': Table, status: Status, id: nat)
    requires |t| <= |t'| && id < |t|
    requires forall i :: 0 <= i < |t| && i != id ==> (t'[i].status == status <==> t[i].status == status)
    requires forall i :: |t| <= i < |t'| ==> t'[i].status != status
    ensures Count(t', status) == Count(t, status) + One(t'[id].status == status) - One(t[id].status == status)
  {
    var init := t'[..|t'| - 1];
    if |t| < |t'| {
      CountMoves(t, init, status, id);
    } else if id < |t| - 1 {
      CountMoves(t[..|t| - 1], init, status, id);
    } else {
      CountSame(t[..|t| - 1], init, status);
    }
  }

  lemma {:induction false} CountSame(t: Table, t': Table, status: Status)
    requires |t| <= |t'|
    requires forall i :: 0 <= i < |t| ==> (t'[i].status == status <==> t[i].status == status)
    requires forall i :: |t| <= i < |t'| ==> t'[i].status != status
    ensures Count(t', status) == Count(t, status)
  {
    if |t| < |t'| {
      CountSame(t, t'[..|t'| - 1], status);
    } else if t != [] {
      CountSame(t[..|t| - 1], t'[..|t'| - 1], status);
    }
  }

  lemma {:induction false} RetriesMove(t: Table, t': Table, id: nat)
    requires |t| <= |t'|
    requires forall i :: 0 <= i < |t| && i != id ==> t'[i].retryCount == t[i].retryCount
    requires forall i :: |t| <= i < |t'| ==> t'[i].retryCount == 0
    ensures Retries(t') == Retries(t) + if id < |t| then t'[id].retryCount - t[id].retryCount else 0
  {
    if |t| < |t'| {
      RetriesMove(t, t'[..|t'| - 1], id);
    } else if t != [] {
      RetriesMove(t[..|t| - 1], t'[..|t'| - 1], id);
    }
  }

  /** The row an event settles, or none. */
  ghost function SettledRow(s: State, e: Event): nat
    requires Enabled(s, e)
  {
    if OfKind(s, e, ToComplete) || OfKind(s, e, ToFail) || OfKind(s, e, ToRetry) then At(s, e.w).id else |s.rows|
  }

  lemma StepTalliesStatus(s: State, e: Event, kind: Kind, status: Status)
    requires Enabled(s, e) && ClaimsAreExclusive(s) && |s.accounts| == |s.rows|
    requires (kind == ToComplete && status == Completed) || (kind == ToFail && status == Failed)
    ensures Count(Apply(s, e).rows, status) == Count(s.rows, status) + One(OfKind(s, e, kind))
  {
    var t, t', id := s.rows, Apply(s, e).rows, SettledRow(s, e);
    SettlesItsClaim(s, e, id);
    forall i | 0 <= i < |t'|
      ensures i >= |t| ==> t'[i].status != status
      ensures i < |t| && i != id ==> (t'[i].status == status <==> t[i].status == status)
      ensures i < |t| && i == id ==> (t'[i].status == status <==> OfKind(s, e, kind)) && t[i].status != status
    {
      SettlesItsClaim(s, e, i);
      StepSettles(s, e, i);
    }
    if id < |t| {
      CountMoves(t, t', status, id);
    } else {
      CountSame(t, t', status);
    }
  }

  lemma StepTalliesRetries(s: State, e: Event)
    requires Enabled(s, e) && ClaimsAreExclusive(s) && |s.accounts| == |s.rows|
    ensures Retries(Apply(s, e).rows) == Retries(s.rows) + One(OfKind(s, e, ToRetry))
  {
    var t, t', id := s.rows, Apply(s, e).rows, SettledRow(s, e);
    SettlesItsClaim(s, e, id);
    forall i | 0 <= i < |t'|
      ensures i >= |t| ==> t'[i].retryCount == 0
      ensures i < |t| ==> t'[i].retryCount == t[i].retryCount + One(i == id && OfKind(s, e, ToRetry))
    {
      SettlesItsClaim(s, e, i);
      StepSettles(s, e, i);
    }
    RetriesMove(t, t', id);
  }

  lemma {:induction false} ReleasesMove(a: seq<Account>, a': seq<Account>, t: Table)
    requires |a| == |a'| == |t|
    requires forall i :: 0 <= i < |t| ==> a'[i].releases == a[i].releases + One(t[i].status.InProgress?)
    ensures Releases(a') == Releases(a) + Count(t, InProgress)
  {
    if t != [] {
      ReleasesMove(a[..|a| - 1], a'[..|a| - 1], t[..|t| - 1]);
    }
  }

  lemma {:induction false} ReleasesSame(a: seq<Account>, a': seq<Account>)
    requires |a| <= |a'|
    requires forall i :: 0 <= i < |a| ==> a'[i].releases == a[i].releases
    requires forall i :: |a| <= i < |a'| ==> a'[i].releases == 0
    ensures Releases(a') == Releases(a)
  {
    if |a| < |a'| {
      ReleasesSame(a, a'[..|a'| - 1]);
    } else if a != [] {
      ReleasesSame(a[..|a| - 1], a'[..|a'| - 1]);
    }
  }

  lemma OthersReleaseNothing(s: State, e: Event, i: nat)
    requires Enabled(s, e) && !e.Release? && |s.accounts| == |s.rows| && i < |Apply(s, e).accounts|
    ensures Apply(s, e).accounts[i].releases == if i < |s.accounts| then s.accounts[i].releases else 0
  {
  }

  lemma StepTalliesReleases(s: State, e: Event)
    requires Enabled(s, e) && |s.accounts| == |s.rows|
    ensures Releases(Apply(s, e).accounts) == Releases(s.accounts) + if e.Release? then |Runs.Running(s.rows)| else 0
  {
    var a, a' := s.accounts, Apply(s, e).accounts;
    if e.Release? {
      ReleasesMove(a, a', s.rows);
      CountIsCardinality(s.rows);
    } else {
      StepKeepsLength(s, e);
      forall i | 0 <= i < |a'|
        ensures a'[i].releases == if i < |a| then a[i].releases else 0
      {
        OthersReleaseNothing(s, e, i);
      }
      ReleasesSame(a, a');
    }
  }

  lemma StepKeepsLength(s: State, e: Event)
    requires Enabled(s, e) && |s.accounts| == |s.rows|
    ensures |s.accounts| <= |Apply(s, e).accounts|
  {
  }

  lemma StepTalliesClaims(s: State, e: Event)
    requires Enabled(s, e)
    ensures Apply(s, e).nextAttempt == s.nextAttempt + One(OfKind(s, e, ToClaim))
  {
  }

  lemma StepOf(trace: seq<State>, events: seq<Event>, n: nat)
    requires Told(trace, events) && n < |events|
    ensures Enabled(trace[n], events[n]) && trace[n + 1] == Apply(trace[n], events[n])
    ensures ClaimsAreExclusive(trace[n]) && |trace[n].accounts| == |trace[n].rows|
  {
    ToldIsRun(trace, events);
    RunHolds(trace, n);
  }

  lemma {:induction false} SettlementTallies(trace: seq<State>, events: seq<Event>, n: nat)
    requires Told(trace, events) && n <= |events|
    ensures Count(trace[n].rows, Completed) == Tally(trace, events, n, ToComplete)
    ensures Count(trace[n].rows, Failed) == Tally(trace, events, n, ToFail)
    ensures Retries(trace[n].rows) == Tally(trace, events, n, ToRetry)
  {
    if n > 0 {
      SettlementTallies(trace, events, n - 1);
      StepOf(trace, events, n - 1);
      StepTalliesStatus(trace[n - 1], events[n - 1], ToComplete, Completed);
      StepTalliesStatus(trace[n - 1], events[n - 1], ToFail, Failed);
      StepTalliesRetries(trace[n - 1], events[n - 1]);
    }
  }

  lemma {:induction false} ClaimTallies(trace: seq<State>, events: seq<Event>, n: nat)
    requires Told(trace, events) && n <= |events|
    ensures trace[n].nextAttempt == Tally(trace, events, n, ToClaim)
    ensures Releases(trace[n].accounts) == Recovered(trace, events, n)
  {
    if n > 0 {
      ClaimTallies(trace, events, n - 1);
      StepOf(trace, events, n - 1);
      StepTalliesClaims(trace[n - 1], events[n - 1]);
      StepTalliesReleases(trace[n - 1], events[n - 1]);
    }
  }

  /** Every claim ever committed was completed, failed, retried or released, is held, or
      is stranded - event by event; and as many rows are COMPLETED as events completed
      one, and FAILED as failed one. */
  lemma EveryClaimIsSettledOnce(trace: seq<State>, events: seq<Event>, n: nat)
    requires Told(trace, events) && n <= |events|
    ensures Tally(trace, events, n, ToClaim)
            == Tally(trace, events, n, ToComplete) + Tally(trace, events, n, ToFail) + Tally(trace, events, n, ToRetry)
               + Recovered(trace, events, n) + |HeldBy(trace[n])| + |Stranded(trace[n])|
    ensures Count(trace[n].rows, Completed) == Tally(trace, events, n, ToComplete)
    ensures Count(trace[n].rows, Failed) == Tally(trace, events, n, ToFail)
  {
    SettlementTallies(trace, events, n);
    ClaimTallies(trace, events, n);
    ToldIsRun(trace, events);
    ClaimsAreConserved(trace, n);
  }
}
