/** When interleaved compaction keeps every body: exactly when each guarded write that
    goes through carries the body its row holds - which distinct versions ensure, and
    distinct stamps ensure all the more. */
module CompactionBodies {
  import opened Wrappers
  import opened Bodies
  import opened Recompression
  import opened BodyStores
  import opened Compaction

  // --- One page of guarded writes -----------------------------------------------------

  predicate Increasing(updates: seq<PendingUpdate>) {
    forall k, m :: 0 <= k < m < |updates| ==> updates[k].id < updates[m].id
  }

  /** Each update writes its own row, if the guard finds it as it was in the table, and
      nothing else changes. */
  ghost predicate WrittenEach(rows: seq<BodyRow>, updates: seq<PendingUpdate>, target: nat, after: seq<BodyRow>) {
    && |after| == |rows|
    && (forall k :: 0 <= k < |updates| && Guard(rows, updates[k]) ==>
          after[updates[k].id] == Written(rows[updates[k].id], updates[k], target))
    && (forall i :: 0 <= i < |rows| && after[i] != rows[i] ==>
          exists k :: 0 <= k < |updates| && updates[k].id == i && Guard(rows, updates[k]))
  }

  lemma WrittenEachMore(rows: seq<BodyRow>, init: seq<PendingUpdate>, u: PendingUpdate, target: nat, o: Outcome)
    requires Increasing(init + [u]) && WrittenEach(rows, init, target, o.rows)
    ensures WrittenEach(rows, init + [u], target, GuardedWrite(o, u, target).rows)
  {
    var all, after := init + [u], GuardedWrite(o, u, target).rows;
    assert all[|init|] == u && forall k :: 0 <= k < |init| ==> all[k] == init[k] && init[k].id < u.id;
    assert u.id < |rows| ==> o.rows[u.id] == rows[u.id];
    forall i | 0 <= i < |rows| && after[i] != rows[i]
      ensures exists k :: 0 <= k < |all| && all[k].id == i && Guard(rows, all[k])
    {
      if o.rows[i] != rows[i] {
        var k :| 0 <= k < |init| && init[k].id == i && Guard(rows, init[k]);
        assert all[k].id == i;
      } else {
        assert all[|init|].id == i && Guard(rows, u);
      }
    }
  }

  lemma {:induction false} WritesEach(rows: seq<BodyRow>, updates: seq<PendingUpdate>, target: nat)
    requires Increasing(updates)
    ensures WrittenEach(rows, updates, target, GuardedWrites(rows, updates, target).rows)
  {
    if updates != [] {
      var init := updates[..|updates| - 1];
      WritesEach(rows, init, target);
      assert updates == init + [updates[|updates| - 1]];
      WrittenEachMore(rows, init, updates[|updates| - 1], target, GuardedWrites(rows, init, target));
    }
  }

  // --- Exactly when bodies are kept -----------------------------------------------------

  /** What an update brings. */
  function Brings(codec: Codec, s: State, target: Entry, u: PendingUpdate): Option<Bytes> {
    codec.decompress(DataOf(s.dictionaries, Some(target.id)), u.compressed)
  }

  /** Each update that goes through brings the body its row holds. */
  ghost predicate Carries(codec: Codec, s: State, e: Event) {
    e.WritePage? && e.t in s.tasks && s.tasks[e.t].Pending? ==>
      forall k :: 0 <= k < |s.tasks[e.t].updates| ==> CarriesOne(codec, s, s.tasks[e.t].target, s.tasks[e.t].updates[k])
  }

  predicate CarriesOne(codec: Codec, s: State, target: Entry, u: PendingUpdate) {
    Guard(s.rows, u) && u.id < |s.bodies| ==> Brings(codec, s, target, u) == s.bodies[u.id]
  }

  lemma OtherStepsKeepBodies(codec: Codec, s: State, e: Event)
    requires Enabled(codec, s, e) && Sane(codec, s) && Faithful(codec, s) && !e.WritePage?
    ensures Faithful(codec, Apply(codec, s, e))
  {
    var s' := Apply(codec, s, e);
    DictionariesGrow(codec, s, e);
    forall i | 0 <= i < |s'.rows|
      ensures Decoded(codec, s'.dictionaries, s'.rows[i]) == s'.bodies[i]
    {
      assert i < |s.rows| ==> RowReads(codec, s.dictionaries, s.rows[i]);
      if e.StoreBody? || e.NewPreresolvedRow? {
        assert TaskSane(codec, s.dictionaries, s.tasks[e.t]);
      }
    }
  }

  /** What a written row decodes to. */
  lemma WrittenRowBrings(codec: Codec, s: State, target: Entry, u: PendingUpdate, after: BodyRow)
    requires u.id < |s.rows| && target.id < |s.dictionaries| && after == Written(s.rows[u.id], u, target.id)
    ensures Decoded(codec, s.dictionaries, after) == Brings(codec, s, target, u)
  {
  }

  /** A guarded write that goes through loses the body exactly when it brings another. */
  lemma PageKeepsBodiesIffCarries(codec: Codec, s: State, target: Entry, updates: seq<PendingUpdate>, s': State)
    requires Faithful(codec, s) && target.id < |s.dictionaries| && WrittenEach(s.rows, updates, target.id, s'.rows)
    requires s'.dictionaries == s.dictionaries && s'.bodies == s.bodies
    ensures Faithful(codec, s') <==> forall k :: 0 <= k < |updates| ==> CarriesOne(codec, s, target, updates[k])
  {
    forall k | 0 <= k < |updates| && Guard(s.rows, updates[k])
      ensures Decoded(codec, s'.dictionaries, s'.rows[updates[k].id]) == Brings(codec, s, target, updates[k])
    {
      WrittenRowBrings(codec, s, target, updates[k], s'.rows[updates[k].id]);
    }
    if forall k :: 0 <= k < |updates| ==> CarriesOne(codec, s, target, updates[k]) {
      forall i | 0 <= i < |s'.rows|
        ensures Decoded(codec, s'.dictionaries, s'.rows[i]) == s'.bodies[i]
      {
        if s'.rows[i] != s.rows[i] {
          var k :| 0 <= k < |updates| && updates[k].id == i && Guard(s.rows, updates[k]);
          assert CarriesOne(codec, s, target, updates[k]);
        }
      }
    } else {
      var k :| 0 <= k < |updates| && !CarriesOne(codec, s, target, updates[k]);
      assert Decoded(codec, s'.dictionaries, s'.rows[updates[k].id]) != s'.bodies[updates[k].id];
    }
  }

  lemma WriteKeepsBodiesIffCarries(codec: Codec, s: State, t: TaskId)
    requires Enabled(codec, s, WritePage(t)) && Sane(codec, s) && Faithful(codec, s)
    ensures Faithful(codec, Apply(codec, s, WritePage(t))) <==> Carries(codec, s, WritePage(t))
  {
    var Pending(target, updates) := s.tasks[t];
    assert TaskSane(codec, s.dictionaries, s.tasks[t]);
    WritesEach(s.rows, updates, target.id);
    PageKeepsBodiesIffCarries(codec, s, target, updates, Apply(codec, s, WritePage(t)));
  }

  lemma StepKeepsBodiesIffCarries(codec: Codec, s: State, e: Event)
    requires Enabled(codec, s, e) && Sane(codec, s) && Faithful(codec, s)
    ensures Faithful(codec, Apply(codec, s, e)) <==> Carries(codec, s, e)
  {
    if e.WritePage? {
      WriteKeepsBodiesIffCarries(codec, s, e.t);
    } else {
      OtherStepsKeepBodies(codec, s, e);
    }
  }

  ghost predicate FaithfulThroughout(codec: Codec, s: State, events: seq<Event>)
    decreases |events|
  {
    Faithful(codec, s) &&
    (events != [] && Enabled(codec, s, events[0]) ==> FaithfulThroughout(codec, Apply(codec, s, events[0]), events[1..]))
  }

  ghost predicate CarriesThroughout(codec: Codec, s: State, events: seq<Event>)
    decreases |events|
  {
    events != [] && Enabled(codec, s, events[0]) && |s.bodies| == |s.rows| ==>
      Carries(codec, s, events[0]) && CarriesThroughout(codec, Apply(codec, s, events[0]), events[1..])
  }

  lemma {:induction false} RunKeepsBodiesIffCarries(codec: Codec, s: State, events: seq<Event>, s': State)
    requires codec.Sound() && Sane(codec, s) && Faithful(codec, s) && Leads(codec, s, events, s')
    ensures FaithfulThroughout(codec, s, events) <==> CarriesThroughout(codec, s, events)
    decreases |events|
  {
    if events != [] {
      StepKeepsSane(codec, s, events[0]);
      StepKeepsBodiesIffCarries(codec, s, events[0]);
      if Faithful(codec, Apply(codec, s, events[0])) {
        RunKeepsBodiesIffCarries(codec, Apply(codec, s, events[0]), events[1..], s');
      }
    }
  }

  /** Over every run of stores, lookups, trainings, passes and crashes, whatever the
      stamps: every row decodes to its last stored body throughout if and only if every
      guarded write that goes through brings the body its row holds. */
  lemma BodiesAreKeptIffWritesCarryThem(codec: Codec, s: State, events: seq<Event>, s': State)
    requires codec.Sound() && Init(codec, s) && Leads(codec, s, events, s')
    ensures FaithfulThroughout(codec, s, events) <==> CarriesThroughout(codec, s, events)
  {
    RunKeepsBodiesIffCarries(codec, s, events, s');
  }

  // --- Versions: what the guard compares ------------------------------------------------

  /** No step leaves a row under a version - row, stamp, compressed size - that stood
      for another body. */
  ghost predicate FreshVersions(codec: Codec, s: State, e: Event)
    requires Enabled(codec, s, e) && |s.bodies| == |s.rows|
  {
    var s' := Apply(codec, s, e);
    |s'.bodies| == |s'.rows| &&
    forall i :: 0 <= i < |s'.rows| && VersionOf(s'.rows, i) in s.held ==> s.held[VersionOf(s'.rows, i)] == s'.bodies[i]
  }

  /** Bytes of one version, that decode to its body. */
  predicate OfVersion(codec: Codec, s: State, v: Version, dictId: Option<nat>, data: Bytes) {
    v in s.held && codec.decompress(DataOf(s.dictionaries, dictId), data) == s.held[v]
  }

  ghost predicate TaskOfVersions(codec: Codec, s: State, task: Task) {
    match task
    case Read(_, page) => RowsOfVersions(codec, s, page)
    case Pending(target, updates) => UpdatesOfVersions(codec, s, target, updates)
    case _ => true
  }

  predicate PageRowOfVersion(codec: Codec, s: State, p: PageRow) {
    OfVersion(codec, s, (p.id, p.stamp, p.size), p.dictId, p.compressed)
  }

  ghost predicate RowsOfVersions(codec: Codec, s: State, page: seq<PageRow>) {
    forall k :: 0 <= k < |page| ==> PageRowOfVersion(codec, s, page[k])
  }

  ghost predicate UpdatesOfVersions(codec: Codec, s: State, target: Entry, updates: seq<PendingUpdate>) {
    forall k :: 0 <= k < |updates| ==>
      OfVersion(codec, s, (updates[k].id, updates[k].stamp, updates[k].previousSize), Some(target.id), updates[k].compressed)
  }

  ghost predicate VersionsHeld(s: State) {
    && |s.bodies| == |s.rows|
    && (forall i :: 0 <= i < |s.rows| ==> VersionOf(s.rows, i) in s.held && s.held[VersionOf(s.rows, i)] == s.bodies[i])
    && (forall v :: v in s.held ==> v.0 < |s.rows|)
  }

  ghost predicate TasksOfVersions(codec: Codec, s: State) {
    forall t :: t in s.tasks ==> TaskOfVersions(codec, s, s.tasks[t])
  }

  ghost predicate HeldGrows(s: State, s': State) {
    s.dictionaries <= s'.dictionaries && forall v :: v in s.held ==> v in s'.held && s'.held[v] == s.held[v]
  }

  lemma StepGrowsHeld(codec: Codec, s: State, e: Event)
    requires Enabled(codec, s, e) && VersionsHeld(s) && FreshVersions(codec, s, e)
    ensures HeldGrows(s, Apply(codec, s, e))
  {
    var s' := Apply(codec, s, e);
    DictionariesGrow(codec, s, e);
    if e.WritePage? {
      WriteGrowsHeld(s, s', Versions(s'.rows, s.bodies));
    } else if StoresRow(e) {
      StoreRecordsOne(codec, s, e);
    }
  }

  lemma WriteGrowsHeld(s: State, s': State, written: map<Version, Option<Bytes>>)
    requires s'.bodies == s.bodies && |s'.rows| == |s.bodies| && s'.dictionaries == s.dictionaries
    requires written == Versions(s'.rows, s.bodies) && s'.held == s.held + written
    requires forall i :: 0 <= i < |s'.rows| && VersionOf(s'.rows, i) in s.held ==> s.held[VersionOf(s'.rows, i)] == s.bodies[i]
    ensures HeldGrows(s, s')
  {
    forall v | v in s.held
      ensures v in s'.held && s'.held[v] == s.held[v]
    {
      if v in written {
        assert VersionOf(s'.rows, v.0) == v;
      }
    }
  }

  /** One row was stored or added, and its version recorded; or nothing of the kind. */
  ghost predicate RecordsOne(s: State, s': State, id: nat) {
    && id < |s'.rows| == |s'.bodies| && |s.bodies| == |s.rows| && |s.rows| <= |s'.rows| <= |s.rows| + 1 && (|s'.rows| > |s.rows| ==> id == |s.rows|)
    && (forall i :: 0 <= i < |s.rows| && i != id ==> s'.rows[i] == s.rows[i] && s'.bodies[i] == s.bodies[i])
    && s'.held == s.held[VersionOf(s'.rows, id) := s'.bodies[id]]
  }

  predicate StoresRow(e: Event) {
    e.NewRow? || e.NewPreresolvedRow? || e.StoreBody? || e.StoreNothing?
  }

  function RowOf(s: State, e: Event): nat
    requires StoresRow(e)
  {
    if e.StoreBody? || e.StoreNothing? then e.id else |s.rows|
  }

  lemma StoreRecordsOne(codec: Codec, s: State, e: Event)
    requires Enabled(codec, s, e) && |s.bodies| == |s.rows| && StoresRow(e)
    ensures RecordsOne(s, Apply(codec, s, e), RowOf(s, e))
  {
  }

  lemma RecordingHoldsVersions(s: State, s': State, id: nat)
    requires VersionsHeld(s) && RecordsOne(s, s', id)
    ensures VersionsHeld(s')
  {
    forall i | 0 <= i < |s'.rows|
      ensures VersionOf(s'.rows, i) in s'.held && s'.held[VersionOf(s'.rows, i)] == s'.bodies[i]
    {
      if i != id {
        assert VersionOf(s.rows, i) in s.held && s.held[VersionOf(s.rows, i)] == s.bodies[i];
      }
    }
  }

  lemma OtherStepsHoldVersions(codec: Codec, s: State, e: Event)
    requires Enabled(codec, s, e) && VersionsHeld(s) && !e.WritePage?
    ensures VersionsHeld(Apply(codec, s, e))
  {
    if StoresRow(e) {
      StoreRecordsOne(codec, s, e);
      RecordingHoldsVersions(s, Apply(codec, s, e), RowOf(s, e));
    }
  }

  lemma WriteHoldsVersions(codec: Codec, s: State, t: TaskId)
    requires Enabled(codec, s, WritePage(t)) && VersionsHeld(s)
    ensures VersionsHeld(Apply(codec, s, WritePage(t)))
  {
    var s' := Apply(codec, s, WritePage(t));
    WritesKeepStamps(s.rows, s.tasks[t].updates, s.tasks[t].target.id);
    forall i | 0 <= i < |s'.rows|
      ensures VersionOf(s'.rows, i) in s'.held && s'.held[VersionOf(s'.rows, i)] == s'.bodies[i]
    {
      assert VersionOf(s'.rows, i) in VersionSet(s'.rows);
    }
  }

  lemma StepHoldsVersions(codec: Codec, s: State, e: Event)
    requires Enabled(codec, s, e) && VersionsHeld(s)
    ensures VersionsHeld(Apply(codec, s, e))
  {
    if e.WritePage? {
      WriteHoldsVersions(codec, s, e.t);
    } else {
      OtherStepsHoldVersions(codec, s, e);
    }
  }

  lemma ReadRowIsOfVersion(codec: Codec, s: State, i: nat)
    requires Sane(codec, s) && Faithful(codec, s) && VersionsHeld(s) && i < |s.rows| && s.rows[i].content.Some?
    ensures PageRowOfVersion(codec, s, PageRowOf(s.rows, i))
  {
    assert RowReads(codec, s.dictionaries, s.rows[i]);
    assert s.held[VersionOf(s.rows, i)] == s.bodies[i] == Decoded(codec, s.dictionaries, s.rows[i]);
  }

  lemma {:induction false} PageIsOfVersions(codec: Codec, s: State, j: Job, n: nat)
    requires Sane(codec, s) && Faithful(codec, s) && VersionsHeld(s) && n <= |s.rows|
    ensures RowsOfVersions(codec, s, PageOf(j, s.rows, n))
  {
    if n > 0 {
      PageIsOfVersions(codec, s, j, n - 1);
      if OnPage(j, s.rows, n - 1) {
        ReadRowIsOfVersion(codec, s, n - 1);
      }
    }
  }

  lemma UpdateOfVersion(codec: Codec, s: State, target: Entry, p: PageRow)
    requires codec.Sound() && Genuine(s.dictionaries, target)
    requires Reads(codec, s.dictionaries, p.dictId, p.compressed)
    requires PageRowOfVersion(codec, s, p)
    ensures var u := UpdateOf(codec, p, DataById(s.dictionaries), target.data);
            u.Some? ==> OfVersion(codec, s, (u.value.id, u.value.stamp, u.value.previousSize), Some(target.id), u.value.compressed)
  {
    assert Recompression.Found(DataById(s.dictionaries), p.dictId) == DataOf(s.dictionaries, p.dictId);
  }

  lemma {:induction false} RecompressedOfVersions(codec: Codec, s: State, target: Entry, page: seq<PageRow>)
    requires codec.Sound() && Genuine(s.dictionaries, target) && PageReads(codec, s.dictionaries, page)
    requires RowsOfVersions(codec, s, page)
    ensures UpdatesOfVersions(codec, s, target, Updates(codec, page, DataById(s.dictionaries), target.data))
  {
    if page != [] {
      RecompressedOfVersions(codec, s, target, page[..|page| - 1]);
      UpdateOfVersion(codec, s, target, page[|page| - 1]);
    }
  }

  lemma TaskOutlivesVersions(codec: Codec, s: State, s': State, task: Task)
    requires HeldGrows(s, s') && TaskSane(codec, s.dictionaries, task) && TaskOfVersions(codec, s, task)
    ensures TaskOfVersions(codec, s', task)
  {
    match task
    case Read(_, page) =>
      assert forall k :: 0 <= k < |page| ==>
        && Reads(codec, s.dictionaries, page[k].dictId, page[k].compressed)
        && PageRowOfVersion(codec, s, page[k]) && PageRowOfVersion(codec, s', page[k]);
    case Pending(target, updates) =>
      assert forall k :: 0 <= k < |updates| ==> Reads(codec, s.dictionaries, Some(target.id), updates[k].compressed);
    case _ =>
  }

  lemma ReadIsOfVersions(codec: Codec, s: State, t: TaskId, pageSize: int)
    requires Sane(codec, s) && Faithful(codec, s) && VersionsHeld(s) && Enabled(codec, s, ReadPage(t, pageSize))
    ensures var s' := Apply(codec, s, ReadPage(t, pageSize)); TaskOfVersions(codec, s', s'.tasks[t])
  {
    var page := PageOf(PassOn(codec, s, s.tasks[t].target, pageSize), s.rows, |s.rows|);
    PageIsOfVersions(codec, s, PassOn(codec, s, s.tasks[t].target, pageSize), |s.rows|);
    PageOutlives(codec, s, Apply(codec, s, ReadPage(t, pageSize)), page);
  }

  lemma PageOutlives(codec: Codec, s: State, s': State, page: seq<PageRow>)
    requires s'.dictionaries == s.dictionaries && s'.held == s.held && RowsOfVersions(codec, s, page)
    ensures RowsOfVersions(codec, s', page)
  {
    assert forall k :: 0 <= k < |page| ==> PageRowOfVersion(codec, s, page[k]) && PageRowOfVersion(codec, s', page[k]);
  }

  lemma PendingIsOfVersions(codec: Codec, s: State, t: TaskId)
    requires codec.Sound() && Sane(codec, s) && TasksOfVersions(codec, s) && Enabled(codec, s, RecompressPage(t))
    ensures var s' := Apply(codec, s, RecompressPage(t)); TaskOfVersions(codec, s', s'.tasks[t])
  {
    assert TaskSane(codec, s.dictionaries, s.tasks[t]) && TaskOfVersions(codec, s, s.tasks[t]);
    RecompressedOfVersions(codec, s, s.tasks[t].target, s.tasks[t].page);
  }

  predicate Retasks(e: Event) {
    e.CacheLookup? || e.Compress? || e.StartPass? || e.StartPassOn? || e.CommitTraining?
  }

  lemma RetaskedHoldsNothing(codec: Codec, s: State, e: Event)
    requires Enabled(codec, s, e) && |s.bodies| == |s.rows| && Retasks(e)
    ensures var s' := Apply(codec, s, e);
            e.t in s'.tasks && s'.tasks == s.tasks[e.t := s'.tasks[e.t]] && !s'.tasks[e.t].Read? && !s'.tasks[e.t].Pending?
  {
  }

  lemma LookupOrWriteHoldsNothing(codec: Codec, s: State, e: Event)
    requires Enabled(codec, s, e) && |s.bodies| == |s.rows| && (e.Lookup? || e.WritePage?)
    ensures var s' := Apply(codec, s, e);
            e.t in s'.tasks && s'.tasks == s.tasks[e.t := s'.tasks[e.t]] && !s'.tasks[e.t].Read? && !s'.tasks[e.t].Pending?
  {
  }

  /** Only reading and recompressing leave a task with bytes in hand. */
  lemma OtherEventsTakeNothing(codec: Codec, s: State, e: Event, t: TaskId)
    requires Enabled(codec, s, e) && |s.bodies| == |s.rows| && !e.ReadPage? && !e.RecompressPage?
    requires t in Apply(codec, s, e).tasks
    ensures var task := Apply(codec, s, e).tasks[t];
            task.Read? || task.Pending? ==> t in s.tasks && s.tasks[t] == task
  {
    if Retasks(e) {
      RetaskedHoldsNothing(codec, s, e);
    } else if e.Lookup? || e.WritePage? {
      LookupOrWriteHoldsNothing(codec, s, e);
    }
  }

  lemma StepKeepsTasksOfVersions(codec: Codec, s: State, e: Event)
    requires codec.Sound() && Enabled(codec, s, e) && Sane(codec, s) && Faithful(codec, s)
    requires VersionsHeld(s) && TasksOfVersions(codec, s) && FreshVersions(codec, s, e)
    ensures TasksOfVersions(codec, Apply(codec, s, e))
  {
    var s' := Apply(codec, s, e);
    StepGrowsHeld(codec, s, e);
    forall t | t in s'.tasks
      ensures TaskOfVersions(codec, s', s'.tasks[t])
    {
      if t in s.tasks && s'.tasks[t] == s.tasks[t] {
        assert TaskSane(codec, s.dictionaries, s.tasks[t]) && TaskOfVersions(codec, s, s.tasks[t]);
        TaskOutlivesVersions(codec, s, s', s.tasks[t]);
      } else if e.ReadPage? {
        ReadIsOfVersions(codec, s, e.t, e.pageSize);
      } else if e.RecompressPage? {
        PendingIsOfVersions(codec, s, e.t);
      } else {
        OtherEventsTakeNothing(codec, s, e, t);
      }
    }
  }

  /** With one body to a version, what passes the guard is of the row's own version. */
  lemma VersionsCarry(codec: Codec, s: State, e: Event)
    requires Enabled(codec, s, e) && VersionsHeld(s) && TasksOfVersions(codec, s)
    ensures Carries(codec, s, e)
  {
    if e.WritePage? {
      var Pending(target, updates) := s.tasks[e.t];
      assert TaskOfVersions(codec, s, s.tasks[e.t]);
      forall k | 0 <= k < |updates|
        ensures CarriesOne(codec, s, target, updates[k])
      {
        var u := updates[k];
        assert OfVersion(codec, s, (u.id, u.stamp, u.previousSize), Some(target.id), u.compressed);
        if Guard(s.rows, u) {
          assert VersionOf(s.rows, u.id) == (u.id, u.stamp, u.previousSize);
        }
      }
    }
  }

  ghost predicate FreshVersionsThroughout(codec: Codec, s: State, events: seq<Event>)
    decreases |events|
  {
    events != [] && Enabled(codec, s, events[0]) && |s.bodies| == |s.rows| ==>
      FreshVersions(codec, s, events[0]) && FreshVersionsThroughout(codec, Apply(codec, s, events[0]), events[1..])
  }

  lemma {:induction false} RunCarries(codec: Codec, s: State, events: seq<Event>, s': State)
    requires codec.Sound() && Sane(codec, s) && Faithful(codec, s) && Leads(codec, s, events, s')
    requires VersionsHeld(s) && TasksOfVersions(codec, s) && FreshVersionsThroughout(codec, s, events)
    ensures CarriesThroughout(codec, s, events) && Faithful(codec, s')
    decreases |events|
  {
    if events != [] {
      var e := events[0];
      VersionsCarry(codec, s, e);
      StepKeepsSane(codec, s, e);
      StepKeepsBodiesIffCarries(codec, s, e);
      StepHoldsVersions(codec, s, e);
      StepKeepsTasksOfVersions(codec, s, e);
      RunCarries(codec, Apply(codec, s, e), events[1..], s');
    }
  }

  lemma InitHoldsVersions(codec: Codec, s: State)
    requires Init(codec, s)
    ensures VersionsHeld(s) && TasksOfVersions(codec, s)
  {
    forall i | 0 <= i < |s.rows|
      ensures VersionOf(s.rows, i) in s.held && s.held[VersionOf(s.rows, i)] == s.bodies[i]
    {
      assert VersionOf(s.rows, i) in VersionSet(s.rows);
    }
  }

  /** However stores, lookups, trainings and passes interleave, each row decodes under
      the dictionary it records to exactly the body last stored on it - given that no
      row's stamp and compressed size together ever stand for two bodies. */
  lemma EveryBodyDecodes(codec: Codec, s: State, events: seq<Event>, s': State, i: nat)
    requires codec.Sound() && Init(codec, s) && Leads(codec, s, events, s') && FreshVersionsThroughout(codec, s, events)
    requires i < |s'.rows|
    ensures |s'.bodies| == |s'.rows|
    ensures Decoded(codec, s'.dictionaries, s'.rows[i]) == s'.bodies[i]
  {
    InitHoldsVersions(codec, s);
    RunCarries(codec, s, events, s');
  }

  // --- Stamps ---------------------------------------------------------------------------

  /** No two stores of one row share a stamp. */
  predicate FreshStamp(s: State, e: Event) {
    && (e.StoreBody? ==> (e.id, Some(e.now)) !in s.stores)
    && (e.StoreNothing? ==> (e.id, Some(e.now)) !in s.stores)
  }

  ghost predicate FreshStamps(codec: Codec, s: State, events: seq<Event>)
    decreases |events|
  {
    events != [] && Enabled(codec, s, events[0]) && |s.bodies| == |s.rows| ==>
      FreshStamp(s, events[0]) && FreshStamps(codec, Apply(codec, s, events[0]), events[1..])
  }

  /** A stamp stands for one body, at whatever size. */
  ghost predicate StampsHeld(s: State) {
    && (forall v :: v in s.held ==> (v.0, v.1) in s.stores && s.stores[(v.0, v.1)] == s.held[v])
    && (forall stamp :: stamp in s.stores ==> stamp.0 < |s.rows|)
  }

  lemma {:induction false} WritesKeepStamps(rows: seq<BodyRow>, updates: seq<PendingUpdate>, target: nat)
    ensures var after := GuardedWrites(rows, updates, target).rows;
            |after| == |rows| && forall i :: 0 <= i < |rows| ==> after[i].stamp == rows[i].stamp
  {
    if updates != [] {
      WritesKeepStamps(rows, updates[..|updates| - 1], target);
    }
  }

  lemma WriteKeepsStampsHeld(codec: Codec, s: State, t: TaskId)
    requires Enabled(codec, s, WritePage(t)) && VersionsHeld(s) && StampsHeld(s)
    ensures FreshVersions(codec, s, WritePage(t)) && StampsHeld(Apply(codec, s, WritePage(t)))
  {
    var s' := Apply(codec, s, WritePage(t));
    WritesKeepStamps(s.rows, s.tasks[t].updates, s.tasks[t].target.id);
    forall i | 0 <= i < |s'.rows|
      ensures (i, s'.rows[i].stamp) in s.stores && s.stores[(i, s'.rows[i].stamp)] == s.bodies[i]
    {
      assert VersionOf(s.rows, i) in s.held;
    }
    forall v | v in s'.held
      ensures (v.0, v.1) in s'.stores && s'.stores[(v.0, v.1)] == s'.held[v]
    {
      if v in Versions(s'.rows, s.bodies) {
        assert VersionOf(s'.rows, v.0) == v;
      }
    }
  }

  lemma StoreHasFreshVersion(codec: Codec, s: State, e: Event)
    requires Enabled(codec, s, e) && VersionsHeld(s) && StampsHeld(s) && FreshStamp(s, e) && !e.WritePage?
    ensures FreshVersions(codec, s, e)
  {
    var s' := Apply(codec, s, e);
    forall i | 0 <= i < |s'.rows| && VersionOf(s'.rows, i) in s.held
      ensures s.held[VersionOf(s'.rows, i)] == s'.bodies[i]
    {
      if i < |s.rows| && s'.rows[i] == s.rows[i] {
        assert s.held[VersionOf(s.rows, i)] == s.bodies[i];
      }
    }
  }

  lemma StoreKeepsStampsHeld(codec: Codec, s: State, e: Event)
    requires Enabled(codec, s, e) && VersionsHeld(s) && StampsHeld(s) && FreshStamp(s, e) && !e.WritePage?
    ensures StampsHeld(Apply(codec, s, e))
  {
  }

  lemma StampsMakeVersionsFresh(codec: Codec, s: State, e: Event)
    requires Enabled(codec, s, e) && VersionsHeld(s) && StampsHeld(s) && FreshStamp(s, e)
    ensures FreshVersions(codec, s, e) && StampsHeld(Apply(codec, s, e))
  {
    if e.WritePage? {
      WriteKeepsStampsHeld(codec, s, e.t);
    } else {
      StoreHasFreshVersion(codec, s, e);
      StoreKeepsStampsHeld(codec, s, e);
    }
  }

  lemma {:induction false} RunOfFreshStamps(codec: Codec, s: State, events: seq<Event>, s': State)
    requires Leads(codec, s, events, s') && VersionsHeld(s) && StampsHeld(s) && FreshStamps(codec, s, events)
    ensures FreshVersionsThroughout(codec, s, events)
    decreases |events|
  {
    if events != [] {
      StampsMakeVersionsFresh(codec, s, events[0]);
      StepHoldsVersions(codec, s, events[0]);
      RunOfFreshStamps(codec, Apply(codec, s, events[0]), events[1..], s');
    }
  }

  /** In particular when no two stores of one row share a stamp, whatever the sizes. */
  lemma FreshStampsKeepEveryBody(codec: Codec, s: State, events: seq<Event>, s': State)
    requires codec.Sound() && Init(codec, s) && Leads(codec, s, events, s') && FreshStamps(codec, s, events)
    ensures FreshVersionsThroughout(codec, s, events) && Faithful(codec, s')
  {
    InitHoldsVersions(codec, s);
    RunOfFreshStamps(codec, s, events, s');
    RunCarries(codec, s, events, s');
  }

  /** What the history records: a store sets its row's body, and nothing else sets
      one. */
  lemma BodiesAreWhatWasStored(codec: Codec, s: State, e: Event)
    requires Enabled(codec, s, e) && |s.bodies| == |s.rows|
    ensures var s' := Apply(codec, s, e);
            s'.bodies == match e
              case StoreBody(t, id, _) => s.bodies[id := Some(s.tasks[t].plain)]
              case StoreNothing(id, _) => s.bodies[id := None]
              case NewRow(_) => s.bodies + [None]
              case NewPreresolvedRow(t, _, _) => s.bodies + [Some(s.tasks[t].plain)]
              case _ => s.bodies
  {
  }

  /** Column by column: a store sets every response column of its row and its stamp, a
      page of writes changes no row's step, response or stamp, and nothing else writes. */
  lemma RowsAreWhatWasWritten(codec: Codec, s: State, e: Event)
    requires Enabled(codec, s, e) && |s.bodies| == |s.rows|
    ensures var s' := Apply(codec, s, e);
            match e
            case StoreBody(t, id, now) =>
              var task := s.tasks[t];
              s'.rows == s.rows[id := BodyRow(s.rows[id].step, true, Some(task.data), task.dictId, Some(now),
                                              Some(|task.plain|), Some(|task.data|))]
            case StoreNothing(id, now) => s'.rows == s.rows[id := BodyRow(s.rows[id].step, true, None, None, Some(now), Some(0), Some(0))]
            case NewRow(step) => s'.rows == s.rows + [BodyRow(step, false, None, None, None, None, None)]
            case NewPreresolvedRow(t, step, now) =>
              var task := s.tasks[t];
              s'.rows == s.rows + [BodyRow(step, true, Some(task.data), task.dictId, Some(now), Some(|task.plain|), Some(|task.data|))]
            case WritePage(t) => OnlyBodiesMove(s.rows, s.tasks[t].target.id, s'.rows)
            case _ => s'.rows == s.rows
  {
    if e.WritePage? {
      WritesMoveBodies(s.rows, s.tasks[e.t].updates, s.tasks[e.t].target.id);
    }
  }

  /** A row that changed is on the target, measured, and otherwise as it was. */
  ghost predicate OnlyBodiesMove(rows: seq<BodyRow>, target: nat, after: seq<BodyRow>) {
    && |after| == |rows|
    && forall i :: 0 <= i < |rows| && after[i] != rows[i] ==>
         && after[i].dictId == Some(target) && after[i].content.Some?
         && after[i].step == rows[i].step && after[i].responded == rows[i].responded && after[i].stamp == rows[i].stamp
  }

  lemma {:induction false} WritesMoveBodies(rows: seq<BodyRow>, updates: seq<PendingUpdate>, target: nat)
    ensures OnlyBodiesMove(rows, target, GuardedWrites(rows, updates, target).rows)
  {
    if updates != [] {
      WritesMoveBodies(rows, updates[..|updates| - 1], target);
    }
  }
}
