/** What stores, trainings and passes come to when nothing interrupts them: the events of
    `Compaction` do what the pass of `Recompression` does. */
module CompactionAlone {
  import opened Wrappers
  import opened Bodies
  import opened Recompression
  import opened BodyStores
  import opened Compaction

  lemma {:induction false} LeadsOn(codec: Codec, s: State, first: seq<Event>, mid: State, more: seq<Event>, s': State)
    requires Leads(codec, s, first, mid) && Leads(codec, mid, more, s')
    ensures Leads(codec, s, first + more, s')
    decreases |first|
  {
    if first == [] {
      assert first + more == more;
    } else {
      assert (first + more)[1..] == first[1..] + more;
      LeadsOn(codec, Apply(codec, s, first[0]), first[1..], mid, more, s');
    }
  }

  lemma OneStep(codec: Codec, s: State, e: Event)
    requires Enabled(codec, s, e) && |s.bodies| == |s.rows|
    ensures Leads(codec, s, [e], Apply(codec, s, e))
  {
    assert [e][1..] == [];
  }

  // --- A pass ---------------------------------------------------------------------------

  function PageEvents(t: TaskId, pageSize: int): seq<Event> {
    [ReadPage(t, pageSize)] + ([RecompressPage(t)] + [WritePage(t)])
  }

  lemma DataByIdResolves(j: Job, rows: seq<BodyRow>)
    ensures Resolves(j, rows, DataById(j.dictionaries))
  {
  }

  /** A page nobody comes between is written as the pass alone writes it. */
  lemma UndisturbedPage(codec: Codec, s: State, t: TaskId, pageSize: int) returns (s': State)
    requires |s.bodies| == |s.rows| && t in s.tasks && s.tasks[t].Passing? && Genuine(s.dictionaries, s.tasks[t].target)
    ensures Leads(codec, s, PageEvents(t, pageSize), s')
    ensures var j := PassOn(codec, s, s.tasks[t].target, pageSize);
            s'.rows == PageWritten(j, s.rows) && s' == s.(rows := s'.rows, held := s'.held)
  {
    var target, j := s.tasks[t].target, PassOn(codec, s, s.tasks[t].target, pageSize);
    var page := PageOf(j, s.rows, |s.rows|);
    var updates := Updates(codec, page, DataById(s.dictionaries), target.data);
    var read := CanRead(codec, s, t, pageSize);
    var updated := CanRecompress(codec, read, t, target, page);
    s' := CanWrite(codec, updated, t, target, updates);
    LeadsOn(codec, read, [RecompressPage(t)], updated, [WritePage(t)], s');
    LeadsOn(codec, s, [ReadPage(t, pageSize)], read, [RecompressPage(t)] + [WritePage(t)], s');
    PageIsWritten(j, s.rows);
    assert s'.tasks == s.tasks;
  }

  lemma CanRead(codec: Codec, s: State, t: TaskId, pageSize: int) returns (s': State)
    requires |s.bodies| == |s.rows| && t in s.tasks && s.tasks[t].Passing?
    ensures Leads(codec, s, [ReadPage(t, pageSize)], s')
    ensures var target := s.tasks[t].target;
            s' == s.(tasks := s.tasks[t := Read(target, PageOf(PassOn(codec, s, target, pageSize), s.rows, |s.rows|))])
  {
    s' := Apply(codec, s, ReadPage(t, pageSize));
    OneStep(codec, s, ReadPage(t, pageSize));
  }

  lemma CanRecompress(codec: Codec, s: State, t: TaskId, target: Entry, page: seq<PageRow>) returns (s': State)
    requires |s.bodies| == |s.rows| && t in s.tasks && s.tasks[t] == Read(target, page)
    ensures Leads(codec, s, [RecompressPage(t)], s')
    ensures s' == s.(tasks := s.tasks[t := Compaction.Pending(target, Updates(codec, page, DataById(s.dictionaries), target.data))])
  {
    s' := Apply(codec, s, RecompressPage(t));
    OneStep(codec, s, RecompressPage(t));
  }

  lemma CanWrite(codec: Codec, s: State, t: TaskId, target: Entry, updates: seq<PendingUpdate>) returns (s': State)
    requires |s.bodies| == |s.rows| && t in s.tasks && s.tasks[t] == Compaction.Pending(target, updates)
    ensures Leads(codec, s, [WritePage(t)], s')
    ensures s'.rows == GuardedWrites(s.rows, updates, target.id).rows
    ensures s' == s.(tasks := s.tasks[t := Passing(target)], rows := s'.rows, held := s'.held)
  {
    s' := Apply(codec, s, WritePage(t));
    OneStep(codec, s, WritePage(t));
  }

  lemma PageIsWritten(j: Job, rows: seq<BodyRow>)
    requires j.target < |j.dictionaries|
    ensures var updates := Updates(j.codec, PageOf(j, rows, |rows|), DataById(j.dictionaries), j.dictionaries[j.target].data);
            GuardedWrites(rows, updates, j.target).rows == PageWritten(j, rows)
  {
    DataByIdResolves(j, rows);
    UpdatesWriteThePage(j, rows, DataById(j.dictionaries), |rows|);
    assert WrittenTo(j, rows, |rows|) == PageWritten(j, rows);
  }

  /** And page after page the pass comes to the table it settles in. */
  lemma {:induction false} UndisturbedPages(codec: Codec, s: State, t: TaskId, pageSize: int) returns (events: seq<Event>, s': State)
    requires |s.bodies| == |s.rows| && t in s.tasks && s.tasks[t].Passing? && Genuine(s.dictionaries, s.tasks[t].target)
    ensures Leads(codec, s, events, s')
    ensures var j := PassOn(codec, s, s.tasks[t].target, pageSize);
            s'.rows == Settled(j, s.rows) && s' == s.(rows := s'.rows, held := s'.held)
    decreases CountOff(PassOn(codec, s, s.tasks[t].target, pageSize), s.rows)
  {
    var j := PassOn(codec, s, s.tasks[t].target, pageSize);
    if !Progress(j, s.rows) {
      NoProgressIsSettled(j, s.rows);
      return [], s;
    }
    var mid := UndisturbedPage(codec, s, t, pageSize);
    PageLeavesFewerOff(j, s.rows, |s.rows|);
    PageKeepsSettled(j, s.rows);
    var more;
    more, s' := UndisturbedPages(codec, mid, t, pageSize);
    events := PageEvents(t, pageSize) + more;
    LeadsOn(codec, s, PageEvents(t, pageSize), mid, more, s');
  }

  /** From any state a task can put a step's bodies on any of its dictionaries, as far as
      a pass reaches them. */
  lemma UndisturbedPass(codec: Codec, s: State, t: TaskId, id: nat, pageSize: int) returns (events: seq<Event>, s': State)
    requires |s.bodies| == |s.rows| && t !in s.tasks && id < |s.dictionaries|
    ensures Leads(codec, s, events, s')
    ensures s'.rows == Settled(Job(codec, s.dictionaries, s.dictionaries[id].step, id, pageSize), s.rows)
    ensures s' == s.(rows := s'.rows, held := s'.held)
  {
    var started := Apply(codec, s, StartPassOn(t, id));
    OneStep(codec, s, StartPassOn(t, id));
    var more, passed := UndisturbedPages(codec, started, t, pageSize);
    s' := Apply(codec, passed, Drop(t));
    OneStep(codec, passed, Drop(t));
    LeadsOn(codec, started, more, passed, [Drop(t)], s');
    LeadsOn(codec, s, [StartPassOn(t, id)], started, more + [Drop(t)], s');
    events := [StartPassOn(t, id)] + (more + [Drop(t)]);
    assert s'.tasks == s.tasks;
  }

  // --- A store and a training -----------------------------------------------------------

  /** A lookup nobody comes between answers the entry cached, or the newest and caches it. */
  lemma UndisturbedLookup(codec: Codec, s: State, t: TaskId, step: string) returns (events: seq<Event>, s': State)
    requires |s.bodies| == |s.rows| && t !in s.tasks
    ensures Leads(codec, s, events, s')
    ensures s'.tasks == s.tasks[t := Found(step, Current(s.dictionaries, s.latest, step))]
    ensures s'.rows == s.rows && s'.bodies == s.bodies && s'.dictionaries == s.dictionaries
    ensures s'.latest == s.latest[step := Current(s.dictionaries, s.latest, step)]
  {
    events := [Lookup(t, step)];
    if step in s.latest {
      s' := Apply(codec, s, Lookup(t, step));
      OneStep(codec, s, Lookup(t, step));
    } else {
      s' := CanCacheLookup(codec, s, t, step);
      events := [Lookup(t, step)] + [CacheLookup(t)];
    }
  }

  lemma CanCacheLookup(codec: Codec, s: State, t: TaskId, step: string) returns (s': State)
    requires |s.bodies| == |s.rows| && t !in s.tasks && step !in s.latest
    ensures Leads(codec, s, [Lookup(t, step)] + [CacheLookup(t)], s')
    ensures var entry := EntryOf(s.dictionaries, Newest(s.dictionaries, step));
            && s'.tasks == s.tasks[t := Found(step, entry)] && s'.latest == s.latest[step := entry]
            && s'.rows == s.rows && s'.bodies == s.bodies && s'.dictionaries == s.dictionaries
  {
    var read := Apply(codec, s, Lookup(t, step));
    OneStep(codec, s, Lookup(t, step));
    s' := Apply(codec, read, CacheLookup(t));
    OneStep(codec, read, CacheLookup(t));
    LeadsOn(codec, s, [Lookup(t, step)], read, [CacheLookup(t)], s');
  }

  /** A pass on no particular dictionary is one on the step's current one. */
  lemma UndisturbedCurrentPass(codec: Codec, s: State, t: TaskId, step: string, pageSize: int) returns (events: seq<Event>, s': State)
    requires Sane(codec, s) && codec.Sound() && t !in s.tasks && Current(s.dictionaries, s.latest, step).Some?
    ensures Leads(codec, s, events, s')
    ensures var target := Current(s.dictionaries, s.latest, step).value;
            s'.rows == Settled(Job(codec, s.dictionaries, step, target.id, pageSize), s.rows) && s'.bodies == s.bodies
  {
    var first, found := UndisturbedLookup(codec, s, t, step);
    RunIsSane(codec, s, first, found);
    assert TaskSane(codec, found.dictionaries, found.tasks[t]);
    var started := Apply(codec, found, StartPass(t));
    OneStep(codec, found, StartPass(t));
    var more;
    more, s' := UndisturbedPages(codec, started, t, pageSize);
    LeadsOn(codec, found, [StartPass(t)], started, more, s');
    events := first + ([StartPass(t)] + more);
    LeadsOn(codec, s, first, found, [StartPass(t)] + more, s');
  }

  /** A body that zstd compresses can be made ready to store. */
  lemma UndisturbedCompress(codec: Codec, s: State, t: TaskId, step: string, plain: Bytes) returns (events: seq<Event>, s': State)
    requires codec.Sound() && Sane(codec, s) && t !in s.tasks
    requires Compressed(codec, Current(s.dictionaries, s.latest, step), plain).Some?
    ensures Leads(codec, s, events, s') && Sane(codec, s')
    ensures s'.rows == s.rows && s'.bodies == s.bodies && t in s'.tasks && s'.tasks[t].Prepared? && s'.tasks[t].plain == plain
  {
    var first, found := UndisturbedLookup(codec, s, t, step);
    s' := Apply(codec, found, Compress(t, plain));
    OneStep(codec, found, Compress(t, plain));
    LeadsOn(codec, s, first, found, [Compress(t, plain)], s');
    events := first + [Compress(t, plain)];
    RunIsSane(codec, s, events, s');
  }

  /** And be stored on any row, which then decodes to it. */
  lemma UndisturbedStore(codec: Codec, s: State, t: TaskId, id: nat, step: string, plain: Bytes, now: int)
    returns (events: seq<Event>, s': State)
    requires codec.Sound() && Sane(codec, s) && t !in s.tasks && id < |s.rows|
    requires Compressed(codec, Current(s.dictionaries, s.latest, step), plain).Some?
    ensures Leads(codec, s, events, s')
    ensures |s'.rows| == |s.rows| && Decoded(codec, s'.dictionaries, s'.rows[id]) == Some(plain) && s'.rows[id].stamp == Some(now)
    ensures forall i :: 0 <= i < |s.rows| && i != id ==> s'.rows[i] == s.rows[i]
  {
    var first, prepared := UndisturbedCompress(codec, s, t, step, plain);
    assert TaskSane(codec, prepared.dictionaries, prepared.tasks[t]);
    s' := Apply(codec, prepared, StoreBody(t, id, now));
    OneStep(codec, prepared, StoreBody(t, id, now));
    events := first + [StoreBody(t, id, now)];
    LeadsOn(codec, s, first, prepared, [StoreBody(t, id, now)], s');
  }

  /** Or come with a new row; and a row can be added, and stored on, without one. */
  lemma UndisturbedRows(codec: Codec, s: State, t: TaskId, step: string, plain: Bytes, now: int)
    returns (events: seq<Event>, resolved: State, empty: State)
    requires codec.Sound() && Sane(codec, s) && t !in s.tasks
    requires Compressed(codec, Current(s.dictionaries, s.latest, step), plain).Some?
    ensures Leads(codec, s, events, resolved) && Leads(codec, s, [NewRow(step)] + [StoreNothing(|s.rows|, now)], empty)
    ensures |resolved.rows| == |s.rows| + 1 && Decoded(codec, resolved.dictionaries, resolved.rows[|s.rows|]) == Some(plain)
    ensures |empty.rows| == |s.rows| + 1 && LoadedFrom(codec, empty.dictionaries, empty.rows[|s.rows|]) == Content([])
  {
    var first, prepared := UndisturbedCompress(codec, s, t, step, plain);
    assert TaskSane(codec, prepared.dictionaries, prepared.tasks[t]);
    resolved := Apply(codec, prepared, NewPreresolvedRow(t, step, now));
    OneStep(codec, prepared, NewPreresolvedRow(t, step, now));
    events := first + [NewPreresolvedRow(t, step, now)];
    LeadsOn(codec, s, first, prepared, [NewPreresolvedRow(t, step, now)], resolved);
    var added := Apply(codec, s, NewRow(step));
    OneStep(codec, s, NewRow(step));
    empty := Apply(codec, added, StoreNothing(|s.rows|, now));
    OneStep(codec, added, StoreNothing(|s.rows|, now));
    LeadsOn(codec, s, [NewRow(step)], added, [StoreNothing(|s.rows|, now)], empty);
  }

  /** A training nobody comes between leaves its dictionary the step's newest, and
      cached. */
  lemma UndisturbedTraining(codec: Codec, s: State, t: TaskId, step: string, data: Bytes) returns (s': State)
    requires |s.bodies| == |s.rows| && t !in s.tasks
    ensures Leads(codec, s, [CommitTraining(t, step, data)] + [SeedCache(t)], s')
    ensures s'.rows == s.rows && s'.tasks == s.tasks && |s'.dictionaries| == |s.dictionaries| + 1
    ensures Newest(s'.dictionaries, step) == Some(|s.dictionaries|) && s'.dictionaries[|s.dictionaries|].data == data
    ensures step in s'.latest && s'.latest[step] == Some(Entry(|s.dictionaries|, data, step))
  {
    var minted := Apply(codec, s, CommitTraining(t, step, data));
    s' := Apply(codec, minted, SeedCache(t));
    OneStep(codec, s, CommitTraining(t, step, data));
    OneStep(codec, minted, SeedCache(t));
    LeadsOn(codec, s, [CommitTraining(t, step, data)], minted, [SeedCache(t)], s');
    TrainedIsNewest(s.dictionaries, step, data, step);
    assert s'.tasks == s.tasks;
  }

  /** A crash ends every task and forgets the cache, so that each lookup after it finds
      the newest; rows, bodies and dictionaries stay. */
  lemma CrashForgetsTheCache(codec: Codec, s: State, step: string) returns (s': State)
    requires |s.bodies| == |s.rows|
    ensures Leads(codec, s, [Crash], s')
    ensures s'.tasks == map[] && s'.latest == map[] && s'.byId == map[]
    ensures s'.rows == s.rows && s'.bodies == s.bodies && s'.dictionaries == s.dictionaries
    ensures Current(s'.dictionaries, s'.latest, step) == EntryOf(s.dictionaries, Newest(s.dictionaries, step))
  {
    s' := Apply(codec, s, Crash);
    OneStep(codec, s, Crash);
  }
}
