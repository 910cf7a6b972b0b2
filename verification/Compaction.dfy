/** Stores, lookups, training and compaction passes interleaved at their awaits, over
    one table of bodies.

    Each transaction is one step.  A task holds what it has read so far, however
    stale that has become by the time it writes. */
module Compaction {
  import opened Wrappers
  import opened Bodies
  import opened Recompression
  import opened BodyStores

  type TaskId = nat

  datatype Task =
    | Reading(step: string, entry: Option<Entry>, known: nat)   // read awaited, cache not yet written
    | Found(step: string, entry: Option<Entry>)
    | Prepared(plain: Bytes, data: Bytes, dictId: Option<nat>)
    | Passing(target: Entry)
    | Read(target: Entry, page: seq<PageRow>)
    | Pending(target: Entry, updates: seq<PendingUpdate>)
    | Trained(minted: Entry)

  /** One store of one row: the row and the stamp it got. */
  type Stamp = (nat, Option<int>)

  /** What the guard compares: the row, its stamp and its compressed size. */
  type Version = (nat, Option<int>, Option<nat>)

  datatype State = State(
    rows: seq<BodyRow>,
    dictionaries: seq<Dictionary>,
    byId: map<nat, Entry>,
    latest: map<string, Option<Entry>>,
    tasks: map<TaskId, Task>,
    // History: the body last stored on each row, that of each store and of each
    // version, and how many dictionaries each `latest` entry was chosen among.
    bodies: seq<Option<Bytes>>,
    stores: map<Stamp, Option<Bytes>>,
    held: map<Version, Option<Bytes>>,
    known: map<string, nat>)

  datatype Event =
    | NewRow(step: string)
    | NewPreresolvedRow(t: TaskId, step: string, now: int)
    | Lookup(t: TaskId, step: string)
    | CacheLookup(t: TaskId)
    | Compress(t: TaskId, plain: Bytes)
    | StoreBody(t: TaskId, id: nat, now: int)
    | StoreNothing(id: nat, now: int)
    | StartPass(t: TaskId)
    | StartPassOn(t: TaskId, id: nat)
    | ReadPage(t: TaskId, pageSize: int)
    | RecompressPage(t: TaskId)
    | WritePage(t: TaskId)
    | CommitTraining(t: TaskId, step: string, data: Bytes)
    | SeedCache(t: TaskId)
    | Drop(t: TaskId)
    | Crash

  function Compressed(codec: Codec, entry: Option<Entry>, plain: Bytes): Option<Bytes> {
    codec.compress(if entry.Some? then Some(entry.value.data) else None, plain)
  }

  ghost predicate Enabled(codec: Codec, s: State, e: Event) {
    match e
    case NewRow(_) => true
    case NewPreresolvedRow(t, _, _) => t in s.tasks && s.tasks[t].Prepared?
    case Lookup(t, _) => t !in s.tasks
    case CacheLookup(t) => t in s.tasks && s.tasks[t].Reading?
    case Compress(t, plain) => t in s.tasks && s.tasks[t].Found? && Compressed(codec, s.tasks[t].entry, plain).Some?
    case StoreBody(t, id, _) => t in s.tasks && s.tasks[t].Prepared? && id < |s.rows|
    case StoreNothing(id, _) => id < |s.rows|
    case StartPass(t) => t in s.tasks && s.tasks[t].Found? && s.tasks[t].entry.Some?
    case StartPassOn(t, id) => t !in s.tasks && id < |s.dictionaries|
    case ReadPage(t, _) => t in s.tasks && s.tasks[t].Passing?
    case RecompressPage(t) => t in s.tasks && s.tasks[t].Read?
    case WritePage(t) => t in s.tasks && s.tasks[t].Pending?
    case CommitTraining(t, _, _) => t !in s.tasks
    case SeedCache(t) => t in s.tasks && s.tasks[t].Trained?
    case Drop(t) => t in s.tasks
    case Crash => true
  }

  function Do(s: State, t: TaskId, task: Task): State {
    s.(tasks := s.tasks[t := task])
  }

  function Done(s: State, t: TaskId): State {
    s.(tasks := s.tasks - {t})
  }

  function Stored(s: State, id: nat, now: int, row: BodyRow, body: Option<Bytes>): State
    requires id < |s.rows| && id < |s.bodies|
  {
    s.(rows := s.rows[id := row.(responded := true, stamp := Some(now))],
       bodies := s.bodies[id := body],
       stores := s.stores[(id, Some(now)) := body],
       held := s.held[(id, Some(now), row.sizeCompressed) := body])
  }

  function LookupStep(s: State, t: TaskId, step: string): State {
    if step in s.latest then Do(s, t, Found(step, s.latest[step]))
    else Do(s, t, Reading(step, EntryOf(s.dictionaries, Newest(s.dictionaries, step)), |s.dictionaries|))
  }

  function CacheStep(s: State, t: TaskId): State
    requires t in s.tasks && s.tasks[t].Reading?
  {
    var Reading(step, entry, known) := s.tasks[t];
    Do(s, t, Found(step, entry)).(
      latest := s.latest[step := entry], known := s.known[step := known],
      byId := if entry.Some? then s.byId[entry.value.id := entry.value] else s.byId)
  }

  function DataById(dictionaries: seq<Dictionary>): map<nat, Bytes> {
    map id: nat | 0 <= id < |dictionaries| :: dictionaries[id].data
  }

  function PassOn(codec: Codec, s: State, target: Entry, pageSize: int): Job {
    Job(codec, s.dictionaries, target.step, target.id, pageSize)
  }

  function StoredRow(s: State, id: nat, content: Option<Bytes>, dictId: Option<nat>, original: nat): BodyRow
    requires id < |s.rows|
  {
    s.rows[id].(content := content, dictId := dictId, sizeOriginal := Some(original),
                sizeCompressed := Some(if content.Some? then |content.value| else 0))
  }

  function VersionOf(rows: seq<BodyRow>, i: nat): Version
    requires i < |rows|
  {
    (i, rows[i].stamp, rows[i].sizeCompressed)
  }

  /** The bodies of a table, by version. */
  function Versions(rows: seq<BodyRow>, bodies: seq<Option<Bytes>>): map<Version, Option<Bytes>> {
    map v: Version | v in VersionSet(rows) && v.0 < |bodies| :: bodies[v.0]
  }

  function VersionSet(rows: seq<BodyRow>): set<Version> {
    set i: nat | i < |rows| :: VersionOf(rows, i)
  }

  ghost function Apply(codec: Codec, s: State, e: Event): State
    requires Enabled(codec, s, e) && |s.bodies| == |s.rows|
  {
    match e
    case NewRow(step) =>
      s.(rows := s.rows + [BodyRow(step, false, None, None, None, None, None)],
         bodies := s.bodies + [None], stores := s.stores[(|s.rows|, None) := None],
         held := s.held[(|s.rows|, None, None) := None])
    case NewPreresolvedRow(t, step, now) =>
      var Prepared(plain, data, dictId) := s.tasks[t];
      Done(s, t).(
        rows := s.rows + [BodyRow(step, true, Some(data), dictId, Some(now), Some(|plain|), Some(|data|))],
        bodies := s.bodies + [Some(plain)], stores := s.stores[(|s.rows|, Some(now)) := Some(plain)],
        held := s.held[(|s.rows|, Some(now), Some(|data|)) := Some(plain)])
    case Lookup(t, step) => LookupStep(s, t, step)
    case CacheLookup(t) => CacheStep(s, t)
    case Compress(t, plain) =>
      var entry := s.tasks[t].entry;
      Do(s, t, Prepared(plain, Compressed(codec, entry, plain).value, if entry.Some? then Some(entry.value.id) else None))
    case StoreBody(t, id, now) =>
      var Prepared(plain, data, dictId) := s.tasks[t];
      Stored(Done(s, t), id, now, StoredRow(s, id, Some(data), dictId, |plain|), Some(plain))
    case StoreNothing(id, now) => Stored(s, id, now, StoredRow(s, id, None, None, 0), None)
    case StartPass(t) => Do(s, t, Passing(s.tasks[t].entry.value))
    case StartPassOn(t, id) => Do(s, t, Passing(EntryOf(s.dictionaries, Some(id)).value))
    case ReadPage(t, pageSize) =>
      Do(s, t, Read(s.tasks[t].target, PageOf(PassOn(codec, s, s.tasks[t].target, pageSize), s.rows, |s.rows|)))
    case RecompressPage(t) =>
      var Read(target, page) := s.tasks[t];
      Do(s, t, Pending(target, Updates(codec, page, DataById(s.dictionaries), target.data)))
    case WritePage(t) =>
      var Pending(target, updates) := s.tasks[t];
      var rows := GuardedWrites(s.rows, updates, target.id).rows;
      Do(s, t, Passing(target)).(rows := rows, held := s.held + Versions(rows, s.bodies))
    case CommitTraining(t, step, data) =>
      Do(s, t, Trained(Entry(|s.dictionaries|, data, step))).(
        dictionaries := s.dictionaries + [Dictionary(step, NextVersion(s.dictionaries, step), data)])
    case SeedCache(t) =>
      var entry := s.tasks[t].minted;
      Done(s, t).(latest := s.latest[entry.step := Some(entry)], known := s.known[entry.step := entry.id + 1],
                  byId := s.byId[entry.id := entry])
    case Drop(t) => Done(s, t)
    case Crash => s.(tasks := map[], latest := map[], known := map[], byId := map[])
  }

  // --- What every interleaving keeps ----------------------------------------------

  predicate KnownId(dictionaries: seq<Dictionary>, id: Option<nat>) {
    id.Some? ==> id.value < |dictionaries|
  }

  /** Bytes that decompress, under a stored dictionary, to something. */
  predicate Reads(codec: Codec, dictionaries: seq<Dictionary>, dictId: Option<nat>, data: Bytes) {
    KnownId(dictionaries, dictId) && codec.decompress(DataOf(dictionaries, dictId), data).Some?
  }

  predicate RowReads(codec: Codec, dictionaries: seq<Dictionary>, row: BodyRow) {
    row.content.Some? ==> Reads(codec, dictionaries, row.dictId, row.content.value)
  }

  ghost predicate PageReads(codec: Codec, dictionaries: seq<Dictionary>, page: seq<PageRow>) {
    && (forall k :: 0 <= k < |page| ==> Reads(codec, dictionaries, page[k].dictId, page[k].compressed))
    && (forall k, m :: 0 <= k < m < |page| ==> page[k].id < page[m].id)
  }

  ghost predicate UpdatesRead(codec: Codec, dictionaries: seq<Dictionary>, target: nat, updates: seq<PendingUpdate>) {
    && (forall k :: 0 <= k < |updates| ==> Reads(codec, dictionaries, Some(target), updates[k].compressed))
    && (forall k, m :: 0 <= k < m < |updates| ==> updates[k].id < updates[m].id)
  }

  /** The step's newest among the first `n` dictionaries. */
  function EntryAsOf(dictionaries: seq<Dictionary>, n: nat, step: string): Option<Entry>
    requires n <= |dictionaries|
  {
    EntryOf(dictionaries, Newest(dictionaries[..n], step))
  }

  predicate ChosenAmong(dictionaries: seq<Dictionary>, n: nat, step: string, entry: Option<Entry>) {
    n <= |dictionaries| && entry == EntryAsOf(dictionaries, n, step)
  }

  ghost predicate TaskSane(codec: Codec, dictionaries: seq<Dictionary>, task: Task) {
    match task
    case Reading(step, entry, known) => ChosenAmong(dictionaries, known, step, entry)
    case Found(step, entry) => GenuineOption(dictionaries, entry, step)
    case Prepared(plain, data, dictId) =>
      KnownId(dictionaries, dictId) && codec.decompress(DataOf(dictionaries, dictId), data) == Some(plain)
    case Passing(target) => Genuine(dictionaries, target)
    case Read(target, page) => Genuine(dictionaries, target) && PageReads(codec, dictionaries, page)
    case Pending(target, updates) => Genuine(dictionaries, target) && UpdatesRead(codec, dictionaries, target.id, updates)
    case Trained(minted) =>
      Genuine(dictionaries, minted) && ChosenAmong(dictionaries, minted.id + 1, minted.step, Some(minted))
  }

  /** Each version of a step's dictionary is above the earlier ones. */
  ghost predicate VersionsRise(dictionaries: seq<Dictionary>) {
    forall i, j :: 0 <= i < j < |dictionaries| && dictionaries[i].step == dictionaries[j].step ==>
      dictionaries[i].version < dictionaries[j].version
  }

  /** The cache holds dictionaries as stored, and each `latest` was the newest of those
      it was chosen among. */
  ghost predicate CacheSane(s: State) {
    && (forall id :: id in s.byId ==> s.byId[id].id == id && Genuine(s.dictionaries, s.byId[id]))
    && s.known.Keys == s.latest.Keys
    && (forall step :: step in s.latest ==> ChosenAmong(s.dictionaries, s.known[step], step, s.latest[step]))
  }

  ghost predicate RowsRead(codec: Codec, s: State) {
    |s.bodies| == |s.rows| && forall i :: 0 <= i < |s.rows| ==> RowReads(codec, s.dictionaries, s.rows[i])
  }

  ghost predicate TasksSane(codec: Codec, s: State) {
    forall t :: t in s.tasks ==> TaskSane(codec, s.dictionaries, s.tasks[t])
  }

  /** Whatever the stamps: every row, page, update and cached entry can be read. */
  ghost predicate Sane(codec: Codec, s: State) {
    RowsRead(codec, s) && TasksSane(codec, s) && CacheSane(s) && VersionsRise(s.dictionaries)
  }

  lemma TaskOutlives(codec: Codec, dictionaries: seq<Dictionary>, more: seq<Dictionary>, task: Task)
    requires dictionaries <= more && TaskSane(codec, dictionaries, task)
    ensures TaskSane(codec, more, task)
  {
    match task
    case Reading(step, _, known) => assert more[..known] == dictionaries[..known];
    case Trained(minted) => assert more[..minted.id + 1] == dictionaries[..minted.id + 1];
    case _ =>
  }

  lemma DictionariesGrow(codec: Codec, s: State, e: Event)
    requires Enabled(codec, s, e) && |s.bodies| == |s.rows|
    ensures s.dictionaries <= Apply(codec, s, e).dictionaries
  {
  }

  lemma MintedRises(dictionaries: seq<Dictionary>, step: string, data: Bytes)
    requires VersionsRise(dictionaries)
    ensures VersionsRise(dictionaries + [Dictionary(step, NextVersion(dictionaries, step), data)])
  {
  }

  lemma {:induction false} PageOfReads(codec: Codec, s: State, j: Job, n: nat)
    requires RowsRead(codec, s) && n <= |s.rows|
    ensures PageReads(codec, s.dictionaries, PageOf(j, s.rows, n))
    ensures forall k :: 0 <= k < |PageOf(j, s.rows, n)| ==> PageOf(j, s.rows, n)[k].id < n
  {
    if n > 0 {
      PageOfReads(codec, s, j, n - 1);
      assert RowReads(codec, s.dictionaries, s.rows[n - 1]);
    }
  }

  lemma UpdateReads(codec: Codec, dictionaries: seq<Dictionary>, target: Entry, p: PageRow)
    requires codec.Sound() && Genuine(dictionaries, target) && Reads(codec, dictionaries, p.dictId, p.compressed)
    ensures var u := UpdateOf(codec, p, DataById(dictionaries), target.data);
            u.Some? ==> u.value.id == p.id && Reads(codec, dictionaries, Some(target.id), u.value.compressed)
  {
  }

  lemma {:induction false} RecompressedRead(codec: Codec, dictionaries: seq<Dictionary>, target: Entry, page: seq<PageRow>)
    requires codec.Sound() && Genuine(dictionaries, target) && PageReads(codec, dictionaries, page)
    ensures var updates := Updates(codec, page, DataById(dictionaries), target.data);
            && UpdatesRead(codec, dictionaries, target.id, updates)
            && (updates != [] ==> page != [] && updates[|updates| - 1].id <= page[|page| - 1].id)
  {
    if page != [] {
      RecompressedRead(codec, dictionaries, target, page[..|page| - 1]);
      UpdateReads(codec, dictionaries, target, page[|page| - 1]);
    }
  }

  lemma ReadTaskIsSane(codec: Codec, s: State, t: TaskId, pageSize: int)
    requires Enabled(codec, s, ReadPage(t, pageSize)) && Sane(codec, s)
    ensures TaskSane(codec, s.dictionaries, Apply(codec, s, ReadPage(t, pageSize)).tasks[t])
  {
    assert TaskSane(codec, s.dictionaries, s.tasks[t]);
    PageOfReads(codec, s, PassOn(codec, s, s.tasks[t].target, pageSize), |s.rows|);
  }

  lemma PendingTaskIsSane(codec: Codec, s: State, t: TaskId)
    requires codec.Sound() && Enabled(codec, s, RecompressPage(t)) && Sane(codec, s)
    ensures TaskSane(codec, s.dictionaries, Apply(codec, s, RecompressPage(t)).tasks[t])
  {
    assert TaskSane(codec, s.dictionaries, s.tasks[t]);
    RecompressedRead(codec, s.dictionaries, s.tasks[t].target, s.tasks[t].page);
  }

  lemma TrainedTaskIsSane(codec: Codec, s: State, t: TaskId, step: string, data: Bytes)
    requires Enabled(codec, s, CommitTraining(t, step, data)) && |s.bodies| == |s.rows|
    ensures var s' := Apply(codec, s, CommitTraining(t, step, data)); TaskSane(codec, s'.dictionaries, s'.tasks[t])
  {
    var s' := Apply(codec, s, CommitTraining(t, step, data));
    TrainedIsNewest(s.dictionaries, step, data, step);
    assert s'.dictionaries[..|s.dictionaries| + 1] == s'.dictionaries;
  }

  lemma LookedUpTaskIsSane(codec: Codec, s: State, t: TaskId, step: string)
    requires CacheSane(s)
    ensures TaskSane(codec, s.dictionaries, LookupStep(s, t, step).tasks[t])
  {
    assert s.dictionaries[..|s.dictionaries|] == s.dictionaries;
  }

  predicate ChangesTarget(e: Event) {
    e.CacheLookup? || e.Compress? || e.StartPass? || e.StartPassOn? || e.WritePage?
  }

  lemma OtherTaskIsSane(codec: Codec, s: State, e: Event)
    requires codec.Sound() && Enabled(codec, s, e) && Sane(codec, s) && ChangesTarget(e)
    ensures var s' := Apply(codec, s, e); e.t in s'.tasks && TaskSane(codec, s'.dictionaries, s'.tasks[e.t])
  {
    assert e.t in s.tasks ==> TaskSane(codec, s.dictionaries, s.tasks[e.t]);
  }

  lemma MovedTaskIsSane(codec: Codec, s: State, e: Event)
    requires codec.Sound() && Enabled(codec, s, e) && Sane(codec, s)
    requires !e.NewRow? && !e.StoreNothing? && !e.Crash? && e.t in Apply(codec, s, e).tasks
    ensures var s' := Apply(codec, s, e); TaskSane(codec, s'.dictionaries, s'.tasks[e.t])
  {
    match e
    case ReadPage(t, pageSize) => ReadTaskIsSane(codec, s, t, pageSize);
    case RecompressPage(t) => PendingTaskIsSane(codec, s, t);
    case CommitTraining(t, step, data) => TrainedTaskIsSane(codec, s, t, step, data);
    case Lookup(t, step) => LookedUpTaskIsSane(codec, s, t, step);
    case _ => OtherTaskIsSane(codec, s, e);
  }

  lemma StepKeepsTasks(codec: Codec, s: State, e: Event)
    requires codec.Sound() && Enabled(codec, s, e) && Sane(codec, s)
    ensures TasksSane(codec, Apply(codec, s, e))
  {
    var s' := Apply(codec, s, e);
    DictionariesGrow(codec, s, e);
    forall t | t in s'.tasks
      ensures TaskSane(codec, s'.dictionaries, s'.tasks[t])
    {
      if t in s.tasks && s'.tasks[t] == s.tasks[t] {
        TaskOutlives(codec, s.dictionaries, s'.dictionaries, s.tasks[t]);
      } else {
        MovedTaskIsSane(codec, s, e);
      }
    }
  }

  /** Dictionaries are added, and the cache is kept or lost. */
  ghost predicate LeavesCache(s: State, s': State) {
    && s.dictionaries <= s'.dictionaries
    && (s'.byId == s.byId || s'.byId == map[])
    && ((s'.latest == s.latest && s'.known == s.known) || (s'.latest == map[] && s'.known == map[]))
  }

  lemma StepLeavesCache(codec: Codec, s: State, e: Event)
    requires Enabled(codec, s, e) && |s.bodies| == |s.rows| && !e.CacheLookup? && !e.SeedCache?
    ensures LeavesCache(s, Apply(codec, s, e))
  {
  }

  lemma CacheOutlives(s: State, s': State)
    requires CacheSane(s) && LeavesCache(s, s')
    ensures CacheSane(s')
  {
    forall step | step in s'.latest
      ensures ChosenAmong(s'.dictionaries, s'.known[step], step, s'.latest[step])
    {
      assert s'.dictionaries[..s.known[step]] == s.dictionaries[..s.known[step]];
    }
  }

  lemma LookupKeepsCache(s: State, t: TaskId)
    requires CacheSane(s) && t in s.tasks && s.tasks[t].Reading?
    requires ChosenAmong(s.dictionaries, s.tasks[t].known, s.tasks[t].step, s.tasks[t].entry)
    ensures CacheSane(CacheStep(s, t))
  {
  }

  lemma SeedKeepsCache(s: State, minted: Entry, s': State)
    requires CacheSane(s) && Genuine(s.dictionaries, minted)
    requires ChosenAmong(s.dictionaries, minted.id + 1, minted.step, Some(minted)) && s'.dictionaries == s.dictionaries
    requires s'.latest == s.latest[minted.step := Some(minted)] && s'.known == s.known[minted.step := minted.id + 1]
    requires s'.byId == s.byId[minted.id := minted]
    ensures CacheSane(s')
  {
  }

  lemma CachedLookupKeepsCache(codec: Codec, s: State, t: TaskId)
    requires Enabled(codec, s, CacheLookup(t)) && Sane(codec, s)
    ensures CacheSane(Apply(codec, s, CacheLookup(t)))
  {
    assert TaskSane(codec, s.dictionaries, s.tasks[t]);
    LookupKeepsCache(s, t);
  }

  lemma SeededCacheIsKept(codec: Codec, s: State, t: TaskId)
    requires Enabled(codec, s, SeedCache(t)) && Sane(codec, s)
    ensures CacheSane(Apply(codec, s, SeedCache(t)))
  {
    assert TaskSane(codec, s.dictionaries, s.tasks[t]);
    SeedKeepsCache(s, s.tasks[t].minted, Apply(codec, s, SeedCache(t)));
  }

  lemma {:induction false} WritesRead(codec: Codec, dictionaries: seq<Dictionary>, rows: seq<BodyRow>, updates: seq<PendingUpdate>, target: nat)
    requires forall i :: 0 <= i < |rows| ==> RowReads(codec, dictionaries, rows[i])
    requires UpdatesRead(codec, dictionaries, target, updates)
    ensures var after := GuardedWrites(rows, updates, target).rows;
            |after| == |rows| && forall i :: 0 <= i < |after| ==> RowReads(codec, dictionaries, after[i])
  {
    if updates != [] {
      WritesRead(codec, dictionaries, rows, updates[..|updates| - 1], target);
      var u := updates[|updates| - 1];
      assert Reads(codec, dictionaries, Some(target), u.compressed);
    }
  }

  lemma RowOutlives(codec: Codec, dictionaries: seq<Dictionary>, more: seq<Dictionary>, row: BodyRow)
    requires dictionaries <= more && RowReads(codec, dictionaries, row)
    ensures RowReads(codec, more, row)
  {
  }

  lemma StoresKeepRows(codec: Codec, s: State, e: Event)
    requires Enabled(codec, s, e) && Sane(codec, s) && !e.WritePage?
    ensures RowsRead(codec, Apply(codec, s, e))
  {
    var s' := Apply(codec, s, e);
    DictionariesGrow(codec, s, e);
    forall i | 0 <= i < |s'.rows|
      ensures RowReads(codec, s'.dictionaries, s'.rows[i])
    {
      if i < |s.rows| {
        RowOutlives(codec, s.dictionaries, s'.dictionaries, s.rows[i]);
      }
      if e.StoreBody? || e.NewPreresolvedRow? {
        assert TaskSane(codec, s.dictionaries, s.tasks[e.t]);
      }
    }
  }

  lemma PageWriteKeepsRows(codec: Codec, s: State, t: TaskId)
    requires Enabled(codec, s, WritePage(t)) && Sane(codec, s)
    ensures RowsRead(codec, Apply(codec, s, WritePage(t)))
  {
    assert TaskSane(codec, s.dictionaries, s.tasks[t]);
    WritesRead(codec, s.dictionaries, s.rows, s.tasks[t].updates, s.tasks[t].target.id);
  }

  lemma StepKeepsVersions(codec: Codec, s: State, e: Event)
    requires Enabled(codec, s, e) && Sane(codec, s)
    ensures VersionsRise(Apply(codec, s, e).dictionaries)
  {
    if e.CommitTraining? {
      MintedRises(s.dictionaries, e.step, e.data);
    }
  }

  lemma StepKeepsSane(codec: Codec, s: State, e: Event)
    requires codec.Sound() && Enabled(codec, s, e) && Sane(codec, s)
    ensures Sane(codec, Apply(codec, s, e))
  {
    if e.WritePage? {
      PageWriteKeepsRows(codec, s, e.t);
    } else {
      StoresKeepRows(codec, s, e);
    }
    StepKeepsTasks(codec, s, e);
    if e.CacheLookup? {
      CachedLookupKeepsCache(codec, s, e.t);
    } else if e.SeedCache? {
      SeededCacheIsKept(codec, s, e.t);
    } else {
      StepLeavesCache(codec, s, e);
      CacheOutlives(s, Apply(codec, s, e));
    }
    StepKeepsVersions(codec, s, e);
  }

  // --- Runs -------------------------------------------------------------------------

  /** Every row decodes to the body last stored on it. */
  ghost predicate Faithful(codec: Codec, s: State) {
    |s.bodies| == |s.rows| && forall i :: 0 <= i < |s.rows| ==> Decoded(codec, s.dictionaries, s.rows[i]) == s.bodies[i]
  }

  /** A database as it is opened: nothing running, nothing cached, every body as it
      was stored. */
  ghost predicate Init(codec: Codec, s: State) {
    && s.tasks == map[] && s.latest == map[] && s.known == map[] && s.byId == map[]
    && RowsRead(codec, s) && Faithful(codec, s) && VersionsRise(s.dictionaries)
    && s.held == Versions(s.rows, s.bodies)
    && s.stores.Keys == (set i: nat | i < |s.rows| :: (i, s.rows[i].stamp))
    && forall i :: 0 <= i < |s.rows| ==> s.stores[(i, s.rows[i].stamp)] == s.bodies[i]
  }

  /** The states `events` lead through, from `s`. */
  ghost predicate Leads(codec: Codec, s: State, events: seq<Event>, s': State)
    decreases |events|
  {
    if events == [] then s' == s
    else
      Enabled(codec, s, events[0]) && |s.bodies| == |s.rows| && Leads(codec, Apply(codec, s, events[0]), events[1..], s')
  }

  lemma {:induction false} RunIsSane(codec: Codec, s: State, events: seq<Event>, s': State)
    requires codec.Sound() && Sane(codec, s) && Leads(codec, s, events, s')
    ensures Sane(codec, s')
    decreases |events|
  {
    if events != [] {
      StepKeepsSane(codec, s, events[0]);
      RunIsSane(codec, Apply(codec, s, events[0]), events[1..], s');
    }
  }

  /** Whatever is cached, newest or not, is a dictionary of the step as it is stored,
      so what is compressed with it decodes; no assumption on stamps. */
  lemma CacheIsHarmless(codec: Codec, s: State, events: seq<Event>, s': State, step: string, plain: Bytes)
    requires codec.Sound() && Init(codec, s) && Leads(codec, s, events, s')
    requires step in s'.latest && Compressed(codec, s'.latest[step], plain).Some?
    ensures var entry := s'.latest[step];
            && (entry.Some? ==> entry.value.step == step && entry.value.id < |s'.dictionaries|)
            && codec.decompress(DataOf(s'.dictionaries, if entry.Some? then Some(entry.value.id) else None),
                                Compressed(codec, entry, plain).value) == Some(plain)
  {
    RunIsSane(codec, s, events, s');
  }

  // --- When `latest` is the newest ----------------------------------------------------

  ghost predicate NoneSince(dictionaries: seq<Dictionary>, n: nat, step: string) {
    forall i :: n <= i < |dictionaries| ==> dictionaries[i].step != step
  }

  lemma {:induction false} NewestAmongLess(dictionaries: seq<Dictionary>, n: nat, step: string)
    requires n <= |dictionaries| && NoneSince(dictionaries, n, step)
    ensures Newest(dictionaries[..n], step) == Newest(dictionaries, step)
  {
    if n < |dictionaries| {
      var init := dictionaries[..|dictionaries| - 1];
      NewestAmongLess(init, n, step);
      assert init[..n] == dictionaries[..n];
    } else {
      assert dictionaries[..n] == dictionaries;
    }
  }

  /** An entry chosen among the first `n` dictionaries is the newest exactly while no
      later one is of its step. */
  lemma NewestUnlessMinted(dictionaries: seq<Dictionary>, n: nat, step: string)
    requires VersionsRise(dictionaries) && n <= |dictionaries|
    ensures EntryAsOf(dictionaries, n, step) == EntryOf(dictionaries, Newest(dictionaries, step))
            <==> NoneSince(dictionaries, n, step)
  {
    if NoneSince(dictionaries, n, step) {
      NewestAmongLess(dictionaries, n, step);
    } else {
      var i :| n <= i < |dictionaries| && dictionaries[i].step == step;
      var newest, chosen := Newest(dictionaries, step), Newest(dictionaries[..n], step);
      assert dictionaries[newest.value].version >= dictionaries[i].version;
      assert chosen.Some? ==> dictionaries[chosen.value].version < dictionaries[i].version;
    }
  }

  /** Over every run: the cached entry of a step is its newest dictionary if and only if
      none of the step has been minted since the entry was chosen - at the read of the
      lookup that wrote it, or at the commit of the training that seeded it. */
  lemma LatestIsNewestUnlessMinted(codec: Codec, s: State, events: seq<Event>, s': State, step: string)
    requires codec.Sound() && Init(codec, s) && Leads(codec, s, events, s') && step in s'.latest
    ensures step in s'.known
    ensures s'.latest[step] == EntryOf(s'.dictionaries, Newest(s'.dictionaries, step))
            <==> NoneSince(s'.dictionaries, s'.known[step], step)
  {
    RunIsSane(codec, s, events, s');
    NewestUnlessMinted(s'.dictionaries, s'.known[step], step);
  }

  lemma ChosenIsNewestUnlessMinted(dictionaries: seq<Dictionary>, n: nat, step: string, entry: Option<Entry>)
    requires VersionsRise(dictionaries) && ChosenAmong(dictionaries, n, step, entry)
    ensures entry == EntryOf(dictionaries, Newest(dictionaries, step)) <==> NoneSince(dictionaries, n, step)
  {
    NewestUnlessMinted(dictionaries, n, step);
  }

  /** So for the two steps that write an entry. */
  lemma CachedLookupIsNewestUnlessMinted(codec: Codec, s: State, t: TaskId)
    requires Sane(codec, s) && Enabled(codec, s, CacheLookup(t))
    ensures var s' := Apply(codec, s, CacheLookup(t)); var Reading(step, _, known) := s.tasks[t];
            s'.latest[step] == EntryOf(s'.dictionaries, Newest(s'.dictionaries, step)) <==> NoneSince(s.dictionaries, known, step)
  {
    var Reading(step, entry, known) := s.tasks[t];
    assert TaskSane(codec, s.dictionaries, s.tasks[t]);
    ChosenIsNewestUnlessMinted(s.dictionaries, known, step, entry);
  }

  lemma SeededEntryIsNewestUnlessMinted(codec: Codec, s: State, t: TaskId)
    requires Sane(codec, s) && Enabled(codec, s, SeedCache(t))
    ensures var s' := Apply(codec, s, SeedCache(t)); var minted := s.tasks[t].minted;
            s'.latest[minted.step] == EntryOf(s'.dictionaries, Newest(s'.dictionaries, minted.step))
            <==> NoneSince(s.dictionaries, minted.id + 1, minted.step)
  {
    var minted := s.tasks[t].minted;
    assert TaskSane(codec, s.dictionaries, s.tasks[t]);
    ChosenIsNewestUnlessMinted(s.dictionaries, minted.id + 1, minted.step, Some(minted));
  }
}
