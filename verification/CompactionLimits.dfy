/** Where interleaved compaction stops short: the cache can fall behind training, and
    the guard relies on stamps that differ. */
module CompactionLimits {
  import opened Wrappers
  import opened Bodies
  import opened Recompression
  import opened BodyStores
  import opened Compaction

  lemma {:induction false} Then(codec: Codec, s: State, events: seq<Event>, mid: State, e: Event, s': State)
    requires Leads(codec, s, events, mid) && Enabled(codec, mid, e) && |mid.bodies| == |mid.rows| && s' == Apply(codec, mid, e)
    ensures Leads(codec, s, events + [e], s')
    decreases |events|
  {
    if events == [] {
      assert [e][1..] == [];
      assert events + [e] == [e];
    } else {
      Then(codec, Apply(codec, s, events[0]), events[1..], mid, e, s');
      assert (events + [e])[1..] == events[1..] + [e];
    }
  }

  lemma {:induction false} Joined(codec: Codec, s: State, first: seq<Event>, mid: State, second: seq<Event>, s': State)
    requires Leads(codec, s, first, mid) && Leads(codec, mid, second, s')
    ensures Leads(codec, s, first + second, s')
    decreases |first|
  {
    if first == [] {
      assert first + second == second;
    } else {
      Joined(codec, Apply(codec, s, first[0]), first[1..], mid, second, s');
      assert (first + second)[1..] == first[1..] + second;
    }
  }

  // --- A stale `latest` -------------------------------------------------------------

  /** A lookup awaits its read while a training commits, and then while that seeds the
      cache. */
  function OvertakenRead(step: string, data: Bytes): seq<Event> {
    [Lookup(0, step)] + [CommitTraining(1, step, data)]
  }

  const SEED_THEN_CACHE: seq<Event> := [SeedCache(1)] + [CacheLookup(0)]

  lemma ReadIsOvertaken(codec: Codec, s: State, step: string, data: Bytes) returns (s': State)
    requires Init(codec, s)
    ensures Leads(codec, s, OvertakenRead(step, data), s') && |s'.bodies| == |s'.rows|
    ensures s'.tasks == map[0 := Reading(step, EntryOf(s.dictionaries, Newest(s.dictionaries, step)), |s.dictionaries|),
                            1 := Trained(Entry(|s.dictionaries|, data, step))]
    ensures Newest(s'.dictionaries, step) == Some(|s.dictionaries|)
  {
    TrainedIsNewest(s.dictionaries, step, data, step);
    var s1 := Apply(codec, s, Lookup(0, step));
    Then(codec, s, [], s, Lookup(0, step), s1);
    s' := Apply(codec, s1, CommitTraining(1, step, data));
    Then(codec, s, [Lookup(0, step)], s1, CommitTraining(1, step, data), s');
  }

  lemma SeededThenCached(codec: Codec, s: State, step: string, entry: Option<Entry>, known: nat, minted: Entry) returns (s': State)
    requires |s.bodies| == |s.rows| && s.tasks == map[0 := Reading(step, entry, known), 1 := Trained(minted)]
    ensures Leads(codec, s, SEED_THEN_CACHE, s')
    ensures s'.dictionaries == s.dictionaries && step in s'.latest && s'.latest[step] == entry
  {
    var s1 := Apply(codec, s, SeedCache(1));
    Then(codec, s, [], s, SeedCache(1), s1);
    s' := Apply(codec, s1, CacheLookup(0));
    Then(codec, s, [SeedCache(1)], s1, CacheLookup(0), s');
  }

  /** Then the cache forgets the dictionary just trained: from any database, and for
      any step, the entry is the one from before. */
  lemma LatestCanBeStale(codec: Codec, s: State, step: string, data: Bytes) returns (s': State)
    requires Init(codec, s)
    ensures Leads(codec, s, OvertakenRead(step, data) + SEED_THEN_CACHE, s')
    ensures step in s'.latest && s'.latest[step] == EntryOf(s.dictionaries, Newest(s.dictionaries, step))
    ensures s'.latest[step] != EntryOf(s'.dictionaries, Newest(s'.dictionaries, step))
  {
    var mid := ReadIsOvertaken(codec, s, step, data);
    s' := SeededThenCached(codec, mid, step, EntryOf(s.dictionaries, Newest(s.dictionaries, step)), |s.dictionaries|,
                           Entry(|s.dictionaries|, data, step));
    Joined(codec, s, OvertakenRead(step, data), mid, SEED_THEN_CACHE, s');
  }

  /** Two trainings of one step that seed the cache in the other order. */
  function BothCommit(step: string, first: Bytes, second: Bytes): seq<Event> {
    [CommitTraining(0, step, first)] + [CommitTraining(1, step, second)]
  }

  const SECOND_SEEDS_FIRST: seq<Event> := [SeedCache(1)] + [SeedCache(0)]

  lemma BothTrainingsCommit(codec: Codec, s: State, step: string, first: Bytes, second: Bytes) returns (s': State)
    requires Init(codec, s)
    ensures Leads(codec, s, BothCommit(step, first, second), s') && |s'.bodies| == |s'.rows|
    ensures s'.tasks == map[0 := Trained(Entry(|s.dictionaries|, first, step)), 1 := Trained(Entry(|s.dictionaries| + 1, second, step))]
    ensures Newest(s'.dictionaries, step) == Some(|s.dictionaries| + 1)
  {
    var s1 := Apply(codec, s, CommitTraining(0, step, first));
    Then(codec, s, [], s, CommitTraining(0, step, first), s1);
    TrainedIsNewest(s1.dictionaries, step, second, step);
    s' := Apply(codec, s1, CommitTraining(1, step, second));
    Then(codec, s, [CommitTraining(0, step, first)], s1, CommitTraining(1, step, second), s');
  }

  lemma BothSeed(codec: Codec, s: State, older: Entry, newer: Entry) returns (s': State)
    requires |s.bodies| == |s.rows| && s.tasks == map[0 := Trained(older), 1 := Trained(newer)] && older.step == newer.step
    ensures Leads(codec, s, SECOND_SEEDS_FIRST, s')
    ensures s'.dictionaries == s.dictionaries && older.step in s'.latest && s'.latest[older.step] == Some(older)
  {
    var s1 := Apply(codec, s, SeedCache(1));
    Then(codec, s, [], s, SeedCache(1), s1);
    s' := Apply(codec, s1, SeedCache(0));
    Then(codec, s, [SeedCache(1)], s1, SeedCache(0), s');
  }

  /** Then the older of the two is cached. */
  lemma CrossedTrainingsCacheTheOlder(codec: Codec, s: State, step: string, first: Bytes, second: Bytes) returns (s': State)
    requires Init(codec, s)
    ensures Leads(codec, s, BothCommit(step, first, second) + SECOND_SEEDS_FIRST, s')
    ensures step in s'.latest && s'.latest[step] == Some(Entry(|s.dictionaries|, first, step))
    ensures Newest(s'.dictionaries, step) == Some(|s.dictionaries| + 1)
  {
    var mid := BothTrainingsCommit(codec, s, step, first, second);
    s' := BothSeed(codec, mid, Entry(|s.dictionaries|, first, step), Entry(|s.dictionaries| + 1, second, step));
    Joined(codec, s, BothCommit(step, first, second), mid, SECOND_SEEDS_FIRST, s');
  }

  // --- Two stores with one stamp ------------------------------------------------------

  function Suffix(d: Option<Bytes>): Bytes {
    if d.Some? then d.value else []
  }

  /** A codec that appends its dictionary. */
  function AppendCodec(): Codec {
    Codec(
      (d: Option<Bytes>, x: Bytes) => Some(x + Suffix(d)),
      (d: Option<Bytes>, y: Bytes) => if |y| < |Suffix(d)| then None else Some(y[..|y| - |Suffix(d)|]))
  }

  lemma AppendCodecIsSound()
    ensures AppendCodec().Sound()
  {
  }

  const OLD: Bytes := [1, 1]
  const NEW: Bytes := [2, 2]
  const PLAIN: Dictionary := Dictionary("s", 1, [])
  const MARKED: Dictionary := Dictionary("s", 2, [0])
  const TARGET: Entry := Entry(0, [], "s")

  /** The row with a body stored at millisecond 5. */
  function Body(content: Bytes, dictId: Option<nat>): BodyRow {
    BodyRow("s", true, Some(content), dictId, Some(5), Some(2), Some(|content|))
  }

  /** One row, two dictionaries, nothing running. */
  function Opened(): State {
    State([Body(OLD, None)], [PLAIN, MARKED], map[], map[], map[], [Some(OLD)], map[(0, Some(5)) := Some(OLD)],
          map[(0, Some(5), Some(2)) := Some(OLD)], map[])
  }

  function UpdateTo(content: Bytes, size: nat): PendingUpdate {
    PendingUpdate(0, Some(5), Some(size), content, 2, 2)
  }

  lemma ShownRowIsRecompressed(row: BodyRow, plain: Bytes)
    requires row.content.Some? && row.stamp == Some(5) && row.sizeCompressed.Some? && |plain| == 2
    requires Decoded(AppendCodec(), [PLAIN, MARKED], row) == Some(plain)
    ensures UpdateOf(AppendCodec(), PageRowOf([row], 0), DataById([PLAIN, MARKED]), [])
         == Some(UpdateTo(plain, row.sizeCompressed.value))
  {
    assert Recompression.Found(DataById([PLAIN, MARKED]), row.dictId) == DataOf([PLAIN, MARKED], row.dictId);
    assert plain + [] == plain;
  }

  lemma OneUpdate(codec: Codec, p: PageRow, olds: map<nat, Bytes>, target: Bytes)
    requires UpdateOf(codec, p, olds, target).Some?
    ensures Updates(codec, [p], olds, target) == [UpdateOf(codec, p, olds, target).value]
  {
  }

  lemma OneRowPage(j: Job, row: BodyRow)
    requires j.pageSize > 0 && j.Off(row)
    ensures PageOf(j, [row], 1) == [PageRowOf([row], 0)]
  {
  }

  lemma OneWrite(row: BodyRow, content: Bytes, size: nat)
    requires |content| == 2 && row.stamp == Some(5) && row.sizeCompressed == Some(size)
    ensures GuardedWrites([row], [UpdateTo(content, size)], 0).rows ==
            [row.(content := Some(content), sizeOriginal := Some(2), sizeCompressed := Some(2), dictId := Some(0))]
  {
  }

  /** A pass reads its page and recompresses it; the write is still to come. */
  function PassReads(t: TaskId): seq<Event> {
    [StartPassOn(t, 0)] + [ReadPage(t, 10)] + [RecompressPage(t)]
  }

  /** The one row, off the first dictionary, and the body it decodes to. */
  predicate Shows(s: State, row: BodyRow, plain: Bytes) {
    && s.rows == [row] && |s.bodies| == 1 && s.dictionaries == [PLAIN, MARKED]
    && row.step == "s" && row.responded && row.content.Some? && row.dictId != Some(0) && row.stamp == Some(5)
    && Decoded(AppendCodec(), s.dictionaries, row) == Some(plain) && |plain| == 2 && row.sizeCompressed.Some?
  }

  function PageShown(row: BodyRow): seq<PageRow> {
    PageOf(Job(AppendCodec(), [PLAIN, MARKED], "s", 0, 10), [row], 1)
  }

  lemma PageIsRead(s: State, t: TaskId, row: BodyRow, plain: Bytes)
    requires Shows(s, row, plain) && t in s.tasks && s.tasks[t] == Passing(TARGET)
    ensures Apply(AppendCodec(), s, ReadPage(t, 10)) == Do(s, t, Read(TARGET, PageShown(row)))
  {
  }

  lemma PageIsRecompressed(s: State, t: TaskId, row: BodyRow, plain: Bytes)
    requires Shows(s, row, plain) && t in s.tasks && s.tasks[t] == Read(TARGET, PageShown(row))
    ensures Apply(AppendCodec(), s, RecompressPage(t)) == Do(s, t, Pending(TARGET, [UpdateTo(plain, row.sizeCompressed.value)]))
  {
    OneRowPage(Job(AppendCodec(), [PLAIN, MARKED], "s", 0, 10), row);
    ShownRowIsRecompressed(row, plain);
    OneUpdate(AppendCodec(), PageRowOf([row], 0), DataById([PLAIN, MARKED]), []);
  }

  lemma PassStarts(s: State, t: TaskId, row: BodyRow, plain: Bytes)
    requires Shows(s, row, plain) && t !in s.tasks
    ensures Leads(AppendCodec(), s, [StartPassOn(t, 0)], Do(s, t, Passing(TARGET)))
  {
  }

  lemma PassIsPending(s: State, t: TaskId, row: BodyRow, plain: Bytes) returns (s': State)
    requires Shows(s, row, plain) && t !in s.tasks
    ensures Leads(AppendCodec(), s, PassReads(t), s')
    ensures s' == Do(s, t, Pending(TARGET, [UpdateTo(plain, row.sizeCompressed.value)]))
  {
    var codec := AppendCodec();
    var s1 := Do(s, t, Passing(TARGET));
    PassStarts(s, t, row, plain);
    var s2 := Do(s1, t, Read(TARGET, PageShown(row)));
    PageIsRead(s1, t, row, plain);
    Then(codec, s, [StartPassOn(t, 0)], s1, ReadPage(t, 10), s2);
    s' := Do(s2, t, Pending(TARGET, [UpdateTo(plain, row.sizeCompressed.value)]));
    PageIsRecompressed(s2, t, row, plain);
    Then(codec, s, [StartPassOn(t, 0)] + [ReadPage(t, 10)], s2, RecompressPage(t), s');
  }

  /** A worker compresses a new body. */
  function WorkerCompresses(t: TaskId): seq<Event> {
    [Lookup(t, "s")] + [CacheLookup(t)] + [Compress(t, NEW)]
  }

  lemma NewestOfTwo()
    ensures Newest([PLAIN, MARKED], "s") == Some(1)
  {
  }

  /** The newest dictionary is found, and the body compressed with it. */
  lemma NewBodyIsCompressed(s: State, t: TaskId) returns (s': State)
    requires |s.rows| == |s.bodies| && s.dictionaries == [PLAIN, MARKED] && t !in s.tasks && "s" !in s.latest
    ensures Leads(AppendCodec(), s, WorkerCompresses(t), s')
    ensures s' == s.(latest := s'.latest, known := s'.known, byId := s'.byId, tasks := s.tasks[t := Prepared(NEW, NEW + [0], Some(1))])
  {
    var codec := AppendCodec();
    NewestOfTwo();
    var s1 := Apply(codec, s, Lookup(t, "s"));
    Then(codec, s, [], s, Lookup(t, "s"), s1);
    var s2 := Apply(codec, s1, CacheLookup(t));
    Then(codec, s, [Lookup(t, "s")], s1, CacheLookup(t), s2);
    s' := Apply(codec, s2, Compress(t, NEW));
    Then(codec, s, [Lookup(t, "s")] + [CacheLookup(t)], s2, Compress(t, NEW), s');
  }

  /** A pass writes its one update: the guard finds stamp and size as read. */
  lemma UpdateIsWritten(s: State, t: TaskId, row: BodyRow, plain: Bytes, size: nat) returns (s': State)
    requires s.rows == [row] && |s.bodies| == 1 && row.stamp == Some(5) && row.sizeCompressed == Some(size) && |plain| == 2
    requires t in s.tasks && s.tasks[t] == Pending(TARGET, [UpdateTo(plain, size)])
    ensures Leads(AppendCodec(), s, [WritePage(t)], s')
    ensures s'.rows == [row.(content := Some(plain), sizeOriginal := Some(2), sizeCompressed := Some(2), dictId := Some(0))]
    ensures s'.tasks == s.tasks[t := Passing(TARGET)] && s'.bodies == s.bodies && s'.dictionaries == s.dictionaries
  {
    OneWrite(row, plain, size);
    s' := Apply(AppendCodec(), s, WritePage(t));
    Then(AppendCodec(), s, [], s, WritePage(t), s');
    assert [] + [WritePage(t)] == [WritePage(t)];
  }

  /** One pass reads the old body; a worker has the new one ready. */
  lemma ReadBeforeTheStore() returns (s': State)
    ensures Leads(AppendCodec(), Opened(), PassReads(0) + WorkerCompresses(1), s')
    ensures s'.rows == [Body(OLD, None)] && s'.bodies == [Some(OLD)] && s'.dictionaries == [PLAIN, MARKED]
    ensures s'.tasks == map[0 := Pending(TARGET, [UpdateTo(OLD, 2)]), 1 := Prepared(NEW, NEW + [0], Some(1))]
  {
    assert OLD[..2] == OLD;
    var s1 := PassIsPending(Opened(), 0, Body(OLD, None), OLD);
    s' := NewBodyIsCompressed(s1, 1);
    Joined(AppendCodec(), Opened(), PassReads(0), s1, WorkerCompresses(1), s');
  }

  /** The new body, stored in the same millisecond at another size. */
  function StoredAgain(s: State): State
    requires s.rows == [Body(OLD, None)] && |s.bodies| == 1
  {
    Stored(Done(s, 1), 0, 5, StoredRow(s, 0, Some(NEW + [0]), Some(1), 2), Some(NEW))
  }

  /** Another pass reads the new body and writes it back at the old size; the first
      pass's guard then finds what it read. */
  function BothPassesWrite(): seq<Event> {
    PassReads(2) + [WritePage(2)] + [WritePage(0)]
  }

  lemma FirstPassOverwrites(s: State) returns (s': State)
    requires s.rows == [Body(NEW + [0], Some(1))] && s.bodies == [Some(NEW)] && s.dictionaries == [PLAIN, MARKED]
    requires s.tasks == map[0 := Pending(TARGET, [UpdateTo(OLD, 2)])]
    ensures Leads(AppendCodec(), s, BothPassesWrite(), s')
    ensures |s'.rows| == 1 && s'.rows[0].content == Some(OLD) && s'.rows[0].dictId == Some(0)
    ensures s'.bodies == [Some(NEW)] && s'.dictionaries == [PLAIN, MARKED]
  {
    var codec := AppendCodec();
    assert (NEW + [0])[..2] == NEW;
    var s3 := PassIsPending(s, 2, Body(NEW + [0], Some(1)), NEW);
    var s4 := UpdateIsWritten(s3, 2, s3.rows[0], NEW, 3);
    Joined(codec, s, PassReads(2), s3, [WritePage(2)], s4);
    s' := UpdateIsWritten(s4, 0, s4.rows[0], OLD, 2);
    Joined(codec, s, PassReads(2) + [WritePage(2)], s4, [WritePage(0)], s');
  }

  lemma OpenedIsInit()
    ensures Init(AppendCodec(), Opened())
  {
    var s := Opened();
    assert OLD[..2] == OLD;
    assert VersionSet(s.rows) == {VersionOf(s.rows, 0)};
    assert s.held == Versions(s.rows, s.bodies);
    assert (set i: nat | i < |s.rows| :: (i, s.rows[i].stamp)) == {(0, s.rows[0].stamp)};
  }

  /** From `s` a second store of the one row lands under the first's stamp, at another
      compressed size, and the row ends decoding to the body stored first. */
  ghost predicate LosesABody(codec: Codec, s: State, before: State, t: TaskId, now: int, s': State) {
    && |s.rows| == |before.rows| == |s'.rows| == |s.bodies| == |before.bodies| == |s'.bodies| == 1
    && before.rows == s.rows && before.bodies == s.bodies
    && Enabled(codec, before, StoreBody(t, 0, now))
    && var stored := Apply(codec, before, StoreBody(t, 0, now));
    && |stored.rows| == 1 && stored.bodies == s'.bodies != s.bodies
    && stored.rows[0].stamp == s.rows[0].stamp == Some(now)
    && stored.rows[0].sizeCompressed != s.rows[0].sizeCompressed
    && Decoded(codec, s'.dictionaries, s'.rows[0]) == s.bodies[0]
  }

  /** A second store under the first's stamp, at 3 bytes against 2, after which the first
      body, read by one pass, lands over the second once another pass has brought that to
      the size the first was read at.  The size in the guard does not make up for a
      shared stamp. */
  lemma SharedStampLosesABody() returns (before: State, s': State)
    ensures AppendCodec().Sound() && Init(AppendCodec(), Opened())
    ensures Leads(AppendCodec(), Opened(), PassReads(0) + WorkerCompresses(1) + [StoreBody(1, 0, 5)] + BothPassesWrite(), s')
    ensures Leads(AppendCodec(), Opened(), PassReads(0) + WorkerCompresses(1), before)
    ensures LosesABody(AppendCodec(), Opened(), before, 1, 5, s')
  {
    var codec, s, earlier := AppendCodec(), Opened(), PassReads(0) + WorkerCompresses(1);
    AppendCodecIsSound();
    OpenedIsInit();
    before := ReadBeforeTheStore();
    var stored := StoredAgain(before);
    assert stored.rows == [Body(NEW + [0], Some(1))];
    assert stored.tasks == map[0 := Pending(TARGET, [UpdateTo(OLD, 2)])];
    Then(codec, s, earlier, before, StoreBody(1, 0, 5), stored);
    s' := FirstPassOverwrites(stored);
    Joined(codec, s, earlier + [StoreBody(1, 0, 5)], stored, BothPassesWrite(), s');
    assert OLD[..2] == OLD;
  }
}
