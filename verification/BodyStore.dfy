/** The database's side of stored bodies, in place: the dictionary cache, storing
    and reading a body, training, and the compaction pass. */
module BodyStores {
  import opened Wrappers
  import opened Bodies
  import opened Recompression

  /** A cached dictionary, with the step it was trained for. */
  datatype Entry = Entry(id: nat, data: Bytes, step: string)

  datatype CompressedContent = CompressedContent(data: Bytes, dictId: Option<nat>)

  datatype Stats = Stats(recompressed: nat, original: nat, compressed: nat, skipped: nat)

  datatype StoreError =
    | NoDictionary(id: nat)
    | TrainedForAnotherStep(id: nat, step: string)
    | NoDictionaryFor(step: string)
    | CodecFailed
    | TrainingFailed

  predicate Genuine(dictionaries: seq<Dictionary>, e: Entry) {
    e.id < |dictionaries| && dictionaries[e.id].data == e.data && dictionaries[e.id].step == e.step
  }

  /** `ORDER BY version DESC LIMIT 1`. */
  function Newest(dictionaries: seq<Dictionary>, step: string): (r: Option<nat>)
    ensures r.None? <==> forall i :: 0 <= i < |dictionaries| ==> dictionaries[i].step != step
    ensures r.Some? ==> r.value < |dictionaries| && dictionaries[r.value].step == step
    ensures r.Some? ==> forall i :: 0 <= i < |dictionaries| && dictionaries[i].step == step ==>
              dictionaries[i].version <= dictionaries[r.value].version
  {
    if dictionaries == [] then None
    else
      var last := |dictionaries| - 1;
      var best := Newest(dictionaries[..last], step);
      if dictionaries[last].step != step then best
      else if best.None? || dictionaries[last].version > dictionaries[best.value].version then Some(last)
      else best
  }

  /** `coalesce(max(version), 0) + 1`. */
  function NextVersion(dictionaries: seq<Dictionary>, step: string): nat {
    var newest := Newest(dictionaries, step);
    if newest.None? then 1 else dictionaries[newest.value].version + 1
  }

  /** What is trained is the newest from then on, and no other step's changes. */
  lemma TrainedIsNewest(dictionaries: seq<Dictionary>, step: string, data: Bytes, other: string)
    ensures var after := dictionaries + [Dictionary(step, NextVersion(dictionaries, step), data)];
            Newest(after, other) == if other == step then Some(|dictionaries|) else Newest(dictionaries, other)
  {
  }

  function EntryOf(dictionaries: seq<Dictionary>, id: Option<nat>): Option<Entry>
    requires id.Some? ==> id.value < |dictionaries|
  {
    if id.None? then None else Some(Entry(id.value, dictionaries[id.value].data, dictionaries[id.value].step))
  }

  predicate GenuineOption(dictionaries: seq<Dictionary>, entry: Option<Entry>, step: string) {
    entry.Some? ==> Genuine(dictionaries, entry.value) && entry.value.step == step
  }

  /** The dictionary a step's lookup answers: the one cached, if it has been looked up,
      and else the newest stored. */
  function Current(dictionaries: seq<Dictionary>, latest: map<string, Option<Entry>>, step: string): Option<Entry> {
    if step in latest then latest[step] else EntryOf(dictionaries, Newest(dictionaries, step))
  }

  function IdOf(entry: Option<Entry>): Option<nat> {
    if entry.Some? then Some(entry.value.id) else None
  }

  class BodyStore {
    const codec: Codec
    var rows: seq<BodyRow>
    var dictionaries: seq<Dictionary>
    var byId: map<nat, Entry>
    var latest: map<string, Option<Entry>>

    /** The cache holds dictionaries of their steps as they are stored, though `latest`
        may have been overtaken: what every interleaving keeps. */
    ghost predicate Valid()
      reads this
    {
      && (forall id :: id in byId ==> byId[id].id == id && Genuine(dictionaries, byId[id]))
      && (forall step :: step in latest ==> GenuineOption(dictionaries, latest[step], step))
    }

    /** Nothing has been overtaken. */
    ghost predicate Fresh()
      reads this
    {
      forall step :: step in latest ==> latest[step] == EntryOf(dictionaries, Newest(dictionaries, step))
    }

    constructor (codec: Codec, rows: seq<BodyRow>, dictionaries: seq<Dictionary>)
      ensures Valid() && Fresh() && this.codec == codec && this.rows == rows && this.dictionaries == dictionaries
    {
      this.codec := codec;
      this.rows, this.dictionaries := rows, dictionaries;
      byId, latest := map[], map[];
    }

    method GetCompressionDict(step: string) returns (e: Option<Entry>)
      requires Valid()
      modifies this`byId, this`latest
      ensures Valid() && e == Current(dictionaries, old(latest), step) && latest == old(latest)[step := e]
      ensures old(Fresh()) ==> Fresh() && e == EntryOf(dictionaries, Newest(dictionaries, step))
    {
      if step in latest {
        return latest[step];
      }
      var newest := Newest(dictionaries, step);
      if newest.None? {
        latest := latest[step := None];
        return None;
      }
      var entry := Entry(newest.value, dictionaries[newest.value].data, dictionaries[newest.value].step);
      byId := byId[entry.id := entry];
      latest := latest[step := Some(entry)];
      return Some(entry);
    }

    /** A miss is not cached. */
    method GetDictEntryById(id: nat) returns (e: Option<Entry>)
      requires Valid()
      modifies this`byId
      ensures Valid() && e == EntryOf(dictionaries, if id < |dictionaries| then Some(id) else None)
    {
      if id in byId {
        return Some(byId[id]);
      }
      if id >= |dictionaries| {
        return None;
      }
      var entry := Entry(id, dictionaries[id].data, dictionaries[id].step);
      byId := byId[id := entry];
      return Some(entry);
    }

    /** What is compressed decompresses, under the dictionary id returned, to the
        content. */
    method CompressResponse(content: Bytes, step: string) returns (r: Result<CompressedContent, StoreError>)
      requires Valid()
      modifies this`byId, this`latest
      ensures Valid() && latest == old(latest)[step := Current(dictionaries, old(latest), step)]
      ensures r.Err? <==> codec.compress(DataOf(dictionaries, IdOf(Current(dictionaries, old(latest), step))), content).None?
      ensures r.Ok? ==> r.value.dictId == IdOf(Current(dictionaries, old(latest), step))
      ensures r.Ok? ==> codec.compress(DataOf(dictionaries, r.value.dictId), content) == Some(r.value.data)
      ensures r.Ok? && codec.Sound() ==> codec.decompress(DataOf(dictionaries, r.value.dictId), r.value.data) == Some(content)
    {
      var entry := GetCompressionDict(step);
      var compressed := codec.compress(if entry.Some? then Some(entry.value.data) else None, content);
      if compressed.None? {
        return Err(CodecFailed);
      }
      return Ok(CompressedContent(compressed.value, if entry.Some? then Some(entry.value.id) else None));
    }

    method DecompressResponse(compressed: Bytes, dictId: Option<nat>) returns (r: Result<Bytes, StoreError>)
      requires Valid()
      modifies this`byId
      ensures Valid()
      ensures dictId.Some? && dictId.value >= |dictionaries| ==> r == Err(NoDictionary(dictId.value))
      ensures dictId.None? || dictId.value < |dictionaries| ==>
                r == (match codec.decompress(DataOf(dictionaries, dictId), compressed)
                      case Some(x) => Ok(x)
                      case None => Err(CodecFailed))
    {
      var dictionary := None;
      if dictId.Some? {
        var entry := GetDictEntryById(dictId.value);
        if entry.None? {
          return Err(NoDictionary(dictId.value));
        }
        dictionary := Some(entry.value.data);
      }
      var content := codec.decompress(dictionary, compressed);
      return if content.None? then Err(CodecFailed) else Ok(content.value);
    }

    /** `store_response`, of the response columns: the body and its stamp move
        together. */
    method StoreResponse(id: nat, content: Option<Bytes>, dictId: Option<nat>, original: Option<nat>, compressed: Option<nat>, now: int)
      modifies this`rows
      ensures rows == if id < |old(rows)| then old(rows)[id :=
                          BodyRow(old(rows)[id].step, true, content, dictId, Some(now), original, compressed)] else old(rows)
    {
      if id < |rows| {
        rows := rows[id := rows[id].(responded := true, content := content, dictId := dictId, stamp := Some(now),
                                     sizeOriginal := original, sizeCompressed := compressed)];
      }
    }

    /** A response's body, stored compressed - an empty one, or a file's, as NULL -
        reads back as itself; no other row is touched. */
    method StoreContent(id: nat, content: Bytes, onDisk: bool, step: string, now: int) returns (r: Option<StoreError>)
      requires Valid()
      modifies this`rows, this`byId, this`latest
      ensures Valid()
      ensures r.Some? <==>
                && !onDisk && content != []
                && codec.compress(DataOf(dictionaries, IdOf(Current(dictionaries, old(latest), step))), content).None?
      ensures r.Some? || id >= |old(rows)| ==> rows == old(rows)
      ensures r.None? && id < |old(rows)| ==>
                && |rows| == |old(rows)| && rows[id].responded && rows[id].stamp == Some(now)
                && rows[id].step == old(rows)[id].step
                && rows[id].sizeOriginal == Some(|content|)
                && rows[id].sizeCompressed == Some(if rows[id].content.Some? then |rows[id].content.value| else 0)
                && (rows[id].content.Some? <==> !onDisk && content != [])
                && (forall i :: 0 <= i < |rows| && i != id ==> rows[i] == old(rows)[i])
                && (codec.Sound() && codec.Framed() ==>
                      LoadedFrom(codec, dictionaries, rows[id]) == Content(if onDisk then [] else content))
    {
      var stored := None;
      var size := 0;
      var dictId := None;
      if !onDisk && content != [] {
        var compressed := CompressResponse(content, step);
        if compressed.Err? {
          return Some(compressed.error);
        }
        stored, size, dictId := Some(compressed.value.data), |compressed.value.data|, compressed.value.dictId;
      }
      StoreResponse(id, stored, dictId, Some(|content|), Some(size), now);
      return None;
    }

    /** `load_preresolved_response`, of the body. */
    method LoadContent(id: nat) returns (r: Loaded)
      requires Valid()
      modifies this`byId
      ensures Valid()
      ensures r == if id < |rows| then LoadedFrom(codec, dictionaries, rows[id]) else NotStored
      ensures r == NotStored <==> id >= |rows| || !rows[id].responded
      ensures id < |rows| && rows[id].responded && (rows[id].content.None? || rows[id].content == Some([])) ==> r == Content([])
      ensures id < |rows| && rows[id].responded && rows[id].content.Some? && rows[id].content != Some([]) ==>
                forall x :: r == Content(x) <==>
                  match rows[id].dictId
                  case None => codec.decompress(None, rows[id].content.value) == Some(x)
                  case Some(d) => d < |dictionaries| && codec.decompress(Some(dictionaries[d].data), rows[id].content.value) == Some(x)
    {
      if id >= |rows| || !rows[id].responded {
        return NotStored;
      }
      if rows[id].content.None? || rows[id].content.value == [] {
        return Content([]);
      }
      var content := DecompressResponse(rows[id].content.value, rows[id].dictId);
      return if content.Err? then Undecodable else Content(content.value);
    }

    /** Mints the next version from what training produced, and seeds the cache. */
    method TrainCompressionDict(step: string, trained: Option<Bytes>) returns (r: Result<nat, StoreError>)
      requires Valid()
      modifies this`dictionaries, this`byId, this`latest
      ensures Valid()
      ensures trained.None? ==> r == Err(TrainingFailed) && dictionaries == old(dictionaries) && latest == old(latest)
      ensures trained.Some? ==>
                && r == Ok(|old(dictionaries)|) && Newest(dictionaries, step) == Some(r.value)
                && dictionaries == old(dictionaries) + [Dictionary(step, NextVersion(old(dictionaries), step), trained.value)]
                && latest == old(latest)[step := Some(Entry(r.value, trained.value, step))]
      ensures r.Ok? ==>
                && (forall d :: 0 <= d < r.value && dictionaries[d].step == step ==> dictionaries[d].version < dictionaries[r.value].version)
                && (dictionaries[r.value].version == 1 ||
                    exists d :: 0 <= d < r.value && dictionaries[d].step == step && dictionaries[d].version == dictionaries[r.value].version - 1)
      ensures old(Fresh()) ==> Fresh()
    {
      if trained.None? {
        return Err(TrainingFailed);
      }
      var id := |dictionaries|;
      forall other: string
        ensures Newest(dictionaries + [Dictionary(step, NextVersion(dictionaries, step), trained.value)], other)
             == if other == step then Some(|dictionaries|) else Newest(dictionaries, other)
      {
        TrainedIsNewest(dictionaries, step, trained.value, other);
      }
      dictionaries := dictionaries + [Dictionary(step, NextVersion(dictionaries, step), trained.value)];
      latest := latest - {step};
      var entry := Entry(id, trained.value, step);
      byId := byId[id := entry];
      latest := latest[step := Some(entry)];
      return Ok(id);
    }

    /** The old dictionaries a page needs; one that is missing is left out. */
    method ResolveDictionaries(ghost j: Job, page: seq<PageRow>) returns (olds: map<nat, Bytes>)
      requires Valid() && j.dictionaries == dictionaries && page == PageOf(j, rows, |rows|)
      modifies this`byId
      ensures Valid() && Resolves(j, rows, olds)
    {
      olds := map[];
      for i := 0 to |page|
        invariant Valid()
        invariant forall d :: d in olds ==> d < |dictionaries| && olds[d] == dictionaries[d].data
        invariant forall k :: 0 <= k < i ==> Found(olds, page[k].dictId) == DataOf(dictionaries, page[k].dictId)
      {
        if page[i].dictId.Some? {
          var entry := GetDictEntryById(page[i].dictId.value);
          if entry.Some? {
            olds := olds[page[i].dictId.value := entry.value.data];
          }
        }
      }
      ReadRowsAreOnPage(j, rows, |rows|, olds);
    }

    /** One write transaction, row by row under the guard. */
    method WriteUpdates(updates: seq<PendingUpdate>, target: nat) returns (totals: Totals, skipped: nat)
      modifies this`rows
      ensures Outcome(rows, totals, skipped) == GuardedWrites(old(rows), updates, target)
    {
      totals, skipped := Totals(0, 0, 0), 0;
      for i := 0 to |updates|
        invariant Outcome(rows, totals, skipped) == GuardedWrites(old(rows), updates[..i], target)
      {
        var u := updates[i];
        assert updates[..i + 1] == updates[..i] + [u];
        GuardedWritesAppend(old(rows), updates[..i], u, target);
        if u.id < |rows| && rows[u.id].stamp == u.stamp && rows[u.id].sizeCompressed == u.previousSize {
          rows := rows[u.id := rows[u.id].(content := Some(u.compressed), sizeOriginal := Some(u.originalSize),
                                           sizeCompressed := Some(u.compressedSize), dictId := Some(target))];
          totals := totals.Add(u.originalSize, u.compressedSize);
        } else {
          skipped := skipped + 1;
        }
      }
      assert updates[..|updates|] == updates;
    }

    /** The dictionary to compact onto: the one asked for, or the step's newest. */
    method TargetDictionary(step: string, dictId: Option<nat>) returns (r: Result<Entry, StoreError>)
      requires Valid()
      modifies this`byId, this`latest
      ensures Valid()
      ensures r == Target(dictionaries, Current(dictionaries, old(latest), step), step, dictId)
      ensures r.Ok? ==> Genuine(dictionaries, r.value) && r.value.step == step
      ensures dictId.Some? ==>
                && (r == Err(NoDictionary(dictId.value)) <==> dictId.value >= |dictionaries|)
                && (dictId.value < |dictionaries| && dictionaries[dictId.value].step != step ==>
                      r == Err(TrainedForAnotherStep(dictId.value, dictionaries[dictId.value].step)))
                && (dictId.value < |dictionaries| && dictionaries[dictId.value].step == step ==>
                      r == Ok(Entry(dictId.value, dictionaries[dictId.value].data, step)))
      ensures dictId.None? && step in old(latest) ==>
                r == if old(latest)[step].Some? then Ok(old(latest)[step].value) else Err(NoDictionaryFor(step))
      ensures dictId.None? && step !in old(latest) ==>
                && (r == Err(NoDictionaryFor(step)) <==> forall d :: 0 <= d < |dictionaries| ==> dictionaries[d].step != step)
                && (r.Ok? ==> forall d :: 0 <= d < |dictionaries| && dictionaries[d].step == step ==>
                      dictionaries[d].version <= dictionaries[r.value.id].version)
    {
      if dictId.Some? {
        var target := GetDictEntryById(dictId.value);
        if target.None? {
          return Err(NoDictionary(dictId.value));
        }
        if target.value.step != step {
          return Err(TrainedForAnotherStep(dictId.value, target.value.step));
        }
        return Ok(target.value);
      }
      var target := GetCompressionDict(step);
      return if target.None? then Err(NoDictionaryFor(step)) else Ok(target.value);
    }

    /** Reads nothing more: recompresses the page and writes it in one transaction. */
    method CompactPage(j: Job, page: seq<PageRow>) returns (totals: Totals, skipped: nat)
      requires Valid() && JobOf(j) && page == PageOf(j, rows, |rows|)
      modifies this`rows, this`byId
      ensures Valid() && JobOf(j)
      ensures rows == PageWritten(j, old(rows))
      ensures totals == Difference(j, old(rows), PageWritten(j, old(rows)), |old(rows)|)
      ensures skipped == StuckOnPage(j, old(rows), |old(rows)|)
      ensures |rows| == |old(rows)|
      ensures forall i :: 0 <= i < |rows| && rows[i] != old(rows)[i] ==>
                Selected(old(rows)[i], j.step, j.target) && Recompressed(codec, dictionaries, j.target, old(rows)[i], rows[i])
    {
      var olds := ResolveDictionaries(j, page);
      var updates, chunkSkipped := RecompressChunk(codec, page, olds, dictionaries[j.target].data);
      UpdatesWriteThePage(j, rows, olds, |rows|);
      StuckRowsBringNoUpdate(j, rows, olds, |rows|);
      PageInColumns(j, rows);
      assert WrittenTo(j, rows, |rows|) == PageWritten(j, rows);
      totals, skipped := Totals(0, 0, 0), 0;
      if updates != [] {
        totals, skipped := WriteUpdates(updates, j.target);
      }
      skipped := skipped + chunkSkipped;
    }

    ghost predicate JobOf(j: Job)
      reads this
    {
      j.codec == codec && j.dictionaries == dictionaries && j.target < |dictionaries|
    }

    /** The compaction pass.  It ends, with every row it reaches on the target and no
        other row touched; the counters say what moved. */
    method RecompressResponses(step: string, dictId: Option<nat>, pageSize: int) returns (r: Result<Stats, StoreError>)
      requires Valid()
      modifies this`rows, this`byId, this`latest
      ensures Valid()
      ensures r.Err? ==>
                && Target(dictionaries, Current(dictionaries, old(latest), step), step, dictId) == Err(r.error) && rows == old(rows)
      ensures r.Ok? ==>
                && Target(dictionaries, Current(dictionaries, old(latest), step), step, dictId).Ok?
                && var target := Target(dictionaries, Current(dictionaries, old(latest), step), step, dictId).value;
                var j := Job(codec, dictionaries, step, target.id, pageSize);
                && Genuine(dictionaries, target)
                && rows == Settled(j, old(rows))
                && (forall i :: 0 <= i < |rows| && rows[i] != old(rows)[i] ==>
                      Selected(old(rows)[i], step, target.id) && Recompressed(codec, dictionaries, target.id, old(rows)[i], rows[i]))
                && (pageSize != 0 && r.value.skipped == 0 ==> forall i :: 0 <= i < |rows| ==>
                      (rows[i].step == step && rows[i].responded && rows[i].content.Some? ==> rows[i].dictId == Some(target.id)))
                && Totals(r.value.recompressed, r.value.original, r.value.compressed)
                   == Difference(j, old(rows), Settled(j, old(rows)), |rows|)
                && r.value.skipped == Skips(j, old(rows))
    {
      var target := TargetDictionary(step, dictId);
      if target.Err? {
        return Err(target.error);
      }
      var j := Job(codec, dictionaries, step, target.value.id, pageSize);
      var totals, skipped := Totals(0, 0, 0), 0;
      NoDifference(j, rows, |rows|);
      while true
        invariant Valid() && JobOf(j)
        invariant Underway(j, old(rows), rows, totals, skipped)
        decreases CountOff(j, rows)
      {
        PassTakesAStep(j, old(rows), rows, totals, skipped);
        var page := PageOf(j, rows, |rows|);
        if page == [] {
          EmptyPageIsTheEnd(j, rows);
          break;
        }
        var pageTotals, pageSkipped := CompactPage(j, page);
        totals, skipped := totals.Plus(pageTotals), skipped + pageSkipped;
        if pageTotals.count == 0 {
          break;
        }
      }
      PassInColumns(j, old(rows));
      return Ok(Stats(totals.count, totals.original, totals.compressed, skipped));
    }
  }

  lemma PageInColumns(j: Job, rows: seq<BodyRow>)
    requires j.target < |j.dictionaries|
    ensures forall i :: 0 <= i < |rows| && PageWritten(j, rows)[i] != rows[i] ==>
              Selected(rows[i], j.step, j.target) && Recompressed(j.codec, j.dictionaries, j.target, rows[i], PageWritten(j, rows)[i])
  {
  }

  lemma PassInColumns(j: Job, rows: seq<BodyRow>)
    requires j.target < |j.dictionaries|
    ensures forall i :: 0 <= i < |rows| && Settled(j, rows)[i] != rows[i] ==>
              Selected(rows[i], j.step, j.target) && Recompressed(j.codec, j.dictionaries, j.target, rows[i], Settled(j, rows)[i])
    ensures j.pageSize != 0 && Skips(j, rows) == 0 ==> forall i :: 0 <= i < |rows| ==>
              (Settled(j, rows)[i].step == j.step && Settled(j, rows)[i].responded && Settled(j, rows)[i].content.Some? ==>
                 Settled(j, rows)[i].dictId == Some(j.target))
  {
    forall i | 0 <= i < |rows| && Settled(j, rows)[i] != rows[i]
      ensures Selected(rows[i], j.step, j.target) && Recompressed(j.codec, j.dictionaries, j.target, rows[i], Settled(j, rows)[i])
    {
      PassOnlyRecompresses(j, rows, i);
    }
    if j.pageSize != 0 && Skips(j, rows) == 0 {
      forall i | 0 <= i < |rows| && rows[i].step == j.step && rows[i].responded && rows[i].content.Some?
        ensures Settled(j, rows)[i].dictId == Some(j.target)
      {
        NothingSkippedAllOnTarget(j, rows, i);
      }
    }
  }

  /** What a pass compacts onto: the dictionary asked for, or the step's current one. */
  function Target(dictionaries: seq<Dictionary>, current: Option<Entry>, step: string, dictId: Option<nat>): Result<Entry, StoreError> {
    match dictId
    case Some(id) =>
      if id >= |dictionaries| then Err(NoDictionary(id))
      else if dictionaries[id].step != step then Err(TrainedForAnotherStep(id, dictionaries[id].step))
      else Ok(Entry(id, dictionaries[id].data, step))
    case None =>
      if current.None? then Err(NoDictionaryFor(step)) else Ok(current.value)
  }

  lemma {:induction false} ReadRowsAreOnPage(j: Job, rows: seq<BodyRow>, n: nat, olds: map<nat, Bytes>)
    requires n <= |rows|
    requires forall k :: 0 <= k < |PageOf(j, rows, n)| ==>
               Found(olds, PageOf(j, rows, n)[k].dictId) == DataOf(j.dictionaries, PageOf(j, rows, n)[k].dictId)
    ensures forall i :: 0 <= i < n && OnPage(j, rows, i) ==> Found(olds, rows[i].dictId) == DataOf(j.dictionaries, rows[i].dictId)
  {
    if n > 0 {
      var init, page := PageOf(j, rows, n - 1), PageOf(j, rows, n);
      assert forall k :: 0 <= k < |init| ==> page[k] == init[k];
      ReadRowsAreOnPage(j, rows, n - 1, olds);
      if OnPage(j, rows, n - 1) {
        assert page[|init|] == PageRowOf(rows, n - 1);
      }
    }
  }

  /** A pass underway: on the way to the same end, its counters covering what is
      done. */
  ghost predicate Underway(j: Job, start: seq<BodyRow>, rows: seq<BodyRow>, totals: Totals, skipped: nat)
    requires j.target < |j.dictionaries|
  {
    && |rows| == |start|
    && Settled(j, rows) == Settled(j, start)
    && totals == Difference(j, start, rows, |rows|)
    && skipped + Skips(j, rows) == Skips(j, start)
    && forall i :: 0 <= i < |rows| && j.Off(rows[i]) ==> j.Off(start[i])
  }

  /** One page more: still underway if a row moved, and done if none did. */
  lemma PassTakesAStep(j: Job, start: seq<BodyRow>, rows: seq<BodyRow>, totals: Totals, skipped: nat)
    requires j.target < |j.dictionaries| && Underway(j, start, rows, totals, skipped)
    ensures var after := PageWritten(j, rows);
            var moved := Difference(j, rows, after, |rows|);
            if moved.count > 0 then
              && Underway(j, start, after, totals.Plus(moved), skipped + StuckOnPage(j, rows, |rows|))
              && CountOff(j, after) < CountOff(j, rows)
            else
              && after == rows == Settled(j, start)
              && moved == Totals(0, 0, 0)
              && skipped + StuckOnPage(j, rows, |rows|) == Skips(j, start)
  {
    var after := PageWritten(j, rows);
    ProgressIsCounted(j, rows);
    if Progress(j, rows) {
      PageKeepsSettled(j, rows);
      DifferencesAdd(j, start, rows, after, |rows|);
      PageLeavesFewerOff(j, rows, |rows|);
    } else {
      NoProgressIsSettled(j, rows);
      assert after == rows;
      NoDifference(j, rows, |rows|);
    }
  }

  lemma {:induction false} NothingOnPage(j: Job, rows: seq<BodyRow>, n: nat)
    requires n <= |rows| && PageOf(j, rows, n) == []
    ensures forall i :: 0 <= i < n ==> !OnPage(j, rows, i)
  {
    if n > 0 {
      NothingOnPage(j, rows, n - 1);
    }
  }

  lemma EmptyPageIsTheEnd(j: Job, rows: seq<BodyRow>)
    requires j.target < |j.dictionaries| && PageOf(j, rows, |rows|) == []
    ensures StuckOnPage(j, rows, |rows|) == 0 && Difference(j, rows, PageWritten(j, rows), |rows|) == Totals(0, 0, 0)
  {
    NothingOnPage(j, rows, |rows|);
    NoneStuckOnPage(j, rows, |rows|);
    assert PageWritten(j, rows) == rows;
    NoDifference(j, rows, |rows|);
  }
}
