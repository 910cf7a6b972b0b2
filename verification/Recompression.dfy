/** `recompress_responses`, with nothing else writing: page after page of a step's
    stored bodies is moved onto the target dictionary, in place. */
module Recompression {
  import opened Wrappers
  import opened Bodies

  // --- What a pass does ---------------------------------------------------------

  /** One pass: the step, the target dictionary and the page size.  A negative LIMIT
      is no limit in SQLite. */
  datatype Job = Job(codec: Codec, dictionaries: seq<Dictionary>, step: string, target: nat, pageSize: int)
  {
    ghost predicate Valid() {
      codec.Sound() && target < |dictionaries|
    }

    predicate Off(row: BodyRow) {
      OffDictionary(row, step, target)
    }

    function Recode(row: BodyRow): Option<Recoded>
      requires row.content.Some? && target < |dictionaries|
    {
      Bodies.Recode(codec, DataOf(dictionaries, row.dictId), dictionaries[target].data, row.content.value)
    }

    /** Off the target, and can be moved onto it. */
    predicate Movable(row: BodyRow)
      requires target < |dictionaries|
    {
      Off(row) && Recode(row).Some?
    }

    /** Off the target, and cannot be moved. */
    predicate Stuck(row: BodyRow)
      requires target < |dictionaries|
    {
      Off(row) && Recode(row).None?
    }

    function Moved(row: BodyRow): BodyRow
      requires target < |dictionaries| && Movable(row)
    {
      Rewritten(row, target, Recode(row).value)
    }

    /** Whether `n` rows fill a page. */
    predicate Fills(n: nat) {
      0 <= pageSize <= n
    }
  }

  /** `count_off_dictionary`, of the first `n` rows. */
  function OffBefore(j: Job, rows: seq<BodyRow>, n: nat): nat
    requires n <= |rows|
  {
    if n == 0 then 0 else OffBefore(j, rows, n - 1) + if j.Off(rows[n - 1]) then 1 else 0
  }

  function CountOff(j: Job, rows: seq<BodyRow>): nat {
    OffBefore(j, rows, |rows|)
  }

  function StuckBefore(j: Job, rows: seq<BodyRow>, n: nat): nat
    requires j.target < |j.dictionaries| && n <= |rows|
  {
    if n == 0 then 0 else StuckBefore(j, rows, n - 1) + if j.Stuck(rows[n - 1]) then 1 else 0
  }

  /** The row is read by the next page: off the target, with room for it. */
  predicate OnPage(j: Job, rows: seq<BodyRow>, i: nat)
    requires i < |rows|
  {
    j.Off(rows[i]) && !j.Fills(OffBefore(j, rows, i))
  }

  /** The table after one page is written. */
  function PageWritten(j: Job, rows: seq<BodyRow>): (r: seq<BodyRow>)
    requires j.target < |j.dictionaries|
    ensures |r| == |rows|
  {
    seq(|rows|, i requires 0 <= i < |rows| =>
      if OnPage(j, rows, i) && j.Movable(rows[i]) then j.Moved(rows[i]) else rows[i])
  }

  predicate Progress(j: Job, rows: seq<BodyRow>)
    requires j.target < |j.dictionaries|
  {
    exists i :: 0 <= i < |rows| && OnPage(j, rows, i) && j.Movable(rows[i])
  }

  /** How many of the first `n` rows are on the page and stuck. */
  function StuckOnPage(j: Job, rows: seq<BodyRow>, n: nat): nat
    requires j.target < |j.dictionaries| && n <= |rows|
  {
    if n == 0 then 0 else StuckOnPage(j, rows, n - 1) + if OnPage(j, rows, n - 1) && j.Stuck(rows[n - 1]) then 1 else 0
  }

  /** The rows a pass reaches: movable, with less than a page of stuck rows before. */
  predicate Reached(j: Job, rows: seq<BodyRow>, i: nat)
    requires j.target < |j.dictionaries| && i < |rows|
  {
    j.Movable(rows[i]) && !j.Fills(StuckBefore(j, rows, i))
  }

  /** The table a pass ends in: every row it reaches is moved, no other is touched. */
  function Settled(j: Job, rows: seq<BodyRow>): (r: seq<BodyRow>)
    requires j.target < |j.dictionaries|
    ensures |r| == |rows|
  {
    seq(|rows|, i requires 0 <= i < |rows| => if Reached(j, rows, i) then j.Moved(rows[i]) else rows[i])
  }

  lemma {:induction false} StuckAreOff(j: Job, rows: seq<BodyRow>, n: nat)
    requires j.target < |j.dictionaries| && n <= |rows|
    ensures StuckBefore(j, rows, n) <= OffBefore(j, rows, n)
  {
    if n > 0 {
      StuckAreOff(j, rows, n - 1);
    }
  }

  /** Moving rows leaves the stuck ones as they were. */
  lemma {:induction false} PageKeepsStuck(j: Job, rows: seq<BodyRow>, n: nat)
    requires j.target < |j.dictionaries| && n <= |rows|
    ensures StuckBefore(j, PageWritten(j, rows), n) == StuckBefore(j, rows, n)
  {
    if n > 0 {
      PageKeepsStuck(j, rows, n - 1);
    }
  }

  /** A page of moves stays on the way to the same end. */
  lemma PageKeepsSettled(j: Job, rows: seq<BodyRow>)
    requires j.target < |j.dictionaries|
    ensures Settled(j, PageWritten(j, rows)) == Settled(j, rows)
  {
    var after := PageWritten(j, rows);
    forall i | 0 <= i < |rows|
      ensures Settled(j, after)[i] == Settled(j, rows)[i]
    {
      StuckAreOff(j, rows, i);
      PageKeepsStuck(j, rows, i);
    }
  }

  lemma {:induction false} StuckPage(j: Job, rows: seq<BodyRow>, n: nat)
    requires j.target < |j.dictionaries| && n <= |rows| && !Progress(j, rows)
    ensures StuckBefore(j, rows, n) == OffBefore(j, rows, n) || j.Fills(StuckBefore(j, rows, n))
  {
    if n > 0 {
      StuckPage(j, rows, n - 1);
      assert OnPage(j, rows, n - 1) ==> !j.Movable(rows[n - 1]);
    }
  }

  /** A page on which nothing moves is the end. */
  lemma NoProgressIsSettled(j: Job, rows: seq<BodyRow>)
    requires j.target < |j.dictionaries| && !Progress(j, rows)
    ensures Settled(j, rows) == rows
  {
    forall i | 0 <= i < |rows|
      ensures !Reached(j, rows, i)
    {
      StuckPage(j, rows, i);
      assert OnPage(j, rows, i) ==> !j.Movable(rows[i]);
    }
  }

  /** Off the target strictly fewer rows remain after a page on which one moved. */
  lemma {:induction false} PageLeavesFewerOff(j: Job, rows: seq<BodyRow>, n: nat)
    requires j.target < |j.dictionaries| && n <= |rows|
    ensures OffBefore(j, PageWritten(j, rows), n) <= OffBefore(j, rows, n)
    ensures (exists i :: 0 <= i < n && OnPage(j, rows, i) && j.Movable(rows[i])) ==>
              OffBefore(j, PageWritten(j, rows), n) < OffBefore(j, rows, n)
  {
    if n > 0 {
      PageLeavesFewerOff(j, rows, n - 1);
    }
  }

  /** How often the pass counts a row as skipped: once for each page it is on. */
  function Skips(j: Job, rows: seq<BodyRow>): nat
    requires j.target < |j.dictionaries|
    decreases CountOff(j, rows)
  {
    if !Progress(j, rows) then StuckOnPage(j, rows, |rows|)
    else
      PageLeavesFewerOff(j, rows, |rows|);
      StuckOnPage(j, rows, |rows|) + Skips(j, PageWritten(j, rows))
  }

  // --- What the counters count --------------------------------------------------

  datatype Totals = Totals(count: nat, original: nat, compressed: nat)
  {
    function Add(originalSize: nat, compressedSize: nat): Totals {
      Totals(count + 1, original + originalSize, compressed + compressedSize)
    }

    function Plus(t: Totals): Totals {
      Totals(count + t.count, original + t.original, compressed + t.compressed)
    }
  }

  function GetOr0(n: Option<nat>): nat {
    if n.Some? then n.value else 0
  }

  /** One row's share: what it came to if it left the off-target set. */
  function Leaving(j: Job, before: BodyRow, after: BodyRow): Totals {
    if j.Off(before) && !j.Off(after) then Totals(1, GetOr0(after.sizeOriginal), GetOr0(after.sizeCompressed))
    else Totals(0, 0, 0)
  }

  function Leavings(j: Job, before: seq<BodyRow>, after: seq<BodyRow>): seq<Totals>
    requires |before| == |after|
  {
    seq(|before|, i requires 0 <= i < |before| => Leaving(j, before[i], after[i]))
  }

  function SumTo(ts: seq<Totals>, n: nat): Totals
    requires n <= |ts|
  {
    if n == 0 then Totals(0, 0, 0) else SumTo(ts, n - 1).Plus(ts[n - 1])
  }

  /** The rows that left the off-target set between two tables, with their sizes. */
  function Difference(j: Job, before: seq<BodyRow>, after: seq<BodyRow>, n: nat): Totals
    requires n <= |before| == |after|
  {
    SumTo(Leavings(j, before, after), n)
  }

  /** A row on its way: what has left the set has left it for good, as it was written. */
  predicate Onward(j: Job, start: BodyRow, row: BodyRow, after: BodyRow) {
    (j.Off(row) ==> j.Off(start)) && (after == row || (j.Off(row) && !j.Off(after)))
  }

  lemma LeavingOnce(j: Job, start: BodyRow, row: BodyRow, after: BodyRow)
    requires Onward(j, start, row, after)
    ensures Leaving(j, start, after) == Leaving(j, start, row).Plus(Leaving(j, row, after))
  {
  }

  lemma {:induction false} SumsAdd(whole: seq<Totals>, a: seq<Totals>, b: seq<Totals>, n: nat)
    requires n <= |whole| == |a| == |b|
    requires forall i :: 0 <= i < |whole| ==> whole[i] == a[i].Plus(b[i])
    ensures SumTo(whole, n) == SumTo(a, n).Plus(SumTo(b, n))
  {
    if n > 0 {
      SumsAdd(whole, a, b, n - 1);
    }
  }

  /** Pages add up. */
  lemma DifferencesAdd(j: Job, start: seq<BodyRow>, rows: seq<BodyRow>, after: seq<BodyRow>, n: nat)
    requires n <= |rows| == |start| == |after|
    requires forall i :: 0 <= i < |rows| ==> Onward(j, start[i], rows[i], after[i])
    ensures Difference(j, start, after, n) == Difference(j, start, rows, n).Plus(Difference(j, rows, after, n))
  {
    var whole, a, b := Leavings(j, start, after), Leavings(j, start, rows), Leavings(j, rows, after);
    forall i | 0 <= i < |rows|
      ensures whole[i] == a[i].Plus(b[i])
    {
      LeavingOnce(j, start[i], rows[i], after[i]);
    }
    SumsAdd(whole, a, b, n);
  }

  lemma {:induction false} NoDifference(j: Job, rows: seq<BodyRow>, n: nat)
    requires n <= |rows|
    ensures Difference(j, rows, rows, n) == Totals(0, 0, 0)
  {
    if n > 0 {
      NoDifference(j, rows, n - 1);
    }
  }

  /** The count is the drop in `count_off_dictionary`. */
  lemma {:induction false} SettledCount(j: Job, rows: seq<BodyRow>, n: nat)
    requires j.target < |j.dictionaries| && n <= |rows|
    ensures Difference(j, rows, Settled(j, rows), n).count == OffBefore(j, rows, n) - OffBefore(j, Settled(j, rows), n)
  {
    if n > 0 {
      SettledCount(j, rows, n - 1);
    }
  }

  // --- What a pass promises -----------------------------------------------------

  /** No row's body changes, moved or not. */
  lemma SettledKeepsBodies(j: Job, rows: seq<BodyRow>, i: nat)
    requires j.Valid() && i < |rows|
    ensures Decoded(j.codec, j.dictionaries, rows[i]).Some? ==>
              Decoded(j.codec, j.dictionaries, Settled(j, rows)[i]) == Decoded(j.codec, j.dictionaries, rows[i])
    ensures Settled(j, rows)[i].stamp == rows[i].stamp && Settled(j, rows)[i].step == rows[i].step
  {
  }

  lemma {:induction false} StuckGrows(j: Job, rows: seq<BodyRow>, m: nat, n: nat)
    requires j.target < |j.dictionaries| && m <= n <= |rows|
    ensures StuckBefore(j, rows, m) <= StuckBefore(j, rows, n)
  {
    if m < n {
      StuckGrows(j, rows, m, n - 1);
    }
  }

  /** If fewer than a page of bodies are stuck, every other ends on the target. */
  lemma FewStuckAreAllLeft(j: Job, rows: seq<BodyRow>, i: nat)
    requires j.target < |j.dictionaries| && i < |rows|
    requires !j.Fills(StuckBefore(j, rows, |rows|))
    ensures j.Off(Settled(j, rows)[i]) <==> j.Stuck(rows[i])
  {
    StuckGrows(j, rows, i, |rows|);
  }

  /** A full page of stuck bodies shields everything behind it. */
  lemma StuckPageShieldsTheRest(j: Job, rows: seq<BodyRow>, i: nat, k: nat)
    requires j.target < |j.dictionaries| && i <= k < |rows| && j.Fills(StuckBefore(j, rows, i))
    ensures Settled(j, rows)[k] == rows[k]
  {
    StuckGrows(j, rows, i, k);
  }

  lemma {:induction false} NoneOff(j: Job, rows: seq<BodyRow>, n: nat)
    requires n <= |rows|
    ensures OffBefore(j, rows, n) == 0 <==> forall i :: 0 <= i < n ==> !j.Off(rows[i])
  {
    if n > 0 {
      NoneOff(j, rows, n - 1);
    }
  }

  lemma {:induction false} NoneStuck(j: Job, rows: seq<BodyRow>, n: nat)
    requires j.target < |j.dictionaries| && n <= |rows|
    ensures StuckBefore(j, rows, n) == 0 <==> forall i :: 0 <= i < n ==> !j.Stuck(rows[i])
  {
    if n > 0 {
      NoneStuck(j, rows, n - 1);
    }
  }

  lemma {:induction false} NoneStuckOnPage(j: Job, rows: seq<BodyRow>, n: nat)
    requires j.target < |j.dictionaries| && n <= |rows|
    ensures StuckOnPage(j, rows, n) == 0 <==> forall i :: 0 <= i < n && OnPage(j, rows, i) ==> !j.Stuck(rows[i])
  {
    if n > 0 {
      NoneStuckOnPage(j, rows, n - 1);
    }
  }

  lemma {:induction false} FirstOffIsOnPage(j: Job, rows: seq<BodyRow>, n: nat)
    requires n <= |rows| && j.pageSize != 0 && OffBefore(j, rows, n) > 0
    ensures exists i :: 0 <= i < n && OnPage(j, rows, i)
  {
    if OffBefore(j, rows, n - 1) > 0 {
      FirstOffIsOnPage(j, rows, n - 1);
    } else {
      assert OnPage(j, rows, n - 1);
    }
  }

  /** The last page holds a stuck row whenever there is one. */
  lemma LastPageIsStuck(j: Job, rows: seq<BodyRow>)
    requires j.target < |j.dictionaries| && !Progress(j, rows)
    ensures StuckOnPage(j, rows, |rows|) == 0 <==> j.pageSize == 0 || StuckBefore(j, rows, |rows|) == 0
  {
    NoneStuckOnPage(j, rows, |rows|);
    NoneStuck(j, rows, |rows|);
    if j.pageSize != 0 && StuckBefore(j, rows, |rows|) != 0 {
      StuckAreOff(j, rows, |rows|);
      FirstOffIsOnPage(j, rows, |rows|);
      var i :| 0 <= i < |rows| && OnPage(j, rows, i);
      assert !j.Movable(rows[i]);
    }
  }

  /** `skipped_count` is zero exactly when no selected body is stuck - or no page is
      ever read. */
  lemma {:induction false} NothingSkipped(j: Job, rows: seq<BodyRow>)
    requires j.target < |j.dictionaries|
    ensures Skips(j, rows) == 0 <==> j.pageSize == 0 || StuckBefore(j, rows, |rows|) == 0
    decreases CountOff(j, rows)
  {
    if !Progress(j, rows) {
      LastPageIsStuck(j, rows);
    } else {
      PageLeavesFewerOff(j, rows, |rows|);
      NothingSkipped(j, PageWritten(j, rows));
      PageKeepsStuck(j, rows, |rows|);
      NoneStuckOnPage(j, rows, |rows|);
      NoneStuck(j, rows, |rows|);
    }
  }

  /** With a page size that reads anything, nothing skipped means nothing left. */
  lemma NothingSkippedNothingLeft(j: Job, rows: seq<BodyRow>)
    requires j.target < |j.dictionaries| && j.pageSize != 0
    ensures Skips(j, rows) == 0 <==> CountOff(j, Settled(j, rows)) == 0
  {
    var after := Settled(j, rows);
    NothingSkipped(j, rows);
    NoneOff(j, after, |rows|);
    NoneStuck(j, rows, |rows|);
    if StuckBefore(j, rows, |rows|) == 0 {
      forall i | 0 <= i < |rows|
        ensures !j.Off(after[i])
      {
        FewStuckAreAllLeft(j, rows, i);
      }
    } else {
      var i :| 0 <= i < |rows| && j.Stuck(rows[i]);
      assert after[i] == rows[i];
    }
  }

  // --- Column by column ---------------------------------------------------------

  /** A selected row: of the step, with a response and a body, on another dictionary or
      on none. */
  predicate Selected(row: BodyRow, step: string, target: nat) {
    && row.step == step
    && row.responded
    && row.content.Some?
    && (row.dictId.None? || row.dictId.value != target)
  }

  /** One body recompressed: decompressed under the dictionary its row records,
      compressed under the target and measured; step, response and stamp stay. */
  predicate Recompressed(codec: Codec, dictionaries: seq<Dictionary>, target: nat, before: BodyRow, after: BodyRow)
    requires target < |dictionaries| && before.content.Some?
  {
    var source := match before.dictId
      case Some(d) => if d < |dictionaries| then Some(dictionaries[d].data) else None
      case None => None;
    var plain := codec.decompress(source, before.content.value);
    && plain.Some?
    && after.content.Some?
    && codec.compress(Some(dictionaries[target].data), plain.value) == after.content
    && after.dictId == Some(target)
    && after.sizeOriginal == Some(|plain.value|)
    && after.sizeCompressed == Some(|after.content.value|)
    && after.step == before.step && after.responded && after.stamp == before.stamp
  }

  /** A pass changes a row only if it selects it, and only by recompressing its body. */
  lemma PassOnlyRecompresses(j: Job, rows: seq<BodyRow>, i: nat)
    requires j.target < |j.dictionaries| && i < |rows|
    ensures Settled(j, rows)[i] != rows[i] <==> Reached(j, rows, i)
    ensures Settled(j, rows)[i] != rows[i] ==>
              && Selected(rows[i], j.step, j.target)
              && Recompressed(j.codec, j.dictionaries, j.target, rows[i], Settled(j, rows)[i])
  {
  }

  /** With nothing skipped, every body of the step ends on the target. */
  lemma NothingSkippedAllOnTarget(j: Job, rows: seq<BodyRow>, i: nat)
    requires j.target < |j.dictionaries| && j.pageSize != 0 && i < |rows| && Skips(j, rows) == 0
    requires rows[i].step == j.step && rows[i].responded && rows[i].content.Some?
    ensures Settled(j, rows)[i].dictId == Some(j.target)
  {
    NothingSkippedNothingLeft(j, rows);
    NoneOff(j, Settled(j, rows), |rows|);
  }

  /** And nothing is skipped if zstd processes every body selected. */
  lemma NothingSkippedIfAllProcess(j: Job, rows: seq<BodyRow>)
    requires j.target < |j.dictionaries|
    requires forall i :: 0 <= i < |rows| && Selected(rows[i], j.step, j.target) ==>
               exists after :: Recompressed(j.codec, j.dictionaries, j.target, rows[i], after)
    ensures Skips(j, rows) == 0
  {
    forall i | 0 <= i < |rows| && j.Off(rows[i])
      ensures !j.Stuck(rows[i])
    {
      assert Selected(rows[i], j.step, j.target);
      var after :| Recompressed(j.codec, j.dictionaries, j.target, rows[i], after);
    }
    NoneStuck(j, rows, |rows|);
    NothingSkipped(j, rows);
  }

  /** `count_off_dictionary` is the number of selected rows. */
  lemma {:induction false} CountOffIsSelected(j: Job, rows: seq<BodyRow>, n: nat)
    requires n <= |rows|
    ensures OffBefore(j, rows, n) == |set i | 0 <= i < n && Selected(rows[i], j.step, j.target)|
  {
    var chosen := set i | 0 <= i < n && Selected(rows[i], j.step, j.target);
    if n == 0 {
      assert chosen == {};
    } else {
      CountOffIsSelected(j, rows, n - 1);
      var before := set i | 0 <= i < n - 1 && Selected(rows[i], j.step, j.target);
      assert chosen == if Selected(rows[n - 1], j.step, j.target) then before + {n - 1} else before;
    }
  }

  /** Rows of other steps do not count. */
  lemma {:induction false} OtherStepsDoNotCount(j: Job, rows: seq<BodyRow>, others: seq<BodyRow>)
    requires forall k :: 0 <= k < |others| ==> others[k].step != j.step
    ensures CountOff(j, rows + others) == CountOff(j, rows)
  {
    CountOffIsSelected(j, rows, |rows|);
    CountOffIsSelected(j, rows + others, |rows + others|);
    assert (set i | 0 <= i < |rows + others| && Selected((rows + others)[i], j.step, j.target))
        == (set i | 0 <= i < |rows| && Selected(rows[i], j.step, j.target));
  }

  /** A page is the first selected rows by id, as many as it has room for. */
  lemma {:induction false} PageIsTheFirstSelected(j: Job, rows: seq<BodyRow>, n: nat)
    requires n <= |rows|
    ensures var page, count := PageOf(j, rows, n), OffBefore(j, rows, n);
            && |page| == (if 0 <= j.pageSize < count then j.pageSize else count)
            && (forall k :: 0 <= k < |page| ==>
                  && page[k].id < n && Selected(rows[page[k].id], j.step, j.target)
                  && rows[page[k].id].content == Some(page[k].compressed) && rows[page[k].id].dictId == page[k].dictId
                  && rows[page[k].id].stamp == page[k].stamp && rows[page[k].id].sizeCompressed == page[k].size)
            && (forall k, l :: 0 <= k < l < |page| ==> page[k].id < page[l].id)
            && (forall i :: 0 <= i < n && Selected(rows[i], j.step, j.target) ==>
                  || (exists k :: 0 <= k < |page| && page[k].id == i)
                  || (|page| == j.pageSize && forall k :: 0 <= k < |page| ==> page[k].id < i))
  {
    if n > 0 {
      PageIsTheFirstSelected(j, rows, n - 1);
      var page, before := PageOf(j, rows, n), PageOf(j, rows, n - 1);
      assert forall k :: 0 <= k < |before| ==> page[k] == before[k];
      if OnPage(j, rows, n - 1) {
        assert page[|before|].id == n - 1;
      }
    }
  }

  /** Row by row the counters add one, the length of the body and that of its compressed
      form for each row changed. */
  lemma CountersStep(j: Job, rows: seq<BodyRow>, n: nat)
    requires j.target < |j.dictionaries| && n < |rows|
    ensures var after := Settled(j, rows);
            && Difference(j, rows, after, 0) == Totals(0, 0, 0)
            && var (so, next) := (Difference(j, rows, after, n), Difference(j, rows, after, n + 1));
            if after[n] == rows[n] then next == so
            else
              && after[n].sizeOriginal.Some? && after[n].content.Some?
              && next == Totals(so.count + 1, so.original + after[n].sizeOriginal.value, so.compressed + |after[n].content.value|)
  {
    PassOnlyRecompresses(j, rows, n);
  }

  // --- What `skipped_count` counts ------------------------------------------------

  /** The skips of the pages that moved a row: counted there, and again later. */
  function Recounts(j: Job, rows: seq<BodyRow>): nat
    requires j.target < |j.dictionaries|
    decreases CountOff(j, rows)
  {
    if !Progress(j, rows) then 0
    else
      PageLeavesFewerOff(j, rows, |rows|);
      StuckOnPage(j, rows, |rows|) + Recounts(j, PageWritten(j, rows))
  }

  /** As many of `n` rows as one page reads. */
  function PageOfAtMost(j: Job, n: nat): nat {
    if 0 <= j.pageSize < n then j.pageSize else n
  }

  /** The last page reads what is left, as far as it has room. */
  lemma {:induction false} LastPageHoldsWhatFits(j: Job, rows: seq<BodyRow>, n: nat)
    requires j.target < |j.dictionaries| && n <= |rows| && !Progress(j, rows)
    ensures StuckOnPage(j, rows, n) == PageOfAtMost(j, OffBefore(j, rows, n))
  {
    if n > 0 {
      LastPageHoldsWhatFits(j, rows, n - 1);
      assert OnPage(j, rows, n - 1) ==> !j.Movable(rows[n - 1]);
    }
  }

  /** For every table and page size, `skipped_count` is one page of what is left behind,
      and the recounts. */
  lemma {:induction false} SkipsAreLeftAndRecounts(j: Job, rows: seq<BodyRow>)
    requires j.target < |j.dictionaries|
    ensures Skips(j, rows) == Recounts(j, rows) + PageOfAtMost(j, CountOff(j, Settled(j, rows)))
    decreases CountOff(j, rows)
  {
    if !Progress(j, rows) {
      NoProgressIsSettled(j, rows);
      LastPageHoldsWhatFits(j, rows, |rows|);
    } else {
      PageLeavesFewerOff(j, rows, |rows|);
      PageKeepsSettled(j, rows);
      SkipsAreLeftAndRecounts(j, PageWritten(j, rows));
    }
  }

  lemma {:induction false} StuckStayOff(j: Job, rows: seq<BodyRow>, n: nat)
    requires j.target < |j.dictionaries| && n <= |rows|
    ensures StuckBefore(j, rows, n) <= OffBefore(j, Settled(j, rows), n)
    ensures !j.Fills(StuckBefore(j, rows, n)) ==> OffBefore(j, Settled(j, rows), n) == StuckBefore(j, rows, n)
  {
    if n > 0 {
      StuckStayOff(j, rows, n - 1);
    }
  }

  function FirstStuck(j: Job, rows: seq<BodyRow>, n: nat): (m: nat)
    requires j.target < |j.dictionaries| && n <= |rows|
    ensures m <= n && (forall i :: 0 <= i < m ==> !j.Stuck(rows[i])) && (m < n ==> j.Stuck(rows[m]))
  {
    if n == 0 then 0
    else
      var m := FirstStuck(j, rows, n - 1);
      if m < n - 1 || j.Stuck(rows[n - 1]) then m else n
  }

  /** A whole number of pages. */
  predicate WholePages(j: Job, n: nat)
    decreases n
  {
    n == 0 || (0 < j.pageSize <= n && WholePages(j, n - j.pageSize))
  }

  /** The rows that cannot be processed come last, behind a whole number of pages. */
  predicate StuckComeLast(j: Job, rows: seq<BodyRow>)
    requires j.target < |j.dictionaries|
  {
    var m := FirstStuck(j, rows, |rows|);
    m < |rows| ==> (forall i :: m < i < |rows| ==> !j.Movable(rows[i])) && WholePages(j, OffBefore(j, rows, m))
  }

  /** In front of the first stuck row a page moves all it reads. */
  lemma {:induction false} PageTakesFromFront(j: Job, rows: seq<BodyRow>, n: nat)
    requires j.target < |j.dictionaries| && n <= |rows| && forall i :: 0 <= i < n ==> !j.Stuck(rows[i])
    ensures OffBefore(j, PageWritten(j, rows), n) == OffBefore(j, rows, n) - PageOfAtMost(j, OffBefore(j, rows, n))
    ensures StuckOnPage(j, rows, n) == 0
  {
    if n > 0 {
      PageTakesFromFront(j, rows, n - 1);
    }
  }

  lemma {:induction false} OffGrows(j: Job, rows: seq<BodyRow>, m: nat, n: nat)
    requires m <= n <= |rows|
    ensures OffBefore(j, rows, m) <= OffBefore(j, rows, n)
  {
    if m < n {
      OffGrows(j, rows, m, n - 1);
    }
  }

  lemma SameFirstStuck(j: Job, rows: seq<BodyRow>)
    requires j.target < |j.dictionaries|
    ensures FirstStuck(j, PageWritten(j, rows), |rows|) == FirstStuck(j, rows, |rows|)
  {
    var after := PageWritten(j, rows);
    assert forall i :: 0 <= i < |rows| ==> (j.Stuck(after[i]) <==> j.Stuck(rows[i]));
  }

  lemma {:induction false} NoStuckAhead(j: Job, rows: seq<BodyRow>, m: nat, n: nat)
    requires j.target < |j.dictionaries| && m <= n <= |rows| && j.Fills(OffBefore(j, rows, m))
    ensures StuckOnPage(j, rows, n) == StuckOnPage(j, rows, m)
    ensures forall i :: m <= i < n ==> !OnPage(j, rows, i)
  {
    if m < n {
      NoStuckAhead(j, rows, m, n - 1);
      OffGrows(j, rows, m, n - 1);
    }
  }

  lemma SameBehind(j: Job, rows: seq<BodyRow>, m: nat)
    requires j.target < |j.dictionaries| && m <= |rows| && forall i :: m <= i < |rows| ==> !OnPage(j, rows, i)
    ensures forall i :: m <= i < |rows| ==> PageWritten(j, rows)[i] == rows[i]
  {
  }

  /** A full page in front of the first stuck row: nothing is skipped, and the question
      is the same one page later. */
  lemma FullPageInFront(j: Job, rows: seq<BodyRow>, m: nat)
    requires j.target < |j.dictionaries| && j.pageSize > 0
    requires m < |rows| && m == FirstStuck(j, rows, |rows|) && j.Fills(OffBefore(j, rows, m))
    ensures StuckOnPage(j, rows, |rows|) == 0
    ensures StuckComeLast(j, rows) <==> StuckComeLast(j, PageWritten(j, rows))
  {
    PageTakesFromFront(j, rows, m);
    NoStuckAhead(j, rows, m, |rows|);
    SameFirstStuck(j, rows);
    SameBehind(j, rows, m);
  }

  lemma {:induction false} NoneStuckNoneSkipped(j: Job, rows: seq<BodyRow>, n: nat)
    requires j.target < |j.dictionaries| && n <= |rows| && forall i :: 0 <= i < n ==> !j.Stuck(rows[i])
    ensures StuckOnPage(j, rows, n) == 0
  {
    if n > 0 {
      NoneStuckNoneSkipped(j, rows, n - 1);
    }
  }

  /** The first stuck row is on a page that moves another. */
  lemma {:induction false} StuckAmongMoved(j: Job, rows: seq<BodyRow>, m: nat)
    requires j.target < |j.dictionaries| && Progress(j, rows)
    requires m < |rows| && m == FirstStuck(j, rows, |rows|) && !j.Fills(OffBefore(j, rows, m))
    ensures StuckOnPage(j, rows, |rows|) > 0 && !StuckComeLast(j, rows)
  {
    NoneStuckOnPage(j, rows, |rows|);
    assert OnPage(j, rows, m) && j.Stuck(rows[m]);
    NoneOff(j, rows, m);
    var i :| 0 <= i < |rows| && OnPage(j, rows, i) && j.Movable(rows[i]);
    assert i < m ==> OffBefore(j, rows, m) > 0;
  }

  /** Nothing movable is left when less than a page is stuck. */
  lemma EndedCleanly(j: Job, rows: seq<BodyRow>)
    requires j.target < |j.dictionaries| && !Progress(j, rows) && !j.Fills(StuckBefore(j, rows, |rows|))
    ensures StuckComeLast(j, rows)
  {
    var m := FirstStuck(j, rows, |rows|);
    forall i | 0 <= i < |rows|
      ensures !j.Movable(rows[i])
    {
      StuckGrows(j, rows, i, |rows|);
      StuckPage(j, rows, i);
      assert OnPage(j, rows, i) ==> !j.Movable(rows[i]);
    }
    NoneOff(j, rows, m);
  }

  /** With less than a page stuck, a pass counts no row twice exactly when those that
      are come last, behind a whole number of pages. */
  lemma {:induction false} NoRecountsIffStuckComeLast(j: Job, rows: seq<BodyRow>)
    requires j.target < |j.dictionaries| && !j.Fills(StuckBefore(j, rows, |rows|))
    ensures Recounts(j, rows) == 0 <==> StuckComeLast(j, rows)
    decreases CountOff(j, rows)
  {
    var m := FirstStuck(j, rows, |rows|);
    if !Progress(j, rows) {
      EndedCleanly(j, rows);
    } else {
      PageLeavesFewerOff(j, rows, |rows|);
      PageKeepsStuck(j, rows, |rows|);
      NoRecountsIffStuckComeLast(j, PageWritten(j, rows));
      if m == |rows| {
        NoneStuckNoneSkipped(j, rows, |rows|);
        SameFirstStuck(j, rows);
      } else if j.Fills(OffBefore(j, rows, m)) {
        FullPageInFront(j, rows, m);
      } else {
        StuckAmongMoved(j, rows, m);
      }
    }
  }

  /** If less than a page of bodies is stuck, `skipped_count` is the number left behind
      if and only if those come last, behind a whole number of pages; otherwise it is
      more. */
  lemma SkippedCountIsWhatIsLeft(j: Job, rows: seq<BodyRow>)
    requires j.target < |j.dictionaries| && !j.Fills(StuckBefore(j, rows, |rows|))
    ensures Skips(j, rows) == CountOff(j, Settled(j, rows)) <==> StuckComeLast(j, rows)
    ensures Skips(j, rows) >= CountOff(j, Settled(j, rows)) == StuckBefore(j, rows, |rows|)
  {
    SkipsAreLeftAndRecounts(j, rows);
    StuckStayOff(j, rows, |rows|);
    NoRecountsIffStuckComeLast(j, rows);
  }

  /** If a page or more is stuck, what is left behind is at least a page, of which the
      last page counts one: `skipped_count` falls short by the rest, less the recounts. */
  lemma FullPageCountsOnlyItself(j: Job, rows: seq<BodyRow>)
    requires j.target < |j.dictionaries| && j.Fills(StuckBefore(j, rows, |rows|))
    ensures CountOff(j, Settled(j, rows)) >= j.pageSize
    ensures Skips(j, rows) == Recounts(j, rows) + j.pageSize
    ensures Skips(j, rows) < CountOff(j, Settled(j, rows)) <==> Recounts(j, rows) < CountOff(j, Settled(j, rows)) - j.pageSize
  {
    SkipsAreLeftAndRecounts(j, rows);
    StuckStayOff(j, rows, |rows|);
  }

  // --- Two tables -------------------------------------------------------------------

  /** A codec that cannot process the body [0]. */
  function PartialCodec(): Codec {
    Codec((d: Option<Bytes>, x: Bytes) => if x == [0] then None else Some(x),
          (d: Option<Bytes>, y: Bytes) => if y == [0] then None else Some(y))
  }

  function TableJob(pageSize: int): Job {
    Job(PartialCodec(), [Dictionary("s", 1, [])], "s", 0, pageSize)
  }

  function Holding(content: Bytes): BodyRow {
    BodyRow("s", true, Some(content), None, None, None, None)
  }

  /** Two that move, one that does not, one that moves, by pages of two: one is left,
      and more than one is counted. */
  lemma StuckOnALaterPageOvercounts()
    ensures var j, rows := TableJob(2), [Holding([1]), Holding([2]), Holding([0]), Holding([3])];
            j.Valid() && CountOff(j, Settled(j, rows)) == 1 && Skips(j, rows) > 1
  {
    var j, rows := TableJob(2), [Holding([1]), Holding([2]), Holding([0]), Holding([3])];
    assert j.Movable(rows[0]) && j.Movable(rows[1]) && j.Stuck(rows[2]) && j.Movable(rows[3]);
    OneStuckOfFour(j, rows);
    SkippedCountIsWhatIsLeft(j, rows);
  }

  lemma OneStuckOfFour(j: Job, rows: seq<BodyRow>)
    requires j.target < |j.dictionaries| && |rows| == 4
    requires !j.Stuck(rows[0]) && !j.Stuck(rows[1]) && j.Stuck(rows[2]) && j.Movable(rows[3])
    ensures StuckBefore(j, rows, 4) == 1 && !StuckComeLast(j, rows)
  {
    assert StuckBefore(j, rows, 4) == StuckBefore(j, rows, 3) == StuckBefore(j, rows, 2) + 1;
    assert StuckBefore(j, rows, 2) == StuckBefore(j, rows, 1) == StuckBefore(j, rows, 0);
    assert FirstStuck(j, rows, 4) == 2;
  }

  /** Two that do not move, by pages of one: two are left, and one is counted. */
  lemma FullStuckPageUndercounts()
    ensures var j, rows := TableJob(1), [Holding([0]), Holding([0])];
            j.Valid() && CountOff(j, Settled(j, rows)) == 2 && Skips(j, rows) == 1
  {
    var j, rows := TableJob(1), [Holding([0]), Holding([0])];
    assert j.Stuck(rows[0]) && j.Stuck(rows[1]);
    assert !Progress(j, rows);
    NoProgressIsSettled(j, rows);
    assert OffBefore(j, rows, 2) == OffBefore(j, rows, 1) + 1 == OffBefore(j, rows, 0) + 2;
    SkipsAreLeftAndRecounts(j, rows);
  }

  // --- One chunk, off the loop ----------------------------------------------------

  /** A body read for recompression, with what the guarded UPDATE compares. */
  datatype PageRow = PageRow(id: nat, compressed: Bytes, dictId: Option<nat>, stamp: Option<int>, size: Option<nat>)

  datatype PendingUpdate = PendingUpdate(
    id: nat, stamp: Option<int>, previousSize: Option<nat>, compressed: Bytes, originalSize: nat, compressedSize: nat)

  function PageRowOf(rows: seq<BodyRow>, id: nat): PageRow
    requires id < |rows| && rows[id].content.Some?
  {
    PageRow(id, rows[id].content.value, rows[id].dictId, rows[id].stamp, rows[id].sizeCompressed)
  }

  /** The page as it is read: ids in order, each with its row's columns. */
  function PageOf(j: Job, rows: seq<BodyRow>, n: nat): (page: seq<PageRow>)
    requires n <= |rows|
  {
    if n == 0 then [] else PageOf(j, rows, n - 1) + if OnPage(j, rows, n - 1) then [PageRowOf(rows, n - 1)] else []
  }

  function Found(dictionaries: map<nat, Bytes>, id: Option<nat>): Option<Bytes> {
    if id.Some? && id.value in dictionaries then Some(dictionaries[id.value]) else None
  }

  function UpdateOf(codec: Codec, p: PageRow, olds: map<nat, Bytes>, target: Bytes): Option<PendingUpdate> {
    var r := Recode(codec, Found(olds, p.dictId), target, p.compressed);
    if r.None? then None
    else Some(PendingUpdate(p.id, p.stamp, p.size, r.value.compressed, |r.value.plain|, |r.value.compressed|))
  }

  function Updates(codec: Codec, page: seq<PageRow>, olds: map<nat, Bytes>, target: Bytes): (r: seq<PendingUpdate>)
    ensures |r| <= |page|
  {
    if page == [] then []
    else
      var last := UpdateOf(codec, page[|page| - 1], olds, target);
      Updates(codec, page[..|page| - 1], olds, target) + if last.Some? then [last.value] else []
  }

  /** `_recompress_chunk`: an update for each body that can be moved; the rest are
      skipped. */
  method RecompressChunk(codec: Codec, page: seq<PageRow>, olds: map<nat, Bytes>, target: Bytes)
    returns (updates: seq<PendingUpdate>, skipped: nat)
    ensures updates == Updates(codec, page, olds, target) && skipped == |page| - |updates|
  {
    updates, skipped := [], 0;
    for i := 0 to |page|
      invariant updates == Updates(codec, page[..i], olds, target) && skipped == i - |updates|
    {
      assert page[..i + 1][..i] == page[..i];
      var source := Found(olds, page[i].dictId);
      var content := codec.decompress(source, page[i].compressed);
      if content.None? {
        skipped := skipped + 1;
        continue;
      }
      var compressed := codec.compress(Some(target), content.value);
      if compressed.None? {
        skipped := skipped + 1;
        continue;
      }
      updates := updates + [PendingUpdate(
        page[i].id, page[i].stamp, page[i].size, compressed.value, |content.value|, |compressed.value|)];
    }
    assert page[..|page|] == page;
  }

  // --- Training samples -------------------------------------------------------------

  /** The samples that decompress, in order. */
  function SamplesOf(codec: Codec, rows: seq<(Bytes, Option<nat>)>, olds: map<nat, Bytes>): seq<Bytes> {
    if rows == [] then []
    else
      var last := rows[|rows| - 1];
      var content := codec.decompress(Found(olds, last.1), last.0);
      SamplesOf(codec, rows[..|rows| - 1], olds) + if content.Some? then [content.value] else []
  }

  function TotalSize(samples: seq<Bytes>): nat {
    if samples == [] then 0 else TotalSize(samples[..|samples| - 1]) + |samples[|samples| - 1]|
  }

  /** Some sample was taken, and they fill the budget. */
  predicate Enough(samples: seq<Bytes>, budget: int) {
    samples != [] && TotalSize(samples) >= budget
  }

  /** The samples stop at the first row that fills the budget. */
  predicate StopsAt(codec: Codec, rows: seq<(Bytes, Option<nat>)>, olds: map<nat, Bytes>, budget: int, n: nat, samples: seq<Bytes>)
    requires n <= |rows|
  {
    && samples == SamplesOf(codec, rows[..n], olds)
    && (n < |rows| ==> Enough(samples, budget))
    && forall m :: 0 <= m < n ==> !Enough(SamplesOf(codec, rows[..m], olds), budget)
  }

  lemma SamplesStep(codec: Codec, rows: seq<(Bytes, Option<nat>)>, olds: map<nat, Bytes>, i: nat)
    requires i < |rows|
    ensures var content := codec.decompress(Found(olds, rows[i].1), rows[i].0);
            SamplesOf(codec, rows[..i + 1], olds) ==
            if content.Some? then SamplesOf(codec, rows[..i], olds) + [content.value] else SamplesOf(codec, rows[..i], olds)
  {
    assert rows[..i + 1][..i] == rows[..i];
  }

  lemma TotalSizeAppend(samples: seq<Bytes>, sample: Bytes)
    ensures TotalSize(samples + [sample]) == TotalSize(samples) + |sample|
  {
    assert (samples + [sample])[..|samples|] == samples;
  }

  /** `_decompress_samples`: rows in order, failures skipped, up to the one that fills
      the budget - which is only looked at once a sample is taken. */
  method DecompressSamples(codec: Codec, rows: seq<(Bytes, Option<nat>)>, olds: map<nat, Bytes>, budget: int)
    returns (samples: seq<Bytes>)
    ensures exists n :: 0 <= n <= |rows| && StopsAt(codec, rows, olds, budget, n, samples)
  {
    samples := [];
    var total := 0;
    for i := 0 to |rows|
      invariant samples == SamplesOf(codec, rows[..i], olds) && total == TotalSize(samples)
      invariant forall m :: 0 <= m < i ==> !Enough(SamplesOf(codec, rows[..m], olds), budget)
      invariant !Enough(samples, budget)
    {
      SamplesStep(codec, rows, olds, i);
      var content := codec.decompress(Found(olds, rows[i].1), rows[i].0);
      if content.None? {
        continue;
      }
      TotalSizeAppend(samples, content.value);
      samples := samples + [content.value];
      total := total + |content.value|;
      if total >= budget {
        assert StopsAt(codec, rows, olds, budget, i + 1, samples);
        return;
      }
    }
    assert StopsAt(codec, rows, olds, budget, |rows|, samples);
  }

  // --- The guarded writes ---------------------------------------------------------

  datatype Outcome = Outcome(rows: seq<BodyRow>, totals: Totals, skipped: nat)

  /** The UPDATE's WHERE clause: the row still has the stamp and the size read. */
  predicate Guard(rows: seq<BodyRow>, u: PendingUpdate) {
    u.id < |rows| && rows[u.id].stamp == u.stamp && rows[u.id].sizeCompressed == u.previousSize
  }

  function Written(row: BodyRow, u: PendingUpdate, target: nat): BodyRow {
    row.(content := Some(u.compressed), sizeOriginal := Some(u.originalSize), sizeCompressed := Some(u.compressedSize),
         dictId := Some(target))
  }

  function GuardedWrite(o: Outcome, u: PendingUpdate, target: nat): Outcome {
    if Guard(o.rows, u) then
      Outcome(o.rows[u.id := Written(o.rows[u.id], u, target)], o.totals.Add(u.originalSize, u.compressedSize), o.skipped)
    else o.(skipped := o.skipped + 1)
  }

  function GuardedWrites(rows: seq<BodyRow>, updates: seq<PendingUpdate>, target: nat): Outcome {
    if updates == [] then Outcome(rows, Totals(0, 0, 0), 0)
    else GuardedWrite(GuardedWrites(rows, updates[..|updates| - 1], target), updates[|updates| - 1], target)
  }

  /** The old dictionaries of a page, as far as they are stored. */
  predicate Resolves(j: Job, rows: seq<BodyRow>, olds: map<nat, Bytes>) {
    forall i :: 0 <= i < |rows| && OnPage(j, rows, i) ==> Found(olds, rows[i].dictId) == DataOf(j.dictionaries, rows[i].dictId)
  }

  /** The table with the page written as far as the first `n` rows. */
  function WrittenTo(j: Job, rows: seq<BodyRow>, n: nat): (r: seq<BodyRow>)
    requires j.target < |j.dictionaries| && n <= |rows|
    ensures |r| == |rows|
  {
    PageWritten(j, rows)[..n] + rows[n..]
  }

  function PageUpdates(j: Job, rows: seq<BodyRow>, olds: map<nat, Bytes>, n: nat): seq<PendingUpdate>
    requires j.target < |j.dictionaries| && n <= |rows|
  {
    Updates(j.codec, PageOf(j, rows, n), olds, j.dictionaries[j.target].data)
  }

  /** A row on the page brings its update, or is stuck. */
  lemma PageUpdatesStep(j: Job, rows: seq<BodyRow>, olds: map<nat, Bytes>, n: nat)
    requires j.target < |j.dictionaries| && n < |rows| && Resolves(j, rows, olds)
    ensures PageUpdates(j, rows, olds, n + 1) ==
            PageUpdates(j, rows, olds, n) + if OnPage(j, rows, n) && j.Movable(rows[n]) then [UpdateFor(j, rows, n)] else []
  {
    var page := PageOf(j, rows, n);
    assert page + [] == page;
    if OnPage(j, rows, n) {
      assert (page + [PageRowOf(rows, n)])[..|page|] == page;
    }
    assert PageUpdates(j, rows, olds, n) + [] == PageUpdates(j, rows, olds, n);
  }

  function UpdateFor(j: Job, rows: seq<BodyRow>, i: nat): PendingUpdate
    requires j.target < |j.dictionaries| && i < |rows| && j.Movable(rows[i])
  {
    var r := j.Recode(rows[i]).value;
    PendingUpdate(i, rows[i].stamp, rows[i].sizeCompressed, r.compressed, |r.plain|, |r.compressed|)
  }

  lemma GuardedWritesAppend(rows: seq<BodyRow>, updates: seq<PendingUpdate>, u: PendingUpdate, target: nat)
    ensures GuardedWrites(rows, updates + [u], target) == GuardedWrite(GuardedWrites(rows, updates, target), u, target)
  {
  }

  lemma MovableRowIsWritten(j: Job, rows: seq<BodyRow>, n: nat)
    requires j.target < |j.dictionaries| && n < |rows| && OnPage(j, rows, n) && j.Movable(rows[n])
    ensures GuardedWrite(Outcome(WrittenTo(j, rows, n), Difference(j, rows, PageWritten(j, rows), n), 0), UpdateFor(j, rows, n), j.target)
            == Outcome(WrittenTo(j, rows, n + 1), Difference(j, rows, PageWritten(j, rows), n + 1), 0)
  {
    assert PageWritten(j, rows)[n] == j.Moved(rows[n]);
  }

  lemma OtherRowIsNotWritten(j: Job, rows: seq<BodyRow>, n: nat)
    requires j.target < |j.dictionaries| && n < |rows| && !(OnPage(j, rows, n) && j.Movable(rows[n]))
    ensures WrittenTo(j, rows, n + 1) == WrittenTo(j, rows, n)
    ensures Difference(j, rows, PageWritten(j, rows), n + 1) == Difference(j, rows, PageWritten(j, rows), n)
  {
    assert PageWritten(j, rows)[n] == rows[n];
  }

  /** With nothing else writing, every update finds its row as it was read, and the
      transaction writes exactly the page. */
  lemma {:induction false} UpdatesWriteThePage(j: Job, rows: seq<BodyRow>, olds: map<nat, Bytes>, n: nat)
    requires j.target < |j.dictionaries| && n <= |rows| && Resolves(j, rows, olds)
    ensures GuardedWrites(rows, PageUpdates(j, rows, olds, n), j.target) ==
            Outcome(WrittenTo(j, rows, n), Difference(j, rows, PageWritten(j, rows), n), 0)
  {
    if n == 0 {
      assert WrittenTo(j, rows, 0) == rows;
    } else {
      var m := n - 1;
      UpdatesWriteThePage(j, rows, olds, m);
      PageUpdatesStep(j, rows, olds, m);
      if OnPage(j, rows, m) && j.Movable(rows[m]) {
        GuardedWritesAppend(rows, PageUpdates(j, rows, olds, m), UpdateFor(j, rows, m), j.target);
        MovableRowIsWritten(j, rows, m);
      } else {
        OtherRowIsNotWritten(j, rows, m);
        assert PageUpdates(j, rows, olds, m) + [] == PageUpdates(j, rows, olds, m);
      }
    }
  }

  lemma {:induction false} StuckRowsBringNoUpdate(j: Job, rows: seq<BodyRow>, olds: map<nat, Bytes>, n: nat)
    requires j.target < |j.dictionaries| && n <= |rows| && Resolves(j, rows, olds)
    ensures |PageUpdates(j, rows, olds, n)| == |PageOf(j, rows, n)| - StuckOnPage(j, rows, n)
  {
    if n > 0 {
      StuckRowsBringNoUpdate(j, rows, olds, n - 1);
      PageUpdatesStep(j, rows, olds, n - 1);
    }
  }

  lemma {:induction false} SomeCounted(ts: seq<Totals>, n: nat)
    requires n <= |ts|
    ensures SumTo(ts, n).count > 0 <==> exists i :: 0 <= i < n && ts[i].count > 0
  {
    if n > 0 {
      SomeCounted(ts, n - 1);
    }
  }

  lemma PageLeaves(j: Job, rows: seq<BodyRow>, i: nat)
    requires j.target < |j.dictionaries| && i < |rows|
    ensures Leavings(j, rows, PageWritten(j, rows))[i].count > 0 <==> OnPage(j, rows, i) && j.Movable(rows[i])
  {
  }

  lemma ProgressIsCounted(j: Job, rows: seq<BodyRow>)
    requires j.target < |j.dictionaries|
    ensures Difference(j, rows, PageWritten(j, rows), |rows|).count > 0 <==> Progress(j, rows)
  {
    var ts := Leavings(j, rows, PageWritten(j, rows));
    forall i | 0 <= i < |rows|
      ensures ts[i].count > 0 <==> OnPage(j, rows, i) && j.Movable(rows[i])
    {
      PageLeaves(j, rows, i);
    }
    SomeCounted(ts, |rows|);
  }
}
