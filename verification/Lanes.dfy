/** Rate-limit lanes: names and the codes that rows store for them. */
module Lanes {
  import opened Wrappers

  const DEFAULT_RATE_LIMIT := "default"
  const NO_RATE_LIMIT := "none"
  const RESERVED := [DEFAULT_RATE_LIMIT, NO_RATE_LIMIT]

  datatype LaneError =
    | NotALaneList(stored: seq<string>)
    | LanesMissing(names: seq<string>)
    | UnknownLane(name: string)
    | NoLaneFor(code: int)

  /** The names of one list that the other lacks, in order. */
  function Lacking(names: seq<string>, others: seq<string>): (r: seq<string>)
    ensures forall i :: 0 <= i < |r| ==> r[i] in names && r[i] !in others
    ensures r == [] <==> forall i :: 0 <= i < |names| ==> names[i] in others
  {
    if names == [] then []
    else
      var init, last := Lacking(names[..|names| - 1], others), names[|names| - 1];
      if last in others then init else init + [last]
  }

  /** `_lane_order`: the stored order first, then the lanes declared since. */
  function LaneOrder(named: seq<string>, stored: Option<seq<string>>): Result<seq<string>, LaneError> {
    match stored
    case None => Ok(named)
    case Some(names) =>
      if |names| < |RESERVED| || names[..|RESERVED|] != RESERVED then Err(NotALaneList(names))
      else
        var lanes := names[|RESERVED|..];
        var missing := Lacking(lanes, named);
        if missing != [] then Err(LanesMissing(missing)) else Ok(lanes + Lacking(named, lanes))
  }

  /** The names a run records: `RateLimitTable.for_scraper`. */
  function Table(named: seq<string>, stored: Option<seq<string>>): Result<seq<string>, LaneError> {
    match LaneOrder(named, stored)
    case Ok(lanes) => Ok(RESERVED + lanes)
    case Err(error) => Err(error)
  }

  function IndexOf(names: seq<string>, name: string): (r: Option<nat>)
    ensures r.Some? ==> r.value < |names| && names[r.value] == name && name !in names[..r.value]
    ensures r.None? <==> name !in names
  {
    if names == [] then None
    else if names[0] == name then Some(0)
    else
      var rest := IndexOf(names[1..], name);
      if rest.None? then None
      else
        assert names[1..][..rest.value] == names[1..rest.value + 1];
        assert names[..rest.value + 1] == [names[0]] + names[1..rest.value + 1];
        Some(rest.value + 1)
  }

  function Encode(names: seq<string>, name: Option<string>): Result<int, LaneError> {
    if name.None? then Ok(0)
    else
      var index := IndexOf(names, name.value);
      if index.None? then Err(UnknownLane(name.value)) else Ok(index.value)
  }

  function Decode(names: seq<string>, code: int): Result<Option<string>, LaneError> {
    if code == 0 then Ok(None)
    else if code < 0 || code >= |names| then Err(NoLaneFor(code))
    else Ok(Some(names[code]))
  }

  // --- What codes mean ------------------------------------------------------------

  predicate Unique(names: seq<string>) {
    forall i, j :: 0 <= i < j < |names| ==> names[i] != names[j]
  }

  /** What a run starts its lane list from: a declaration without repeats, none of
      them reserved. */
  predicate Declared(named: seq<string>) {
    Unique(named) && forall i :: 0 <= i < |named| ==> named[i] != DEFAULT_RATE_LIMIT && named[i] != NO_RATE_LIMIT
  }

  /** A name the table knows comes back from its code, the default as unset; any other
      is refused. */
  lemma DecodeEncode(names: seq<string>, name: Option<string>)
    requires |names| >= 2 && names[..2] == RESERVED
    ensures Encode(names, name).Ok? <==> name.None? || name.value in names
    ensures Encode(names, name).Ok? ==>
              Decode(names, Encode(names, name).value) == Ok(if name == Some(DEFAULT_RATE_LIMIT) then None else name)
  {
  }

  /** Every code of the table is the code of what it decodes to. */
  lemma EncodeDecode(names: seq<string>, code: int)
    requires Unique(names)
    ensures Decode(names, code).Ok? <==> code == 0 || 0 < code < |names|
    ensures Decode(names, code).Ok? ==> Encode(names, Decode(names, code).value) == Ok(code)
  {
  }

  lemma {:induction false} LackingIsUnique(names: seq<string>, others: seq<string>)
    requires Unique(names)
    ensures Unique(Lacking(names, others))
  {
    if names != [] {
      var init, last := names[..|names| - 1], names[|names| - 1];
      LackingIsUnique(init, others);
      assert last !in init;
    }
  }

  lemma UniqueAppend(a: seq<string>, b: seq<string>)
    requires Unique(a) && Unique(b) && forall i :: 0 <= i < |b| ==> b[i] !in a
    ensures Unique(a + b)
  {
  }

  /** The lane lists of a run, resume after resume, from what the scraper declares
      each time - each resume storing the list it built. */
  function Resumed(declarations: seq<seq<string>>): Result<seq<string>, LaneError>
    requires declarations != []
  {
    var last := declarations[|declarations| - 1];
    if |declarations| == 1 then Table(last, None)
    else
      match Resumed(declarations[..|declarations| - 1])
      case Ok(stored) => Table(last, Some(stored))
      case Err(error) => Err(error)
  }

  /** One resume: the stored list stays in front, whatever the order declared now; it
      is refused exactly when a stored lane is declared no longer. */
  lemma ResumeKeepsCodes(named: seq<string>, stored: seq<string>)
    requires Declared(named) && |stored| >= 2 && stored[..2] == RESERVED && Unique(stored)
    ensures Table(named, Some(stored)).Ok? <==> forall i :: 2 <= i < |stored| ==> stored[i] in named
    ensures Table(named, Some(stored)).Ok? ==>
              var names := Table(named, Some(stored)).value;
              && stored <= names && Unique(names)
              && (forall name :: name in names <==> name in RESERVED || name in named)
  {
    var lanes := stored[2..];
    assert stored == RESERVED + lanes;
    assert forall i :: 2 <= i < |stored| ==> stored[i] == lanes[i - 2];
    if Table(named, Some(stored)).Ok? {
      var added := Lacking(named, lanes);
      var names := Table(named, Some(stored)).value;
      assert names == stored + added by {
        assert RESERVED + (lanes + added) == (RESERVED + lanes) + added;
      }
      LackingIsUnique(named, lanes);
      forall i | 0 <= i < |added|
        ensures added[i] !in stored
      {
        assert added[i] in named && added[i] !in lanes;
      }
      UniqueAppend(stored, added);
      forall name
        ensures name in names <==> name in RESERVED || name in named
      {
        LackingOrIn(named, lanes, name);
      }
    }
  }

  lemma {:induction false} LackingOrIn(names: seq<string>, others: seq<string>, name: string)
    ensures name in Lacking(names, others) <==> name in names && name !in others
  {
    if names != [] {
      LackingOrIn(names[..|names| - 1], others, name);
    }
  }

  /** A fresh run's codes: the default 0, no limit 1, and then the lanes as declared. */
  lemma FreshTable(named: seq<string>)
    requires Declared(named)
    ensures Table(named, None) == Ok(["default", "none"] + named) && Unique(Table(named, None).value)
    ensures var names := Table(named, None).value;
            && Encode(names, Some("default")) == Ok(0) && Encode(names, Some("none")) == Ok(1)
            && forall i :: 0 <= i < |named| ==> Encode(names, Some(named[i])) == Ok(i + 2)
  {
    var names := Table(named, None).value;
    assert RESERVED == ["default", "none"];
    forall i | 0 <= i < |named|
      ensures Encode(names, Some(named[i])) == Ok(i + 2)
    {
      var code := IndexOf(names, named[i]).value;
      assert names[i + 2] == named[i] == names[code];
    }
  }

  /** A stored list is refused for not starting with the reserved pair, and else for the
      lanes it holds that are declared no longer - those, in its order. */
  lemma TableRefuses(named: seq<string>, stored: seq<string>)
    ensures var table := Table(named, Some(stored));
            if |stored| < 2 || stored[0] != "default" || stored[1] != "none" then table == Err(NotALaneList(stored))
            else
              && (table.Err? <==> exists i :: 2 <= i < |stored| && stored[i] !in named)
              && (table.Err? ==> table.error == LanesMissing(Lacking(stored[2..], named)))
  {
    if |stored| >= 2 && stored[0] == "default" && stored[1] == "none" {
      assert stored[..2] == RESERVED;
      var lanes := stored[2..];
      assert forall i :: 0 <= i < |lanes| ==> lanes[i] == stored[i + 2];
      assert forall i :: 2 <= i < |stored| ==> stored[i] == lanes[i - 2];
    } else if |stored| >= 2 {
      assert stored[..2][0] == stored[0] && stored[..2][1] == stored[1];
    }
  }

  lemma {:induction false} ResumedIsTable(declarations: seq<seq<string>>)
    requires declarations != [] && (forall i :: 0 <= i < |declarations| ==> Declared(declarations[i]))
    requires Resumed(declarations).Ok?
    ensures var names := Resumed(declarations).value; |names| >= 2 && names[..2] == RESERVED && Unique(names)
  {
    if |declarations| == 1 {
      FreshTable(declarations[0]);
    } else {
      var init := declarations[..|declarations| - 1];
      ResumedIsTable(init);
      ResumeKeepsCodes(declarations[|declarations| - 1], Resumed(init).value);
    }
  }

  /** A code written in any earlier resume decodes later to the lane it was written
      for. */
  lemma {:induction false} CodesAreStable(declarations: seq<seq<string>>, n: nat, name: Option<string>)
    requires 0 < n <= |declarations| && (forall i :: 0 <= i < |declarations| ==> Declared(declarations[i]))
    requires Resumed(declarations).Ok?
    ensures Resumed(declarations[..n]).Ok?
    ensures var earlier, names := Resumed(declarations[..n]).value, Resumed(declarations).value;
            Encode(earlier, name).Ok? ==>
              Decode(names, Encode(earlier, name).value) == Ok(if name == Some(DEFAULT_RATE_LIMIT) then None else name)
    decreases |declarations|
  {
    ResumedIsTable(declarations);
    if n == |declarations| {
      assert declarations[..n] == declarations;
      DecodeEncode(Resumed(declarations).value, name);
    } else {
      var init := declarations[..|declarations| - 1];
      CodesAreStable(init, n, name);
      assert init[..n] == declarations[..n];
      ResumedIsTable(init);
      ResumeKeepsCodes(declarations[|declarations| - 1], Resumed(init).value);
      var earlier := Resumed(declarations[..n]).value;
      if Encode(earlier, name).Ok? {
        LongerTableDecodesAlike(Resumed(init).value, Resumed(declarations).value, Encode(earlier, name).value);
      }
    }
  }

  lemma LongerTableDecodesAlike(stored: seq<string>, names: seq<string>, code: int)
    requires stored <= names && Decode(stored, code).Ok?
    ensures Decode(names, code) == Decode(stored, code)
  {
  }

  /** Every code of the first table means the same in the second. */
  ghost predicate CodesAgree(names: seq<string>, others: seq<string>) {
    forall code :: Decode(names, code).Ok? ==> Decode(others, code) == Decode(names, code)
  }

  lemma CodesAgreeIffPrefix(stored: seq<string>, added: seq<string>, more: seq<string>)
    requires stored != []
    ensures CodesAgree(stored + added, stored + more) <==> added <= more
  {
    var names, others := stored + added, stored + more;
    if CodesAgree(names, others) {
      forall i | 0 <= i < |added|
        ensures i < |more| && more[i] == added[i]
      {
        assert Decode(names, |stored| + i) == Ok(Some(names[|stored| + i]));
      }
      if added != [] {
        assert Decode(names, |names| - 1).Ok?;
      }
      assert added == more[..|added|];
    } else {
      var code :| Decode(names, code).Ok? && Decode(others, code) != Decode(names, code);
      assert 0 < code < |names|;
    }
  }

  /** Two resumes over one stored list give the first's codes the same lanes if and only
      if the lanes the first adds are, in order, the first ones the second adds. */
  lemma ResumesAgreeIff(first: seq<string>, second: seq<string>, stored: seq<string>)
    requires |stored| >= 2 && stored[..2] == RESERVED
    requires Table(first, Some(stored)).Ok? && Table(second, Some(stored)).Ok?
    ensures CodesAgree(Table(first, Some(stored)).value, Table(second, Some(stored)).value)
            <==> Lacking(first, stored[2..]) <= Lacking(second, stored[2..])
  {
    var added, more := Lacking(first, stored[2..]), Lacking(second, stored[2..]);
    assert stored == RESERVED + stored[2..];
    assert Table(first, Some(stored)).value == stored + added;
    assert Table(second, Some(stored)).value == stored + more;
    CodesAgreeIffPrefix(stored, added, more);
  }

  /** So two lanes declared later in either order trade codes. */
  lemma UnstoredCodesMove(a: string, b: string)
    requires Declared([a, b])
    ensures Table([a, b], Some(RESERVED)).Ok? && Table([b, a], Some(RESERVED)).Ok?
    ensures Encode(Table([a, b], Some(RESERVED)).value, Some(a)) == Ok(2)
    ensures Decode(Table([b, a], Some(RESERVED)).value, 2) == Ok(Some(b))
  {
    assert RESERVED[..2] == RESERVED && RESERVED[2..] == [];
    LackingNone(a, b);
    LackingNone(b, a);
    var names := Table([a, b], Some(RESERVED)).value;
    assert names == RESERVED + ([] + [a, b]);
    assert [a, b][0] == a;
    IndexIsTwo(names, a);
  }

  lemma IndexIsTwo(names: seq<string>, name: string)
    requires |names| >= 3 && names[0] != name && names[1] != name && names[2] == name
    ensures IndexOf(names, name) == Some(2)
  {
  }

  lemma LackingNone(x: string, y: string)
    ensures Lacking([x, y], []) == [x, y]
  {
  }
}
