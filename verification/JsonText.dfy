/** JSON text as the tree it spells.  Text written from a dictionary may name a member
    twice (the keys 1 and "1" both spell "1"); reading it back keeps one member, in the
    place of the first and with the value of the last. */
module JsonText {
  import opened Wrappers

  datatype Json =
    | Null
    | Bool(value: bool)
    | Number(text: string)
    | Str(text: string)
    | List(items: seq<Json>)
    | Object(members: seq<Member>)

  datatype Member = Member(name: string, value: Json)

  /** The dictionary assignment `d[name] = value`. */
  function Put(ms: seq<Member>, m: Member): seq<Member> {
    if ms == [] then [m]
    else if ms[0].name == m.name then [m] + ms[1..]
    else [ms[0]] + Put(ms[1..], m)
  }

  function Gathered(ms: seq<Member>): seq<Member> {
    if ms == [] then [] else Put(Gathered(ms[..|ms| - 1]), ms[|ms| - 1])
  }

  /** `json.loads` of the text. */
  function Parsed(t: Json): Json
    decreases t
  {
    match t
    case List(items) => List(ParsedAll(items))
    case Object(members) => Object(Gathered(ParsedMembers(members)))
    case _ => t
  }

  function ParsedAll(ts: seq<Json>): (r: seq<Json>)
    ensures |r| == |ts|
    decreases ts
  {
    if ts == [] then [] else [Parsed(ts[0])] + ParsedAll(ts[1..])
  }

  function ParsedMembers(ms: seq<Member>): (r: seq<Member>)
    ensures |r| == |ms| && forall i :: 0 <= i < |r| ==> r[i].name == ms[i].name
    decreases ms
  {
    if ms == [] then [] else [Member(ms[0].name, Parsed(ms[0].value))] + ParsedMembers(ms[1..])
  }

  predicate NamesDistinct(ms: seq<Member>) {
    forall i, j :: 0 <= i < j < |ms| ==> ms[i].name != ms[j].name
  }

  /** No object in the text names a member twice. */
  predicate NoRepeats(t: Json)
    decreases t
  {
    match t
    case List(items) => NoRepeatsAmong(items)
    case Object(members) => NamesDistinct(members) && NoRepeatsWithin(members)
    case _ => true
  }

  predicate NoRepeatsAmong(ts: seq<Json>)
    decreases ts
  {
    ts == [] || (NoRepeats(ts[0]) && NoRepeatsAmong(ts[1..]))
  }

  predicate NoRepeatsWithin(ms: seq<Member>)
    decreases ms
  {
    ms == [] || (NoRepeats(ms[0].value) && NoRepeatsWithin(ms[1..]))
  }

  predicate Named(ms: seq<Member>, name: string) {
    exists i :: 0 <= i < |ms| && ms[i].name == name
  }

  lemma {:induction false} PutNames(ms: seq<Member>, m: Member, name: string)
    ensures Named(Put(ms, m), name) <==> Named(ms, name) || name == m.name
  {
    var after := Put(ms, m);
    if ms == [] {
      assert after[0].name == m.name;
    } else if ms[0].name == m.name {
      assert after[0].name == m.name;
      assert forall i :: 1 <= i < |ms| ==> after[i] == ms[i];
    } else {
      PutNames(ms[1..], m, name);
      assert forall i :: 1 <= i < |ms| ==> ms[i] == ms[1..][i - 1];
      assert forall i :: 1 <= i < |after| ==> after[i] == Put(ms[1..], m)[i - 1];
      assert forall i :: 0 <= i < |ms[1..]| ==> ms[1..][i] == ms[i + 1];
      assert forall i :: 0 <= i < |after| - 1 ==> Put(ms[1..], m)[i] == after[i + 1];
      assert after[0] == ms[0];
    }
  }

  lemma {:induction false} PutKeepsDistinct(ms: seq<Member>, m: Member)
    requires NamesDistinct(ms)
    ensures NamesDistinct(Put(ms, m))
  {
    if ms != [] && ms[0].name != m.name {
      PutKeepsDistinct(ms[1..], m);
      PutNames(ms[1..], m, ms[0].name);
      var rest := Put(ms[1..], m);
      assert !Named(ms[1..], ms[0].name) by {
        assert forall i :: 0 <= i < |ms[1..]| ==> ms[1..][i] == ms[i + 1];
      }
      assert forall i :: 0 <= i < |rest| ==> rest[i].name != ms[0].name;
    }
  }

  lemma {:induction false} GatheredIsDistinct(ms: seq<Member>)
    ensures NamesDistinct(Gathered(ms))
  {
    if ms != [] {
      GatheredIsDistinct(ms[..|ms| - 1]);
      PutKeepsDistinct(Gathered(ms[..|ms| - 1]), ms[|ms| - 1]);
    }
  }

  lemma {:induction false} PutNew(ms: seq<Member>, m: Member)
    requires !Named(ms, m.name)
    ensures Put(ms, m) == ms + [m]
  {
    if ms != [] {
      assert ms[0].name != m.name;
      assert forall i :: 0 <= i < |ms[1..]| ==> ms[1..][i] == ms[i + 1];
      PutNew(ms[1..], m);
    }
  }

  lemma {:induction false} GatheredOfDistinct(ms: seq<Member>)
    requires NamesDistinct(ms)
    ensures Gathered(ms) == ms
  {
    if ms != [] {
      var init := ms[..|ms| - 1];
      GatheredOfDistinct(init);
      PutNew(init, ms[|ms| - 1]);
    }
  }

  /** What holds of every member's value holds of the gathered ones. */
  lemma {:induction false} PutKeepsNoRepeats(ms: seq<Member>, m: Member)
    requires NoRepeatsWithin(ms) && NoRepeats(m.value)
    ensures NoRepeatsWithin(Put(ms, m))
  {
    if ms != [] && ms[0].name != m.name {
      PutKeepsNoRepeats(ms[1..], m);
      assert Put(ms, m)[1..] == Put(ms[1..], m);
    } else {
      assert Put(ms, m)[1..] == if ms == [] then [] else ms[1..];
    }
  }

  lemma {:induction false} NoRepeatsInit(ms: seq<Member>)
    requires ms != [] && NoRepeatsWithin(ms)
    ensures NoRepeatsWithin(ms[..|ms| - 1]) && NoRepeats(ms[|ms| - 1].value)
  {
    if |ms| > 1 {
      NoRepeatsInit(ms[1..]);
      assert ms[..|ms| - 1][1..] == ms[1..][..|ms| - 2];
    }
  }

  lemma {:induction false} GatheredKeepsNoRepeats(ms: seq<Member>)
    requires NoRepeatsWithin(ms)
    ensures NoRepeatsWithin(Gathered(ms))
  {
    if ms != [] {
      NoRepeatsInit(ms);
      GatheredKeepsNoRepeats(ms[..|ms| - 1]);
      PutKeepsNoRepeats(Gathered(ms[..|ms| - 1]), ms[|ms| - 1]);
    }
  }

  /** What has been read repeats nothing. */
  lemma {:induction false} ParsedHasNoRepeats(t: Json)
    ensures NoRepeats(Parsed(t))
    decreases t
  {
    match t
    case List(items) => ParsedAllHaveNoRepeats(items);
    case Object(members) =>
      ParsedMembersHaveNoRepeats(members);
      GatheredKeepsNoRepeats(ParsedMembers(members));
      GatheredIsDistinct(ParsedMembers(members));
    case _ =>
  }

  lemma {:induction false} ParsedAllHaveNoRepeats(ts: seq<Json>)
    ensures NoRepeatsAmong(ParsedAll(ts))
    decreases ts
  {
    if ts != [] {
      ParsedHasNoRepeats(ts[0]);
      ParsedAllHaveNoRepeats(ts[1..]);
    }
  }

  lemma {:induction false} ParsedMembersHaveNoRepeats(ms: seq<Member>)
    ensures NoRepeatsWithin(ParsedMembers(ms))
    decreases ms
  {
    if ms != [] {
      ParsedHasNoRepeats(ms[0].value);
      ParsedMembersHaveNoRepeats(ms[1..]);
    }
  }

  /** Text comes back as it was exactly when it repeats no name. */
  lemma {:induction false} ParsedFixedPoint(t: Json)
    ensures Parsed(t) == t <==> NoRepeats(t)
    decreases t
  {
    match t
    case List(items) => AllFixed(items);
    case Object(members) =>
      MembersFixed(members);
      GatheredIsDistinct(ParsedMembers(members));
      if NamesDistinct(members) {
        GatheredOfDistinct(ParsedMembers(members));
      }
    case _ =>
  }

  lemma {:induction false} AllFixed(ts: seq<Json>)
    ensures ParsedAll(ts) == ts <==> NoRepeatsAmong(ts)
    decreases ts
  {
    if ts != [] {
      ParsedFixedPoint(ts[0]);
      AllFixed(ts[1..]);
    }
  }

  lemma {:induction false} MembersFixed(ms: seq<Member>)
    ensures ParsedMembers(ms) == ms <==> NoRepeatsWithin(ms)
    decreases ms
  {
    if ms != [] {
      ParsedFixedPoint(ms[0].value);
      MembersFixed(ms[1..]);
    }
  }

  /** One reading settles it. */
  lemma ParsedTwice(t: Json)
    ensures Parsed(Parsed(t)) == Parsed(t)
  {
    ParsedHasNoRepeats(t);
    ParsedFixedPoint(Parsed(t));
  }

  /** The names of a text's members, each where it first appears. */
  function FirstNames(ms: seq<Member>): seq<string> {
    if ms == [] then []
    else
      var before, name := FirstNames(ms[..|ms| - 1]), ms[|ms| - 1].name;
      if name in before then before else before + [name]
  }

  /** The last member with a name. */
  function LastNamed(ms: seq<Member>, name: string): (r: Option<Member>)
    ensures r.None? <==> !Named(ms, name)
  {
    if ms == [] then None
    else if ms[|ms| - 1].name == name then Some(ms[|ms| - 1])
    else LastNamed(ms[..|ms| - 1], name)
  }

  lemma {:induction false} PutPresent(ms: seq<Member>, m: Member, i: nat)
    requires i < |ms| && ms[i].name == m.name && forall j :: 0 <= j < i ==> ms[j].name != m.name
    ensures Put(ms, m) == ms[i := m]
  {
    if i > 0 {
      assert forall j :: 0 <= j < i - 1 ==> ms[1..][j] == ms[j + 1];
      PutPresent(ms[1..], m, i - 1);
    }
  }

  /** An object that names members twice is read as one with each name once, where it
      first appears, and with the last value. */
  lemma {:induction false} GatheredInOrder(ms: seq<Member>)
    ensures var read, names := Gathered(ms), FirstNames(ms);
            |read| == |names| && forall i :: 0 <= i < |read| ==> read[i].name == names[i] && LastNamed(ms, names[i]) == Some(read[i])
  {
    if ms != [] {
      var init, last := ms[..|ms| - 1], ms[|ms| - 1];
      GatheredInOrder(init);
      GatheredIsDistinct(init);
      var read, names := Gathered(init), FirstNames(init);
      if last.name in names {
        var i :| 0 <= i < |names| && names[i] == last.name;
        PutPresent(read, last, i);
      } else {
        assert !Named(read, last.name);
        PutNew(read, last);
      }
    }
  }

  /** A dictionary with the keys 1 and "1" writes the name twice, and loses a value. */
  lemma IntAndStringKeyCollide()
    ensures var t := Object([Member("1", Str("a")), Member("1", Str("b"))]);
            Parsed(t) == Object([Member("1", Str("b"))])
  {
    var ms := [Member("1", Str("a")), Member("1", Str("b"))];
    assert ParsedMembers(ms[1..]) == [ms[1]] + ParsedMembers([]);
    assert ParsedMembers(ms) == ms;
    assert ms[..1] == [ms[0]] && ms[..1][..0] == [];
    assert Gathered(ms[..1]) == Put([], ms[0]) == [ms[0]];
    assert Gathered(ms) == Put([ms[0]], ms[1]);
  }
}
