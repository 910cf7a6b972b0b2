/** `_fold_params_into_url`: query parameters appended to a URL's query, as the row and
    the wire carry them.  Splitting and joining URLs and `quote_plus` are parameters. */
module UrlParams {
  import opened PercentEncoding

  /** A parameter's value: one text, or a list that stands for several. */
  datatype FieldValue = One(text: string) | Many(texts: seq<string>)

  datatype Params = NoParams | Encoded(query: seq<Byte>) | Fields(fields: seq<(string, FieldValue)>)

  /** A URL split at its query: everything before it, the query, the fragment. */
  datatype UrlParts = UrlParts(before: string, query: string, fragment: string)

  datatype UrlCodec = UrlCodec(split: string -> UrlParts, join: UrlParts -> string, quotePlus: string -> string)

  predicate NoQuery(params: Params) {
    match params
    case NoParams => true
    case Encoded(query) => query == []
    case Fields(fields) => fields == []
  }

  function Pair(u: UrlCodec, name: string, text: string): string {
    u.quotePlus(name) + "=" + u.quotePlus(text)
  }

  function PairsOf(u: UrlCodec, name: string, texts: seq<string>): seq<string> {
    seq(|texts|, i requires 0 <= i < |texts| => Pair(u, name, texts[i]))
  }

  /** With `doseq`, a list gives one pair for each of its texts. */
  function FieldPairs(u: UrlCodec, field: (string, FieldValue)): seq<string> {
    match field.1
    case One(text) => [Pair(u, field.0, text)]
    case Many(texts) => PairsOf(u, field.0, texts)
  }

  function Pairs(u: UrlCodec, fields: seq<(string, FieldValue)>): seq<string> {
    if fields == [] then [] else FieldPairs(u, fields[0]) + Pairs(u, fields[1..])
  }

  function Joined(parts: seq<string>): string {
    if parts == [] then "" else if |parts| == 1 then parts[0] else parts[0] + "&" + Joined(parts[1..])
  }

  function UrlEncoded(u: UrlCodec, fields: seq<(string, FieldValue)>): string {
    Joined(Pairs(u, fields))
  }

  function QueryText(u: UrlCodec, params: Params): string {
    match params
    case NoParams => ""
    case Encoded(query) => Text(EncodedQuery(query))
    case Fields(fields) => UrlEncoded(u, fields)
  }

  function Folded(u: UrlCodec, url: string, params: Params): string {
    if NoQuery(params) then url
    else
      var parts, query := u.split(url), QueryText(u, params);
      u.join(parts.(query := if parts.query != "" then parts.query + "&" + query else query))
  }

  /** `folded` is the URL with the parameters in it: the same URL if there are none, and
      else the URL joined again from its own parts but for the query, which is the one it
      had, if any, and after it the raw bytes made sendable or the pairs encoded. */
  predicate Carries(u: UrlCodec, url: string, params: Params, folded: string) {
    if params == NoParams || params == Encoded([]) || params == Fields([]) then folded == url
    else
      var UrlParts(before, existing, fragment) := u.split(url);
      var added := if params.Encoded? then Text(EncodedQuery(params.query)) else UrlEncoded(u, params.fields);
      folded == u.join(UrlParts(before, (if existing == "" then "" else existing + "&") + added, fragment))
  }

  lemma FoldedCarries(u: UrlCodec, url: string, params: Params)
    ensures Carries(u, url, params, Folded(u, url, params))
  {
    var added := QueryText(u, params);
    assert "" + added == added;
  }

  lemma {:induction false} JoinedAppend(a: seq<string>, b: seq<string>)
    ensures Joined(a + b) == if a == [] then Joined(b) else if b == [] then Joined(a) else Joined(a) + "&" + Joined(b)
  {
    if a == [] {
      assert a + b == b;
    } else if b == [] {
      assert a + b == a;
    } else {
      assert (a + b)[1..] == a[1..] + b;
      JoinedAppend(a[1..], b);
      if |a| > 1 {
        assert a[0] + "&" + (Joined(a[1..]) + "&" + Joined(b)) == a[0] + "&" + Joined(a[1..]) + "&" + Joined(b);
      }
    }
  }

  lemma {:induction false} PairsAppend(u: UrlCodec, fs: seq<(string, FieldValue)>, gs: seq<(string, FieldValue)>)
    ensures Pairs(u, fs + gs) == Pairs(u, fs) + Pairs(u, gs)
  {
    if fs == [] {
      assert fs + gs == gs;
    } else {
      assert (fs + gs)[1..] == fs[1..] + gs;
      PairsAppend(u, fs[1..], gs);
    }
  }

  /** A field that gives no pair: an empty list. */
  predicate GivesNone(field: (string, FieldValue)) {
    field.1 == Many([])
  }

  lemma {:induction false} NoPairs(u: UrlCodec, fs: seq<(string, FieldValue)>)
    ensures Pairs(u, fs) == [] <==> forall i :: 0 <= i < |fs| ==> GivesNone(fs[i])
  {
    if fs != [] {
      NoPairs(u, fs[1..]);
      assert |FieldPairs(u, fs[0])| == 0 <==> GivesNone(fs[0]);
    }
  }

  /** Fields are encoded in the order given and joined by one ampersand, whatever lists
      are empty among them. */
  lemma EncodedInOrder(u: UrlCodec, fs: seq<(string, FieldValue)>, gs: seq<(string, FieldValue)>)
    ensures UrlEncoded(u, fs + gs) ==
            if forall i :: 0 <= i < |fs| ==> GivesNone(fs[i]) then UrlEncoded(u, gs)
            else if forall i :: 0 <= i < |gs| ==> GivesNone(gs[i]) then UrlEncoded(u, fs)
            else UrlEncoded(u, fs) + "&" + UrlEncoded(u, gs)
  {
    PairsAppend(u, fs, gs);
    JoinedAppend(Pairs(u, fs), Pairs(u, gs));
    NoPairs(u, fs);
    NoPairs(u, gs);
  }

  function Repeated(name: string, texts: seq<string>): seq<(string, FieldValue)> {
    seq(|texts|, i requires 0 <= i < |texts| => (name, One(texts[i])))
  }

  lemma {:induction false} RepeatedPairs(u: UrlCodec, name: string, texts: seq<string>)
    ensures Pairs(u, Repeated(name, texts)) == PairsOf(u, name, texts)
  {
    if texts != [] {
      RepeatedPairs(u, name, texts[1..]);
      assert Repeated(name, texts)[1..] == Repeated(name, texts[1..]);
      assert PairsOf(u, name, texts) == [Pair(u, name, texts[0])] + PairsOf(u, name, texts[1..]);
    }
  }

  lemma OneField(u: UrlCodec, field: (string, FieldValue))
    ensures Pairs(u, [field]) == FieldPairs(u, field)
  {
    assert [field][1..] == [];
    assert FieldPairs(u, field) + [] == FieldPairs(u, field);
  }

  /** One text is a pair, and a list its name repeated with each of its texts. */
  lemma ListsAreRepeated(u: UrlCodec, name: string, texts: seq<string>, text: string)
    ensures UrlEncoded(u, [(name, One(text))]) == u.quotePlus(name) + "=" + u.quotePlus(text)
    ensures UrlEncoded(u, [(name, Many(texts))]) == UrlEncoded(u, Repeated(name, texts))
  {
    RepeatedPairs(u, name, texts);
    OneField(u, (name, Many(texts)));
    OneField(u, (name, One(text)));
  }

  /** A mapping of empty lists is not empty: it adds nothing but still its ampersand. */
  lemma EmptyListsAddAnAmpersand(u: UrlCodec, url: string, name: string)
    ensures Folded(u, url, Fields([(name, Many([]))])) ==
            var parts := u.split(url); u.join(parts.(query := if parts.query != "" then parts.query + "&" else ""))
  {
    OneField(u, (name, Many([])));
    assert UrlEncoded(u, [(name, Many([]))]) == "";
    assert u.split(url).query + "&" + "" == u.split(url).query + "&";
  }
}
