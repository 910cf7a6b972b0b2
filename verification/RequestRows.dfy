/** A request and the row it is stored as, in both directions.

    A JSON column holds the tree its text spells.  Splitting and joining URLs, the key
    hash, the body text and the via text are parameters. */
module RequestRows {
  import opened Wrappers
  import opened Headers
  import opened JsonText
  import opened UrlParams
  import Lanes

  type Bytes = seq<bv8>

  /** A request body as the caller spells it. */
  datatype Data =
    | NoData
    | Raw(bytes: Bytes)
    | Stream(rest: Bytes, seekable: bool)
    | Form(form: Json)

  datatype Via = Via(description: string)

  datatype HttpParams = HttpParams(
    verb: string,
    url: string,
    params: Params,
    data: Data,
    json: Option<Json>,
    headers: Option<Entries>,
    cookies: Option<Entries>,
    timeout: Option<Json>,
    verification: Json)

  /** The data that flows along a chain: two dictionaries the framework knows, and the
      rest. */
  datatype Permanent = Permanent(headers: Option<Entries>, cookies: Option<Entries>, rest: Json)

  datatype StepName = NameOf(name: string) | Nameless

  /** The deduplication key a request asks for. */
  datatype Key = Unset | Text(key: string) | Skip | NotAString

  datatype Request = Request(
    http: HttpParams,
    step: StepName,
    currentLocation: string,
    accumulated: Json,
    permanent: Permanent,
    priority: Option<int>,
    key: Key,
    via: Option<Via>,
    rateLimit: Option<string>,
    reseedable: Option<bool>,
    isSpeculative: bool,
    trackingId: Option<int>,
    speculativeIndex: Option<int>,
    archive: bool,
    nonnavigating: bool,
    expectedType: Option<string>)

  datatype RequestType = Navigating | NonNavigating | Archive

  datatype RequestRow = RequestRow(
    requestType: RequestType,
    verb: string,
    url: string,
    headers: Option<Entries>,
    cookies: Option<Entries>,
    body: Option<Bytes>,
    bodyIsForm: bool,
    step: string,
    currentLocation: string,
    accumulated: Option<Json>,
    permanent: Option<Permanent>,
    expectedType: Option<string>,
    isSpeculative: bool,
    trackingId: Option<int>,
    speculativeIndex: Option<int>,
    verification: Json,
    via: Option<string>,
    rateLimit: int,
    timeout: Option<Json>,
    json: Option<Json>,
    reseedable: Option<bool>,
    priority: int,
    key: Option<string>,
    parent: Option<nat>)

  datatype RowError =
    | NamelessStep
    | EmptyStep
    | StreamNotSeekable
    | BadLane(error: Lanes.LaneError)
    | KeyNotAString
    | MalformedBody
    | MalformedVia

  /** What the model takes from outside. */
  datatype Formats = Formats(
    fold: Folding,
    urls: UrlCodec,
    hash: HttpParams -> string,
    dumps: Json -> Bytes,
    loads: Bytes -> Option<Json>,
    viaText: Via -> string,
    viaOf: string -> Option<Via>)
  {
    /** Text reads back as the tree it spells, a via as itself. */
    ghost predicate Sound() {
      && (forall t :: loads(dumps(t)) == Some(Parsed(t)))
      && (forall t, u :: dumps(t) == dumps(u) ==> t == u)
      && (forall v :: viaText(v) != "" && viaOf(viaText(v)) == Some(v))
    }
  }

  const DEFAULT_PRIORITY := 9
  const ARCHIVE_DEFAULT_PRIORITY := 1
  const EMPTY_PERMANENT := Permanent(None, None, Object([]))

  // --- Building a request -------------------------------------------------------------

  /** Permanent cookies go under the request's own. */
  function MergedCookies(permanent: Entries, own: Option<Entries>): Entries {
    if own.None? then permanent else Updated(permanent, own.value)
  }

  /** `__post_init__`: the archive default, and the permanent layer merged in. */
  function Constructed(f: Formats, r: Request): Request {
    var priority := if r.archive && r.priority.None? then Some(ARCHIVE_DEFAULT_PRIORITY) else r.priority;
    r.(priority := priority, http := r.http.(
         headers := Headers.Constructed(f.fold, Layered(r.http.headers, r.permanent.headers)).own,
         cookies := if r.permanent.cookies.None? then r.http.cookies
                    else Some(MergedCookies(r.permanent.cookies.value, r.http.cookies))))
  }

  function EffectivePriority(r: Request): int {
    GetOr(r.priority, DEFAULT_PRIORITY)
  }

  function EffectiveKey(f: Formats, r: Request): Result<Option<string>, RowError> {
    match r.key
    case Unset => Ok(Some(f.hash(r.http)))
    case Text(key) => Ok(Some(key))
    case Skip => Ok(None)
    case NotAString => Err(KeyNotAString)
  }

  // --- Writing ------------------------------------------------------------------------

  predicate Empty(form: Json) {
    match form
    case List(items) => items == []
    case Object(members) => members == []
    case _ => false
  }

  /** `encode_body`: the bytes to store, and whether they are a form. */
  function EncodeBody(f: Formats, data: Data): Result<(Option<Bytes>, bool), RowError> {
    match data
    case NoData => Ok((None, false))
    case Raw(bytes) => Ok((Some(bytes), false))
    case Stream(rest, seekable) => if seekable then Ok((Some(rest), false)) else Err(StreamNotSeekable)
    case Form(form) => if Empty(form) then Ok((None, false)) else Ok((Some(f.dumps(form)), true))
  }

  /** `serialize_request`, without the priority, the key and the parent. */
  function Serialized(f: Formats, lanes: seq<string>, r: Request): Result<RequestRow, RowError> {
    if r.step.Nameless? then Err(NamelessStep)
    else
      match EncodeBody(f, r.http.data)
      case Err(error) => Err(error)
      case Ok((body, isForm)) =>
        match Lanes.Encode(lanes, r.rateLimit)
        case Err(error) => Err(BadLane(error))
        case Ok(code) =>
          Ok(RequestRow(
            if r.archive then Archive else if r.nonnavigating then NonNavigating else Navigating,
            r.http.verb, Folded(f.urls, r.http.url, r.http.params), r.http.headers, r.http.cookies, body, isForm, r.step.name,
            r.currentLocation, Some(r.accumulated), Some(r.permanent), if r.archive then r.expectedType else None,
            r.isSpeculative, r.trackingId, r.speculativeIndex, r.http.verification,
            if r.via.Some? then Some(f.viaText(r.via.value)) else None,
            code, r.http.timeout, r.http.json, r.reseedable, DEFAULT_PRIORITY, None, None))
  }

  /** `_insert_payload`: the row to insert. */
  function InsertPayload(f: Formats, lanes: seq<string>, r: Request): Result<RequestRow, RowError> {
    match Serialized(f, lanes, r)
    case Err(error) => Err(error)
    case Ok(row) =>
      match EffectiveKey(f, r)
      case Err(error) => Err(error)
      case Ok(key) => Ok(row.(priority := EffectivePriority(r), key := key))
  }

  // --- Reading ------------------------------------------------------------------------

  /** A dictionary column as it is read back. */
  function ParsedEntries(m: Entries): Entries {
    Normalized(Same, m)
  }

  function ParsedPermanent(p: Permanent): Permanent {
    Permanent(ReadEntries(p.headers), ReadEntries(p.cookies), Parsed(p.rest))
  }

  function ReadEntries(m: Option<Entries>): Option<Entries> {
    if m.None? then None else Some(ParsedEntries(m.value))
  }

  function ReadJson(t: Option<Json>): Option<Json> {
    if t.None? then None else Some(Parsed(t.value))
  }

  /** One item of a pair list, as Python unpacks it into a name and a value: a list of
      two, a text of two characters, or the names of an object of two members. */
  function Unpacked(item: Json): Option<(Json, Json)> {
    match item
    case List(items) => if |items| == 2 then Some((items[0], items[1])) else None
    case Str(text) => if |text| == 2 then Some((Str(text[..1]), Str(text[1..]))) else None
    case Object(ms) => if |ms| == 2 then Some((Str(ms[0].name), Str(ms[1].name))) else None
    case _ => None
  }

  /** The pair list, or None: an item that does not unpack, or a name that is no text. */
  function Pairs(items: seq<Json>): Option<seq<Json>> {
    if items == [] then Some([])
    else
      var first, rest := Unpacked(items[0]), Pairs(items[1..]);
      if first.None? || !first.value.0.Str? || rest.None? then None
      else Some([List([first.value.0, first.value.1])] + rest.value)
  }

  /** The pair an item of a stored list unpacks to, its name a text. */
  predicate Unpacks(item: Json, pair: Json) {
    || (pair == item && item.List? && |item.items| == 2 && item.items[0].Str?)
    || (item.Str? && |item.text| == 2 && pair == List([Str([item.text[0]]), Str([item.text[1]])]))
    || (item.Object? && |item.members| == 2 && pair == List([Str(item.members[0].name), Str(item.members[1].name)]))
  }

  ghost predicate NeverUnpacks(item: Json) {
    forall pair :: !Unpacks(item, pair)
  }

  lemma UnpackedUnpacks(item: Json)
    ensures var u := Unpacked(item);
            if u.Some? && u.value.0.Str? then Unpacks(item, List([u.value.0, u.value.1])) else NeverUnpacks(item)
  {
    match item
    case List(items) => assert |items| == 2 ==> items == [items[0], items[1]];
    case Str(text) => assert |text| == 2 ==> text[..1] == [text[0]] && text[1..] == [text[1]];
    case _ =>
  }

  /** A stored list is decoded item by item, or not at all. */
  lemma {:induction false} PairsAreUnpacked(items: seq<Json>)
    ensures Pairs(items).Some? ==>
              |Pairs(items).value| == |items| && forall i :: 0 <= i < |items| ==> Unpacks(items[i], Pairs(items).value[i])
    ensures Pairs(items).None? ==> exists i :: 0 <= i < |items| && NeverUnpacks(items[i])
  {
    if items != [] {
      UnpackedUnpacks(items[0]);
      PairsAreUnpacked(items[1..]);
      if Pairs(items[1..]).None? {
        var i :| 0 <= i < |items| - 1 && NeverUnpacks(items[1..][i]);
        assert items[i + 1] == items[1..][i];
      }
    }
  }

  /** `_decode_body`. */
  function DecodeBody(f: Formats, body: Option<Bytes>, isForm: bool): Result<Data, RowError> {
    if body.None? then Ok(NoData)
    else if !isForm then Ok(Raw(body.value))
    else
      match f.loads(body.value)
      case Some(List(items)) =>
        var pairs := Pairs(items);
        if pairs.None? then Err(MalformedBody) else Ok(Form(List(pairs.value)))
      case Some(Object(members)) => Ok(Form(Object(members)))
      case _ => Err(MalformedBody)
  }

  function DecodeVia(f: Formats, via: Option<string>): Result<Option<Via>, RowError> {
    if via.None? || via.value == "" then Ok(None)
    else
      var v := f.viaOf(via.value);
      if v.None? then Err(MalformedVia) else Ok(v)
  }

  /** The fields the row gives a request. */
  function ReadBack(f: Formats, lanes: seq<string>, row: RequestRow): Result<Request, RowError> {
    match DecodeBody(f, row.body, row.bodyIsForm)
    case Err(error) => Err(error)
    case Ok(data) =>
      match DecodeVia(f, row.via)
      case Err(error) => Err(error)
      case Ok(via) =>
        match Lanes.Decode(lanes, row.rateLimit)
        case Err(error) => Err(BadLane(error))
        case Ok(lane) =>
          if row.step == "" then Err(EmptyStep)
          else Ok(Request(
            HttpParams(row.verb, row.url, NoParams, data, ReadJson(row.json), ReadEntries(row.headers),
                       ReadEntries(row.cookies), ReadJson(row.timeout), Parsed(row.verification)),
            NameOf(row.step), row.currentLocation, Parsed(GetOr(row.accumulated, Object([]))),
            ParsedPermanent(GetOr(row.permanent, EMPTY_PERMANENT)),
            Some(row.priority), if row.key.Some? then Text(row.key.value) else Skip, via, lane, row.reseedable,
            row.isSpeculative, row.trackingId, row.speculativeIndex,
            row.requestType.Archive?, row.requestType.NonNavigating?,
            if row.requestType.Archive? then row.expectedType else None))
  }

  /** `_deserialize_request`. */
  function Deserialized(f: Formats, lanes: seq<string>, row: RequestRow): Result<Request, RowError> {
    match ReadBack(f, lanes, row)
    case Err(error) => Err(error)
    case Ok(r) => Ok(Constructed(f, r))
  }

  /** `_row_round_trips`' second row: read back and written again. */
  function Again(f: Formats, lanes: seq<string>, row: RequestRow): Result<RequestRow, RowError> {
    match Deserialized(f, lanes, row)
    case Err(error) => Err(error)
    case Ok(r) =>
      match InsertPayload(f, lanes, r)
      case Err(error) => Err(error)
      case Ok(again) => Ok(again.(parent := row.parent))
  }

  // --- The trip -----------------------------------------------------------------------

  /** Its dictionaries are dictionaries, and a form is a mapping or a list of named
      pairs. */
  ghost predicate Typed(r: Request) {
    && Distinct(Same, GetOr(r.http.headers, [])) && Distinct(Same, GetOr(r.http.cookies, []))
    && Distinct(Same, GetOr(r.permanent.headers, [])) && Distinct(Same, GetOr(r.permanent.cookies, []))
    && (r.http.data.Form? ==> FormTyped(r.http.data.form))
  }

  predicate FormTyped(form: Json) {
    match form
    case List(items) => NamedPairs(items)
    case Object(_) => true
    case _ => false
  }

  predicate NamedPair(item: Json) {
    item.List? && |item.items| == 2 && item.items[0].Str?
  }

  predicate NamedPairs(items: seq<Json>) {
    items == [] || (NamedPair(items[0]) && NamedPairs(items[1..]))
  }

  /** A column's text after one reading. */
  function ParsedBody(f: Formats, body: Option<Bytes>, isForm: bool): Option<Bytes> {
    if body.None? || !isForm then body
    else
      var t := f.loads(body.value);
      if t.None? then body else Some(f.dumps(t.value))
  }

  /** The row after one trip: every JSON column read and written again. */
  function RowParsed(f: Formats, row: RequestRow): RequestRow {
    row.(body := ParsedBody(f, row.body, row.bodyIsForm), json := ReadJson(row.json), timeout := ReadJson(row.timeout),
         verification := Parsed(row.verification), accumulated := ReadJson(row.accumulated),
         permanent := if row.permanent.None? then None else Some(row.permanent.value.(rest := Parsed(row.permanent.value.rest))))
  }

  lemma {:induction false} PairsOfParsed(items: seq<Json>)
    requires NamedPairs(items)
    ensures Pairs(ParsedAll(items)) == Some(ParsedAll(items))
  {
    if items != [] {
      PairsOfParsed(items[1..]);
      var first := items[0];
      assert ParsedAll(first.items) == [Parsed(first.items[0])] + ParsedAll(first.items[1..]);
      assert ParsedAll(first.items[1..]) == [Parsed(first.items[1])] + ParsedAll(first.items[2..]);
      assert Parsed(first) == List([Parsed(first.items[0]), Parsed(first.items[1])]);
    }
  }

  /** A form body comes back as the form it spells, non-empty still. */
  lemma FormComesBack(f: Formats, form: Json)
    requires f.Sound() && FormTyped(form) && !Empty(form)
    ensures DecodeBody(f, Some(f.dumps(form)), true) == Ok(Form(Parsed(form)))
    ensures !Empty(Parsed(form))
  {
    if form.List? {
      PairsOfParsed(form.items);
    } else {
      GatheredNotEmpty(ParsedMembers(form.members));
    }
  }

  lemma GatheredNotEmpty(ms: seq<Member>)
    requires ms != []
    ensures Gathered(ms) != []
  {
  }

  /** Whatever the body was, written, read and written again it is what one reading
      makes of it. */
  lemma BodyAgain(f: Formats, data: Data)
    requires f.Sound() && (data.Form? ==> FormTyped(data.form)) && EncodeBody(f, data).Ok?
    ensures var (body, isForm) := EncodeBody(f, data).value;
            && DecodeBody(f, body, isForm).Ok?
            && EncodeBody(f, DecodeBody(f, body, isForm).value) == Ok((ParsedBody(f, body, isForm), isForm))
  {
    if data.Form? && !Empty(data.form) {
      FormComesBack(f, data.form);
    }
  }

  lemma EntriesComeBack(m: Option<Entries>)
    requires Distinct(Same, GetOr(m, []))
    ensures ReadEntries(m) == m
  {
    if m.Some? {
      NormalizedOfDistinct(Same, m.value);
    }
  }

  /** A request's own headers and cookies win over its permanent ones, name by name; with
      nothing permanent they are left as they are. */
  lemma OwnWinsOverPermanent(f: Formats, r: Request, key: string)
    requires Typed(r)
    ensures var built := Constructed(f, r);
            && Lookup(f.fold, GetOr(built.http.headers, []), key)
               == OrElse(Lookup(f.fold, GetOr(r.http.headers, []), key), Lookup(f.fold, GetOr(r.permanent.headers, []), key))
            && Lookup(Same, GetOr(built.http.cookies, []), key)
               == OrElse(Lookup(Same, GetOr(r.http.cookies, []), key), Lookup(Same, GetOr(r.permanent.cookies, []), key))
            && (r.permanent.headers.None? ==> built.http.headers == r.http.headers)
            && (r.permanent.cookies.None? ==> built.http.cookies == r.http.cookies)
            && built == r.(priority := built.priority, http := r.http.(headers := built.http.headers, cookies := built.http.cookies))
  {
    if r.permanent.headers.Some? {
      MergeLookup(f.fold, r.permanent.headers.value, GetOr(r.http.headers, []), key);
    }
    if r.permanent.cookies.Some? {
      var permanent, own := r.permanent.cookies.value, GetOr(r.http.cookies, []);
      CookiesMergeLikeHeaders(permanent, own);
      MergeLookup(Same, permanent, own, key);
      NormalizedOfDistinct(Same, permanent);
      assert Merge(Same, permanent, []) == permanent;
    }
  }

  lemma DistinctUnfolds(fold: Folding, m: Entries)
    requires Distinct(fold, m)
    ensures Distinct(Same, m)
  {
  }

  lemma ConstructedHeaders(f: Formats, r: Request)
    requires Typed(r)
    ensures Distinct(Same, GetOr(Constructed(f, r).http.headers, []))
    ensures Distinct(Same, GetOr(Constructed(f, r).http.cookies, []))
  {
    if r.permanent.headers.Some? {
      MergeIsNormalizedConcatenation(f.fold, r.permanent.headers.value, GetOr(r.http.headers, []));
      DistinctUnfolds(f.fold, Merge(f.fold, r.permanent.headers.value, GetOr(r.http.headers, [])));
    }
    if r.permanent.cookies.Some? && r.http.cookies.Some? {
      MergeIntoDistinct(Same, r.permanent.cookies.value, r.http.cookies.value);
    }
  }

  lemma CookiesAbsorb(permanent: Entries, own: Option<Entries>)
    requires Distinct(Same, permanent) && Distinct(Same, GetOr(own, []))
    ensures MergedCookies(permanent, Some(MergedCookies(permanent, own))) == MergedCookies(permanent, own)
  {
    CookiesMergeLikeHeaders(permanent, GetOr(own, []));
    MergeAbsorbs(Same, permanent, GetOr(own, []));
    CookiesMergeLikeHeaders(permanent, MergedCookies(permanent, own));
    NormalizedOfDistinct(Same, permanent);
    if own.None? {
      assert Merge(Same, permanent, []) == permanent;
    }
  }

  /** Merging the permanent layer into a request that has it changes nothing. */
  lemma ConstructedAgain(f: Formats, r: Request)
    requires Typed(r)
    ensures Constructed(f, Constructed(f, r)) == Constructed(f, r)
    ensures Typed(Constructed(f, r))
  {
    ConstructedHeaders(f, r);
    ConstructedTwice(f.fold, Layered(r.http.headers, r.permanent.headers));
    if r.permanent.cookies.Some? {
      CookiesAbsorb(r.permanent.cookies.value, r.http.cookies);
    }
  }

  predicate LaneTable(lanes: seq<string>) {
    |lanes| >= 2 && lanes[..2] == Lanes.RESERVED
  }

  lemma LaneAgain(lanes: seq<string>, name: Option<string>)
    requires LaneTable(lanes) && Lanes.Encode(lanes, name).Ok?
    ensures var code := Lanes.Encode(lanes, name).value;
            && Lanes.Decode(lanes, code).Ok?
            && Lanes.Encode(lanes, Lanes.Decode(lanes, code).value) == Ok(code)
  {
  }

  /** The row holds what a request with its permanent layer merged in wrote. */
  ghost predicate WrittenBy(f: Formats, lanes: seq<string>, r: Request, row: RequestRow) {
    && Typed(r) && Constructed(f, r) == r
    && InsertPayload(f, lanes, r).Ok? && row == InsertPayload(f, lanes, r).value.(parent := row.parent)
  }

  /** Reading the row back gives the request's own dictionaries, and building it from
      them adds nothing. */
  lemma ReadBackIsBuilt(f: Formats, lanes: seq<string>, r: Request, row: RequestRow)
    requires f.Sound() && LaneTable(lanes) && WrittenBy(f, lanes, r, row) && row.step != ""
    ensures ReadBack(f, lanes, row).Ok?
    ensures var x := ReadBack(f, lanes, row).value;
            Typed(x) && Constructed(f, x) == x && SameDictionaries(r, x)
  {
    BodyAgain(f, r.http.data);
    LaneAgain(lanes, r.rateLimit);
    EntriesComeBack(r.http.headers);
    EntriesComeBack(r.http.cookies);
    EntriesComeBack(r.permanent.headers);
    EntriesComeBack(r.permanent.cookies);
    var x := ReadBack(f, lanes, row).value;
    BodyIsTyped(f, r.http.data);
  }

  lemma BodyIsTyped(f: Formats, data: Data)
    requires f.Sound() && (data.Form? ==> FormTyped(data.form)) && EncodeBody(f, data).Ok?
    ensures var (body, isForm) := EncodeBody(f, data).value;
            DecodeBody(f, body, isForm).Ok? &&
            (DecodeBody(f, body, isForm).value.Form? ==> FormTyped(DecodeBody(f, body, isForm).value.form))
  {
    if data.Form? && !Empty(data.form) {
      FormComesBack(f, data.form);
      if data.form.List? {
        ParsedPairsNamed(data.form.items);
      }
    }
  }

  lemma {:induction false} ParsedPairsNamed(items: seq<Json>)
    requires NamedPairs(items)
    ensures NamedPairs(ParsedAll(items))
  {
    if items != [] {
      ParsedPairsNamed(items[1..]);
      var first := items[0];
      assert ParsedAll(first.items) == [Parsed(first.items[0])] + ParsedAll(first.items[1..]);
    }
  }

  /** Read back and written again, the row is what one reading makes of its text: the
      URL stays folded, the permanent layer merges into itself, the key, the priority,
      the lane and the flags keep their meaning. */
  lemma TripParsesTheRow(f: Formats, lanes: seq<string>, r: Request, row: RequestRow)
    requires f.Sound() && LaneTable(lanes) && WrittenBy(f, lanes, r, row)
    ensures Again(f, lanes, row).Ok? <==> row.step != ""
    ensures row.step != "" ==> Again(f, lanes, row) == Ok(RowParsed(f, row))
  {
    if row.step != "" {
      ReadBackIsBuilt(f, lanes, r, row);
      ReadBackWrites(f, lanes, r, row);
    }
  }

  /** The row of a request, given what its body, lane and key come to. */
  function RowFor(f: Formats, r: Request, body: (Option<Bytes>, bool), code: int, key: Option<string>): RequestRow
    requires r.step.NameOf?
  {
    RequestRow(
      if r.archive then Archive else if r.nonnavigating then NonNavigating else Navigating,
      r.http.verb, Folded(f.urls, r.http.url, r.http.params), r.http.headers, r.http.cookies, body.0, body.1, r.step.name,
      r.currentLocation, Some(r.accumulated), Some(r.permanent), if r.archive then r.expectedType else None,
      r.isSpeculative, r.trackingId, r.speculativeIndex, r.http.verification,
      if r.via.Some? then Some(f.viaText(r.via.value)) else None,
      code, r.http.timeout, r.http.json, r.reseedable, EffectivePriority(r), key, None)
  }

  lemma PayloadParts(f: Formats, lanes: seq<string>, r: Request)
    ensures InsertPayload(f, lanes, r).Ok? <==>
              r.step.NameOf? && EncodeBody(f, r.http.data).Ok? && Lanes.Encode(lanes, r.rateLimit).Ok? && EffectiveKey(f, r).Ok?
    ensures InsertPayload(f, lanes, r).Ok? ==>
              InsertPayload(f, lanes, r).value ==
              RowFor(f, r, EncodeBody(f, r.http.data).value, Lanes.Encode(lanes, r.rateLimit).value, EffectiveKey(f, r).value)
  {
  }

  /** What is read back of a row, but for its dictionaries. */
  predicate Restores(row: RequestRow, x: Request) {
    && x.step == NameOf(row.step) && x.http.verb == row.verb && x.http.url == row.url && x.http.params == NoParams
    && x.http.json == ReadJson(row.json) && x.http.timeout == ReadJson(row.timeout)
    && x.http.verification == Parsed(row.verification) && x.currentLocation == row.currentLocation
    && x.accumulated == Parsed(GetOr(row.accumulated, Object([]))) && x.priority == Some(row.priority)
    && x.key == (if row.key.Some? then Text(row.key.value) else Skip) && x.reseedable == row.reseedable
    && x.isSpeculative == row.isSpeculative && x.trackingId == row.trackingId && x.speculativeIndex == row.speculativeIndex
    && x.archive == row.requestType.Archive? && x.nonnavigating == row.requestType.NonNavigating?
    && x.expectedType == if row.requestType.Archive? then row.expectedType else None
  }

  predicate SameDictionaries(r: Request, x: Request) {
    && x.http.headers == r.http.headers && x.http.cookies == r.http.cookies
    && x.permanent == Permanent(r.permanent.headers, r.permanent.cookies, Parsed(r.permanent.rest))
  }

  lemma ReadBackRestores(f: Formats, lanes: seq<string>, row: RequestRow)
    requires ReadBack(f, lanes, row).Ok?
    ensures var x := ReadBack(f, lanes, row).value;
            && Restores(row, x)
            && DecodeBody(f, row.body, row.bodyIsForm) == Ok(x.http.data) && DecodeVia(f, row.via) == Ok(x.via)
            && Lanes.Decode(lanes, row.rateLimit) == Ok(x.rateLimit)
  {
  }

  /** The parts of the row read back come to the same body, lane and key. */
  lemma PartsAgain(f: Formats, lanes: seq<string>, r: Request, row: RequestRow)
    requires f.Sound() && LaneTable(lanes) && WrittenBy(f, lanes, r, row) && ReadBack(f, lanes, row).Ok?
    ensures var x := ReadBack(f, lanes, row).value;
            && x.via == r.via
            && EncodeBody(f, x.http.data) == Ok((ParsedBody(f, row.body, row.bodyIsForm), row.bodyIsForm))
            && Lanes.Encode(lanes, x.rateLimit) == Ok(row.rateLimit) && EffectiveKey(f, x) == Ok(row.key)
  {
    PayloadParts(f, lanes, r);
    ReadBackRestores(f, lanes, row);
    BodyAgain(f, r.http.data);
    LaneAgain(lanes, r.rateLimit);
  }

  lemma ReadBackWrites(f: Formats, lanes: seq<string>, r: Request, row: RequestRow)
    requires f.Sound() && LaneTable(lanes) && WrittenBy(f, lanes, r, row) && ReadBack(f, lanes, row).Ok?
    requires SameDictionaries(r, ReadBack(f, lanes, row).value)
    ensures var payload := InsertPayload(f, lanes, ReadBack(f, lanes, row).value);
            payload.Ok? && payload.value.(parent := row.parent) == RowParsed(f, row)
  {
    var x := ReadBack(f, lanes, row).value;
    PayloadParts(f, lanes, r);
    ReadBackRestores(f, lanes, row);
    PartsAgain(f, lanes, r, row);
    PayloadParts(f, lanes, x);
  }

  lemma ParsedBodyTwice(f: Formats, data: Data)
    requires f.Sound() && EncodeBody(f, data).Ok?
    ensures var (body, isForm) := EncodeBody(f, data).value;
            ParsedBody(f, ParsedBody(f, body, isForm), isForm) == ParsedBody(f, body, isForm)
  {
    if data.Form? {
      ParsedTwice(data.form);
    }
  }

  /** A second reading changes nothing more. */
  lemma RowParsedTwice(f: Formats, lanes: seq<string>, r: Request, row: RequestRow)
    requires f.Sound() && WrittenBy(f, lanes, r, row)
    ensures RowParsed(f, RowParsed(f, row)) == RowParsed(f, row)
  {
    ParsedBodyTwice(f, r.http.data);
    ParsedTwice(r.http.verification);
    ParsedTwice(r.accumulated);
    ParsedTwice(r.permanent.rest);
    if r.http.json.Some? { ParsedTwice(r.http.json.value); }
    if r.http.timeout.Some? { ParsedTwice(r.http.timeout.value); }
  }

  /** Every request reaches a fixed point after one trip. */
  lemma FixedPointAfterOneTrip(f: Formats, lanes: seq<string>, r: Request, row: RequestRow)
    requires f.Sound() && LaneTable(lanes) && WrittenBy(f, lanes, r, row) && row.step != ""
    ensures Again(f, lanes, row).Ok?
    ensures Again(f, lanes, Again(f, lanes, row).value) == Again(f, lanes, row)
  {
    TripParsesTheRow(f, lanes, r, row);
    RowParsedTwice(f, lanes, r, row);
    ReadBackIsBuilt(f, lanes, r, row);
    var x := ReadBack(f, lanes, row).value;
    TripParsesTheRow(f, lanes, x, RowParsed(f, row));
  }

  /** No JSON the request carries names a member twice. */
  predicate NothingRepeats(r: Request) {
    && NoRepeats(r.http.verification) && NoRepeats(r.accumulated) && NoRepeats(r.permanent.rest)
    && (r.http.json.Some? ==> NoRepeats(r.http.json.value))
    && (r.http.timeout.Some? ==> NoRepeats(r.http.timeout.value))
    && (r.http.data.Form? && !Empty(r.http.data.form) ==> NoRepeats(r.http.data.form))
  }

  lemma JsonColumnFixed(t: Option<Json>)
    ensures ReadJson(t) == t <==> (t.Some? ==> NoRepeats(t.value))
  {
    if t.Some? {
      ParsedFixedPoint(t.value);
    }
  }

  lemma BodyColumnFixed(f: Formats, data: Data)
    requires f.Sound() && EncodeBody(f, data).Ok?
    ensures var (body, isForm) := EncodeBody(f, data).value;
            ParsedBody(f, body, isForm) == body <==> (data.Form? && !Empty(data.form) ==> NoRepeats(data.form))
  {
    if data.Form? {
      ParsedFixedPoint(data.form);
    }
  }

  lemma RowParsedFixed(f: Formats, r: Request, code: int, key: Option<string>, parent: Option<nat>)
    requires f.Sound() && r.step.NameOf? && EncodeBody(f, r.http.data).Ok?
    ensures var row := RowFor(f, r, EncodeBody(f, r.http.data).value, code, key).(parent := parent);
            RowParsed(f, row) == row <==> NothingRepeats(r)
  {
    ParsedFixedPoint(r.http.verification);
    ParsedFixedPoint(r.accumulated);
    ParsedFixedPoint(r.permanent.rest);
    JsonColumnFixed(r.http.json);
    JsonColumnFixed(r.http.timeout);
    BodyColumnFixed(f, r.http.data);
  }

  /** And it is one from the start exactly when none of its dictionaries spells two
      keys alike. */
  lemma RowIsFixedPoint(f: Formats, lanes: seq<string>, r: Request, row: RequestRow)
    requires f.Sound() && LaneTable(lanes) && WrittenBy(f, lanes, r, row) && row.step != ""
    ensures Again(f, lanes, row) == Ok(row) <==> NothingRepeats(r)
  {
    TripParsesTheRow(f, lanes, r, row);
    PayloadParts(f, lanes, r);
    RowParsedFixed(f, r, row.rateLimit, row.key, row.parent);
  }

  /** What a row says of the request it was written from. */
  lemma RowTells(f: Formats, lanes: seq<string>, r: Request)
    requires LaneTable(lanes) && InsertPayload(f, lanes, r).Ok?
    ensures var row := InsertPayload(f, lanes, r).value;
            && r.step == NameOf(row.step)
            && (row.requestType == Archive <==> r.archive) && (row.requestType == NonNavigating <==> r.nonnavigating && !r.archive)
            && row.expectedType == (if r.archive then r.expectedType else None)
            && row.verb == r.http.verb && Carries(f.urls, r.http.url, r.http.params, row.url)
            && row.headers == r.http.headers && row.cookies == r.http.cookies && row.permanent == Some(r.permanent)
            && row.json == r.http.json && row.timeout == r.http.timeout && row.verification == r.http.verification
            && row.currentLocation == r.currentLocation && row.accumulated == Some(r.accumulated)
            && (r.http.data.Raw? ==> row.body == Some(r.http.data.bytes)) && (r.http.data.Stream? ==> row.body == Some(r.http.data.rest))
            && (row.bodyIsForm <==> r.http.data.Form? && r.http.data.form != List([]) && r.http.data.form != Object([]))
            && (row.bodyIsForm ==> row.body == Some(f.dumps(r.http.data.form)))
            && (row.body.None? <==> r.http.data.NoData? || (r.http.data.Form? && !row.bodyIsForm))
            && 0 <= row.rateLimit < |lanes| && lanes[row.rateLimit] == GetOr(r.rateLimit, "default")
            && row.via == (if r.via.Some? then Some(f.viaText(r.via.value)) else None)
            && row.reseedable == r.reseedable && row.isSpeculative == r.isSpeculative
            && row.trackingId == r.trackingId && row.speculativeIndex == r.speculativeIndex
            && row.priority == (if r.priority.Some? then r.priority.value else 9)
            && row.key == (match r.key case Unset => Some(f.hash(r.http)) case Text(key) => Some(key) case _ => None)
            && row.parent.None?
  {
    FoldedCarries(f.urls, r.http.url, r.http.params);
    PayloadParts(f, lanes, r);
    assert lanes[0] == lanes[..2][0];
  }

  /** Building any request from its parts makes it such a writer; a priority not asked for
      is 9, and of an archive request 1. */
  lemma BuiltRequestsWrite(f: Formats, lanes: seq<string>, r: Request, parent: Option<nat>)
    requires Typed(r) && InsertPayload(f, lanes, Constructed(f, r)).Ok?
    ensures InsertPayload(f, lanes, Constructed(f, r)).value.priority ==
            if r.priority.Some? then r.priority.value else if r.archive then 1 else 9
    ensures WrittenBy(f, lanes, Constructed(f, r), InsertPayload(f, lanes, Constructed(f, r)).value.(parent := parent))
  {
    ConstructedAgain(f, r);
  }

  /** What is refused at enqueue, and nothing else: a step without a name, a body that
      cannot be read again, a lane the scraper does not declare, a key of another type. */
  lemma RefusedAtEnqueue(f: Formats, lanes: seq<string>, r: Request)
    requires LaneTable(lanes)
    ensures InsertPayload(f, lanes, r).Err? <==>
              || r.step.Nameless?
              || (r.http.data.Stream? && !r.http.data.seekable)
              || (r.rateLimit.Some? && r.rateLimit.value !in lanes)
              || r.key.NotAString?
  {
  }

  // --- What comes back ----------------------------------------------------------------

  /** A body as it comes back: a stream as its bytes, an empty form as none. */
  function StoredData(data: Data): Data {
    match data
    case Stream(rest, _) => Raw(rest)
    case Form(form) => if Empty(form) then NoData else Form(Parsed(form))
    case _ => data
  }

  /** A request as it comes back from its row: the query in the URL, the effective
      priority and key made explicit, one type flag, the default lane unset; the rest
      its own. */
  function AsStored(f: Formats, r: Request): Request
    requires EffectiveKey(f, r).Ok? && r.step.NameOf?
  {
    var key := EffectiveKey(f, r).value;
    r.(http := r.http.(url := Folded(f.urls, r.http.url, r.http.params), params := NoParams, data := StoredData(r.http.data),
                       json := ReadJson(r.http.json), timeout := ReadJson(r.http.timeout),
                       verification := Parsed(r.http.verification)),
       accumulated := Parsed(r.accumulated),
       permanent := r.permanent.(rest := Parsed(r.permanent.rest)),
       priority := Some(EffectivePriority(r)),
       key := if key.Some? then Text(key.value) else Skip,
       rateLimit := if r.rateLimit == Some(Lanes.DEFAULT_RATE_LIMIT) then None else r.rateLimit,
       nonnavigating := r.nonnavigating && !r.archive,
       expectedType := if r.archive then r.expectedType else None)
  }

  lemma StoredDataComesBack(f: Formats, data: Data)
    requires f.Sound() && (data.Form? ==> FormTyped(data.form)) && EncodeBody(f, data).Ok?
    ensures var (body, isForm) := EncodeBody(f, data).value; DecodeBody(f, body, isForm) == Ok(StoredData(data))
  {
    if data.Form? && !Empty(data.form) {
      FormComesBack(f, data.form);
    }
  }

  /** The worker gets back the request that was enqueued. */
  lemma RequestComesBack(f: Formats, lanes: seq<string>, r: Request, row: RequestRow)
    requires f.Sound() && LaneTable(lanes) && WrittenBy(f, lanes, r, row) && row.step != ""
    ensures EffectiveKey(f, r).Ok? && r.step.NameOf?
    ensures Deserialized(f, lanes, row) == Ok(AsStored(f, r))
    ensures var x := Deserialized(f, lanes, row).value;
            && Carries(f.urls, r.http.url, r.http.params, x.http.url) && x.http.params == NoParams
            && x.priority == Some(if r.priority.Some? then r.priority.value else if r.archive then 1 else 9)
            && (r.key == Unset ==> x.key == Text(f.hash(r.http)))
            && (r.key != Unset ==> x.key == r.key)
  {
    FoldedCarries(f.urls, r.http.url, r.http.params);
    PayloadParts(f, lanes, r);
    ReadBackIsBuilt(f, lanes, r, row);
    ReadBackRestores(f, lanes, row);
    StoredDataComesBack(f, r.http.data);
    Lanes.DecodeEncode(lanes, r.rateLimit);
    RestoredIsStored(f, r, ReadBack(f, lanes, row).value, row);
  }

  lemma RestoredIsStored(f: Formats, r: Request, x: Request, row: RequestRow)
    requires r.step.NameOf? && EffectiveKey(f, r) == Ok(row.key)
    requires row == RowFor(f, r, (row.body, row.bodyIsForm), row.rateLimit, row.key).(parent := row.parent)
    requires Restores(row, x) && SameDictionaries(r, x) && x.via == r.via && x.http.data == StoredData(r.http.data)
    requires x.rateLimit == if r.rateLimit == Some(Lanes.DEFAULT_RATE_LIMIT) then None else r.rateLimit
    ensures x == AsStored(f, r)
  {
  }
}
