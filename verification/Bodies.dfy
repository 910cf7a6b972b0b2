/** Stored bodies and the dictionaries they are compressed with.

    zstd is a pair of partial functions: None stands for an exception.  Rows and
    dictionaries are sequences, an id being a position. */
module Bodies {
  import opened Wrappers

  type Bytes = seq<bv8>

  /** Compression and decompression, each with or without a dictionary. */
  datatype Codec = Codec(
    compress: (Option<Bytes>, Bytes) -> Option<Bytes>,
    decompress: (Option<Bytes>, Bytes) -> Option<Bytes>)
  {
    /** What compresses comes back under the same dictionary. */
    ghost predicate Sound() {
      forall d, x :: compress(d, x).Some? ==> decompress(d, compress(d, x).value) == Some(x)
    }

    /** No frame is empty. */
    ghost predicate Framed() {
      forall d, x :: compress(d, x).Some? ==> compress(d, x).value != []
    }
  }

  /** A dictionary row; immutable once written. */
  datatype Dictionary = Dictionary(step: string, version: nat, data: Bytes)

  /** The response columns of a request row. */
  datatype BodyRow = BodyRow(
    step: string,
    responded: bool,
    content: Option<Bytes>,
    dictId: Option<nat>,
    stamp: Option<int>,
    sizeOriginal: Option<nat>,
    sizeCompressed: Option<nat>)

  predicate StoredBody(row: BodyRow, step: string) {
    row.step == step && row.responded && row.content.Some?
  }

  /** A stored body of the step not yet on the dictionary; no dictionary is off it. */
  predicate OffDictionary(row: BodyRow, step: string, target: nat) {
    StoredBody(row, step) && row.dictId != Some(target)
  }

  /** The dictionary with an id, or None: not recorded, or not found. */
  function DataOf(dictionaries: seq<Dictionary>, id: Option<nat>): Option<Bytes> {
    if id.Some? && id.value < |dictionaries| then Some(dictionaries[id.value].data) else None
  }

  /** `decompress_response`: a recorded dictionary that is missing is an error. */
  function Decoded(codec: Codec, dictionaries: seq<Dictionary>, row: BodyRow): Option<Bytes> {
    if row.content.None? || (row.dictId.Some? && row.dictId.value >= |dictionaries|) then None
    else codec.decompress(DataOf(dictionaries, row.dictId), row.content.value)
  }

  /** A body decompressed with its old dictionary, and compressed with a new one. */
  datatype Recoded = Recoded(plain: Bytes, compressed: Bytes)

  function Recode(codec: Codec, source: Option<Bytes>, target: Bytes, content: Bytes): Option<Recoded> {
    var plain := codec.decompress(source, content);
    if plain.None? then None
    else
      var compressed := codec.compress(Some(target), plain.value);
      if compressed.None? then None else Some(Recoded(plain.value, compressed.value))
  }

  function Rewritten(row: BodyRow, target: nat, r: Recoded): BodyRow {
    row.(content := Some(r.compressed), sizeOriginal := Some(|r.plain|), sizeCompressed := Some(|r.compressed|),
         dictId := Some(target))
  }

  /** What a stored response reads back as: no response, or one that cannot be decoded,
      or its content - NULL standing for an empty one. */
  datatype Loaded = NotStored | Undecodable | Content(bytes: Bytes)

  function LoadedFrom(codec: Codec, dictionaries: seq<Dictionary>, row: BodyRow): Loaded {
    if !row.responded then NotStored
    else if row.content.None? || row.content.value == [] then Content([])
    else
      var content := Decoded(codec, dictionaries, row);
      if content.None? then Undecodable else Content(content.value)
  }
}
