/** Percent-encoding normal forms: `_requote_uri` and `_encode_query_bytes`.

    Each source loop is a method here, proved equal to a one-pass function.  The
    theorems are about those functions: what they decode to, which outputs are
    canonical, and that the fixed points are exactly the canonical texts. */
module PercentEncoding {

  type Byte = b: int | 0 <= b < 256

  // --- Character classes -----------------------------------------------------

  predicate IsHex(c: char) {
    '0' <= c <= '9' || 'a' <= c <= 'f' || 'A' <= c <= 'F'
  }

  function HexValue(c: char): (v: int)
    requires IsHex(c)
    ensures 0 <= v < 16
  {
    if c <= '9' then c as int - '0' as int
    else if c <= 'F' then c as int - 'A' as int + 10
    else c as int - 'a' as int + 10
  }

  /** The upper-case hexadecimal digit, as `%02X` prints it. */
  function HexDigit(v: int): (c: char)
    requires 0 <= v < 16
    ensures IsHex(c) && HexValue(c) == v && c <= 'F'
  {
    if v < 10 then (v + '0' as int) as char else (v - 10 + 'A' as int) as char
  }

  /** The unreserved set, section 2.3 of RFC 3986. */
  predicate Unreserved(c: char) {
    'A' <= c <= 'Z' || 'a' <= c <= 'z' || '0' <= c <= '9' || '-' <= c <= '.' || c == '_' || c == '~'
  }

  /** The reserved set (gen-delims and sub-delims), section 2.2 of RFC 3986. */
  predicate Reserved(c: char) {
    || c == '!' || '#' <= c <= '$' || '&' <= c <= ',' || c == '/' || ':' <= c <= ';'
    || c == '=' || '?' <= c <= '@' || c == '[' || c == ']'
  }

  /** What `quote` leaves raw. */
  predicate QuoteSafe(c: char) {
    Unreserved(c) || Reserved(c) || c == '%'
  }

  /** The three classes, spelled as RFC 3986 and the source spell them. */
  lemma CharacterClasses(c: char)
    ensures Unreserved(c) <==> 'A' <= c <= 'Z' || 'a' <= c <= 'z' || c in "0123456789-._~"
    ensures Reserved(c) <==> c in ":/?#[]@" + "!$&'()*+,;="
    ensures QuoteSafe(c) <==> Unreserved(c) || c in "!#$%&'()*+,/:;=?@[]~"
  {
  }

  /** And the digits, each at its value. */
  lemma HexDigits(c: char)
    ensures IsHex(c) <==> c in "0123456789" || c in "abcdef" || c in "ABCDEF"
    ensures '0' <= c <= '9' ==> "0123456789"[HexValue(c)] == c
    ensures 'a' <= c <= 'f' ==> HexValue(c) >= 10 && "abcdef"[HexValue(c) - 10] == c
    ensures 'A' <= c <= 'F' ==> HexValue(c) >= 10 && "ABCDEF"[HexValue(c) - 10] == c
  {
  }

  /** UTF-8, as `quote` encodes a character before escaping its bytes. */
  function Utf8(c: char): (bs: seq<Byte>)
    ensures |bs| >= 1
    ensures c as int < 0x80 ==> bs == [c as int]
    ensures c as int >= 0x80 ==> forall i :: 0 <= i < |bs| ==> bs[i] >= 0x80
  {
    var n := c as int;
    if n < 0x80 then [n]
    else if n < 0x800 then [0xC0 + n / 64, 0x80 + n % 64]
    else if n < 0x1_0000 then [0xE0 + n / 4096, 0x80 + n / 64 % 64, 0x80 + n % 64]
    else [0xF0 + n / 262144, 0x80 + n / 4096 % 64, 0x80 + n / 64 % 64, 0x80 + n % 64]
  }

  /** How long the sequence is that a lead byte starts; 0 for a byte that starts none. */
  function Utf8Length(lead: Byte): nat {
    if lead < 0x80 then 1
    else if lead < 0xC0 then 0
    else if lead < 0xE0 then 2
    else if lead < 0xF0 then 3
    else if lead < 0xF8 then 4
    else 0
  }

  /** The number whose bits a sequence carries: those of the lead byte after its marker,
      then six of each continuation byte. */
  function CodePoint(bs: seq<Byte>): int
    requires bs != []
  {
    if |bs| > 1 then CodePoint(bs[..|bs| - 1]) * 64 + (bs[|bs| - 1] as int - 0x80)
    else if bs[0] < 0x80 then bs[0]
    else if bs[0] < 0xE0 then bs[0] as int - 0xC0
    else if bs[0] < 0xF0 then bs[0] as int - 0xE0
    else bs[0] as int - 0xF0
  }

  lemma CodePointAppend(bs: seq<Byte>, b: Byte)
    requires bs != []
    ensures CodePoint(bs + [b]) == CodePoint(bs) * 64 + (b as int - 0x80)
  {
    assert (bs + [b])[..|bs|] == bs;
  }

  lemma SixBits(n: nat, bs: seq<Byte>)
    requires bs != [] && CodePoint(bs) == n / 64
    ensures CodePoint(bs + [0x80 + n % 64]) == n
  {
    CodePointAppend(bs, 0x80 + n % 64);
  }

  lemma CodePointOfUtf8(c: char)
    ensures CodePoint(Utf8(c)) == c as int
  {
    var n := c as int;
    if n >= 0x1_0000 {
      var lead: seq<Byte> := [0xF0 + n / 262144];
      SixBits(n / 4096, lead);
      SixBits(n / 64, lead + [0x80 + n / 4096 % 64]);
      SixBits(n, lead + [0x80 + n / 4096 % 64] + [0x80 + n / 64 % 64]);
      assert Utf8(c) == lead + [0x80 + n / 4096 % 64] + [0x80 + n / 64 % 64] + [0x80 + n % 64];
    } else if n >= 0x800 {
      var lead: seq<Byte> := [0xE0 + n / 4096];
      SixBits(n / 64, lead);
      SixBits(n, lead + [0x80 + n / 64 % 64]);
      assert Utf8(c) == lead + [0x80 + n / 64 % 64] + [0x80 + n % 64];
    } else if n >= 0x80 {
      SixBits(n, [0xC0 + n / 64]);
    }
  }

  /** UTF-8 is the shortest sequence whose bits are the character, as long as its lead
      byte says. */
  lemma Utf8IsTheCharacter(c: char)
    ensures CodePoint(Utf8(c)) == c as int
    ensures |Utf8(c)| == Utf8Length(Utf8(c)[0])
    ensures forall i :: 0 < i < |Utf8(c)| ==> 0x80 <= Utf8(c)[i] < 0xC0
    ensures |Utf8(c)| == if c as int < 0x80 then 1 else if c as int < 0x800 then 2 else if c as int < 0x1_0000 then 3 else 4
  {
    CodePointOfUtf8(c);
  }

  // --- Escapes ---------------------------------------------------------------

  predicate StartsEscape(s: string) {
    |s| >= 3 && s[0] == '%' && IsHex(s[1]) && IsHex(s[2])
  }

  function EscapedByte(s: string): Byte
    requires StartsEscape(s)
  {
    16 * HexValue(s[1]) + HexValue(s[2])
  }

  function Escape(b: Byte): (e: string)
    ensures StartsEscape(e) && |e| == 3 && EscapedByte(e) == b
  {
    ['%', HexDigit(b / 16), HexDigit(b % 16)]
  }

  function Escapes(bs: seq<Byte>): string {
    if bs == [] then "" else Escape(bs[0]) + Escapes(bs[1..])
  }

  /** A text is read unit by unit: a valid escape, or one character. */
  function UnitLength(s: string): (n: nat)
    requires s != ""
    ensures 1 <= n <= |s|
  {
    if StartsEscape(s) then 3 else 1
  }

  function UnitBytes(s: string): seq<Byte>
    requires s != ""
  {
    if StartsEscape(s) then [EscapedByte(s)] else Utf8(s[0])
  }

  /** The bytes a text stands for: a valid escape is its byte, every other
      character - a stray '%' included - is itself in UTF-8. */
  function Decode(s: string): seq<Byte> {
    if s == "" then [] else UnitBytes(s) + Decode(s[UnitLength(s)..])
  }

  function UnitDelimiter(s: string): string
    requires s != ""
  {
    if !StartsEscape(s) && Reserved(s[0]) then [s[0]] else ""
  }

  /** The raw reserved delimiters of a text, in order. */
  function Delimiters(s: string): string {
    if s == "" then "" else UnitDelimiter(s) + Delimiters(s[UnitLength(s)..])
  }

  /** An escape that hides no unreserved character, or a raw character other
      than '%' that needs no quoting. */
  predicate UnitCanonical(s: string)
    requires s != ""
  {
    if StartsEscape(s) then !Unreserved(EscapedByte(s) as char) else s[0] != '%' && QuoteSafe(s[0])
  }

  /** The normal form. */
  predicate Canonical(s: string) {
    s == "" || (UnitCanonical(s) && Canonical(s[UnitLength(s)..]))
  }

  /** One unit of a well-formed text: a raw character or an escape. */
  predicate IsUnit(e: string) {
    if |e| == 1 then e[0] != '%' else |e| == 3 && StartsEscape(e)
  }

  // --- _requote_uri ----------------------------------------------------------

  function UnescapedUnit(u: string): string
    requires u != ""
  {
    if StartsEscape(u) then (if Unreserved(EscapedByte(u) as char) then [EscapedByte(u) as char] else u[..3])
    else if u[0] == '%' then "%25"
    else [u[0]]
  }

  function Unescaped(u: string): string {
    if u == "" then "" else UnescapedUnit(u) + Unescaped(u[UnitLength(u)..])
  }

  function Quoted(c: char): string {
    if QuoteSafe(c) then [c] else Escapes(Utf8(c))
  }

  function Quote(s: string): string {
    if s == "" then "" else Quoted(s[0]) + Quote(s[1..])
  }

  function RequotedUnit(u: string): string
    requires u != ""
  {
    if StartsEscape(u) || u[0] == '%' then UnescapedUnit(u) else Quoted(u[0])
  }

  /** `_requote_uri` read off in one pass, without its intermediate text. */
  function Requoted(u: string): string {
    if u == "" then "" else RequotedUnit(u) + Requoted(u[UnitLength(u)..])
  }

  lemma QuoteAppend(a: string, b: string)
    ensures Quote(a + b) == Quote(a) + Quote(b)
  {
    if a == "" {
      assert a + b == b;
    } else {
      assert (a + b)[1..] == a[1..] + b;
      QuoteAppend(a[1..], b);
    }
  }

  lemma QuoteOne(c: char)
    ensures Quote([c]) == Quoted(c)
  {
  }

  lemma {:induction false} QuoteOfSafe(s: string)
    requires forall c :: c in s ==> QuoteSafe(c)
    ensures Quote(s) == s
  {
    if s != "" {
      QuoteOfSafe(s[1..]);
    }
  }

  lemma QuoteOfUnit(u: string)
    requires u != ""
    ensures Quote(UnescapedUnit(u)) == RequotedUnit(u)
  {
    if StartsEscape(u) || u[0] == '%' {
      QuoteOfSafe(UnescapedUnit(u));
    } else {
      QuoteOne(u[0]);
    }
  }

  /** The source's two passes - unescape, then quote - are one pass. */
  lemma {:induction false} TwoPassesAreOne(u: string)
    ensures Quote(Unescaped(u)) == Requoted(u)
  {
    if u == "" {
    } else {
      var tail := u[UnitLength(u)..];
      TwoPassesAreOne(tail);
      QuoteAppend(UnescapedUnit(u), Unescaped(tail));
      QuoteOfUnit(u);
    }
  }

  method QuoteText(s: string) returns (out: string)
    ensures out == Quote(s)
  {
    out := "";
    for i := 0 to |s|
      invariant out == Quote(s[..i])
    {
      assert s[..i + 1] == s[..i] + [s[i]];
      QuoteAppend(s[..i], [s[i]]);
      QuoteOne(s[i]);
      out := out + Quoted(s[i]);
    }
    assert s[..|s|] == s;
  }

  predicate EscapeAt(uri: string, i: nat) {
    i + 2 < |uri| && uri[i] == '%' && IsHex(uri[i + 1]) && IsHex(uri[i + 2])
  }

  /** What the loop appends at `i`. */
  function UnescapedAt(uri: string, i: nat): string
    requires i < |uri|
  {
    if EscapeAt(uri, i) then
      var decoded := (16 * HexValue(uri[i + 1]) + HexValue(uri[i + 2])) as char;
      if Unreserved(decoded) then [decoded] else uri[i..i + 3]
    else if uri[i] == '%' then "%25"
    else [uri[i]]
  }

  lemma UnescapedStep(out: string, uri: string, i: nat)
    requires i < |uri|
    ensures var n := if EscapeAt(uri, i) then 3 else 1;
            out + Unescaped(uri[i..]) == out + UnescapedAt(uri, i) + Unescaped(uri[i + n..])
  {
  }

  method RequoteUri(uri: string) returns (r: string)
    ensures r == Requoted(uri)
  {
    var out := "";
    var i := 0;
    assert uri[0..] == uri;
    while i < |uri|
      invariant 0 <= i <= |uri|
      invariant Unescaped(uri) == out + Unescaped(uri[i..])
    {
      UnescapedStep(out, uri, i);
      if uri[i] == '%' {
        if i + 3 <= |uri| && IsHex(uri[i + 1]) && IsHex(uri[i + 2]) {
          var decoded := (16 * HexValue(uri[i + 1]) + HexValue(uri[i + 2])) as char;
          if Unreserved(decoded) {
            out := out + [decoded];
          } else {
            out := out + uri[i..i + 3];
          }
          i := i + 3;
          continue;
        }
        out := out + "%25";
        i := i + 1;
        continue;
      }
      out := out + [uri[i]];
      i := i + 1;
    }
    assert uri[i..] == "" && out == Unescaped(uri);
    TwoPassesAreOne(uri);
    r := QuoteText(out);
  }

  predicate NoneUnreserved(bs: seq<Byte>) {
    forall i :: 0 <= i < |bs| ==> !Unreserved(bs[i] as char)
  }

  /** Escaped bytes decode to themselves. */
  lemma {:induction false} EscapesDecode(bs: seq<Byte>, rest: string)
    ensures Decode(Escapes(bs) + rest) == bs + Decode(rest)
  {
    if bs == [] {
      assert Escapes(bs) + rest == rest;
    } else {
      var tail := Escapes(bs[1..]) + rest;
      assert Escapes(bs) + rest == Escape(bs[0]) + tail;
      EscapeThenRest(bs[0], tail);
      EscapesDecode(bs[1..], rest);
      Regroup(bs, Decode(rest));
    }
  }

  lemma Regroup(bs: seq<Byte>, rest: seq<Byte>)
    requires bs != []
    ensures [bs[0]] + (bs[1..] + rest) == bs + rest
  {
  }

  /** Escaped bytes carry no live delimiter, and are canonical when none of them
      is unreserved. */
  lemma {:induction false} EscapesCarryNothingLive(bs: seq<Byte>, rest: string)
    ensures Delimiters(Escapes(bs) + rest) == Delimiters(rest)
    ensures NoneUnreserved(bs) ==> (Canonical(Escapes(bs) + rest) <==> Canonical(rest))
  {
    if bs == [] {
      assert Escapes(bs) + rest == rest;
    } else {
      var tail := Escapes(bs[1..]) + rest;
      assert Escapes(bs) + rest == Escape(bs[0]) + tail;
      EscapeThenRest(bs[0], tail);
      EscapesCarryNothingLive(bs[1..], rest);
      assert NoneUnreserved(bs) ==> NoneUnreserved(bs[1..]) && !Unreserved(bs[0] as char);
    }
  }

  lemma EscapeThenRest(b: Byte, rest: string)
    ensures Decode(Escape(b) + rest) == [b] + Decode(rest)
    ensures Delimiters(Escape(b) + rest) == Delimiters(rest)
    ensures Canonical(Escape(b) + rest) <==> !Unreserved(b as char) && Canonical(rest)
  {
  }

  predicate NeedsQuoting(u: string)
    requires u != ""
  {
    !StartsEscape(u) && u[0] != '%' && !QuoteSafe(u[0])
  }

  lemma RequotedUnitKeepsUnit(u: string)
    requires u != "" && !NeedsQuoting(u)
    ensures var r := RequotedUnit(u);
            && IsUnit(r) && UnitCanonical(r)
            && UnitBytes(r) == UnitBytes(u) && UnitDelimiter(r) == UnitDelimiter(u)
  {
  }

  /** What one requoted unit contributes in front of any text. */
  lemma RequotedUnitThenRest(u: string, rest: string)
    requires u != ""
    ensures var r := RequotedUnit(u) + rest;
            && Decode(r) == UnitBytes(u) + Decode(rest)
            && Delimiters(r) == UnitDelimiter(u) + Delimiters(rest)
            && (Canonical(r) <==> Canonical(rest))
  {
    if NeedsQuoting(u) {
      EscapesDecode(Utf8(u[0]), rest);
      EscapesCarryNothingLive(Utf8(u[0]), rest);
    } else {
      RequotedUnitKeepsUnit(u);
    }
  }

  /** Requoting keeps the decoded bytes and the raw delimiters, in order - so an
      escaped delimiter never becomes live - and its output is canonical. */
  lemma {:induction false} RequotedMeansTheSame(u: string)
    ensures Decode(Requoted(u)) == Decode(u)
    ensures Delimiters(Requoted(u)) == Delimiters(u)
    ensures Canonical(Requoted(u))
  {
    if u == "" {
    } else {
      var tail := u[UnitLength(u)..];
      RequotedMeansTheSame(tail);
      RequotedUnitThenRest(u, Requoted(tail));
    }
  }

  lemma {:induction false} CanonicalIsFixed(u: string)
    requires Canonical(u)
    ensures Requoted(u) == u
  {
    if u == "" {
    } else {
      CanonicalIsFixed(u[UnitLength(u)..]);
      assert u == u[..UnitLength(u)] + u[UnitLength(u)..];
    }
  }

  /** The fixed points are exactly the canonical texts, so requoting twice is
      requoting once. */
  lemma RequotedFixedPoint(u: string)
    ensures Requoted(u) == u <==> Canonical(u)
    ensures Requoted(Requoted(u)) == Requoted(u)
  {
    RequotedMeansTheSame(u);
    CanonicalIsFixed(Requoted(u));
    if Canonical(u) {
      CanonicalIsFixed(u);
    }
  }

  /** A letter outside ASCII goes out as the escapes of its two bytes. */
  lemma AccentIsEscaped()
    ensures Requoted("\U{E9}") == "%C3%A9"
  {
    assert Utf8('\U{E9}') == [0xC3, 0xA9];
    assert Escapes([0xC3, 0xA9]) == Escape(0xC3) + Escapes([0xA9]);
    assert Escapes([0xA9]) == Escape(0xA9) + Escapes([]);
  }

  /** Requoting is not full RFC 3986 normalisation: the case of an escape
      (section 6.2.2.1) is kept, so two canonical texts can mean the same. */
  lemma EscapeCaseIsKept()
    ensures Requoted("%2f") == "%2f" && Requoted("%2F") == "%2F"
    ensures Decode("%2f") == Decode("%2F")
  {
  }

  // --- _encode_query_bytes ---------------------------------------------------

  predicate IsHexByte(b: Byte) {
    IsHex(b as char)
  }

  predicate StartsByteEscape(bs: seq<Byte>) {
    |bs| >= 3 && bs[0] == 0x25 && IsHexByte(bs[1]) && IsHexByte(bs[2])
  }

  function QueryUnitLength(bs: seq<Byte>): (n: nat)
    requires bs != []
    ensures 1 <= n <= |bs|
  {
    if StartsByteEscape(bs) then 3 else 1
  }

  function QueryUnitByte(bs: seq<Byte>): Byte
    requires bs != []
  {
    if StartsByteEscape(bs) then 16 * HexValue(bs[1] as char) + HexValue(bs[2] as char) else bs[0]
  }

  /** The lenient percent-decoding of a query: a stray '%' reads as itself. */
  function DecodeQuery(bs: seq<Byte>): seq<Byte> {
    if bs == [] then [] else [QueryUnitByte(bs)] + DecodeQuery(bs[QueryUnitLength(bs)..])
  }

  /** Bytes a query cannot carry raw: controls, space, DEL and above, '#'. */
  predicate Unsendable(b: Byte) {
    b <= 0x20 || b >= 0x7F || b == 0x23
  }

  /** A query the wire can carry: printable ASCII, no space, no '#', and every
      '%' starts an escape. */
  predicate Sendable(bs: seq<Byte>) {
    bs == [] || (QueryUnitSendable(bs) && Sendable(bs[QueryUnitLength(bs)..]))
  }

  predicate QueryUnitSendable(bs: seq<Byte>)
    requires bs != []
  {
    StartsByteEscape(bs) || !(bs[0] == 0x25 || Unsendable(bs[0]))
  }

  function ByteEscape(b: Byte): (e: seq<Byte>)
    ensures StartsByteEscape(e) && |e| == 3 && QueryUnitByte(e) == b
  {
    [0x25, HexDigit(b / 16) as int, HexDigit(b % 16) as int]
  }

  function EncodedQueryUnit(bs: seq<Byte>): seq<Byte>
    requires bs != []
  {
    if QueryUnitSendable(bs) then bs[..QueryUnitLength(bs)] else ByteEscape(bs[0])
  }

  function EncodedQuery(bs: seq<Byte>): seq<Byte> {
    if bs == [] then [] else EncodedQueryUnit(bs) + EncodedQuery(bs[QueryUnitLength(bs)..])
  }

  function Text(bs: seq<Byte>): string {
    seq(|bs|, i requires 0 <= i < |bs| => bs[i] as char)
  }

  predicate StartsEscapeAt(bs: seq<Byte>, i: nat) {
    i + 2 < |bs| && bs[i] == 0x25 && IsHexByte(bs[i + 1]) && IsHexByte(bs[i + 2])
  }

  /** What the loop appends at `i`. */
  function QueryUnitText(params: seq<Byte>, i: nat): string
    requires i < |params|
  {
    if StartsEscapeAt(params, i) then ['%', params[i + 1] as char, params[i + 2] as char]
    else if params[i] == 0x25 then "%25"
    else if Unsendable(params[i]) then Escape(params[i])
    else [params[i] as char]
  }

  lemma QueryUnitTextEncodes(params: seq<Byte>, i: nat)
    requires i < |params|
    ensures QueryUnitLength(params[i..]) == if StartsEscapeAt(params, i) then 3 else 1
    ensures Text(EncodedQueryUnit(params[i..])) == QueryUnitText(params, i)
  {
  }

  lemma EncodedQueryStep(out: string, params: seq<Byte>, i: nat)
    requires i < |params|
    ensures var n := if StartsEscapeAt(params, i) then 3 else 1;
            out + Text(EncodedQuery(params[i..]))
            == out + QueryUnitText(params, i) + Text(EncodedQuery(params[i + n..]))
  {
    var n := QueryUnitLength(params[i..]);
    var unit, tail := EncodedQueryUnit(params[i..]), EncodedQuery(params[i..][n..]);
    QueryUnitTextEncodes(params, i);
    assert params[i..][n..] == params[i + n..];
    assert Text(unit + tail) == Text(unit) + Text(tail);
    assert out + (Text(unit) + Text(tail)) == out + Text(unit) + Text(tail);
  }

  method EncodeQueryBytes(params: seq<Byte>) returns (out: string)
    ensures out == Text(EncodedQuery(params))
  {
    out := "";
    var i := 0;
    assert params[0..] == params;
    while i < |params|
      invariant 0 <= i <= |params|
      invariant Text(EncodedQuery(params)) == out + Text(EncodedQuery(params[i..]))
    {
      var byte := params[i];
      EncodedQueryStep(out, params, i);
      if byte == 0x25 {
        if i + 3 <= |params| && IsHexByte(params[i + 1]) && IsHexByte(params[i + 2]) {
          out := out + ['%', params[i + 1] as char, params[i + 2] as char];
          i := i + 3;
          continue;
        }
        out := out + "%25";
        i := i + 1;
        continue;
      }
      if Unsendable(byte) {
        out := out + Escape(byte);
      } else {
        out := out + [byte as char];
      }
      i := i + 1;
    }
  }

  lemma EncodedUnitThenRest(bs: seq<Byte>, rest: seq<Byte>)
    requires bs != []
    ensures var r := EncodedQueryUnit(bs) + rest;
            DecodeQuery(r) == [QueryUnitByte(bs)] + DecodeQuery(rest) && (Sendable(r) <==> Sendable(rest))
  {
  }

  /** Every query becomes sendable and keeps its lenient decoding. */
  lemma {:induction false} EncodedQueryMeansTheSame(bs: seq<Byte>)
    ensures DecodeQuery(EncodedQuery(bs)) == DecodeQuery(bs)
    ensures Sendable(EncodedQuery(bs))
  {
    if bs == [] {
    } else {
      var tail := bs[QueryUnitLength(bs)..];
      EncodedQueryMeansTheSame(tail);
      EncodedUnitThenRest(bs, EncodedQuery(tail));
    }
  }

  lemma {:induction false} SendableIsFixed(bs: seq<Byte>)
    requires Sendable(bs)
    ensures EncodedQuery(bs) == bs
  {
    if bs == [] {
    } else {
      var n := QueryUnitLength(bs);
      SendableIsFixed(bs[n..]);
      assert bs == bs[..n] + bs[n..];
    }
  }

  /** The encoder's fixed points are exactly the sendable queries; so a second
      encoding changes nothing. */
  lemma {:induction false} EncodedQueryFixedPoint(bs: seq<Byte>)
    ensures EncodedQuery(bs) == bs <==> Sendable(bs)
    ensures EncodedQuery(EncodedQuery(bs)) == EncodedQuery(bs)
  {
    EncodedQueryMeansTheSame(bs);
    SendableIsFixed(EncodedQuery(bs));
    if Sendable(bs) {
      SendableIsFixed(bs);
    }
  }

  /** What `Sendable` says byte by byte. */
  lemma {:induction false} SendableBytes(bs: seq<Byte>, i: nat)
    requires Sendable(bs) && i < |bs|
    ensures 0x20 < bs[i] < 0x7F && bs[i] != 0x23
    ensures bs[i] == 0x25 ==> StartsEscapeAt(bs, i)
  {
    var n := QueryUnitLength(bs);
    if i >= n {
      SendableBytes(bs[n..], i - n);
      assert StartsEscapeAt(bs[n..], i - n) ==> StartsEscapeAt(bs, i);
    } else if i > 0 {
      assert IsHexByte(bs[i]);
    }
  }
}
