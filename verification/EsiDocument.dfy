/** Lossless parsing and editing of remote indexes. */
module EsiDocuments {
  import opened ByteStrings
  import opened EsiText
  import opened Utf8

  datatype MetaVersion = V1 | V2
  datatype Entry = Entry(indexChecksum: Checksum, packChecksum: Checksum, url: Bytes, packSize: Option<nat>, indexSize: Option<nat>)
  datatype LineKind = Meta | Url | Blank | EntryLine(entry: Entry)
  datatype Line = Line(content: Bytes, ending: Bytes, kind: LineKind)

  datatype FormatError =
    | MissingHeaders | InvalidUtf8 | ExpectedKey | TooManyValues | MissingValue | UnsupportedVersion
    | TooFewValues | BadChecksum | ChecksumLength | InvalidSize | EmptyValue | LiteralWhitespace
    | InvalidIndexUrl | InvalidPackUrl | DuplicateUrl | AlreadyExists | DoesNotExist | MissingSize
  datatype Result<+T> = Ok(value: T) | Err(error: FormatError)

  /** What the URL library says: is this an absolute URL, and can that be joined to it. */
  datatype UrlRules = UrlRules(parses: Bytes -> bool, joins: (Bytes, Bytes) -> bool)

  // ---- Lines, one at a time --------------------------------------------------------------

  function ValidateFieldValue(value: Bytes): Result<()> {
    if value == [] then Err(EmptyValue) else if HasWhitespace(value) then Err(LiteralWhitespace) else Ok(())
  }

  function ValidateIndexUrl(urls: UrlRules, value: Bytes): Result<()> {
    if ValidateFieldValue(value).Err? then ValidateFieldValue(value)
    else if !urls.parses(value) then Err(InvalidIndexUrl) else Ok(())
  }

  /** "meta", "url", "v1" and "v2". */
  const META_KEY: Bytes := [0x6D, 0x65, 0x74, 0x61]
  const URL_KEY: Bytes := [0x75, 0x72, 0x6C]
  const VERSION_1: Bytes := [0x76, 0x31]
  const VERSION_2: Bytes := [0x76, 0x32]

  function Tokens(content: Bytes): Result<seq<Bytes>> {
    if IsText(content) then Ok(Fields(content)) else Err(InvalidUtf8)
  }

  function ParseHeader(content: Bytes, key: Bytes): Result<Bytes> {
    var fields := Tokens(content);
    if fields.Err? then Err(fields.error)
    else if fields.value == [] || fields.value[0] != key then Err(ExpectedKey)
    else if |fields.value| == 2 then Ok(fields.value[1])
    else if |fields.value| > 2 then Err(TooManyValues) else Err(MissingValue)
  }

  function MetaValue(meta: MetaVersion): Bytes { if meta.V1? then VERSION_1 else VERSION_2 }

  function ParseMeta(content: Bytes): Result<MetaVersion> {
    var value := ParseHeader(content, META_KEY);
    if value.Err? then Err(value.error)
    else if value.value == MetaValue(V1) then Ok(V1)
    else if value.value == MetaValue(V2) then Ok(V2)
    else Err(UnsupportedVersion)
  }

  function ParseUrl(urls: UrlRules, content: Bytes): Result<Bytes> {
    var value := ParseHeader(content, URL_KEY);
    if value.Ok? && ValidateIndexUrl(urls, value.value).Err? then Err(ValidateIndexUrl(urls, value.value).error) else value
  }

  function ParseChecksum(value: Bytes): Result<Checksum> {
    var decoded := HexDecode(value);
    if decoded.None? then Err(BadChecksum) else if |decoded.value| != 20 then Err(ChecksumLength) else Ok(decoded.value)
  }

  function ParseEntry(urls: UrlRules, content: Bytes, meta: MetaVersion, base: Bytes): Result<Entry> {
    var fields := Tokens(content);
    var expected := if meta.V1? then 3 else 5;
    if fields.Err? then Err(fields.error)
    else if |fields.value| < expected then Err(TooFewValues)
    else if |fields.value| > expected then Err(TooManyValues)
    else
      var f := fields.value;
      var index, pack := ParseChecksum(f[0]), ParseChecksum(f[1]);
      if index.Err? then Err(index.error)
      else if pack.Err? then Err(pack.error)
      else if ValidateFieldValue(f[2]).Err? then Err(ValidateFieldValue(f[2]).error)
      else if !urls.joins(base, f[2]) then Err(InvalidPackUrl)
      else if meta.V1? then Ok(Entry(index.value, pack.value, f[2], None, None))
      else if ParseU64(f[3]).None? || ParseU64(f[4]).None? then Err(InvalidSize)
      else Ok(Entry(index.value, pack.value, f[2], ParseU64(f[3]), ParseU64(f[4])))
  }

  /** canonical_line. */
  function CanonicalLine(e: Entry, meta: MetaVersion): Result<Bytes> {
    var line := HexEncode(e.indexChecksum) + [TAB] + (HexEncode(e.packChecksum) + [TAB] + e.url);
    if ValidateFieldValue(e.url).Err? then Err(ValidateFieldValue(e.url).error)
    else if meta.V1? then Ok(line)
    else if e.packSize.None? || e.indexSize.None? then Err(MissingSize)
    else Ok(HexEncode(e.indexChecksum) + [TAB] + (HexEncode(e.packChecksum) + [TAB] + (e.url + [TAB]
              + (Decimal(e.packSize.value) + [TAB] + Decimal(e.indexSize.value)))))
  }

  /** What a document of this version keeps of an entry. */
  function Stored(e: Entry, meta: MetaVersion): Entry {
    if meta.V1? then e.(packSize := None, indexSize := None) else e
  }

  /** What the types promise: the URL is a string, the sizes are 64-bit numbers. */
  ghost predicate Typed(e: Entry) {
    && IsText(e.url)
    && (e.packSize.Some? ==> e.packSize.value < U64_LIMIT) && (e.indexSize.Some? ==> e.indexSize.value < U64_LIMIT)
  }

  // ---- Canonical lines read back -----------------------------------------------------------

  predicate Plain(s: Bytes) { forall i :: 0 <= i < |s| ==> 0x21 <= s[i] <= 0x7E }

  lemma {:induction false} HexPlain(s: Bytes)
    ensures Plain(HexEncode(s))
  {
    if s != [] { HexPlain(s[1..]); }
  }

  /** A field that can stand in a line. */
  ghost predicate Field(f: Bytes) { f != [] && IsText(f) && NoSeparator(f) && LF !in f && CR !in f }

  lemma PlainField(f: Bytes)
    requires f != [] && Plain(f)
    ensures Field(f)
  {
    AsciiIsText(f);
  }

  lemma UrlField(url: Bytes)
    requires IsText(url) && ValidateFieldValue(url).Ok?
    ensures Field(url)
  {
    forall k | 0 <= k < |url| ensures !IsSeparator(url[k]) && url[k] != LF && url[k] != CR {
      if url[k] <= 0x7F && IsWhitespace(url[k]) { AsciiWhitespace(url, k); }
    }
  }

  /** A line of fields with single tabs between them. */
  function Joined(fields: seq<Bytes>): Bytes
    requires fields != []
  {
    if |fields| == 1 then fields[0] else fields[0] + [TAB] + Joined(fields[1..])
  }

  lemma {:induction false} JoinedFields(fields: seq<Bytes>)
    requires fields != [] && forall i :: 0 <= i < |fields| ==> Field(fields[i])
    ensures var line := Joined(fields); Fields(line) == fields && IsText(line) && LF !in line && CR !in line && line != []
  {
    if |fields| == 1 {
      LastField(fields[0]);
    } else {
      JoinedFields(fields[1..]);
      FieldThen(fields[0], TAB, Joined(fields[1..]));
      AsciiIsText([TAB]);
      TextThen(fields[0], [TAB]);
      TextThen(fields[0] + [TAB], Joined(fields[1..]));
      assert fields == [fields[0]] + fields[1..];
    }
  }

  function CanonicalFields(e: Entry, meta: MetaVersion): seq<Bytes>
    requires meta.V2? ==> e.packSize.Some? && e.indexSize.Some?
  {
    [HexEncode(e.indexChecksum), HexEncode(e.packChecksum), e.url]
      + if meta.V1? then [] else [Decimal(e.packSize.value), Decimal(e.indexSize.value)]
  }

  lemma JoinedCons(f: Bytes, more: seq<Bytes>)
    requires more != []
    ensures Joined([f] + more) == f + [TAB] + Joined(more)
  {}

  lemma CanonicalIsJoined(e: Entry, meta: MetaVersion)
    requires CanonicalLine(e, meta).Ok?
    ensures ValidateFieldValue(e.url).Ok? && (meta.V2? ==> e.packSize.Some? && e.indexSize.Some?)
    ensures CanonicalLine(e, meta).value == Joined(CanonicalFields(e, meta))
  {
    var index, pack := HexEncode(e.indexChecksum), HexEncode(e.packChecksum);
    if meta.V1? {
      JoinedCons(pack, [e.url]);
      JoinedCons(index, [pack, e.url]);
      assert CanonicalFields(e, meta) == [index, pack, e.url];
    } else {
      var sizes := [Decimal(e.packSize.value), Decimal(e.indexSize.value)];
      JoinedCons(sizes[0], [sizes[1]]);
      JoinedCons(e.url, sizes);
      JoinedCons(pack, [e.url] + sizes);
      JoinedCons(index, [pack] + ([e.url] + sizes));
      assert CanonicalFields(e, meta) == [index] + ([pack] + ([e.url] + sizes));
    }
  }

  lemma CanonicalFieldsStand(e: Entry, meta: MetaVersion)
    requires IsText(e.url) && ValidateFieldValue(e.url).Ok? && (meta.V2? ==> e.packSize.Some? && e.indexSize.Some?)
    ensures forall i :: 0 <= i < |CanonicalFields(e, meta)| ==> Field(CanonicalFields(e, meta)[i])
  {
    hide Field;
    HexPlain(e.indexChecksum);
    HexPlain(e.packChecksum);
    PlainField(HexEncode(e.indexChecksum));
    PlainField(HexEncode(e.packChecksum));
    UrlField(e.url);
    if meta.V2? {
      PlainField(Decimal(e.packSize.value));
      PlainField(Decimal(e.indexSize.value));
    }
  }

  /** A canonical line parses to the entry it was made from. */
  lemma CanonicalParses(urls: UrlRules, e: Entry, meta: MetaVersion, base: Bytes)
    requires Typed(e) && CanonicalLine(e, meta).Ok? && urls.joins(base, e.url)
    ensures ParseEntry(urls, CanonicalLine(e, meta).value, meta, base) == Ok(Stored(e, meta))
    ensures var line := CanonicalLine(e, meta).value; LF !in line && CR !in line && !IsBlank(line) && line != []
  {
    hide Joined, HexEncode, HexDecode, Decimal, ParseU64, Fields, IsText, HasWhitespace, Field, IsBlank, CanonicalLine, ValidateFieldValue;
    CanonicalIsJoined(e, meta);
    CanonicalFieldsStand(e, meta);
    var f := CanonicalFields(e, meta);
    JoinedFields(f);
    BlankHasNoFields(Joined(f));
    HexRoundTrip(e.indexChecksum);
    HexRoundTrip(e.packChecksum);
    if meta.V2? {
      SizeRoundTrip(e.packSize.value);
      SizeRoundTrip(e.indexSize.value);
    }
  }

  // ---- Documents as values -------------------------------------------------------------------

  function RawOf(l: Line): Raw { Raw(l.content, l.ending) }
  function Raws(lines: seq<Line>): (r: seq<Raw>)
    ensures |r| == |lines| && forall i :: 0 <= i < |lines| ==> r[i] == RawOf(lines[i])
  {
    seq(|lines|, i requires 0 <= i < |lines| => RawOf(lines[i]))
  }

  function EntriesOf(lines: seq<Line>): seq<Entry> {
    if lines == [] then [] else
      EntriesOf(lines[..|lines|-1]) + if lines[|lines|-1].kind.EntryLine? then [lines[|lines|-1].kind.entry] else []
  }

  /** What a line is marked as is what its bytes say. */
  ghost predicate LineMeans(rules: UrlRules, l: Line, meta: MetaVersion, url: Bytes) {
    match l.kind
    case Blank => IsBlank(l.content)
    case EntryLine(e) => !IsBlank(l.content) && ParseEntry(rules, l.content, meta, url) == Ok(Stored(e, meta))
    case _ => false
  }

  ghost predicate DistinctUrls(lines: seq<Line>) {
    forall i, j :: 0 <= i < j < |lines| && lines[i].kind.EntryLine? && lines[j].kind.EntryLine? ==>
      lines[i].kind.entry.url != lines[j].kind.entry.url
  }

  ghost predicate HeadersMean(rules: UrlRules, lines: seq<Line>, meta: MetaVersion, url: Bytes) {
    && |lines| >= 2
    && lines[0].kind.Meta? && ParseMeta(lines[0].content) == Ok(meta)
    && lines[1].kind.Url? && ParseUrl(rules, lines[1].content) == Ok(url)
  }

  /** A document is consistent: its lines split back as they are, and every line means
      what it is marked as. */
  ghost predicate Consistent(rules: UrlRules, lines: seq<Line>, meta: MetaVersion, url: Bytes) {
    && HeadersMean(rules, lines, meta, url)
    && (forall i :: 2 <= i < |lines| ==> LineMeans(rules, lines[i], meta, url))
    && DistinctUrls(lines)
    && LinesOk(Raws(lines))
  }

  predicate HeadersOk(rules: UrlRules, raws: seq<Raw>) {
    |raws| >= 2 && ParseMeta(raws[0].content).Ok? && ParseUrl(rules, raws[1].content).Ok?
  }

  /** The same question asked of bare lines: is this a document? */
  ghost predicate Acceptable(rules: UrlRules, raws: seq<Raw>) {
    && HeadersOk(rules, raws)
    && (forall i :: 2 <= i < |raws| ==> RawMeans(rules, raws, i))
    && (forall i, j :: 2 <= i < j < |raws| && !IsBlank(raws[i].content) && !IsBlank(raws[j].content) ==>
          RawEntry(rules, raws, i).Ok? && RawEntry(rules, raws, j).Ok? ==> RawEntry(rules, raws, i).value.url != RawEntry(rules, raws, j).value.url)
  }

  ghost predicate RawMeans(rules: UrlRules, raws: seq<Raw>, i: nat)
    requires HeadersOk(rules, raws) && 2 <= i < |raws|
  {
    IsBlank(raws[i].content) || RawEntry(rules, raws, i).Ok?
  }

  function RawEntry(rules: UrlRules, raws: seq<Raw>, i: nat): Result<Entry>
    requires HeadersOk(rules, raws) && 2 <= i < |raws|
  {
    ParseEntry(rules, raws[i].content, ParseMeta(raws[0].content).value, ParseUrl(rules, raws[1].content).value)
  }

  ghost predicate UrlTaken(rules: UrlRules, raws: seq<Raw>, upto: nat, url: Bytes)
    requires HeadersOk(rules, raws) && upto <= |raws|
  {
    exists j :: 2 <= j < upto && !IsBlank(raws[j].content) && RawEntry(rules, raws, j).Ok? && RawEntry(rules, raws, j).value.url == url
  }

  /** What is wrong with one line behind the headers, given those before it. */
  ghost function LineError(rules: UrlRules, raws: seq<Raw>, i: nat): Option<FormatError>
    requires HeadersOk(rules, raws) && 2 <= i < |raws|
  {
    if IsBlank(raws[i].content) then None
    else if RawEntry(rules, raws, i).Err? then Some(RawEntry(rules, raws, i).error)
    else if UrlTaken(rules, raws, i, RawEntry(rules, raws, i).value.url) then Some(DuplicateUrl)
    else None
  }

  ghost predicate FineUpTo(rules: UrlRules, raws: seq<Raw>, upto: nat)
    requires HeadersOk(rules, raws) && upto <= |raws|
  {
    forall i :: 2 <= i < upto ==> LineError(rules, raws, i).None?
  }

  /** The first error from the top. */
  ghost predicate FailsWith(rules: UrlRules, raws: seq<Raw>, error: FormatError) {
    if |raws| < 2 then error == MissingHeaders
    else if ParseMeta(raws[0].content).Err? then error == ParseMeta(raws[0].content).error
    else if ParseUrl(rules, raws[1].content).Err? then error == ParseUrl(rules, raws[1].content).error
    else exists k :: 2 <= k < |raws| && FineUpTo(rules, raws, k) && LineError(rules, raws, k) == Some(error)
  }

  lemma ConsistentIsAcceptable(rules: UrlRules, lines: seq<Line>, meta: MetaVersion, url: Bytes)
    requires Consistent(rules, lines, meta, url)
    ensures Acceptable(rules, Raws(lines))
  {}

  /** Two consistent readings of the same bytes differ at most in sizes version 1 does not
      keep. */
  lemma ReadingsAgree(rules: UrlRules, a: seq<Line>, metaA: MetaVersion, urlA: Bytes, b: seq<Line>, metaB: MetaVersion, urlB: Bytes)
    requires Consistent(rules, a, metaA, urlA) && Consistent(rules, b, metaB, urlB)
    requires Printed(Raws(a)) == Printed(Raws(b))
    ensures metaA == metaB && urlA == urlB && |a| == |b|
    ensures forall i :: 0 <= i < |a| ==> a[i].content == b[i].content && a[i].ending == b[i].ending
    ensures forall i :: 0 <= i < |a| ==> (a[i].kind.EntryLine? <==> b[i].kind.EntryLine?)
    ensures forall i :: 0 <= i < |a| && a[i].kind.EntryLine? ==> Stored(a[i].kind.entry, metaA) == Stored(b[i].kind.entry, metaA)
  {
    hide ParseEntry, ParseMeta, ParseUrl, LinesOk, IsBlank, DistinctUrls, Printed;
    PrintedInjective(Raws(a), Raws(b));
    forall i | 0 <= i < |a| ensures a[i].content == b[i].content && a[i].ending == b[i].ending {
      assert Raws(a)[i] == Raws(b)[i];
    }
    forall i | 2 <= i < |a| ensures LineMeans(rules, a[i], metaA, urlA) && LineMeans(rules, b[i], metaB, urlB) {}
  }

  function StoredAll(entries: seq<Entry>, meta: MetaVersion): seq<Entry> {
    seq(|entries|, i requires 0 <= i < |entries| => Stored(entries[i], meta))
  }

  lemma {:induction false} EntriesAgree(a: seq<Line>, b: seq<Line>, meta: MetaVersion)
    requires |a| == |b|
    requires forall i :: 0 <= i < |a| ==> (a[i].kind.EntryLine? <==> b[i].kind.EntryLine?)
    requires forall i :: 0 <= i < |a| && a[i].kind.EntryLine? ==> Stored(a[i].kind.entry, meta) == Stored(b[i].kind.entry, meta)
    ensures StoredAll(EntriesOf(a), meta) == StoredAll(EntriesOf(b), meta)
  {
    if a != [] {
      EntriesAgree(a[..|a|-1], b[..|b|-1], meta);
      StoredSnoc(a, meta);
      StoredSnoc(b, meta);
    }
  }

  lemma StoredSnoc(lines: seq<Line>, meta: MetaVersion)
    requires lines != []
    ensures var front, last := lines[..|lines|-1], lines[|lines|-1];
      StoredAll(EntriesOf(lines), meta)
        == StoredAll(EntriesOf(front), meta) + if last.kind.EntryLine? then [Stored(last.kind.entry, meta)] else []
  {}

  // ---- No carriage return in an accepted line ---------------------------------------------------

  lemma FieldsWithoutCr(s: Bytes)
    requires forall f :: 0 <= f < |Fields(s)| ==> CR !in Fields(s)[f]
    ensures CR !in s
  {
    forall k | 0 <= k < |s| ensures s[k] != CR {
      if s[k] == CR { var f := FieldsCover(s, k); }
    }
  }

  lemma ValueWithoutCr(value: Bytes)
    requires ValidateFieldValue(value).Ok?
    ensures CR !in value
  {
    forall k | 0 <= k < |value| ensures value[k] != CR {
      if value[k] == CR { AsciiWhitespace(value, k); }
    }
  }

  lemma HeadersWithoutCr(rules: UrlRules, content: Bytes)
    requires ParseMeta(content).Ok? || ParseUrl(rules, content).Ok?
    ensures CR !in content
  {
    hide IsText, Fields, HasWhitespace;
    var f := Fields(content);
    assert |f| == 2;
    if ParseUrl(rules, content).Ok? { ValueWithoutCr(f[1]); }
    FieldsWithoutCr(content);
  }

  lemma EntryWithoutCr(rules: UrlRules, content: Bytes, meta: MetaVersion, base: Bytes)
    requires ParseEntry(rules, content, meta, base).Ok?
    ensures CR !in content
  {
    hide IsText, Fields, HasWhitespace, HexDecode, ParseU64, ValidateFieldValue;
    var f := Fields(content);
    ValueWithoutCr(f[2]);
    if meta.V2? {
      SizeWithoutCr(f[3]);
      SizeWithoutCr(f[4]);
    }
    FieldsWithoutCr(content);
  }

  lemma SizeWithoutCr(s: Bytes)
    requires ParseU64(s).Some?
    ensures CR !in s
  {}

  lemma ConsistentWithoutCr(rules: UrlRules, lines: seq<Line>, meta: MetaVersion, url: Bytes, i: nat)
    requires Consistent(rules, lines, meta, url) && i < |lines|
    ensures CR !in lines[i].content
  {
    hide ParseEntry, ParseMeta, ParseUrl, LinesOk, DistinctUrls;
    if i < 2 {
      HeadersWithoutCr(rules, lines[i].content);
    } else {
      assert LineMeans(rules, lines[i], meta, url);
      if lines[i].kind.EntryLine? { EntryWithoutCr(rules, lines[i].content, meta, url); }
    }
  }

  // ---- Editing, on the lines ---------------------------------------------------------------------

  lemma ConsistentAt(rules: UrlRules, lines: seq<Line>, meta: MetaVersion, url: Bytes, i: nat)
    requires Consistent(rules, lines, meta, url) && i < |lines|
    ensures LineOk(RawOf(lines[i]), i == |lines| - 1)
    ensures i >= 2 ==> LineMeans(rules, lines[i], meta, url)
    ensures i < 2 ==> !lines[i].kind.EntryLine?
  {}

  /** A line of a document may be exchanged for one that means something else, if no other
      line has its URL. */
  lemma ReplaceLine(rules: UrlRules, lines: seq<Line>, meta: MetaVersion, url: Bytes, i: nat, l: Line)
    requires Consistent(rules, lines, meta, url) && 2 <= i < |lines|
    requires LineMeans(rules, l, meta, url) && LineOk(RawOf(l), i == |lines| - 1)
    requires forall j :: 0 <= j < |lines| && j != i && lines[j].kind.EntryLine? && l.kind.EntryLine? ==> lines[j].kind.entry.url != l.kind.entry.url
    ensures Consistent(rules, lines[i := l], meta, url)
  {
    hide LineMeans, LineOk, ParseMeta, ParseUrl;
    var after := lines[i := l];
    forall j | 0 <= j < |after| ensures LineOk(Raws(after)[j], j == |after| - 1) && (j >= 2 ==> LineMeans(rules, after[j], meta, url)) {
      ConsistentAt(rules, lines, meta, url, j);
    }
  }

  /** A line may be added at the end, if the one before it is ended first. */
  lemma AppendLine(rules: UrlRules, lines: seq<Line>, meta: MetaVersion, url: Bytes, l: Line)
    requires Consistent(rules, lines, meta, url) && lines[|lines|-1].ending != []
    requires LineMeans(rules, l, meta, url) && LineOk(RawOf(l), true)
    requires forall j :: 0 <= j < |lines| && lines[j].kind.EntryLine? && l.kind.EntryLine? ==> lines[j].kind.entry.url != l.kind.entry.url
    ensures Consistent(rules, lines + [l], meta, url)
  {
    hide LineMeans, ParseMeta, ParseUrl, LineOk;
    var after := lines + [l];
    forall j | 0 <= j < |lines| ensures LineOk(Raws(after)[j], false) && (j >= 2 ==> LineMeans(rules, after[j], meta, url)) {
      ConsistentAt(rules, lines, meta, url, j);
      EndedLine(RawOf(lines[j]), j == |lines| - 1);
    }
  }

  lemma EndedLine(r: Raw, last: bool)
    requires LineOk(r, last) && (last ==> r.ending != [])
    ensures LineOk(r, false)
  {}

  lemma EndLast(rules: UrlRules, lines: seq<Line>, meta: MetaVersion, url: Bytes, ending: Bytes)
    requires Consistent(rules, lines, meta, url) && lines[|lines|-1].ending == []
    requires ending == [LF] || ending == [CR, LF]
    ensures Consistent(rules, lines[|lines|-1 := lines[|lines|-1].(ending := ending)], meta, url)
  {
    hide ParseMeta, ParseUrl, ParseEntry, IsBlank;
    var k := |lines| - 1;
    var after := lines[k := lines[k].(ending := ending)];
    ConsistentWithoutCr(rules, lines, meta, url, k);
    forall j | 0 <= j < |after| ensures LineOk(Raws(after)[j], j == |after| - 1) && (j >= 2 ==> LineMeans(rules, after[j], meta, url)) {
      ConsistentAt(rules, lines, meta, url, j);
    }
  }

  lemma RemoveLine(rules: UrlRules, lines: seq<Line>, meta: MetaVersion, url: Bytes, i: nat)
    requires Consistent(rules, lines, meta, url) && 2 <= i < |lines|
    ensures Consistent(rules, lines[..i] + lines[i+1..], meta, url)
  {}

  lemma {:induction false} EntriesConcat(a: seq<Line>, b: seq<Line>)
    ensures EntriesOf(a + b) == EntriesOf(a) + EntriesOf(b)
  {
    if b == [] {
      assert a + b == a;
    } else {
      assert (a + b)[..|a+b|-1] == a + b[..|b|-1];
      EntriesConcat(a, b[..|b|-1]);
    }
  }

  lemma {:induction false} EntriesSameKinds(a: seq<Line>, b: seq<Line>)
    requires |a| == |b| && forall i :: 0 <= i < |a| ==> a[i].kind == b[i].kind
    ensures EntriesOf(a) == EntriesOf(b)
  {
    if a != [] { EntriesSameKinds(a[..|a|-1], b[..|b|-1]); }
  }

  // ---- What edits do to the entries ----------------------------------------------------------------

  ghost predicate HasUrl(entries: seq<Entry>, url: Bytes) { exists i :: 0 <= i < |entries| && entries[i].url == url }

  /** Adding under a known URL replaces that entry where it is; a new one goes to the end. */
  function Added(entries: seq<Entry>, e: Entry): seq<Entry> {
    if entries == [] then [e]
    else if entries[0].url == e.url then [e] + entries[1..]
    else [entries[0]] + Added(entries[1..], e)
  }

  function Removed(entries: seq<Entry>, url: Bytes): seq<Entry> {
    if entries == [] then []
    else if entries[0].url == url then entries[1..]
    else [entries[0]] + Removed(entries[1..], url)
  }

  lemma {:induction false} AddedAt(before: seq<Entry>, old': Entry, after: seq<Entry>, e: Entry)
    requires !HasUrl(before, e.url) && old'.url == e.url
    ensures Added(before + [old'] + after, e) == before + [e] + after
    ensures Removed(before + [old'] + after, e.url) == before + after
  {
    var all := before + [old'] + after;
    if before != [] {
      assert before[0].url != e.url;
      assert all[0] == before[0] && all[1..] == before[1..] + [old'] + after;
      forall i | 0 <= i < |before[1..]| ensures before[1..][i].url != e.url { assert before[1..][i] == before[i+1]; }
      AddedAt(before[1..], old', after, e);
      assert before == [before[0]] + before[1..];
    } else {
      assert all[1..] == after;
    }
  }

  lemma {:induction false} AddedNew(entries: seq<Entry>, e: Entry)
    requires !HasUrl(entries, e.url)
    ensures Added(entries, e) == entries + [e]
    ensures Removed(entries, e.url) == entries
  {
    if entries != [] {
      assert entries[0].url != e.url;
      forall i | 0 <= i < |entries[1..]| ensures entries[1..][i].url != e.url { assert entries[1..][i] == entries[i+1]; }
      AddedNew(entries[1..], e);
    }
  }

  lemma {:induction false} UrlsOfLines(lines: seq<Line>, url: Bytes)
    ensures HasUrl(EntriesOf(lines), url) <==> exists i :: 0 <= i < |lines| && lines[i].kind.EntryLine? && lines[i].kind.entry.url == url
  {
    if lines != [] {
      var front, last := lines[..|lines|-1], lines[|lines|-1];
      UrlsOfLines(front, url);
      assert forall k :: 0 <= k < |EntriesOf(front)| ==> EntriesOf(lines)[k] == EntriesOf(front)[k];
      if HasUrl(EntriesOf(front), url) {
        var i :| 0 <= i < |front| && front[i].kind.EntryLine? && front[i].kind.entry.url == url;
        assert lines[i] == front[i];
        var k :| 0 <= k < |EntriesOf(front)| && EntriesOf(front)[k].url == url;
        assert EntriesOf(lines)[k] == EntriesOf(front)[k];
      }
      if last.kind.EntryLine? { assert EntriesOf(lines)[|EntriesOf(front)|] == last.kind.entry; }
      forall i | 0 <= i < |lines| && lines[i].kind.EntryLine? && lines[i].kind.entry.url == url ensures HasUrl(EntriesOf(lines), url) {
        if i < |front| { assert front[i] == lines[i]; }
      }
      if HasUrl(EntriesOf(lines), url) && !HasUrl(EntriesOf(front), url) {
        var k :| 0 <= k < |EntriesOf(lines)| && EntriesOf(lines)[k].url == url;
        assert lines[|lines|-1].kind.EntryLine?;
      }
    }
  }

  predicate IsEntryOf(l: Line, url: Bytes) { l.kind.EntryLine? && l.kind.entry.url == url }

  /** The first ending there is, or a line feed. */
  function FirstEnding(lines: seq<Line>): Bytes {
    if lines == [] then [LF] else if lines[0].ending != [] then lines[0].ending else FirstEnding(lines[1..])
  }

  /** A line behind the last one: an unfinished last line is ended first, and then the new
      line is the unfinished one. */
  function Extended(lines: seq<Line>, content: Bytes, entry: Entry): seq<Line>
    requires lines != []
  {
    var k, ending := |lines| - 1, FirstEnding(lines);
    if lines[k].ending == [] then lines[k := lines[k].(ending := ending)] + [Line(content, [], EntryLine(entry))]
    else lines + [Line(content, ending, EntryLine(entry))]
  }

  // ---- The document --------------------------------------------------------------------------------

  class Document {
    const rules: UrlRules
    var lines: seq<Line>
    var meta: MetaVersion
    var url: Bytes

    ghost predicate Valid() reads this { Consistent(rules, lines, meta, url) }

    constructor Of(rules: UrlRules, lines: seq<Line>, meta: MetaVersion, url: Bytes)
      ensures this.rules == rules && this.lines == lines && this.meta == meta && this.url == url
    {
      this.rules, this.lines, this.meta, this.url := rules, lines, meta, url;
    }

    function Entries(): seq<Entry> reads this { EntriesOf(lines) }

    method ToBytes() returns (bytes: Bytes)
      ensures bytes == Printed(Raws(lines))
    {
      bytes := [];
      for k := 0 to |lines|
        invariant bytes == Printed(Raws(lines)[..k])
      {
        assert Raws(lines)[..k+1][..k] == Raws(lines)[..k];
        bytes := bytes + lines[k].content + lines[k].ending;
      }
      assert Raws(lines)[..|lines|] == Raws(lines);
    }

    method PreferredLineEnding() returns (ending: Bytes)
      requires Valid()
      ensures ending == FirstEnding(lines) && (ending == [LF] || ending == [CR, LF])
    {
      assert lines[0..] == lines;
      for i := 0 to |lines|
        invariant FirstEnding(lines) == FirstEnding(lines[i..])
      {
        assert lines[i..][1..] == lines[i+1..];
        if lines[i].ending != [] {
          ConsistentAt(rules, lines, meta, url, i);
          return lines[i].ending;
        }
      }
      return [LF];
    }

    method Position(wanted: Bytes) returns (r: Option<nat>)
      ensures r.Some? ==> r.value < |lines| && lines[r.value].kind.EntryLine? && lines[r.value].kind.entry.url == wanted
      ensures r.None? ==> forall i :: 0 <= i < |lines| && lines[i].kind.EntryLine? ==> lines[i].kind.entry.url != wanted
    {
      for i := 0 to |lines|
        invariant forall j :: 0 <= j < i && lines[j].kind.EntryLine? ==> lines[j].kind.entry.url != wanted
      {
        if lines[i].kind.EntryLine? && lines[i].kind.entry.url == wanted { return Some(i); }
      }
      return None;
    }

    /** Why an addition is refused. */
    ghost function AddError(entry: Entry, force: bool): Option<FormatError>
      reads this
    {
      if ValidateFieldValue(entry.url).Err? then Some(ValidateFieldValue(entry.url).error)
      else if !rules.joins(url, entry.url) then Some(InvalidPackUrl)
      else if CanonicalLine(entry, meta).Err? then Some(CanonicalLine(entry, meta).error)
      else if !force && HasUrl(Entries(), entry.url) then Some(AlreadyExists)
      else None
    }

    /** add: the line of a known URL is exchanged, or a line is put behind the last one,
        with the document's own kind of line ending. */
    method Add(entry: Entry, force: bool) returns (r: Result<()>)
      requires Valid() && Typed(entry)
      modifies this
      ensures Valid() && meta == old(meta) && url == old(url)
      ensures r == match old(AddError(entry, force)) case Some(e) => Err(e) case None => Ok(())
      ensures r.Err? ==> lines == old(lines)
      ensures r.Ok? ==> Entries() == Added(old(Entries()), entry)
      ensures r.Ok? && old(HasUrl(Entries(), entry.url)) ==>
        exists i :: 0 <= i < |old(lines)| && IsEntryOf(old(lines)[i], entry.url)
          && lines == old(lines)[i := Line(CanonicalLine(entry, meta).value, old(lines)[i].ending, EntryLine(entry))]
      ensures r.Ok? && !old(HasUrl(Entries(), entry.url)) ==>
        lines == Extended(old(lines), CanonicalLine(entry, meta).value, entry)
    {
      hide Consistent, CanonicalLine, ParseEntry, ValidateFieldValue, HasUrl, EntriesOf, Added, Typed, Stored, IsBlank;
      if ValidateFieldValue(entry.url).Err? { return Err(ValidateFieldValue(entry.url).error); }
      DocumentUrlValid(rules, lines, meta, url);
      if ValidateIndexUrl(rules, url).Err? { assert false; return Err(InvalidIndexUrl); }
      if !rules.joins(url, entry.url) { return Err(InvalidPackUrl); }
      var canonical := CanonicalLine(entry, meta);
      if canonical.Err? { return Err(canonical.error); }
      CanonicalParses(rules, entry, meta, url);
      UrlsOfLines(lines, entry.url);
      var existing := Position(entry.url);
      if existing.Some? {
        if !force { return Err(AlreadyExists); }
        lines := Exchange(rules, lines, meta, url, existing.value, canonical.value, entry);
        assert IsEntryOf(old(lines)[existing.value], entry.url);
        return Ok(());
      }
      var ending := PreferredLineEnding();
      lines := Append(rules, lines, meta, url, ending, canonical.value, entry);
      return Ok(());
    }

    /** remove: one line goes, the others stay as they are. */
    method Remove(unwanted: Bytes, force: bool) returns (r: Result<()>)
      requires Valid()
      modifies this
      ensures Valid() && meta == old(meta) && url == old(url)
      ensures r == if force || HasUrl(old(Entries()), unwanted) then Ok(()) else Err(DoesNotExist)
      ensures Entries() == Removed(old(Entries()), unwanted)
      ensures !HasUrl(old(Entries()), unwanted) ==> lines == old(lines)
      ensures HasUrl(old(Entries()), unwanted) ==>
        exists i :: 0 <= i < |old(lines)| && IsEntryOf(old(lines)[i], unwanted) && lines == old(lines)[..i] + old(lines)[i+1..]
    {
      UrlsOfLines(lines, unwanted);
      hide Consistent, HasUrl, EntriesOf, Removed;
      var existing := Position(unwanted);
      if existing.Some? {
        TakeOut(rules, lines, meta, url, existing.value);
        assert IsEntryOf(lines[existing.value], unwanted);
        lines := lines[..existing.value] + lines[existing.value+1..];
        return Ok(());
      }
      NoSuchUrl(lines, unwanted);
      return if force then Ok(()) else Err(DoesNotExist);
    }
  }

  lemma DocumentUrlValid(rules: UrlRules, lines: seq<Line>, meta: MetaVersion, url: Bytes)
    requires Consistent(rules, lines, meta, url)
    ensures ValidateIndexUrl(rules, url).Ok? && |lines| >= 2
  {}

  lemma {:induction false} EntriesAround(lines: seq<Line>, i: nat)
    requires i < |lines| && lines[i].kind.EntryLine?
    ensures EntriesOf(lines) == EntriesOf(lines[..i]) + [lines[i].kind.entry] + EntriesOf(lines[i+1..])
  {
    assert lines == lines[..i] + [lines[i]] + lines[i+1..];
    EntriesConcat(lines[..i] + [lines[i]], lines[i+1..]);
    EntriesConcat(lines[..i], [lines[i]]);
    assert [lines[i]][..0] == [];
  }

  lemma {:induction false} SplitEntries(rules: UrlRules, lines: seq<Line>, meta: MetaVersion, url: Bytes, i: nat)
    requires Consistent(rules, lines, meta, url) && i < |lines| && lines[i].kind.EntryLine?
    ensures i >= 2
    ensures EntriesOf(lines) == EntriesOf(lines[..i]) + [lines[i].kind.entry] + EntriesOf(lines[i+1..])
    ensures !HasUrl(EntriesOf(lines[..i]), lines[i].kind.entry.url)
    ensures forall j :: 0 <= j < |lines| && j != i && lines[j].kind.EntryLine? ==> lines[j].kind.entry.url != lines[i].kind.entry.url
  {
    hide EntriesOf, HasUrl;
    EntriesAround(lines, i);
    UrlsOfLines(lines[..i], lines[i].kind.entry.url);
  }

  lemma {:induction false} TakeOut(rules: UrlRules, lines: seq<Line>, meta: MetaVersion, url: Bytes, i: nat)
    requires Consistent(rules, lines, meta, url) && i < |lines| && lines[i].kind.EntryLine?
    ensures Consistent(rules, lines[..i] + lines[i+1..], meta, url)
    ensures EntriesOf(lines[..i] + lines[i+1..]) == Removed(EntriesOf(lines), lines[i].kind.entry.url)
  {
    hide Consistent;
    SplitEntries(rules, lines, meta, url, i);
    RemoveLine(rules, lines, meta, url, i);
    EntriesConcat(lines[..i], lines[i+1..]);
    AddedAt(EntriesOf(lines[..i]), lines[i].kind.entry, EntriesOf(lines[i+1..]), lines[i].kind.entry);
  }

  lemma NoSuchUrl(lines: seq<Line>, unwanted: Bytes)
    requires forall i :: 0 <= i < |lines| && lines[i].kind.EntryLine? ==> lines[i].kind.entry.url != unwanted
    ensures Removed(EntriesOf(lines), unwanted) == EntriesOf(lines)
  {
    UrlsOfLines(lines, unwanted);
    AddedNew(EntriesOf(lines), Entry(seq(20, _ => 0), seq(20, _ => 0), unwanted, None, None));
  }

  lemma ExchangedLine(rules: UrlRules, lines: seq<Line>, meta: MetaVersion, url: Bytes, i: nat, l: Line)
    requires Consistent(rules, lines, meta, url) && i < |lines| && l.ending == lines[i].ending && l.kind.EntryLine?
    requires ParseEntry(rules, l.content, meta, url) == Ok(Stored(l.kind.entry, meta))
    requires LF !in l.content && CR !in l.content && !IsBlank(l.content) && l.content != []
    ensures LineMeans(rules, l, meta, url) && LineOk(RawOf(l), i == |lines| - 1)
  {}

  /** The known entry is exchanged where it stands. */
  method Exchange(ghost rules: UrlRules, lines: seq<Line>, ghost meta: MetaVersion, ghost url: Bytes, i: nat, canonical: Bytes, entry: Entry)
    returns (after: seq<Line>)
    requires Consistent(rules, lines, meta, url) && i < |lines| && lines[i].kind.EntryLine? && lines[i].kind.entry.url == entry.url
    requires ParseEntry(rules, canonical, meta, url) == Ok(Stored(entry, meta))
    requires LF !in canonical && CR !in canonical && !IsBlank(canonical) && canonical != []
    ensures after == lines[i := Line(canonical, lines[i].ending, EntryLine(entry))] && Consistent(rules, after, meta, url)
    ensures EntriesOf(after) == Added(EntriesOf(lines), entry)
  {
    var l := Line(canonical, lines[i].ending, EntryLine(entry));
    after := lines[i := l];
    ExchangedLine(rules, lines, meta, url, i, l);
    hide Consistent, ParseEntry, IsBlank, EntriesOf, Added, HasUrl, LineMeans, LineOk;
    SplitEntries(rules, lines, meta, url, i);
    ReplaceLine(rules, lines, meta, url, i, l);
    SplitEntries(rules, after, meta, url, i);
    assert after[..i] == lines[..i] && after[i+1..] == lines[i+1..];
    AddedAt(EntriesOf(lines[..i]), lines[i].kind.entry, EntriesOf(lines[i+1..]), entry);
  }

  /** A new entry goes behind the last line, which gets an ending if it had none; the new
      line then has none either. */
  method Append(ghost rules: UrlRules, lines: seq<Line>, ghost meta: MetaVersion, ghost url: Bytes, ending: Bytes, canonical: Bytes, entry: Entry)
    returns (after: seq<Line>)
    requires Consistent(rules, lines, meta, url) && |lines| >= 2 && (ending == [LF] || ending == [CR, LF])
    requires forall j :: 0 <= j < |lines| && lines[j].kind.EntryLine? ==> lines[j].kind.entry.url != entry.url
    requires ParseEntry(rules, canonical, meta, url) == Ok(Stored(entry, meta))
    requires LF !in canonical && CR !in canonical && !IsBlank(canonical) && canonical != []
    requires ending == FirstEnding(lines)
    ensures Consistent(rules, after, meta, url) && after == Extended(lines, canonical, entry)
    ensures EntriesOf(after) == Added(EntriesOf(lines), entry)
  {
    hide Consistent, ParseEntry, IsBlank, Added, HasUrl, EntriesOf, LineMeans, LineOk;
    var k := |lines| - 1;
    var endedWithNewline := lines[k].ending != [];
    after := lines;
    if !endedWithNewline {
      EndLast(rules, lines, meta, url, ending);
      after := lines[k := lines[k].(ending := ending)];
    }
    var l := Line(canonical, if endedWithNewline then ending else [], EntryLine(entry));
    NewEntryLine(rules, l, meta, url, entry);
    EntriesSameKinds(after, lines);
    AppendEntry(rules, after, meta, url, l);
    after := after + [l];
  }

  lemma NewEntryLine(rules: UrlRules, l: Line, meta: MetaVersion, url: Bytes, entry: Entry)
    requires l.kind == EntryLine(entry) && ParseEntry(rules, l.content, meta, url) == Ok(Stored(entry, meta))
    requires LF !in l.content && CR !in l.content && !IsBlank(l.content) && l.content != []
    requires l.ending == [] || l.ending == [LF] || l.ending == [CR, LF]
    ensures LineMeans(rules, l, meta, url) && LineOk(RawOf(l), true)
  {}

  lemma AppendEntry(rules: UrlRules, lines: seq<Line>, meta: MetaVersion, url: Bytes, l: Line)
    requires Consistent(rules, lines, meta, url) && |lines| >= 2 && lines[|lines|-1].ending != []
    requires l.kind.EntryLine? && LineMeans(rules, l, meta, url) && LineOk(RawOf(l), true)
    requires forall j :: 0 <= j < |lines| && lines[j].kind.EntryLine? ==> lines[j].kind.entry.url != l.kind.entry.url
    ensures Consistent(rules, lines + [l], meta, url)
    ensures EntriesOf(lines + [l]) == Added(EntriesOf(lines), l.kind.entry)
  {
    AppendLine(rules, lines, meta, url, l);
    hide Consistent, LineMeans, LineOk, Added, HasUrl;
    EntriesConcat(lines, [l]);
    assert [l][..0] == [];
    UrlsOfLines(lines, l.kind.entry.url);
    AddedNew(EntriesOf(lines), l.kind.entry);
  }

  // ---- Creating and parsing --------------------------------------------------------------------------

  lemma HeaderParses(key: Bytes, separator: Byte, value: Bytes)
    requires Field(key) && IsSeparator(separator) && Field(value)
    ensures ParseHeader(key + [separator] + value, key) == Ok(value)
    ensures LF !in key + [separator] + value && CR !in key + [separator] + value
  {
    FieldThen(key, separator, value);
    LastField(value);
    AsciiIsText([separator]);
    TextThen(key, [separator]);
    TextThen(key + [separator], value);
  }

  lemma {:induction false} KeysStand()
    ensures Field(META_KEY) && Field(URL_KEY) && Field(VERSION_1) && Field(VERSION_2) && VERSION_1 != VERSION_2
  {
    hide Field;
    PlainField(META_KEY);
    PlainField(URL_KEY);
    PlainField(VERSION_1);
    PlainField(VERSION_2);
    assert VERSION_1[1] != VERSION_2[1];
  }

  lemma MetaParses(meta: MetaVersion, separator: Byte)
    requires IsSeparator(separator)
    ensures var content := META_KEY + [separator] + MetaValue(meta); ParseMeta(content) == Ok(meta) && LF !in content && CR !in content
  {
    KeysStand();
    HeaderParses(META_KEY, separator, MetaValue(meta));
    hide ParseHeader, Field;
  }

  lemma UrlParses(rules: UrlRules, separator: Byte, url: Bytes)
    requires IsSeparator(separator) && IsText(url) && ValidateIndexUrl(rules, url).Ok?
    ensures var content := URL_KEY + [separator] + url; ParseUrl(rules, content) == Ok(url) && LF !in content && CR !in content
  {
    KeysStand();
    UrlField(url);
    HeaderParses(URL_KEY, separator, url);
    hide ParseHeader, Field, ValidateIndexUrl;
  }

  lemma HeaderBytes(meta: MetaVersion, url: Bytes)
    ensures META_KEY + [TAB] + MetaValue(meta) == [0x6D, 0x65, 0x74, 0x61, 0x09, 0x76, if meta.V1? then 0x31 else 0x32]
    ensures URL_KEY + [TAB] + url == [0x75, 0x72, 0x6C, 0x09] + url
  {}

  /** Document::create. */
  method Create(rules: UrlRules, meta: MetaVersion, url: Bytes) returns (r: Result<Document>)
    requires IsText(url)
    ensures match ValidateIndexUrl(rules, url)
      case Err(error) => r == Err(error)
      case Ok(_) => r.Ok? && fresh(r.value) && r.value.Valid() && r.value.rules == rules && r.value.meta == meta && r.value.url == url && r.value.Entries() == []
    ensures r.Ok? ==> r.value.lines == [
      Line([0x6D, 0x65, 0x74, 0x61, 0x09, 0x76, if meta.V1? then 0x31 else 0x32], [0x0A], Meta),
      Line([0x75, 0x72, 0x6C, 0x09] + url, [0x0A], Url)]
  {
    var valid := ValidateIndexUrl(rules, url);
    if valid.Err? { return Err(valid.error); }
    MetaParses(meta, TAB);
    UrlParses(rules, TAB, url);
    hide ParseMeta, ParseUrl, ValidateIndexUrl;
    var first := Line(META_KEY + [TAB] + MetaValue(meta), [LF], Meta);
    var second := Line(URL_KEY + [TAB] + url, [LF], Url);
    HeaderBytes(meta, url);
    hide META_KEY, URL_KEY, MetaValue;
    NewLines(rules, first, second, meta, url);
    hide Consistent, EntriesOf;
    var doc := new Document.Of(rules, [first, second], meta, url);
    return Ok(doc);
  }

  lemma NewLines(rules: UrlRules, first: Line, second: Line, meta: MetaVersion, url: Bytes)
    requires first.kind.Meta? && second.kind.Url? && first.ending == second.ending && (first.ending == [LF] || first.ending == [CR, LF])
    requires ParseMeta(first.content) == Ok(meta) && ParseUrl(rules, second.content) == Ok(url)
    requires LF !in first.content && CR !in first.content && LF !in second.content && CR !in second.content
    ensures Consistent(rules, [first, second], meta, url) && EntriesOf([first, second]) == []
  {
    hide ParseMeta, ParseUrl;
    assert [first, second][..1] == [first] && [first][..0] == [];
    assert EntriesOf([first]) == [];
    assert LineOk(RawOf(first), false) && LineOk(RawOf(second), true);
  }

  lemma OnlyReading(rules: UrlRules, raws: seq<Raw>, bytes: Bytes, error: FormatError)
    requires LinesOk(raws) && Printed(raws) == bytes && !Acceptable(rules, raws) && FailsWith(rules, raws, error)
    ensures forall r :: LinesOk(r) && Printed(r) == bytes ==> !Acceptable(rules, r) && FailsWith(rules, r, error)
  {
    forall r | LinesOk(r) && Printed(r) == bytes ensures r == raws { PrintedInjective(r, raws); }
  }

  /** What the loop of parse has established about the lines it has been through. */
  ghost predicate ParsedUpTo(rules: UrlRules, raws: seq<Raw>, lines: seq<Line>, meta: MetaVersion, url: Bytes) {
    && 2 <= |lines| <= |raws| && HeadersMean(rules, lines, meta, url)
    && (forall i :: 0 <= i < |lines| ==> RawOf(lines[i]) == raws[i])
    && (forall i :: 2 <= i < |lines| ==> LineMeans(rules, lines[i], meta, url))
    && (forall i :: 2 <= i < |lines| && lines[i].kind.EntryLine? ==> lines[i].kind.entry == Stored(lines[i].kind.entry, meta))
    && DistinctUrls(lines)
  }

  ghost predicate UrlsSeen(lines: seq<Line>, urls: set<Bytes>) {
    forall u :: u in urls <==> exists i :: 0 <= i < |lines| && lines[i].kind.EntryLine? && lines[i].kind.entry.url == u
  }

  lemma ParsedNext(rules: UrlRules, raws: seq<Raw>, lines: seq<Line>, meta: MetaVersion, url: Bytes, urls: set<Bytes>, l: Line)
    requires ParsedUpTo(rules, raws, lines, meta, url) && |lines| < |raws| && UrlsSeen(lines, urls)
    requires RawOf(l) == raws[|lines|] && LineMeans(rules, l, meta, url)
    requires l.kind.EntryLine? ==> l.kind.entry == Stored(l.kind.entry, meta) && l.kind.entry.url !in urls
    ensures ParsedUpTo(rules, raws, lines + [l], meta, url)
    ensures UrlsSeen(lines + [l], if l.kind.EntryLine? then urls + {l.kind.entry.url} else urls)
  {
    hide LineMeans, ParseMeta, ParseUrl;
    var after := lines + [l];
    forall i, j | 0 <= i < j < |after| && after[i].kind.EntryLine? && after[j].kind.EntryLine?
      ensures after[i].kind.entry.url != after[j].kind.entry.url {}
    var seen := if l.kind.EntryLine? then urls + {l.kind.entry.url} else urls;
    forall u | u in seen ensures exists i :: 0 <= i < |after| && after[i].kind.EntryLine? && after[i].kind.entry.url == u {
      if u in urls {
        var i :| 0 <= i < |lines| && lines[i].kind.EntryLine? && lines[i].kind.entry.url == u;
        assert after[i] == lines[i];
      } else {
        assert after[|lines|] == l;
      }
    }
  }

  lemma ParsedAll(rules: UrlRules, raws: seq<Raw>, lines: seq<Line>, meta: MetaVersion, url: Bytes)
    requires ParsedUpTo(rules, raws, lines, meta, url) && |lines| == |raws| && LinesOk(raws)
    ensures Raws(lines) == raws && Consistent(rules, lines, meta, url)
    ensures StoredAll(EntriesOf(lines), meta) == EntriesOf(lines)
  {
    assert Raws(lines) == raws;
    StoredAlready(lines, meta);
  }

  lemma {:induction false} StoredAlready(lines: seq<Line>, meta: MetaVersion)
    requires forall i :: 0 <= i < |lines| && lines[i].kind.EntryLine? ==> lines[i].kind.entry == Stored(lines[i].kind.entry, meta)
    ensures StoredAll(EntriesOf(lines), meta) == EntriesOf(lines)
  {
    if lines != [] {
      StoredAlready(lines[..|lines|-1], meta);
      StoredSnoc(lines, meta);
    }
  }

  lemma BadLine(rules: UrlRules, raws: seq<Raw>, lines: seq<Line>, meta: MetaVersion, url: Bytes)
    requires ParsedUpTo(rules, raws, lines, meta, url) && |lines| < |raws|
    requires !IsBlank(raws[|lines|].content) && ParseEntry(rules, raws[|lines|].content, meta, url).Err?
    ensures !Acceptable(rules, raws)
    ensures HeadersOk(rules, raws) && LineError(rules, raws, |lines|) == Some(ParseEntry(rules, raws[|lines|].content, meta, url).error)
  {
    hide ParseEntry, ParseMeta, ParseUrl, LineMeans;
    assert RawOf(lines[0]) == raws[0] && RawOf(lines[1]) == raws[1];
    assert Acceptable(rules, raws) ==> RawMeans(rules, raws, |lines|);
  }

  lemma TwiceTheUrl(rules: UrlRules, raws: seq<Raw>, lines: seq<Line>, meta: MetaVersion, url: Bytes, entry: Entry)
    requires ParsedUpTo(rules, raws, lines, meta, url) && |lines| < |raws|
    requires !IsBlank(raws[|lines|].content) && ParseEntry(rules, raws[|lines|].content, meta, url) == Ok(entry)
    requires exists i :: 0 <= i < |lines| && lines[i].kind.EntryLine? && lines[i].kind.entry.url == entry.url
    ensures !Acceptable(rules, raws)
    ensures HeadersOk(rules, raws) && LineError(rules, raws, |lines|) == Some(DuplicateUrl)
  {
    hide ParseEntry, ParseMeta, ParseUrl, IsBlank;
    var i :| 0 <= i < |lines| && lines[i].kind.EntryLine? && lines[i].kind.entry.url == entry.url;
    assert RawOf(lines[0]) == raws[0] && RawOf(lines[1]) == raws[1] && RawOf(lines[i]) == raws[i];
    assert i >= 2 && LineMeans(rules, lines[i], meta, url);
    assert RawEntry(rules, raws, i).Ok? && RawEntry(rules, raws, |lines|).Ok?;
  }

  /** Nothing is wrong with a line that the loop takes. */
  lemma LineTaken(rules: UrlRules, raws: seq<Raw>, lines: seq<Line>, meta: MetaVersion, url: Bytes, urls: set<Bytes>, l: Line)
    requires ParsedUpTo(rules, raws, lines, meta, url) && |lines| < |raws| && UrlsSeen(lines, urls)
    requires RawOf(l) == raws[|lines|] && LineMeans(rules, l, meta, url)
    requires l.kind.EntryLine? ==> l.kind.entry == Stored(l.kind.entry, meta) && l.kind.entry.url !in urls
    ensures HeadersOk(rules, raws) && LineError(rules, raws, |lines|).None?
  {
    hide ParseEntry, ParseMeta, ParseUrl, IsBlank;
    assert RawOf(lines[0]) == raws[0] && RawOf(lines[1]) == raws[1];
    forall j | 2 <= j < |lines| && !IsBlank(raws[j].content) && RawEntry(rules, raws, j).Ok?
      ensures RawEntry(rules, raws, j).value.url in urls
    {
      assert RawOf(lines[j]) == raws[j] && LineMeans(rules, lines[j], meta, url);
    }
  }

  lemma ParsedStored(rules: UrlRules, content: Bytes, meta: MetaVersion, url: Bytes)
    requires ParseEntry(rules, content, meta, url).Ok?
    ensures var e := ParseEntry(rules, content, meta, url).value; e == Stored(e, meta)
  {}

  /** Document::parse: a document that prints back to the very bytes, or the first error
      from the top if the lines of the bytes are not one. */
  method Parse(rules: UrlRules, bytes: Bytes) returns (r: Result<Document>)
    ensures r.Ok? ==>
      && fresh(r.value) && r.value.Valid() && r.value.rules == rules && Printed(Raws(r.value.lines)) == bytes
      && StoredAll(r.value.Entries(), r.value.meta) == r.value.Entries()
    ensures r.Err? ==> forall raws :: LinesOk(raws) && Printed(raws) == bytes ==> !Acceptable(rules, raws) && FailsWith(rules, raws, r.error)
  {
    hide LinesOk, Printed, ParseEntry, ParseMeta, ParseUrl, IsBlank, ParsedUpTo, UrlsSeen, Consistent, StoredAll, EntriesOf, LineError;
    var raws := SplitLines(bytes);
    if |raws| < 2 { OnlyReading(rules, raws, bytes, MissingHeaders); return Err(MissingHeaders); }
    var meta := ParseMeta(raws[0].content);
    if meta.Err? { OnlyReading(rules, raws, bytes, meta.error); return Err(meta.error); }
    var url := ParseUrl(rules, raws[1].content);
    if url.Err? { OnlyReading(rules, raws, bytes, url.error); return Err(url.error); }
    var lines := [Line(raws[0].content, raws[0].ending, Meta), Line(raws[1].content, raws[1].ending, Url)];
    var urls: set<Bytes> := {};
    HeadersParsed(rules, raws, lines, meta.value, url.value);
    for k := 2 to |raws|
      invariant |lines| == k && ParsedUpTo(rules, raws, lines, meta.value, url.value) && UrlsSeen(lines, urls)
      invariant FineUpTo(rules, raws, k)
    {
      var raw := raws[k];
      if IsBlank(raw.content) {
        var l := Line(raw.content, raw.ending, Blank);
        LineTaken(rules, raws, lines, meta.value, url.value, urls, l);
        ParsedNext(rules, raws, lines, meta.value, url.value, urls, l);
        lines := lines + [l];
      } else {
        var entry := ParseEntry(rules, raw.content, meta.value, url.value);
        if entry.Err? {
          BadLine(rules, raws, lines, meta.value, url.value);
          OnlyReading(rules, raws, bytes, entry.error);
          return Err(entry.error);
        }
        if entry.value.url in urls {
          SeenMeans(lines, urls, entry.value.url);
          TwiceTheUrl(rules, raws, lines, meta.value, url.value, entry.value);
          OnlyReading(rules, raws, bytes, DuplicateUrl);
          return Err(DuplicateUrl);
        }
        var l := Line(raw.content, raw.ending, EntryLine(entry.value));
        ParsedStored(rules, raw.content, meta.value, url.value);
        LineTaken(rules, raws, lines, meta.value, url.value, urls, l);
        ParsedNext(rules, raws, lines, meta.value, url.value, urls, l);
        urls := urls + {entry.value.url};
        lines := lines + [l];
      }
    }
    ParsedAll(rules, raws, lines, meta.value, url.value);
    var doc := new Document.Of(rules, lines, meta.value, url.value);
    return Ok(doc);
  }

  lemma SeenMeans(lines: seq<Line>, urls: set<Bytes>, u: Bytes)
    requires UrlsSeen(lines, urls) && u in urls
    ensures exists i :: 0 <= i < |lines| && lines[i].kind.EntryLine? && lines[i].kind.entry.url == u
  {}

  lemma HeadersParsed(rules: UrlRules, raws: seq<Raw>, lines: seq<Line>, meta: MetaVersion, url: Bytes)
    requires |raws| >= 2 && ParseMeta(raws[0].content) == Ok(meta) && ParseUrl(rules, raws[1].content) == Ok(url)
    requires lines == [Line(raws[0].content, raws[0].ending, Meta), Line(raws[1].content, raws[1].ending, Url)]
    ensures ParsedUpTo(rules, raws, lines, meta, url) && UrlsSeen(lines, {})
  {}

  // ---- Editing and reading back ------------------------------------------------------------------------

  /** Printing a document that was created or parsed and then edited, and parsing that,
      never fails and gives the same entries, up to sizes version 1 has no room for. */
  method PrintAndParse(doc: Document) returns (again: Document)
    requires doc.Valid()
    ensures fresh(again) && again.Valid() && again.meta == doc.meta && again.url == doc.url
    ensures again.Entries() == StoredAll(doc.Entries(), doc.meta)
    ensures |again.lines| == |doc.lines|
    ensures forall i :: 0 <= i < |doc.lines| ==> again.lines[i].content == doc.lines[i].content && again.lines[i].ending == doc.lines[i].ending
  {
    var bytes := doc.ToBytes();
    ConsistentIsAcceptable(doc.rules, doc.lines, doc.meta, doc.url);
    ghost var raws := Raws(doc.lines);
    assert LinesOk(raws) && Printed(raws) == bytes && Acceptable(doc.rules, raws);
    hide Consistent, Acceptable, LinesOk, Printed, StoredAll;
    var parsed := Parse(doc.rules, bytes);
    again := parsed.value;
    ReadingsAgree(doc.rules, again.lines, again.meta, again.url, doc.lines, doc.meta, doc.url);
    EntriesAgree(again.lines, doc.lines, doc.meta);
  }

  datatype Edit = AddEdit(entry: Entry, addForce: bool) | RemoveEdit(url: Bytes, removeForce: bool)

  /** What a list of edits does to a list of entries. */
  function Edited(entries: seq<Entry>, edits: seq<Edit>): seq<Entry> {
    if edits == [] then entries else
      var before := Edited(entries, edits[..|edits|-1]);
      match edits[|edits|-1]
      case AddEdit(e, _) => Added(before, e)
      case RemoveEdit(u, _) => Removed(before, u)
  }

  /** Why an edit is refused. */
  ghost predicate Refuses(rules: UrlRules, meta: MetaVersion, url: Bytes, entries: seq<Entry>, edit: Edit) {
    match edit
    case AddEdit(e, force) =>
      ValidateFieldValue(e.url).Err? || !rules.joins(url, e.url) || CanonicalLine(e, meta).Err? || (!force && HasUrl(entries, e.url))
    case RemoveEdit(u, force) => !force && !HasUrl(entries, u)
  }

  /** The first n edits are accepted, one behind the other. */
  ghost predicate Accepted(rules: UrlRules, meta: MetaVersion, url: Bytes, entries: seq<Entry>, edits: seq<Edit>, n: nat)
    requires n <= |edits|
  {
    forall k :: 0 <= k < n ==> !Refuses(rules, meta, url, Edited(entries, edits[..k]), edits[k])
  }

  /** Edit k is the first that is refused, and those before it are all that was done. */
  ghost predicate StopsAt(rules: UrlRules, meta: MetaVersion, url: Bytes, entries: seq<Entry>, edits: seq<Edit>, k: nat, after: seq<Entry>) {
    && k < |edits| && Accepted(rules, meta, url, entries, edits, k)
    && Refuses(rules, meta, url, Edited(entries, edits[..k]), edits[k]) && after == Edited(entries, edits[..k])
  }

  /** Any run of edits: it ends with the first that is refused. */
  method ApplyEdits(doc: Document, edits: seq<Edit>) returns (ok: bool)
    requires doc.Valid() && forall i :: 0 <= i < |edits| && edits[i].AddEdit? ==> Typed(edits[i].entry)
    modifies doc
    ensures doc.Valid() && doc.meta == old(doc.meta) && doc.url == old(doc.url)
    ensures ok <==> Accepted(doc.rules, doc.meta, doc.url, old(doc.Entries()), edits, |edits|)
    ensures ok ==> doc.Entries() == Edited(old(doc.Entries()), edits)
    ensures !ok ==> exists k :: StopsAt(doc.rules, doc.meta, doc.url, old(doc.Entries()), edits, k, doc.Entries())
  {
    hide Consistent, Added, Removed, EntriesOf, HasUrl, CanonicalLine, Typed, ValidateFieldValue;
    for k := 0 to |edits|
      invariant doc.Valid() && doc.meta == old(doc.meta) && doc.url == old(doc.url)
      invariant doc.Entries() == Edited(old(doc.Entries()), edits[..k])
      invariant Accepted(doc.rules, doc.meta, doc.url, old(doc.Entries()), edits, k)
    {
      assert edits[..k+1][..k] == edits[..k];
      var r: Result<()>;
      match edits[k] {
        case AddEdit(e, force) => r := doc.Add(e, force);
        case RemoveEdit(u, force) => r := doc.Remove(u, force);
      }
      if r.Err? {
        assert StopsAt(doc.rules, doc.meta, doc.url, old(doc.Entries()), edits, k, doc.Entries());
        return false;
      }
    }
    assert edits[..|edits|] == edits;
    return true;
  }
}
