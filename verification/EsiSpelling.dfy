/** The format of a remote index, spelled out. What the parser and the editor agree on among
    themselves is pinned down here against the characters themselves. */
module EsiSpelling {
  import opened ByteStrings
  import opened EsiDocuments
  import opened EsiText
  import opened Utf8

  function Ascii(text: string): (r: Bytes)
    requires forall i :: 0 <= i < |text| ==> text[i] < 128 as char
    ensures |r| == |text| && forall i :: 0 <= i < |text| ==> r[i] == text[i] as int
  {
    seq(|text|, i requires 0 <= i < |text| => text[i] as int)
  }

  // ---- Checksums ---------------------------------------------------------------------------

  /** This byte is how a hexadecimal digit is read. */
  ghost predicate Hex(b: Byte, digit: nat) {
    digit < 16 && (b == Ascii("0123456789abcdef")[digit] || b == Ascii("0123456789ABCDEF")[digit])
  }

  lemma HexDigits(b: Byte, digit: nat)
    ensures HexDigitValue(b) == Some(digit) <==> Hex(b, digit)
    ensures digit < 16 ==> HexLower(digit) == Ascii("0123456789abcdef")[digit]
  {}

  /** A checksum is written with two lower-case digits per byte, the high one first. */
  lemma {:induction false} HexSpelled(s: Bytes, i: nat)
    requires i < |s|
    ensures HexEncode(s)[2*i] == Ascii("0123456789abcdef")[s[i] / 16]
    ensures HexEncode(s)[2*i+1] == Ascii("0123456789abcdef")[s[i] % 16]
  {
    HexDigits(0, s[0] / 16);
    HexDigits(0, s[0] % 16);
    if i > 0 { HexSpelled(s[1..], i - 1); }
  }

  ghost predicate HexOf(s: Bytes, value: Bytes) {
    && |s| == 2 * |value|
    && forall i :: 0 <= i < |value| ==> HexByte(s, value, i)
  }

  ghost predicate HexByte(s: Bytes, value: Bytes, i: nat)
    requires |s| == 2 * |value| && i < |value|
  {
    Hex(s[2*i], value[i] / 16) && Hex(s[2*i+1], value[i] % 16)
  }

  /** A checksum is read from digits of either case, and from nothing else. */
  lemma {:induction false} HexMeans(s: Bytes, value: Bytes)
    ensures HexDecode(s) == Some(value) <==> HexOf(s, value)
  {
    if s == [] {
    } else if |s| == 1 {
      assert value != [] ==> |s| != 2 * |value|;
    } else if value == [] {
      assert HexDecode(s).Some? ==> |s| == 2 * |HexDecode(s).value|;
    } else {
      HexMeans(s[2..], value[1..]);
      DecodeFirst(s, value);
      HexFirst(s, value);
      HexDigits(s[0], value[0] / 16);
      HexDigits(s[1], value[0] % 16);
      hide HexOf, Hex, HexDecode, HexDigitValue;
    }
  }

  lemma DecodeFirst(s: Bytes, value: Bytes)
    requires |s| >= 2 && value != []
    ensures HexDecode(s) == Some(value) <==>
      HexDigitValue(s[0]) == Some(value[0] / 16) && HexDigitValue(s[1]) == Some(value[0] % 16) && HexDecode(s[2..]) == Some(value[1..])
  {
    assert value == [value[0]] + value[1..];
    DigitBound(s[0]);
    DigitBound(s[1]);
    hide HexDigitValue;
    var high, low := HexDigitValue(s[0]), HexDigitValue(s[1]);
    if high.Some? && low.Some? { Nibbles(high.value, low.value, value[0]); }
  }

  lemma DigitBound(b: Byte)
    ensures HexDigitValue(b).Some? ==> HexDigitValue(b).value < 16
  {}

  lemma Nibbles(high: nat, low: nat, b: Byte)
    requires high < 16 && low < 16
    ensures high * 16 + low == b <==> high == b / 16 && low == b % 16
  {}

  lemma HexFirst(s: Bytes, value: Bytes)
    requires |s| >= 2 && value != []
    ensures HexOf(s, value) <==> Hex(s[0], value[0] / 16) && Hex(s[1], value[0] % 16) && HexOf(s[2..], value[1..])
  {
    hide Hex;
    if HexOf(s, value) {
      assert HexByte(s, value, 0);
      forall i | 0 <= i < |value[1..]| ensures HexByte(s[2..], value[1..], i) { assert HexByte(s, value, i + 1); }
    }
    if Hex(s[0], value[0] / 16) && Hex(s[1], value[0] % 16) && HexOf(s[2..], value[1..]) {
      forall i | 0 <= i < |value| ensures HexByte(s, value, i) {
        if i > 0 { assert HexByte(s[2..], value[1..], i - 1); }
      }
    }
  }

  // ---- Sizes -------------------------------------------------------------------------------

  predicate AllDigits(s: Bytes) { forall i :: 0 <= i < |s| ==> s[i] in Ascii("0123456789") }

  function Power(k: nat): nat { if k == 0 then 1 else 10 * Power(k - 1) }

  /** What a number in decimal notation is worth: the first digit counts most. */
  function Worth(s: Bytes): int {
    if s == [] then 0 else (s[0] as int - '0' as int) * Power(|s| - 1) + Worth(s[1..])
  }

  lemma {:induction false} WorthSnoc(s: Bytes, last: Byte)
    ensures Worth(s + [last]) == 10 * Worth(s) + (last as int - '0' as int)
  {
    if s == [] {
      assert ([] + [last])[1..] == [];
    } else {
      WorthSnoc(s[1..], last);
      assert (s + [last])[1..] == s[1..] + [last];
      TenTimes(s[0] as int - '0' as int, Power(|s| - 1), Power(|s|));
    }
  }

  lemma TenTimes(d: int, p: nat, q: nat)
    requires q == 10 * p
    ensures d * q == 10 * (d * p)
  {}

  lemma DigitListed(b: Byte)
    ensures b in Ascii("0123456789") <==> 0x30 <= b <= 0x39
  {
    if 0x30 <= b <= 0x39 { assert Ascii("0123456789")[b - 0x30] == b; }
  }

  lemma {:induction false} DigitsMean(s: Bytes)
    ensures Digits(s).Some? <==> AllDigits(s)
    ensures AllDigits(s) ==> Digits(s).value == Worth(s)
  {
    if s != [] {
      var front, last := s[..|s|-1], s[|s|-1];
      DigitsMean(front);
      DigitListed(last);
      WorthSnoc(front, last);
      assert s == front + [last];
      assert AllDigits(s) <==> AllDigits(front) && last in Ascii("0123456789");
    }
  }

  /** A size is written in decimal notation, without leading zeros. */
  lemma {:induction false} DecimalSpelled(n: nat)
    ensures AllDigits(Decimal(n)) && Worth(Decimal(n)) == n && (Decimal(n)[0] == '0' as int ==> n == 0)
    ensures |Decimal(0)| == 1
  {
    DecimalRoundTrip(n);
    DigitsMean(Decimal(n));
    if n >= 10 { DecimalSpelled(n / 10); }
  }

  /** What a size is read from: digits, perhaps behind a plus sign, worth less than 2^64. */
  lemma SizeMeans(s: Bytes, n: nat)
    ensures ParseU64(s) == Some(n) <==>
      exists digits :: (s == digits || s == Ascii("+") + digits) && digits != [] && AllDigits(digits) && Worth(digits) == n < 0x1_0000_0000_0000_0000
  {
    var plus := s != [] && s[0] == '+' as int;
    var digits := if plus then s[1..] else s;
    assert plus ==> s == Ascii("+") + digits;
    DigitsMean(digits);
    forall other | (s == other || s == Ascii("+") + other) && other != [] && AllDigits(other) ensures other == digits {
      if s == other {
        DigitListed(other[0]);
      } else {
        assert other == s[1..];
      }
    }
  }

  // ---- White space ---------------------------------------------------------------------------

  /** The white space of the Unicode standard (the property White_Space). */
  lemma WhitespaceListed(codePoint: nat)
    ensures IsWhitespace(codePoint) <==>
      codePoint in {0x0009, 0x000A, 0x000B, 0x000C, 0x000D, 0x0020, 0x0085, 0x00A0, 0x1680,
                    0x2000, 0x2001, 0x2002, 0x2003, 0x2004, 0x2005, 0x2006, 0x2007, 0x2008, 0x2009, 0x200A,
                    0x2028, 0x2029, 0x202F, 0x205F, 0x3000}
  {}

  /** A character of the text that is white space. */
  ghost predicate WhitespaceAt(s: Bytes, from: nat, to: nat) {
    from <= to <= |s| && IsText(s[..from]) && IsChar(s[from..to]) && IsWhitespace(CodePoint(s[from..to]))
  }

  ghost predicate WhitespaceSomewhere(s: Bytes) { exists from: nat, to: nat :: WhitespaceAt(s, from, to) }

  /** A text has white space if and only if some whole character of it is white space. */
  lemma {:induction false} HasWhitespaceMeans(s: Bytes)
    requires IsText(s)
    ensures HasWhitespace(s) <==> WhitespaceSomewhere(s)
  {
    if s != [] {
      var n := ScanChar(s).length;
      FirstChar(s);
      HasWhitespaceMeans(s[n..]);
      SomewhereSplit(s, n);
      hide WhitespaceSomewhere, StartsWithWhitespace, ScanChar, IsText;
    }
  }

  lemma SomewhereSplit(s: Bytes, n: nat)
    requires s != [] && ScanChar(s) == Char(n)
    ensures WhitespaceSomewhere(s) <==> StartsWithWhitespace(s) || WhitespaceSomewhere(s[n..])
  {
    ScanFindsChar(s, n);
    hide WhitespaceAt, IsWhitespace, CodePoint, IsChar, ScanChar, IsText, StartsWithWhitespace;
    forall from: nat, to: nat | WhitespaceAt(s, from, to)
      ensures if from == 0 then StartsWithWhitespace(s) else from >= n && to >= n && WhitespaceAt(s[n..], from - n, to - n)
    {
      ThisOrLater(s, n, from, to);
    }
    if StartsWithWhitespace(s) { NoTextFirst(s, n); }
    forall from: nat, to: nat | WhitespaceAt(s[n..], from, to) ensures WhitespaceAt(s, from + n, to + n) {
      LaterStays(s, n, from, to);
    }
  }

  lemma NoTextFirst(s: Bytes, n: nat)
    requires s != [] && ScanChar(s) == Char(n) && StartsWithWhitespace(s)
    ensures WhitespaceAt(s, 0, n)
  {
    assert s[0..n] == s[..n] && s[..0] == [];
  }

  lemma LaterStays(s: Bytes, n: nat, from: nat, to: nat)
    requires n <= |s| && IsChar(s[..n]) && WhitespaceAt(s[n..], from, to)
    ensures WhitespaceAt(s, from + n, to + n)
  {
    hide IsWhitespace, CodePoint;
    CharThen(s[..n], s[n..][..from]);
    SliceOfRest(s, n, from, to);
  }

  lemma SliceOfRest(s: Bytes, n: nat, from: nat, to: nat)
    requires from <= to && n + to <= |s|
    ensures s[n..][from..to] == s[from+n..to+n] && s[..n] + s[n..][..from] == s[..from+n] && s[..from+n][n..] == s[n..][..from]
  {}

  lemma ThisOrLater(s: Bytes, n: nat, from: nat, to: nat)
    requires s != [] && ScanChar(s) == Char(n) && WhitespaceAt(s, from, to)
    ensures if from == 0 then StartsWithWhitespace(s) else from >= n && to >= n && WhitespaceAt(s[n..], from - n, to - n)
  {
    hide IsWhitespace, CodePoint, ScanChar, IsText, IsChar;
    if from == 0 {
      assert s[0..to] == s[..to];
      NotEmpty(s[..to]);
      ScanFindsChar(s, to);
    } else {
      TextCoversChar(s, n, from);
      SliceOfRest(s, n, from - n, to - n);
    }
  }

  lemma NotEmpty(c: Bytes)
    requires IsChar(c)
    ensures c != []
  {}

  lemma TextCoversChar(s: Bytes, n: nat, from: nat)
    requires s != [] && ScanChar(s) == Char(n) && 0 < from <= |s| && IsText(s[..from])
    ensures n <= from && IsText(s[..from][n..])
  {
    var m := ScanChar(s[..from]).length;
    FirstChar(s[..from]);
    assert s[..from][..m] == s[..m];
    ScanFindsChar(s, m);
  }

  // ---- Lines ---------------------------------------------------------------------------------

  /** What is wrong with a header line, by its fields. */
  lemma HeaderErrors(content: Bytes, key: Bytes)
    ensures ParseHeader(content, key) == Err(InvalidUtf8) <==> !IsText(content)
    ensures IsText(content) ==> var f := Fields(content);
      && (ParseHeader(content, key) == Err(ExpectedKey) <==> (f == [] || f[0] != key))
      && (ParseHeader(content, key) == Err(MissingValue) <==> f == [key])
      && (ParseHeader(content, key) == Err(TooManyValues) <==> exists a, b, more :: f == [key, a, b] + more)
      && forall value :: ParseHeader(content, key) == Ok(value) <==> f == [key, value]
  {
    if IsText(content) {
      var f := Fields(content);
      if |f| > 2 && f[0] == key { assert f == [key, f[1], f[2]] + f[3..]; }
    }
  }

  /** The two versions there are. */
  lemma VersionsMean(content: Bytes, meta: MetaVersion)
    ensures ParseMeta(content) == Ok(meta) <==> ParseHeader(content, Ascii("meta")) == Ok(Version(meta))
    ensures ParseHeader(content, Ascii("meta")).Ok? && ParseMeta(content).Err? ==> ParseMeta(content).error == UnsupportedVersion
  {
    KeysSpelled();
    assert VERSION_1[1] != VERSION_2[1];
    hide ParseHeader, Ascii, META_KEY, VERSION_1, VERSION_2;
  }

  /** The sizes stand in version 2 and nowhere else. */
  predicate SizesFit(e: Entry, meta: MetaVersion) {
    if meta.V1? then e.packSize.None? && e.indexSize.None? else e.packSize.Some? && e.indexSize.Some?
  }

  /** What a line of an entry is read as, by its fields: two checksums, a URL that can be
      joined, and in version 2 the size of the pack and that of its index. */
  ghost predicate FieldsOf(urls: UrlRules, f: seq<Bytes>, meta: MetaVersion, base: Bytes, e: Entry) {
    && |f| == (if meta.V1? then 3 else 5)
    && HexOf(f[0], e.indexChecksum) && HexOf(f[1], e.packChecksum)
    && f[2] == e.url && e.url != [] && !HasWhitespace(e.url) && urls.joins(base, e.url)
    && SizesFit(e, meta)
    && (meta.V2? ==> ParseU64(f[3]) == Some(e.packSize.value) && ParseU64(f[4]) == Some(e.indexSize.value))
  }

  lemma ChecksumMeans(value: Bytes, c: Checksum)
    ensures ParseChecksum(value) == Ok(c) <==> HexOf(value, c)
  {
    HexMeans(value, c);
  }

  lemma EntryMeans(urls: UrlRules, content: Bytes, meta: MetaVersion, base: Bytes, e: Entry)
    ensures ParseEntry(urls, content, meta, base) == Ok(e) <==> IsText(content) && FieldsOf(urls, Fields(content), meta, base, e)
  {
    hide ParseChecksum, HexOf, ParseU64, Fields, HasWhitespace, IsText;
    if IsText(content) && |Fields(content)| >= 3 {
      var f := Fields(content);
      ChecksumMeans(f[0], e.indexChecksum);
      ChecksumMeans(f[1], e.packChecksum);
    }
  }

  /** The first thing that is wrong with such a line. */
  lemma EntryErrors(urls: UrlRules, content: Bytes, meta: MetaVersion, base: Bytes)
    requires ParseEntry(urls, content, meta, base).Err?
    ensures var f, n := Fields(content), if meta.V1? then 3 else 5;
      ParseEntry(urls, content, meta, base).error ==
        if !IsText(content) then InvalidUtf8
        else if |f| < n then TooFewValues
        else if |f| > n then TooManyValues
        else if HexDecode(f[0]).None? then BadChecksum
        else if |f[0]| != 40 then ChecksumLength
        else if HexDecode(f[1]).None? then BadChecksum
        else if |f[1]| != 40 then ChecksumLength
        else if HasWhitespace(f[2]) then LiteralWhitespace
        else if !urls.joins(base, f[2]) then InvalidPackUrl
        else InvalidSize
  {
    hide ParseU64, HasWhitespace, IsText;
  }

  // ---- Whole documents -----------------------------------------------------------------------

  function Version(meta: MetaVersion): Bytes { if meta.V1? then Ascii("v1") else Ascii("v2") }

  predicate Sized(meta: MetaVersion, entries: seq<Entry>) {
    forall i :: 0 <= i < |entries| ==> SizesFit(entries[i], meta)
  }

  function SpelledEntry(e: Entry, meta: MetaVersion): Bytes
    requires SizesFit(e, meta)
  {
    HexEncode(e.indexChecksum) + Ascii("\t") + HexEncode(e.packChecksum) + Ascii("\t") + e.url
      + (if meta.V1? then [] else Ascii("\t") + Decimal(e.packSize.value) + Ascii("\t") + Decimal(e.indexSize.value))
  }

  /** What stands behind the keys, and what ends the lines. */
  datatype Style = Style(separator: Byte, ending: Bytes)

  predicate Good(style: Style) {
    && (style.separator == ' ' as int || style.separator == '\t' as int)
    && (style.ending == Ascii("\n") || style.ending == Ascii("\r\n"))
  }

  function Tabbed(): Style { Style('\t' as int, Ascii("\n")) }

  /** A document without blank lines, every line of it ended. */
  function Spelled(meta: MetaVersion, style: Style, url: Bytes, entries: seq<Entry>): Bytes
    requires Sized(meta, entries)
  {
    if entries == [] then
      Ascii("meta") + [style.separator] + Version(meta) + style.ending + Ascii("url") + [style.separator] + url + style.ending
    else
      Spelled(meta, style, url, entries[..|entries|-1]) + SpelledEntry(entries[|entries|-1], meta) + style.ending
  }

  /** A URL that can stand in a document. */
  ghost predicate Printable(url: Bytes) { IsText(url) && url != [] && !WhitespaceSomewhere(url) }

  /** What a document can list under this URL. */
  ghost predicate Listable(rules: UrlRules, meta: MetaVersion, url: Bytes, entries: seq<Entry>) {
    && Printable(url) && rules.parses(url) && Sized(meta, entries)
    && (forall i :: 0 <= i < |entries| ==> Typed(entries[i]) && Printable(entries[i].url) && rules.joins(url, entries[i].url))
    && (forall i, j :: 0 <= i < j < |entries| ==> entries[i].url != entries[j].url)
  }

  lemma ListableFront(rules: UrlRules, meta: MetaVersion, url: Bytes, entries: seq<Entry>)
    requires Listable(rules, meta, url, entries) && entries != []
    ensures Listable(rules, meta, url, entries[..|entries|-1])
    ensures Sized(meta, entries[..|entries|-1]) && SizesFit(entries[|entries|-1], meta)
  {}

  lemma KeysSpelled()
    ensures META_KEY == Ascii("meta") && URL_KEY == Ascii("url")
    ensures VERSION_1 == Ascii("v1") && VERSION_2 == Ascii("v2")
    ensures [LF] == Ascii("\n") && [CR, LF] == Ascii("\r\n") && [TAB] == Ascii("\t")
  {}

  lemma PrintableValid(url: Bytes)
    requires Printable(url)
    ensures ValidateFieldValue(url).Ok? && Field(url)
  {
    HasWhitespaceMeans(url);
    UrlField(url);
  }

  lemma ThreeMore(before: Bytes, a: Bytes, b: Bytes, c: Bytes)
    ensures before + (a + b + c) == before + a + b + c
  {}

  lemma HeadersSpelled(meta: MetaVersion, style: Style, url: Bytes, first: Line, second: Line)
    requires first == Line(META_KEY + [style.separator] + MetaValue(meta), style.ending, Meta)
    requires second == Line(URL_KEY + [style.separator] + url, style.ending, Url)
    ensures Printed(Raws([first, second])) == Spelled(meta, style, url, [])
  {
    KeysSpelled();
    PrintedTwo(first, second);
    hide Printed, META_KEY, URL_KEY, VERSION_1, VERSION_2, Ascii;
    ThreeMore(first.content + style.ending, URL_KEY, [style.separator], url);
  }

  lemma HeaderLines(rules: UrlRules, meta: MetaVersion, style: Style, url: Bytes) returns (lines: seq<Line>)
    requires Printable(url) && rules.parses(url) && Good(style)
    ensures Consistent(rules, lines, meta, url) && EntriesOf(lines) == []
    ensures Printed(Raws(lines)) == Spelled(meta, style, url, []) && lines != [] && lines[|lines|-1].ending == style.ending
  {
    PrintableValid(url);
    MetaParses(meta, style.separator);
    UrlParses(rules, style.separator, url);
    hide ParseMeta, ParseUrl, ValidateFieldValue, Consistent, Field, Printable, EntriesOf, Printed, Spelled;
    var first := Line(META_KEY + [style.separator] + MetaValue(meta), style.ending, Meta);
    var second := Line(URL_KEY + [style.separator] + url, style.ending, Url);
    NewLines(rules, first, second, meta, url);
    HeadersSpelled(meta, style, url, first, second);
    lines := [first, second];
  }

  lemma PrintedTwo(first: Line, second: Line)
    ensures Printed(Raws([first, second])) == first.content + first.ending + second.content + second.ending
  {
    var raws := Raws([first, second]);
    assert raws[..1] == [RawOf(first)] && raws[..1][..0] == [];
    assert Printed(raws[..1]) == first.content + first.ending;
  }

  lemma PrintedMore(lines: seq<Line>, l: Line)
    ensures Printed(Raws(lines + [l])) == Printed(Raws(lines)) + l.content + l.ending
  {
    assert Raws(lines + [l])[..|lines|] == Raws(lines);
  }

  lemma EntrySpelled(e: Entry, meta: MetaVersion)
    requires Printable(e.url) && SizesFit(e, meta)
    ensures CanonicalLine(e, meta) == Ok(SpelledEntry(e, meta))
  {
    PrintableValid(e.url);
    KeysSpelled();
    hide HexEncode, Decimal, ValidateFieldValue, Printable;
    var line := CanonicalLine(e, meta).value;
    assert line == SpelledEntry(e, meta);
  }

  lemma SpelledMore(meta: MetaVersion, style: Style, url: Bytes, front: seq<Entry>, e: Entry)
    requires Sized(meta, front) && SizesFit(e, meta)
    ensures Sized(meta, front + [e])
    ensures Spelled(meta, style, url, front + [e]) == Spelled(meta, style, url, front) + SpelledEntry(e, meta) + style.ending
  {
    KeysSpelled();
    assert (front + [e])[..|front|] == front;
  }

  /** The lines of a document spelled like this. */
  ghost predicate LinesOf(rules: UrlRules, meta: MetaVersion, style: Style, url: Bytes, entries: seq<Entry>, lines: seq<Line>)
    requires Sized(meta, entries)
  {
    && Consistent(rules, lines, meta, url) && EntriesOf(lines) == entries
    && Printed(Raws(lines)) == Spelled(meta, style, url, entries)
    && lines != [] && lines[|lines|-1].ending == style.ending
  }

  lemma {:induction false} SpelledLines(rules: UrlRules, meta: MetaVersion, style: Style, url: Bytes, entries: seq<Entry>)
    returns (lines: seq<Line>)
    requires Sized(meta, entries) && Listable(rules, meta, url, entries)
    requires Good(style)
    ensures LinesOf(rules, meta, style, url, entries, lines)
  {
    if entries == [] {
      lines := HeaderLines(rules, meta, style, url);
    } else {
      hide LinesOf, Listable, Sized, SizesFit;
      var front, e := entries[..|entries|-1], entries[|entries|-1];
      ListableFront(rules, meta, url, entries);
      lines := SpelledLines(rules, meta, style, url, front);
      assert entries == front + [e];
      lines := OneMoreLine(rules, meta, style, url, lines, front, e);
    }
  }

  lemma {:induction false} OneMoreLine(rules: UrlRules, meta: MetaVersion, style: Style, url: Bytes, lines: seq<Line>, front: seq<Entry>, e: Entry)
    returns (after: seq<Line>)
    requires Sized(meta, front) && SizesFit(e, meta) && Listable(rules, meta, url, front + [e])
    requires Good(style) && LinesOf(rules, meta, style, url, front, lines)
    ensures Sized(meta, front + [e]) && LinesOf(rules, meta, style, url, front + [e], after)
  {
    hide Consistent, EntriesOf, Listable, Printed, SpelledEntry, Spelled;
    var l := Line(SpelledEntry(e, meta), style.ending, EntryLine(e));
    OneMore(rules, meta, style, url, lines, front, e, l);
    SpelledMore(meta, style, url, front, e);
    PrintedMore(lines, l);
    after := lines + [l];
  }

  lemma {:induction false} OneMore(rules: UrlRules, meta: MetaVersion, style: Style, url: Bytes, lines: seq<Line>, front: seq<Entry>, e: Entry, l: Line)
    requires Good(style) && Listable(rules, meta, url, front + [e])
    requires Consistent(rules, lines, meta, url) && EntriesOf(lines) == front && lines != [] && lines[|lines|-1].ending == style.ending
    requires SizesFit(e, meta) && l == Line(SpelledEntry(e, meta), style.ending, EntryLine(e))
    ensures Consistent(rules, lines + [l], meta, url) && EntriesOf(lines + [l]) == front + [e]
  {
    assert (front + [e])[|front|] == e;
    EntrySpelled(e, meta);
    CanonicalParses(rules, e, meta, url);
    DocumentUrlValid(rules, lines, meta, url);
    NewEntryLine(rules, l, meta, url, e);
    forall i | 0 <= i < |front| ensures front[i].url != e.url { assert (front + [e])[i] == front[i]; }
    UrlsOfLines(lines, e.url);
    hide Consistent, EntriesOf, LineMeans, LineOk, Listable, SpelledEntry, ParseEntry, IsBlank;
    AppendEntry(rules, lines, meta, url, l);
    AddedNew(front, e);
  }

  /** What is spelled like a document is read as that document. */
  method ReadSpelled(rules: UrlRules, meta: MetaVersion, style: Style, url: Bytes, entries: seq<Entry>) returns (doc: Document)
    requires Listable(rules, meta, url, entries) && Good(style)
    ensures fresh(doc) && doc.Valid() && doc.rules == rules && doc.meta == meta && doc.url == url && doc.Entries() == entries
  {
    ghost var lines := SpelledLines(rules, meta, style, url, entries);
    var bytes := Spelled(meta, style, url, entries);
    ConsistentIsAcceptable(rules, lines, meta, url);
    assert StoredAll(entries, meta) == entries;
    assert LinesOk(Raws(lines));
    hide Consistent, Acceptable, LinesOk, Printed, StoredAll, Listable, Spelled, EntriesOf, FailsWith;
    var parsed := Parse(rules, bytes);
    assert parsed.Ok? by { assert Acceptable(rules, Raws(lines)); }
    doc := parsed.value;
    ReadingsAgree(rules, doc.lines, doc.meta, doc.url, lines, meta, url);
    EntriesAgree(doc.lines, lines, meta);
  }

  lemma HeadersWritten(meta: MetaVersion, url: Bytes, first: Line, second: Line)
    requires first == Line([0x6D, 0x65, 0x74, 0x61, 0x09, 0x76, if meta.V1? then 0x31 else 0x32], [0x0A], Meta)
    requires second == Line([0x75, 0x72, 0x6C, 0x09] + url, [0x0A], Url)
    ensures Printed(Raws([first, second])) == Spelled(meta, Tabbed(), url, [])
  {
    assert first.content == META_KEY + [TAB] + MetaValue(meta);
    assert second.content == URL_KEY + [TAB] + url;
    HeadersSpelled(meta, Tabbed(), url, first, second);
  }

  ghost predicate LfLines(lines: seq<Line>) {
    lines != [] && lines[0].ending == [LF] && lines[|lines|-1].ending == [LF]
  }

  method AddSpelled(doc: Document, e: Entry)
    requires doc.Valid() && LfLines(doc.lines) && Typed(e) && Printable(e.url) && SizesFit(e, doc.meta)
    requires doc.rules.joins(doc.url, e.url) && !HasUrl(doc.Entries(), e.url)
    modifies doc
    ensures doc.Valid() && LfLines(doc.lines) && doc.meta == old(doc.meta) && doc.url == old(doc.url)
    ensures doc.Entries() == old(doc.Entries()) + [e]
    ensures Printed(Raws(doc.lines)) == old(Printed(Raws(doc.lines))) + SpelledEntry(e, doc.meta) + [LF]
  {
    PrintableValid(e.url);
    EntrySpelled(e, doc.meta);
    AddedNew(doc.Entries(), e);
    hide Consistent, EntriesOf, Printed, SpelledEntry, CanonicalLine, HasUrl, Added, Printable, ValidateFieldValue;
    PrintedMore(doc.lines, Line(SpelledEntry(e, doc.meta), [LF], EntryLine(e)));
    var r := doc.Add(e, false);
  }

  method AddAll(doc: Document, entries: seq<Entry>)
    requires doc.Valid() && LfLines(doc.lines) && Listable(doc.rules, doc.meta, doc.url, entries)
    requires doc.Entries() == [] && Printed(Raws(doc.lines)) == Spelled(doc.meta, Tabbed(), doc.url, [])
    modifies doc
    ensures doc.meta == old(doc.meta) && doc.url == old(doc.url)
    ensures Printed(Raws(doc.lines)) == Spelled(doc.meta, Tabbed(), doc.url, entries)
  {
    hide Printable, ValidateFieldValue, Consistent, EntriesOf, Printed, Listable, Spelled, SpelledEntry, HasUrl, SizesFit, Typed;
    assert entries[..0] == [];
    for k := 0 to |entries|
      invariant doc.Valid() && LfLines(doc.lines) && doc.meta == old(doc.meta) && doc.url == old(doc.url)
      invariant Sized(doc.meta, entries[..k])
      invariant doc.Entries() == entries[..k] && Printed(Raws(doc.lines)) == Spelled(doc.meta, Tabbed(), doc.url, entries[..k])
    {
      ListedAt(doc.rules, doc.meta, doc.url, entries, k);
      AddSpelled(doc, entries[k]);
      SpelledMore(doc.meta, Tabbed(), doc.url, entries[..k], entries[k]);
      assert entries[..k+1] == entries[..k] + [entries[k]];
    }
    assert entries[..|entries|] == entries;
  }

  /** A document that is created and filled entry by entry is spelled like this. */
  method WriteSpelled(rules: UrlRules, meta: MetaVersion, url: Bytes, entries: seq<Entry>) returns (bytes: Bytes)
    requires Listable(rules, meta, url, entries)
    ensures bytes == Spelled(meta, Tabbed(), url, entries)
  {
    PrintableValid(url);
    assert ValidateIndexUrl(rules, url).Ok?;
    hide Printable, ValidateFieldValue, ValidateIndexUrl, Consistent, EntriesOf, Printed, Listable, Spelled;
    var created := Create(rules, meta, url);
    var doc := created.value;
    HeadersWritten(meta, url, doc.lines[0], doc.lines[1]);
    AddAll(doc, entries);
    bytes := doc.ToBytes();
  }

  lemma ListedAt(rules: UrlRules, meta: MetaVersion, url: Bytes, entries: seq<Entry>, k: nat)
    requires Listable(rules, meta, url, entries) && k < |entries|
    ensures Typed(entries[k]) && Printable(entries[k].url) && ValidateFieldValue(entries[k].url).Ok? && rules.joins(url, entries[k].url)
    ensures !HasUrl(entries[..k], entries[k].url) && SizesFit(entries[k], meta) && Sized(meta, entries[..k]) && Sized(meta, entries[..k+1])
  {
    PrintableValid(entries[k].url);
  }
}
