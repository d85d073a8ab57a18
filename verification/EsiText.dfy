/** The spelling of an ESI document: lines, fields, checksums, sizes. */
module EsiText {
  import opened ByteStrings
  import opened Utf8

  const LF: Byte := 0x0A
  const CR: Byte := 0x0D
  const SPACE: Byte := 0x20
  const TAB: Byte := 0x09

  // ---- Lines ---------------------------------------------------------------------------

  datatype Raw = Raw(content: Bytes, ending: Bytes)

  /** What a list of lines has to be for splitting to give it back. */
  ghost predicate LineOk(r: Raw, last: bool) {
    && LF !in r.content
    && (|| r.ending == [CR, LF]
        || (r.ending == [LF] && (r.content == [] || r.content[|r.content|-1] != CR))
        || (r.ending == [] && last && r.content != []))
  }

  ghost predicate LinesOk(lines: seq<Raw>) {
    forall i :: 0 <= i < |lines| ==> LineOk(lines[i], i == |lines| - 1)
  }

  /** to_bytes. */
  function Printed(lines: seq<Raw>): Bytes {
    if lines == [] then [] else Printed(lines[..|lines|-1]) + lines[|lines|-1].content + lines[|lines|-1].ending
  }

  ghost predicate Whole(lines: seq<Raw>) { forall i :: 0 <= i < |lines| ==> LineOk(lines[i], false) }

  lemma PushLine(lines: seq<Raw>, line: Raw, last: bool)
    requires Whole(lines) && LineOk(line, last)
    ensures LinesOk(lines + [line]) && (!last ==> Whole(lines + [line]))
    ensures Printed(lines + [line]) == Printed(lines) + line.content + line.ending
  {}

  /** split_lines: nothing is lost, and the lines are the only well-formed ones. */
  method SplitLines(bytes: Bytes) returns (lines: seq<Raw>)
    ensures LinesOk(lines) && Printed(lines) == bytes
  {
    hide LineOk, Printed, LinesOk, Whole;
    lines := [];
    NoLines();
    var start := 0;
    for index := 0 to |bytes|
      invariant start <= index && Whole(lines) && Printed(lines) == bytes[..start]
      invariant LF !in bytes[start..index]
      invariant LinesOk(lines)
    {
      assert bytes[start..index+1] == bytes[start..index] + [bytes[index]];
      if bytes[index] == LF {
        var contentEnd, ending := index, [LF];
        if index > start && bytes[index-1] == CR { contentEnd, ending := index - 1, [CR, LF]; }
        var line := Raw(bytes[start..contentEnd], ending);
        LineTaken(bytes, start, contentEnd, index);
        PushLine(lines, line, false);
        lines := lines + [line];
        start := index + 1;
      }
    }
    assert bytes == bytes[..start] + bytes[start..] + [];
    if start < |bytes| {
      LastLine(bytes[start..]);
      PushLine(lines, Raw(bytes[start..], []), true);
      lines := lines + [Raw(bytes[start..], [])];
    }
  }

  lemma NoLines()
    ensures Whole([]) && LinesOk([]) && Printed([]) == []
  {}

  lemma LastLine(content: Bytes)
    requires content != [] && LF !in content
    ensures LineOk(Raw(content, []), true)
  {}

  lemma LineTaken(bytes: Bytes, start: nat, contentEnd: nat, index: nat)
    requires start <= contentEnd <= index < |bytes| && LF !in bytes[start..index] && bytes[index] == LF
    requires contentEnd == if index > start && bytes[index-1] == CR then index - 1 else index
    ensures var ending := if contentEnd < index then [CR, LF] else [LF];
      && LineOk(Raw(bytes[start..contentEnd], ending), false)
      && bytes[..start] + bytes[start..contentEnd] + ending == bytes[..index+1]
    ensures LF !in bytes[index+1..index+1]
  {}

  lemma {:induction false} PrintedFront(lines: seq<Raw>)
    requires lines != []
    ensures Printed(lines) == lines[0].content + lines[0].ending + Printed(lines[1..])
  {
    if |lines| > 1 {
      PrintedFront(lines[..|lines|-1]);
      assert lines[..|lines|-1][1..] == lines[1..][..|lines|-2];
    }
  }

  /** Well-formed lines that print the same are the same. */
  lemma {:induction false} PrintedInjective(a: seq<Raw>, b: seq<Raw>)
    requires LinesOk(a) && LinesOk(b) && Printed(a) == Printed(b)
    ensures a == b
  {
    if a == [] {
      if b != [] { PrintedFront(b); }
    } else if b == [] {
      PrintedFront(a);
    } else {
      PrintedFront(a);
      PrintedFront(b);
      SameFirstLine(a[0], Printed(a[1..]), |a| == 1, b[0], Printed(b[1..]), |b| == 1);
      assert forall i :: 0 <= i < |a[1..]| ==> a[1..][i] == a[i+1];
      assert forall i :: 0 <= i < |b[1..]| ==> b[1..][i] == b[i+1];
      PrintedInjective(a[1..], b[1..]);
      assert a == [a[0]] + a[1..] && b == [b[0]] + b[1..];
    }
  }

  /** How far a line's content reaches is fixed by the first line feed. */
  lemma SameFirstLine(a: Raw, x: Bytes, aLast: bool, b: Raw, y: Bytes, bLast: bool)
    requires LineOk(a, aLast) && LineOk(b, bLast) && (aLast ==> x == []) && (bLast ==> y == [])
    requires a.content + a.ending + x == b.content + b.ending + y
    ensures a == b && x == y
  {
    var s := a.content + a.ending + x;
    var m, n := |a.content| + |a.ending|, |b.content| + |b.ending|;
    LineEndsAt(a, x);
    LineEndsAt(b, y);
    assert m == n;
    assert a.content + a.ending == s[..m] && b.content + b.ending == s[..m];
    assert x == s[m..] && y == s[m..];
    assert a.ending != [] ==> s[m-1] == LF;
    assert |a.content + a.ending| >= 2 && a.ending != [] ==> (a.ending == [CR, LF] <==> s[m-2] == CR);
    assert |b.content + b.ending| >= 2 && b.ending != [] ==> (b.ending == [CR, LF] <==> s[m-2] == CR);
    assert a.content == s[..|a.content|] && b.content == s[..|b.content|];
    assert a.ending == s[|a.content|..m] && b.ending == s[|b.content|..m];
  }

  lemma LineEndsAt(r: Raw, rest: Bytes)
    requires LineOk(r, rest == []) || LineOk(r, false)
    ensures var s, m := r.content + r.ending + rest, |r.content| + |r.ending|;
      && (forall i :: 0 <= i < m - 1 ==> s[i] != LF)
      && (r.ending != [] ==> m > 0 && s[m-1] == LF)
      && (r.ending == [] ==> m == |s| > 0 && s[m-1] != LF)
  {}

  // ---- Fields ----------------------------------------------------------------------------

  predicate IsSeparator(b: Byte) { b == SPACE || b == TAB }

  predicate NoSeparator(s: Bytes) { forall i :: 0 <= i < |s| ==> !IsSeparator(s[i]) }

  /** How long the field at the front is. */
  function FieldLength(s: Bytes): (n: nat)
    ensures n <= |s| && NoSeparator(s[..n]) && (n < |s| ==> IsSeparator(s[n]))
  {
    if s == [] || IsSeparator(s[0]) then 0 else 1 + FieldLength(s[1..])
  }

  /** split([' ', '\t']) without the empty parts. */
  function Fields(s: Bytes): (r: seq<Bytes>)
    ensures forall i :: 0 <= i < |r| ==> r[i] != [] && NoSeparator(r[i])
  {
    if s == [] then []
    else if IsSeparator(s[0]) then Fields(s[1..])
    else [s[..FieldLength(s)]] + Fields(s[FieldLength(s)..])
  }

  lemma {:induction false} FieldEnds(field: Bytes, rest: Bytes)
    requires NoSeparator(field) && (rest == [] || IsSeparator(rest[0]))
    ensures FieldLength(field + rest) == |field|
  {
    if field == [] {
      assert field + rest == rest;
    } else {
      assert (field + rest)[1..] == field[1..] + rest;
      FieldEnds(field[1..], rest);
    }
  }

  lemma FieldThen(field: Bytes, separator: Byte, rest: Bytes)
    requires field != [] && NoSeparator(field) && IsSeparator(separator)
    ensures Fields(field + [separator] + rest) == [field] + Fields(rest)
  {
    var s := field + [separator] + rest;
    assert s == field + ([separator] + rest);
    FieldEnds(field, [separator] + rest);
    assert s[..|field|] == field && s[|field|..][1..] == rest && s[0] == field[0];
  }

  lemma LastField(field: Bytes)
    requires field != [] && NoSeparator(field)
    ensures Fields(field) == [field]
  {
    FieldEnds(field, []);
    assert field + [] == field && field[..|field|] == field;
  }

  /** Every byte that is not a separator is in some field. */
  lemma {:induction false} FieldsCover(s: Bytes, k: nat) returns (f: nat)
    requires k < |s| && !IsSeparator(s[k])
    ensures f < |Fields(s)| && s[k] in Fields(s)[f]
  {
    if IsSeparator(s[0]) {
      f := FieldsCover(s[1..], k - 1);
    } else if k < FieldLength(s) {
      f := 0;
      assert s[..FieldLength(s)][k] == s[k];
    } else {
      f := FieldsCover(s[FieldLength(s)..], k - FieldLength(s));
      f := f + 1;
    }
  }

  predicate IsBlank(s: Bytes) { forall i :: 0 <= i < |s| ==> IsSeparator(s[i]) }

  lemma {:induction false} BlankHasNoFields(s: Bytes)
    ensures IsBlank(s) <==> Fields(s) == []
  {
    if s != [] && IsSeparator(s[0]) { BlankHasNoFields(s[1..]); }
  }

  // ---- White space -------------------------------------------------------------------------

  predicate IsWhitespace(codePoint: nat) {
    || 0x09 <= codePoint <= 0x0D || codePoint == 0x20 || codePoint == 0x85 || codePoint == 0xA0
    || codePoint == 0x1680 || 0x2000 <= codePoint <= 0x200A || codePoint == 0x2028 || codePoint == 0x2029
    || codePoint == 0x202F || codePoint == 0x205F || codePoint == 0x3000
  }

  predicate StartsWithWhitespace(s: Bytes)
    requires s != []
  {
    ScanChar(s).Char? && IsChar(s[..ScanChar(s).length]) && IsWhitespace(CodePoint(s[..ScanChar(s).length]))
  }

  /** value.chars().any(char::is_whitespace). */
  predicate HasWhitespace(s: Bytes)
    decreases |s|
  {
    s != [] && (StartsWithWhitespace(s) || HasWhitespace(s[if ScanChar(s).Char? then ScanChar(s).length else 1..]))
  }

  /** No space, tab or line break gets through. */
  lemma {:induction false} AsciiWhitespace(s: Bytes, k: nat)
    requires k < |s| && IsWhitespace(s[k]) && s[k] <= 0x7F
    ensures HasWhitespace(s)
  {
    var n := if ScanChar(s).Char? then ScanChar(s).length else 1;
    ScanFindsChar(s, n);
    if k >= n {
      AsciiWhitespace(s[n..], k - n);
    } else {
      assert s[..n][k] == s[k];
    }
  }

  // ---- Checksums and sizes -------------------------------------------------------------------

  function HexLower(n: nat): Byte
    requires n < 16
  {
    if n < 10 then 0x30 + n else 0x61 + n - 10
  }

  function HexDigitValue(b: Byte): Option<nat> {
    if 0x30 <= b <= 0x39 then Some(b - 0x30)
    else if 0x61 <= b <= 0x66 then Some(b - 0x61 + 10)
    else if 0x41 <= b <= 0x46 then Some(b - 0x41 + 10)
    else None
  }

  /** hex::encode. */
  function HexEncode(s: Bytes): (r: Bytes)
    ensures |r| == 2 * |s|
  {
    if s == [] then [] else [HexLower(s[0] / 16), HexLower(s[0] % 16)] + HexEncode(s[1..])
  }

  /** hex::decode: either case, an even number of digits. */
  function HexDecode(s: Bytes): (r: Option<Bytes>)
    ensures r.Some? ==> |s| == 2 * |r.value| && forall i :: 0 <= i < |s| ==> HexDigitValue(s[i]).Some?
  {
    if s == [] then Some([])
    else if |s| == 1 || HexDigitValue(s[0]).None? || HexDigitValue(s[1]).None? then None
    else
      var rest := HexDecode(s[2..]);
      if rest.None? then None else Some([HexDigitValue(s[0]).value * 16 + HexDigitValue(s[1]).value] + rest.value)
  }

  lemma {:induction false} HexRoundTrip(s: Bytes)
    ensures HexDecode(HexEncode(s)) == Some(s)
  {
    if s != [] {
      HexRoundTrip(s[1..]);
      assert HexEncode(s)[2..] == HexEncode(s[1..]);
      assert s == [s[0]] + s[1..];
    }
  }

  function Decimal(n: nat): (r: Bytes)
    ensures r != [] && forall i :: 0 <= i < |r| ==> 0x30 <= r[i] <= 0x39
  {
    (if n < 10 then [] else Decimal(n / 10)) + [0x30 + n % 10]
  }

  function Digits(s: Bytes): (r: Option<nat>)
    ensures r.Some? ==> forall i :: 0 <= i < |s| ==> 0x30 <= s[i] <= 0x39
  {
    if s == [] then Some(0) else
      var front, last := Digits(s[..|s|-1]), s[|s|-1];
      if front.None? || !(0x30 <= last <= 0x39) then None else Some(front.value * 10 + (last - 0x30))
  }

  const U64_LIMIT: nat := 0x1_0000_0000_0000_0000

  /** u64::from_str: digits, perhaps behind a plus sign, that do not overflow. */
  function ParseU64(s: Bytes): Option<nat> {
    var digits := if s != [] && s[0] == 0x2B then s[1..] else s;
    if digits == [] || Digits(digits).None? || Digits(digits).value >= U64_LIMIT then None else Digits(digits)
  }

  lemma {:induction false} DecimalRoundTrip(n: nat)
    ensures Digits(Decimal(n)) == Some(n)
  {
    var front: Bytes := if n < 10 then [] else Decimal(n / 10);
    if n >= 10 { DecimalRoundTrip(n / 10); }
    assert Decimal(n) == front + [0x30 + n % 10] && Decimal(n)[..|front|] == front;
    assert Digits(front) == Some(n / 10);
  }

  lemma SizeRoundTrip(n: nat)
    requires n < U64_LIMIT
    ensures ParseU64(Decimal(n)) == Some(n)
  {
    DecimalRoundTrip(n);
  }

  lemma {:induction false} AsciiIsText(s: Bytes)
    requires forall i :: 0 <= i < |s| ==> s[i] <= 0x7F
    ensures IsText(s)
  {
    if s != [] { AsciiIsText(s[1..]); }
  }
}
