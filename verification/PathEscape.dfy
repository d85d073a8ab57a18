/** Paths as text: whatever is not printable UTF-8 is written as %XX. */
module PathEscape {
  import opened ByteStrings
  import opened Utf8

  const PERCENT: Byte := 0x25

  function HexDigit(n: nat): Byte
    requires n < 16
  {
    if n < 10 then 0x30 + n else 0x41 + n - 10
  }

  function HexValue(b: Byte): Option<nat> {
    if 0x30 <= b <= 0x39 then Some(b - 0x30) else if 0x41 <= b <= 0x46 then Some(b - 0x41 + 10) else None
  }

  /** format!("%{byte:02X}") for every byte. */
  function PercentAll(s: Bytes): Bytes {
    if s == [] then [] else PercentAll(s[..|s|-1]) + Percent(s[|s|-1])
  }

  function Percent(b: Byte): Bytes { [PERCENT, HexDigit(b / 16), HexDigit(b % 16)] }

  predicate IsControl(codePoint: nat) { codePoint < 0x20 || 0x7F <= codePoint < 0xA0 }

  predicate MustEscape(c: Bytes)
    requires IsChar(c)
  {
    c == [PERCENT] || IsControl(CodePoint(c))
  }

  function EscapeChar(c: Bytes): Bytes
    requires IsChar(c)
  {
    if MustEscape(c) then PercentAll(c) else c
  }

  /** Character by character, with the bytes at fault in between. */
  function Escape(s: Bytes): Bytes {
    if s == [] then [] else
      ScanFindsChar(s, if ScanChar(s).Char? then ScanChar(s).length else 0);
      match ScanChar(s)
      case Char(n) => EscapeChar(s[..n]) + Escape(s[n..])
      case Bad(n) => PercentAll(s[..n]) + Escape(s[n..])
      case Truncated => PercentAll(s)
  }

  // ---- The format, spelled out -------------------------------------------------------------

  /** A byte is escaped by a percent sign and two capital hexadecimal digits. */
  lemma PercentSpelled(b: Byte)
    ensures |Percent(b)| == 3 && Percent(b)[0] == '%' as int
    ensures Percent(b)[1] == "0123456789ABCDEF"[b / 16] as int && Percent(b)[2] == "0123456789ABCDEF"[b % 16] as int
  {
    DigitSpelled(b / 16, 0);
    DigitSpelled(b % 16, 0);
  }

  lemma DigitSpelled(n: nat, b: Byte)
    ensures n < 16 ==> HexDigit(n) == "0123456789ABCDEF"[n] as int
    ensures HexValue(b) == Some(n) <==> n < 16 && b == "0123456789ABCDEF"[n] as int
  {}

  /** Which characters are escaped: the percent sign and the control characters of the
      Unicode standard (the category Cc). */
  lemma EscapesListed(c: Bytes)
    requires IsChar(c)
    ensures MustEscape(c) <==> CodePoint(c) == '%' as int || CodePoint(c) <= 0x1F || 0x7F <= CodePoint(c) <= 0x9F
  {
    CharIsEncoded(c);
    assert CodePoint(c) == 0x25 ==> Encoded(0x25) == [0x25];
  }

  // ---- The escape step by step -----------------------------------------------------------

  lemma EscapeStep(c: Bytes, rest: Bytes)
    requires IsChar(c)
    ensures Escape(c + rest) == EscapeChar(c) + Escape(rest)
  {}

  lemma Associate<T>(a: seq<T>, b: seq<T>, c: seq<T>)
    ensures a + b + c == a + (b + c)
  {}

  lemma {:induction false} EscapeSplit(text: Bytes, rest: Bytes)
    requires IsText(text)
    ensures Escape(text + rest) == Escape(text) + Escape(rest)
  {
    if text == [] {
      assert text + rest == rest;
    } else {
      hide ScanChar, IsChar, EscapeChar, Escape, IsText, CodePoint, PercentAll;
      FirstChar(text);
      var n := ScanChar(text).length;
      EscapeSplit(text[n..], rest);
      EscapeOnward(text[..n], text[n..], rest);
    }
  }

  lemma EscapeOnward(c: Bytes, more: Bytes, rest: Bytes)
    requires IsChar(c) && Escape(more + rest) == Escape(more) + Escape(rest)
    ensures Escape(c + more + rest) == Escape(c + more) + Escape(rest)
  {
    hide IsChar, EscapeChar, Escape;
    Associate(c, more, rest);
    EscapeStep(c, more + rest);
    EscapeStep(c, more);
    Associate(EscapeChar(c), Escape(more), Escape(rest));
  }

  lemma EscapeNothing()
    ensures Escape([]) == [] && IsText([])
  {}

  /** push_escaped_str. */
  method PushEscapedStr(output: Bytes, value: Bytes) returns (pushed: Bytes)
    requires IsText(value)
    ensures pushed == output + Escape(value)
  {
    hide ScanChar, IsChar, Escape, IsText, CodePoint, PercentAll;
    pushed := output;
    var rest := value;
    while rest != []
      invariant IsText(rest) && pushed + Escape(rest) == output + Escape(value)
      decreases |rest|
    {
      FirstChar(rest);
      var n := ScanChar(rest).length;
      var character := rest[..n];
      EscapeStep(character, rest[n..]);
      Associate(pushed, EscapeChar(character), Escape(rest[n..]));
      if MustEscape(character) {
        pushed := pushed + PercentAll(character);
      } else {
        pushed := pushed + character;
      }
      rest := rest[n..];
    }
    EscapeNothing();
    assert pushed + [] == pushed;
  }

  /** escape_bytes: each round takes the valid prefix and what is at fault behind it. */
  method EscapeBytes(bytes: Bytes) returns (output: Bytes)
    ensures output == Escape(bytes)
  {
    hide ScanChar, Escape, IsText, PercentAll, ValidUpTo;
    EscapeNothing();
    output := [];
    var remaining := bytes;
    while remaining != []
      invariant output + Escape(remaining) == Escape(bytes)
      decreases |remaining|
    {
      var validLength := ValidUpTo(remaining);
      ValidPrefix(remaining);
      var valid, rest := remaining[..validLength], remaining[validLength..];
      assert remaining == valid + rest;
      EscapeSplit(valid, rest);
      Associate(output, Escape(valid), Escape(rest));
      output := PushEscapedStr(output, valid);
      if validLength == |remaining| {
        assert rest == [] && output + [] == output;
        return;
      }
      var scan := ScanChar(rest);
      var invalidLength := if scan.Bad? then scan.length else |rest|;
      InvalidPart(rest, invalidLength);
      Associate(output, PercentAll(rest[..invalidLength]), Escape(rest[invalidLength..]));
      output := output + PercentAll(rest[..invalidLength]);
      remaining := rest[invalidLength..];
    }
    assert output + [] == output;
  }

  lemma InvalidPart(s: Bytes, n: nat)
    requires s != [] && !ScanChar(s).Char? && n == if ScanChar(s).Bad? then ScanChar(s).length else |s|
    ensures Escape(s) == PercentAll(s[..n]) + Escape(s[n..])
  {
    assert s[..|s|] == s;
  }

  // ---- What escaping is for ----------------------------------------------------------------

  /** The one decoder for all escaped paths. */
  function PercentDecode(s: Bytes): Bytes {
    if s == [] then []
    else if s[0] == PERCENT && |s| >= 3 && HexValue(s[1]).Some? && HexValue(s[2]).Some? then
      [HexValue(s[1]).value * 16 + HexValue(s[2]).value] + PercentDecode(s[3..])
    else [s[0]] + PercentDecode(s[1..])
  }

  lemma PercentRoundTrip(b: Byte, rest: Bytes)
    ensures PercentDecode(Percent(b) + rest) == [b] + PercentDecode(rest)
  {}

  lemma {:induction false} PercentAllRoundTrip(s: Bytes, rest: Bytes)
    ensures PercentDecode(PercentAll(s) + rest) == s + PercentDecode(rest)
  {
    if s == [] {
      assert PercentAll(s) + rest == rest;
    } else {
      var front, last := s[..|s|-1], s[|s|-1];
      assert PercentAll(s) + rest == PercentAll(front) + (Percent(last) + rest);
      PercentAllRoundTrip(front, Percent(last) + rest);
      PercentRoundTrip(last, rest);
      assert s == front + [last];
    }
  }

  lemma {:induction false} PlainRoundTrip(s: Bytes, rest: Bytes)
    requires PERCENT !in s
    ensures PercentDecode(s + rest) == s + PercentDecode(rest)
  {
    if s == [] {
      assert s + rest == rest;
    } else {
      assert (s + rest)[1..] == s[1..] + rest;
      PlainRoundTrip(s[1..], rest);
    }
  }

  lemma CharRoundTrip(c: Bytes, rest: Bytes)
    requires IsChar(c)
    ensures PercentDecode(EscapeChar(c) + rest) == c + PercentDecode(rest)
  {
    if MustEscape(c) { PercentAllRoundTrip(c, rest); } else { PlainRoundTrip(c, rest); }
  }

  /** How much of a non-empty input one step escapes. */
  function Taken(s: Bytes): (n: nat)
    requires s != []
    ensures 1 <= n <= |s|
  {
    if ScanChar(s).Truncated? then |s| else ScanChar(s).length
  }

  lemma EscapeFirst(s: Bytes)
    requires s != []
    ensures var n := Taken(s);
      if ScanChar(s).Char? then IsChar(s[..n]) && Escape(s) == EscapeChar(s[..n]) + Escape(s[n..])
      else Escape(s) == PercentAll(s[..n]) + Escape(s[n..])
    ensures s == s[..Taken(s)] + s[Taken(s)..]
  {
    hide Escape, ScanChar, IsChar, PercentAll;
    var n := Taken(s);
    ScanFindsChar(s, n);
    assert s == s[..n] + s[n..];
    if ScanChar(s).Char? { EscapeStep(s[..n], s[n..]); } else { InvalidPart(s, n); }
  }

  /** Decoding gives the path back, for every byte string, wherever it stops being UTF-8. */
  lemma {:induction false} EscapeRoundTrip(s: Bytes)
    ensures PercentDecode(Escape(s)) == s
  {
    if s != [] {
      hide Escape, ScanChar, PercentDecode, PercentAll, EscapeChar, IsChar, Taken;
      var n := Taken(s);
      EscapeFirst(s);
      EscapeRoundTrip(s[n..]);
      if ScanChar(s).Char? { CharRoundTrip(s[..n], Escape(s[n..])); } else { PercentAllRoundTrip(s[..n], Escape(s[n..])); }
    }
  }

  /** No two paths look alike. */
  lemma EscapeInjective(a: Bytes, b: Bytes)
    ensures Escape(a) == Escape(b) ==> a == b
  {
    EscapeRoundTrip(a);
    EscapeRoundTrip(b);
  }

  /** Text without control characters. */
  ghost predicate Printable(s: Bytes) {
    s == [] || (ScanChar(s).Char? && IsChar(s[..ScanChar(s).length]) && !IsControl(CodePoint(s[..ScanChar(s).length]))
                && Printable(s[ScanChar(s).length..]))
  }

  lemma PrintableChar(c: Bytes, rest: Bytes)
    requires IsChar(c) && !IsControl(CodePoint(c)) && Printable(rest)
    ensures Printable(c + rest)
  {}

  lemma PercentPrintable(b: Byte, rest: Bytes)
    requires Printable(rest)
    ensures Printable(Percent(b) + rest)
  {}

  lemma {:induction false} PercentAllPrintable(s: Bytes, rest: Bytes)
    requires Printable(rest)
    ensures Printable(PercentAll(s) + rest)
  {
    hide Printable, Percent;
    if s == [] {
      assert PercentAll(s) + rest == rest;
    } else {
      var front, last := s[..|s|-1], s[|s|-1];
      PercentPrintable(last, rest);
      PercentAllPrintable(front, Percent(last) + rest);
      Associate(PercentAll(front), Percent(last), rest);
    }
  }

  /** Whatever the bytes, the result is UTF-8 text a terminal can be given. */
  lemma {:induction false} EscapedIsPrintable(s: Bytes)
    ensures Printable(Escape(s))
  {
    if s != [] {
      hide Escape, ScanChar, PercentAll, IsChar, Taken, Printable, CodePoint;
      var n := Taken(s);
      EscapeFirst(s);
      EscapedIsPrintable(s[n..]);
      if !ScanChar(s).Char? || MustEscape(s[..n]) {
        PercentAllPrintable(s[..n], Escape(s[n..]));
      } else {
        PrintableChar(s[..n], Escape(s[n..]));
      }
    }
  }

  /** What is printable already and has no percent sign stays as it is. */
  lemma {:induction false} PlainStaysPlain(s: Bytes)
    requires Printable(s) && PERCENT !in s
    ensures Escape(s) == s
  {
    if s != [] {
      hide Escape, ScanChar, IsChar, CodePoint, PercentAll;
      var n := Taken(s);
      EscapeFirst(s);
      PlainStaysPlain(s[n..]);
      assert s[..n][0] == s[0];
    }
  }
}
