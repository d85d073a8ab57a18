/** UTF-8 as a validating decoder reads it: how far the input is text, and how many bytes
    are at fault where it is not. */
module Utf8 {
  import opened ByteStrings

  predicate Tail(b: Byte) { 0x80 <= b <= 0xBF }

  /** One character, by the grammar of section 4 of RFC 3629. */
  predicate IsChar(c: Bytes) {
    match |c|
    case 1 => c[0] <= 0x7F
    case 2 => 0xC2 <= c[0] <= 0xDF && Tail(c[1])
    case 3 =>
      && Tail(c[2])
      && (|| (c[0] == 0xE0 && 0xA0 <= c[1] <= 0xBF)
          || (0xE1 <= c[0] <= 0xEC && Tail(c[1]))
          || (c[0] == 0xED && 0x80 <= c[1] <= 0x9F)
          || (0xEE <= c[0] <= 0xEF && Tail(c[1])))
    case 4 =>
      && Tail(c[2]) && Tail(c[3])
      && (|| (c[0] == 0xF0 && 0x90 <= c[1] <= 0xBF)
          || (0xF1 <= c[0] <= 0xF3 && Tail(c[1]))
          || (c[0] == 0xF4 && 0x80 <= c[1] <= 0x8F))
    case _ => false
  }

  function CodePoint(c: Bytes): nat
    requires IsChar(c)
  {
    match |c|
    case 1 => c[0]
    case 2 => (c[0] - 0xC0) as int * 0x40 + (c[1] - 0x80)
    case 3 => (c[0] - 0xE0) as int * 0x1000 + (c[1] - 0x80) as int * 0x40 + (c[2] - 0x80)
    case _ => (c[0] - 0xF0) as int * 0x4_0000 + (c[1] - 0x80) as int * 0x1000 + (c[2] - 0x80) as int * 0x40 + (c[3] - 0x80)
  }

  /** The characters there are: the surrogates are not among them. */
  predicate IsScalar(codePoint: nat) { codePoint < 0xD800 || 0xE000 <= codePoint < 0x11_0000 }

  /** The encoding, by the table in section 3 of RFC 3629: six bits in every byte but the
      first. */
  function Encoded(codePoint: nat): Bytes
    requires codePoint < 0x11_0000
  {
    var first, second, third := codePoint / 64, codePoint / 64 / 64, codePoint / 64 / 64 / 64;
    if codePoint < 0x80 then [codePoint]
    else if codePoint < 0x800 then [0xC0 + first, 0x80 + codePoint % 64]
    else if codePoint < 0x1_0000 then [0xE0 + second, 0x80 + first % 64, 0x80 + codePoint % 64]
    else [0xF0 + third, 0x80 + second % 64, 0x80 + first % 64, 0x80 + codePoint % 64]
  }

  lemma SixBits(high: nat, low: nat)
    requires low < 64
    ensures (high * 64 + low) / 64 == high && (high * 64 + low) % 64 == low
  {}

  lemma EncodedDecodes(codePoint: nat)
    requires IsScalar(codePoint)
    ensures IsChar(Encoded(codePoint)) && CodePoint(Encoded(codePoint)) == codePoint
  {
    var first, second, third := codePoint / 64, codePoint / 64 / 64, codePoint / 64 / 64 / 64;
    assert codePoint == first * 64 + codePoint % 64 && first == second * 64 + first % 64 && second == third * 64 + second % 64;
  }

  lemma ThreeBytes(high: nat, mid: nat, low: nat)
    requires high < 16 && mid < 64 && low < 64
    ensures var codePoint := high * 0x1000 + mid * 0x40 + low;
      codePoint / 64 == high * 64 + mid && codePoint % 64 == low && codePoint / 64 % 64 == mid && codePoint / 64 / 64 == high
  {
    SixBits(high, mid);
    SixBits(high * 64 + mid, low);
  }

  lemma FourBytes(third: nat, second: nat, first: nat, low: nat)
    requires second < 64 && first < 64 && low < 64
    ensures var codePoint := third * 0x4_0000 + second * 0x1000 + first * 0x40 + low;
      && codePoint % 64 == low && codePoint / 64 % 64 == first
      && codePoint / 64 / 64 % 64 == second && codePoint / 64 / 64 / 64 == third
  {
    SixBits(third, second);
    SixBits(third * 64 + second, first);
    SixBits((third * 64 + second) * 64 + first, low);
  }

  lemma ThreeEncoded(c: Bytes)
    requires |c| == 3 && IsChar(c)
    ensures IsScalar(CodePoint(c)) && Encoded(CodePoint(c)) == c
  {
    ThreeBytes(c[0] - 0xE0, c[1] - 0x80, c[2] - 0x80);
  }

  lemma FourEncoded(c: Bytes)
    requires |c| == 4 && IsChar(c)
    ensures IsScalar(CodePoint(c)) && Encoded(CodePoint(c)) == c
  {
    FourBytes(c[0] - 0xF0, c[1] - 0x80, c[2] - 0x80, c[3] - 0x80);
  }

  /** The grammar has exactly one character for every scalar value: its encoding. */
  lemma CharIsEncoded(c: Bytes)
    requires IsChar(c)
    ensures IsScalar(CodePoint(c)) && Encoded(CodePoint(c)) == c
  {
    if |c| == 3 {
      ThreeEncoded(c);
    } else if |c| == 4 {
      FourEncoded(c);
    } else if |c| == 2 {
      SixBits(c[0] - 0xC0, c[1] - 0x80);
    }
  }

  /** What the validator finds at the front of a non-empty input. */
  datatype Scan = Char(length: nat) | Bad(length: nat) | Truncated

  function Width(first: Byte): nat {
    if first <= 0x7F then 1
    else if 0xC2 <= first <= 0xDF then 2
    else if 0xE0 <= first <= 0xEF then 3
    else if 0xF0 <= first <= 0xF4 then 4
    else 0
  }

  predicate SecondFits(first: Byte, second: Byte) {
    if first == 0xE0 then 0xA0 <= second <= 0xBF
    else if first == 0xED then 0x80 <= second <= 0x9F
    else if first == 0xF0 then 0x90 <= second <= 0xBF
    else if first == 0xF4 then 0x80 <= second <= 0x8F
    else Tail(second)
  }

  /** from_utf8, one character of it, in the order in which it looks at the bytes. */
  function ScanChar(s: Bytes): (r: Scan)
    requires s != []
    ensures r.Char? ==> 1 <= r.length <= 4 && r.length <= |s|
    ensures r.Bad? ==> 1 <= r.length <= 3 && r.length <= |s|
  {
    var width := Width(s[0]);
    if width == 1 then Char(1)
    else if width == 0 then Bad(1)
    else if |s| == 1 then Truncated
    else if !SecondFits(s[0], s[1]) then Bad(1)
    else if width == 2 then Char(2)
    else if |s| == 2 then Truncated
    else if !Tail(s[2]) then Bad(2)
    else if width == 3 then Char(3)
    else if |s| == 3 then Truncated
    else if !Tail(s[3]) then Bad(3)
    else Char(4)
  }

  /** The scan finds a character exactly where the grammar has one. */
  lemma ScanFindsChar(s: Bytes, n: nat)
    requires s != []
    ensures ScanChar(s) == Char(n) <==> 1 <= n <= |s| && IsChar(s[..n])
  {}

  function Completion(s: Bytes): Bytes
    requires s != [] && ScanChar(s).Truncated?
  {
    var second: Byte := if s[0] == 0xED || s[0] == 0xF4 then 0x80 else 0xA0;
    if |s| == 1 then [second] + seq(Width(s[0]) - 2, _ => 0x80) else seq(Width(s[0]) - |s|, _ => 0x80)
  }

  /** Nothing at fault yet: the input is a character cut short. */
  lemma TruncatedMeans(s: Bytes)
    requires s != []
    ensures ScanChar(s).Truncated? <==> exists more :: more != [] && IsChar(s + more)
  {
    if ScanChar(s).Truncated? {
      assert IsChar(s + Completion(s));
    }
    forall more | more != [] && IsChar(s + more) ensures ScanChar(s).Truncated? {
      var c := s + more;
      assert forall i :: 0 <= i < |s| ==> c[i] == s[i];
    }
  }

  /** What is at fault is never the beginning of a character, and it is as long as it can
      be: without its last byte it could still have become one. */
  lemma BadMeans(s: Bytes)
    requires s != [] && ScanChar(s).Bad?
    ensures var n := ScanChar(s).length;
      && (n > 1 ==> ScanChar(s[..n]).Truncated?)
      && (|s| > n ==> !ScanChar(s[..n+1]).Truncated? && !ScanChar(s[..n+1]).Char?)
      && (n == 1 && |s| == 1 ==> !ScanChar(s).Truncated?)
  {}

  /** valid_up_to. */
  function ValidUpTo(s: Bytes): (n: nat)
    ensures n <= |s|
  {
    if s == [] || !ScanChar(s).Char? then 0 else ScanChar(s).length + ValidUpTo(s[ScanChar(s).length..])
  }

  predicate IsText(s: Bytes) { ValidUpTo(s) == |s| }

  /** A character with nothing but what follows it. */
  lemma CharThen(c: Bytes, rest: Bytes)
    requires IsChar(c)
    ensures ScanChar(c + rest) == Char(|c|) && (c + rest)[|c|..] == rest
    ensures IsText(c + rest) <==> IsText(rest)
  {}

  lemma {:induction false} TextThen(a: Bytes, b: Bytes)
    requires IsText(a) && IsText(b)
    ensures IsText(a + b)
  {
    if a == [] {
      assert a + b == b;
    } else {
      var n := ScanChar(a).length;
      ScanFindsChar(a, n);
      assert a + b == a[..n] + (a[n..] + b);
      TextThen(a[n..], b);
      CharThen(a[..n], a[n..] + b);
    }
  }

  /** The valid prefix is text, and it is the longest one made of whole characters: what
      follows it does not begin with a character. */
  lemma {:induction false} ValidPrefix(s: Bytes)
    ensures var n := ValidUpTo(s); IsText(s[..n]) && (n < |s| ==> !ScanChar(s[n..]).Char?)
  {
    if s != [] && ScanChar(s).Char? {
      hide ScanChar, IsChar;
      var k, n := ScanChar(s).length, ValidUpTo(s);
      ScanFindsChar(s, k);
      ValidPrefix(s[k..]);
      assert s[..n] == s[..k] + s[k..][..n-k];
      CharThen(s[..k], s[k..][..n-k]);
      assert s[n..] == s[k..][n-k..];
    }
  }

  /** Text that is not empty starts with a character, and the rest is text. */
  lemma FirstChar(s: Bytes)
    requires s != [] && IsText(s)
    ensures var n := ScanChar(s).length;
      ScanChar(s).Char? && n <= |s| && IsChar(s[..n]) && IsText(s[n..]) && s == s[..n] + s[n..]
  {}
}
