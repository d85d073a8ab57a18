/** The pack header travels in a Zstandard skippable frame (section 3.1.2 of RFC 8878). */
module SkippableFrame {
  import opened ByteStrings

  type U32 = n: int | 0 <= n < 0x1_0000_0000

  const SKIPPABLE_MAGIC_MASK: U32 := 0x184D2A50

  function WriteU32(n: U32): (r: Bytes)
    ensures |r| == 4
  {
    [n % 0x100, n / 0x100 % 0x100, n / 0x1_0000 % 0x100, n / 0x100_0000]
  }

  function ReadU32(b: Bytes): U32
    requires |b| == 4
  {
    b[0] as int + 0x100 * (b[1] as int) + 0x1_0000 * (b[2] as int) + 0x100_0000 * (b[3] as int)
  }

  lemma U32RoundTrip(n: U32)
    ensures ReadU32(WriteU32(n)) == n
  {
    var a, b := n / 0x100, n / 0x1_0000;
    assert n == 0x100 * a + n % 0x100;
    assert a == 0x100 * (a / 0x100) + a % 0x100 && a / 0x100 == b;
    assert b == 0x100 * (b / 0x100) + b % 0x100 && b / 0x100 == n / 0x100_0000;
  }

  predicate HasMagic(magic: U32) {
    (magic as bv32) & 0x184D2A50 == 0x184D2A50
  }

  datatype Result = Frame(data: Bytes, size: nat) | UnexpectedEof | NotSkippable

  /** write_skippable_frame: the length is cut to 32 bits. */
  function WriteSkippableFrame(data: Bytes): Bytes {
    WriteU32(SKIPPABLE_MAGIC_MASK) + WriteU32(|data| % 0x1_0000_0000) + data
  }

  /** read_skippable_frame. */
  function ReadSkippableFrame(input: Bytes): Result {
    if |input| < 4 then UnexpectedEof
    else if !HasMagic(ReadU32(input[..4])) then NotSkippable
    else if |input| < 8 then UnexpectedEof
    else
      var size := ReadU32(input[4..8]);
      if |input| < 8 + size then UnexpectedEof else Frame(input[8..8 + size], 8 + size)
  }

  /** The header comes back, with the place where the frames start, exactly when its
      length fits 32 bits. */
  lemma SkippableRoundTrip(data: Bytes, body: Bytes)
    ensures ReadSkippableFrame(WriteSkippableFrame(data) + body) == Frame(data, |WriteSkippableFrame(data)|)
      <==> |data| < 0x1_0000_0000
    ensures |data| < 0x1_0000_0000 ==> (WriteSkippableFrame(data) + body)[8 + |data|..] == body
  {
    var input := WriteSkippableFrame(data) + body;
    U32RoundTrip(SKIPPABLE_MAGIC_MASK);
    U32RoundTrip(|data| % 0x1_0000_0000);
    assert input[..4] == WriteU32(SKIPPABLE_MAGIC_MASK);
    assert input[4..8] == WriteU32(|data| % 0x1_0000_0000);
    assert input[8..8 + |data|] == data;
  }

  /** The bytes at the front, and every magic number a skippable frame may have: the last
      four bits are free. A frame of compressed data has another one. */
  lemma MagicNumbers(data: Bytes)
    ensures WriteSkippableFrame(data)[..4] == [0x50, 0x2A, 0x4D, 0x18]
    ensures HasMagic(0x184D2A50) && HasMagic(0x184D2A51) && HasMagic(0x184D2A52) && HasMagic(0x184D2A54) && HasMagic(0x184D2A58)
    ensures HasMagic(0x184D2A5F) && !HasMagic(0xFD2FB528) && !HasMagic(0x184D2A40) && !HasMagic(0x184D2A10)
  {
    assert WriteU32(SKIPPABLE_MAGIC_MASK) == [0x50, 0x2A, 0x4D, 0x18];
  }

  /** What is read of a frame, whole or cut short. */
  lemma FrameMeans(magic: U32, data: Bytes, body: Bytes, cut: nat)
    requires |data| < 0x1_0000_0000 && cut < 8 + |data|
    ensures var frame := WriteU32(magic) + WriteU32(|data|) + data;
      && ReadSkippableFrame(frame + body) == (if HasMagic(magic) then Frame(data, |frame|) else NotSkippable)
      && ReadSkippableFrame(frame[..cut]) == (if cut < 4 || HasMagic(magic) then UnexpectedEof else NotSkippable)
  {
    hide HasMagic, WriteU32, ReadU32;
    var frame := WriteU32(magic) + WriteU32(|data|) + data;
    U32RoundTrip(magic);
    U32RoundTrip(|data|);
    var input := frame + body;
    assert input[..4] == WriteU32(magic) && input[4..8] == WriteU32(|data|) && input[8..8 + |data|] == data;
    if cut >= 4 { assert frame[..cut][..4] == WriteU32(magic); }
    if cut >= 8 { assert frame[..cut][4..8] == WriteU32(|data|); }
  }
}
