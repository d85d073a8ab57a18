/** How the target of a symbolic link is stored, on Unix. */
module Symlinks {
  import opened ByteStrings
  import opened Snapshots
  import opened Utf8

  datatype TargetError = InvalidUtf8 | InvalidPortable | AbsolutePortable | ContainsNul | Unsupported
  datatype Decoded = Target(path: Bytes) | Undecodable(error: TargetError)
  datatype Stored = Stored(bytes: Bytes, encoding: SymlinkTargetEncoding)

  predicate AsciiLetter(b: Byte) { 0x41 <= b <= 0x5A || 0x61 <= b <= 0x7A }

  /** "C:" at the front. */
  predicate DrivePrefix(bytes: Bytes) { |bytes| >= 2 && AsciiLetter(bytes[0]) && bytes[1] == 0x3A }

  /** portable_native_target: what any system can make a link of. */
  function PortableTarget(target: Bytes): Option<Bytes> {
    if !IsText(target) then None
    else if target == [] || target[0] == 0x2F then None
    else if 0x5C in target then None
    else if DrivePrefix(target) then None
    else Some(target)
  }

  /** encode_target. */
  function EncodeTarget(target: Bytes): Stored {
    match PortableTarget(target)
    case Some(portable) => Stored(portable, PortableUtf8)
    case None => Stored(target, UnixBytes)
  }

  /** encode_target_as: the target again, the way it is stored in the pack. */
  function EncodeTargetAs(target: Bytes, encoding: SymlinkTargetEncoding): Option<Bytes> {
    match encoding
    case PortableUtf8 => PortableTarget(target)
    case UnixBytes => Some(target)
    case WindowsUtf16Le => None
  }

  function DecodePortable(bytes: Bytes): Decoded {
    if !IsText(bytes) then Undecodable(InvalidUtf8)
    else if bytes == [] || 0x00 in bytes || 0x5C in bytes then Undecodable(InvalidPortable)
    else if bytes[0] == 0x2F || DrivePrefix(bytes) then Undecodable(AbsolutePortable)
    else Target(bytes)
  }

  /** decode_target. */
  function DecodeTarget(bytes: Bytes, encoding: SymlinkTargetEncoding): Decoded {
    match encoding
    case PortableUtf8 => DecodePortable(bytes)
    case UnixBytes => if 0x00 in bytes then Undecodable(ContainsNul) else Target(bytes)
    case WindowsUtf16Le => Undecodable(Unsupported)
  }

  /** Storing a target and reading it back gives the target: the system has none with a
      NUL in it. */
  lemma TargetRoundTrip(target: Bytes)
    requires '\0' as int !in target
    ensures var stored := EncodeTarget(target); DecodeTarget(stored.bytes, stored.encoding) == Target(target)
  {}

  /** Stored bytes decode if and only if they are what some target is stored as, and then
      that target is what comes out. */
  lemma DecodesIff(bytes: Bytes, encoding: SymlinkTargetEncoding, target: Bytes)
    ensures DecodeTarget(bytes, encoding) == Target(target) <==> '\0' as int !in target && EncodeTargetAs(target, encoding) == Some(bytes)
  {}

  /** The portable targets are stored as such, and only they. */
  lemma PortableIff(target: Bytes)
    ensures EncodeTarget(target).encoding.PortableUtf8? <==> EncodeTargetAs(target, PortableUtf8).Some?
    ensures EncodeTargetAs(target, EncodeTarget(target).encoding) == Some(EncodeTarget(target).bytes)
    ensures !EncodeTarget(target).encoding.WindowsUtf16Le?
  {}

  /** In so many characters: a portable target is relative text without backslash and
      drive letter. */
  lemma PortableMeans(bytes: Bytes)
    ensures DecodeTarget(bytes, PortableUtf8).Target? <==>
      && IsText(bytes) && bytes != []
      && '\0' as int !in bytes && '\\' as int !in bytes
      && bytes[0] != '/' as int
      && !(|bytes| > 1 && ('A' as int <= bytes[0] <= 'Z' as int || 'a' as int <= bytes[0] <= 'z' as int) && bytes[1] == ':' as int)
  {}
}
