/** The bytes that are hashed to identify a snapshot by what it contains. */
module Identity {
  import opened ByteStrings
  import opened Algo
  import opened EntryPools
  import opened Orders
  import opened Snapshots
  import opened PackIndexes
  import PathPolicy

  function Ascii(s: string): Bytes { seq(|s|, i requires 0 <= i < |s| => (s[i] as int) % 0x100) }

  const HEADER: Bytes := Ascii("elfshaker-snapshot-identity") + [0] + Ascii("v3") + [0]

  function BigEndian(n: nat, width: nat): (r: Bytes)
    ensures |r| == width
  {
    if width == 0 then [] else BigEndian(n / 0x100, width - 1) + [n % 0x100]
  }

  function Limit(width: nat): nat { if width == 0 then 1 else 0x100 * Limit(width - 1) }

  lemma {:induction false} BigEndianInjective(a: nat, b: nat, width: nat)
    requires a < Limit(width) && b < Limit(width) && BigEndian(a, width) == BigEndian(b, width)
    ensures a == b
  {
    if width > 0 {
      var x, y := BigEndian(a / 0x100, width - 1), BigEndian(b / 0x100, width - 1);
      assert BigEndian(a, width)[..width-1] == x && BigEndian(b, width)[..width-1] == y;
      assert BigEndian(a, width)[width-1] == a % 0x100 && BigEndian(b, width)[width-1] == b % 0x100;
      BigEndianInjective(a / 0x100, b / 0x100, width - 1);
    }
  }

  function EncodingTag(e: SymlinkTargetEncoding): Byte {
    match e case PortableUtf8 => 0 case UnixBytes => 1 case WindowsUtf16Le => 2
  }

  function KindTag(k: SymlinkTargetKind): Byte {
    match k case ToFile => 0 case ToDirectory => 1 case Unknown => 2
  }

  function Tail(k: Key): Bytes {
    match k.metadata
    case Regular(mode) => [0] + k.checksum + BigEndian(mode, 4)
    case Symlink(encoding, kind) => [1] + k.checksum + [EncodingTag(encoding)] + [KindTag(kind)]
  }

  function EncodeKey(k: Key): Bytes { BigEndian(|k.path|, 8) + k.path + Tail(k) }

  function Encoded(keys: seq<Key>): Bytes {
    if keys == [] then [] else EncodeKey(keys[0]) + Encoded(keys[1..])
  }

  function Stream(keys: seq<Key>): Bytes { HEADER + BigEndian(|keys|, 8) + Encoded(keys) }

  // ---- The format, spelled out -------------------------------------------------------------

  lemma HeaderSpelled(i: nat)
    requires i < 31
    ensures |HEADER| == 31 && HEADER[i] == "elfshaker-snapshot-identity\0v3\0"[i] as int
  {}

  /** The last byte counts ones. */
  function Value(s: Bytes): nat { if s == [] then 0 else 0x100 * Value(s[..|s|-1]) + s[|s|-1] }

  lemma {:induction false} BigEndianReads(n: nat, width: nat)
    requires n < Limit(width)
    ensures Value(BigEndian(n, width)) == n
  {
    if width > 0 {
      BigEndianReads(n / 0x100, width - 1);
      assert BigEndian(n, width)[..width-1] == BigEndian(n / 0x100, width - 1);
    }
  }

  /** A file: its kind, 20 bytes of checksum and 4 of mode. A link: its kind, 20 bytes of
      checksum, and one byte each for how its target is stored and what it leads to. */
  lemma TailSpelled(k: Key)
    ensures Tail(k)[1..21] == k.checksum
    ensures k.metadata.Regular? ==> |Tail(k)| == 25 && Tail(k)[0] == 0 && Value(Tail(k)[21..]) == k.metadata.mode
    ensures k.metadata.Symlink? ==> |Tail(k)| == 23 && Tail(k)[0] == 1
    ensures k.metadata.Symlink? ==> Tail(k)[21] == match k.metadata.encoding case PortableUtf8 => 0 case UnixBytes => 1 case WindowsUtf16Le => 2
    ensures k.metadata.Symlink? ==> Tail(k)[22] == match k.metadata.kind case ToFile => 0 case ToDirectory => 1 case Unknown => 2
  {
    if k.metadata.Regular? {
      assert Limit(4) == 0x1_0000_0000;
      BigEndianReads(k.metadata.mode, 4);
      assert Tail(k)[21..] == BigEndian(k.metadata.mode, 4);
    }
  }

  /** An entry: 8 bytes for the length of its path, the path, and what the file is. */
  lemma EntrySpelled(k: Key)
    requires |k.path| < 0x1_0000_0000_0000_0000
    ensures var e, n := EncodeKey(k), |k.path|; |e| > 8 + n && Value(e[..8]) == n && e[8..8+n] == k.path && e[8+n..] == Tail(k)
  {
    assert Limit(8) == 0x1_0000_0000_0000_0000 by { assert Limit(4) == 0x1_0000_0000; }
    BigEndianReads(|k.path|, 8);
    assert EncodeKey(k)[..8] == BigEndian(|k.path|, 8);
    hide BigEndian;
  }

  /** The stream: 31 bytes of header, 8 for the number of entries, and the entries. */
  lemma StreamSpelled(keys: seq<Key>)
    requires |keys| < 0x1_0000_0000_0000_0000
    ensures var s := Stream(keys); |s| >= 39 && s[..31] == HEADER && Value(s[31..39]) == |keys| && s[39..] == Encoded(keys)
  {
    assert Limit(8) == 0x1_0000_0000_0000_0000 by { assert Limit(4) == 0x1_0000_0000; }
    BigEndianReads(|keys|, 8);
    HeaderSpelled(0);
    hide HEADER;
    assert Stream(keys)[31..39] == BigEndian(|keys|, 8);
  }

  // ---- The stream determines the sequence ------------------------------------------------

  /** Lengths are 64-bit numbers. */
  ghost predicate Addressable(keys: seq<Key>) {
    |keys| < Limit(8) && forall i :: 0 <= i < |keys| ==> |keys[i].path| < Limit(8)
  }

  lemma SplitAt<T>(a: seq<T>, x: seq<T>, b: seq<T>, y: seq<T>)
    requires |a| == |b| && a + x == b + y
    ensures a == b && x == y
  {
    assert a == (a + x)[..|a|] && b == (b + y)[..|a|];
    assert x == (a + x)[|a|..] && y == (b + y)[|a|..];
  }

  lemma Associate<T>(a: seq<T>, b: seq<T>, c: seq<T>, d: seq<T>)
    ensures a + b + c + d == a + (b + (c + d))
  {}

  lemma TailPrefixFree(a: Key, x: Bytes, b: Key, y: Bytes)
    requires Tail(a) + x == Tail(b) + y
    ensures a.metadata == b.metadata && a.checksum == b.checksum && x == y
  {
    assert (Tail(a) + x)[0] == Tail(a)[0] && (Tail(b) + y)[0] == Tail(b)[0];
    assert a.metadata.Regular? <==> b.metadata.Regular?;
    SplitAt(Tail(a), x, Tail(b), y);
    match a.metadata {
      case Regular(m) =>
        SplitAt([0] + a.checksum, BigEndian(m, 4), [0] + b.checksum, BigEndian(b.metadata.mode, 4));
        SplitAt([0], a.checksum, [0], b.checksum);
        assert Limit(4) == 0x1_0000_0000;
        BigEndianInjective(m, b.metadata.mode, 4);
      case Symlink(e, k) =>
        SplitAt([1] + a.checksum + [EncodingTag(e)], [KindTag(k)], [1] + b.checksum + [EncodingTag(b.metadata.encoding)], [KindTag(b.metadata.kind)]);
        SplitAt([1] + a.checksum, [EncodingTag(e)], [1] + b.checksum, [EncodingTag(b.metadata.encoding)]);
        SplitAt([1], a.checksum, [1], b.checksum);
        assert [KindTag(k)][0] == [KindTag(b.metadata.kind)][0];
        assert [EncodingTag(e)][0] == [EncodingTag(b.metadata.encoding)][0];
    }
  }

  /** One entry can be read off the front of the stream in one way only. */
  lemma KeyPrefixFree(a: Key, x: Bytes, b: Key, y: Bytes)
    requires |a.path| < Limit(8) && |b.path| < Limit(8) && EncodeKey(a) + x == EncodeKey(b) + y
    ensures a == b && x == y
  {
    hide Tail, BigEndian, Limit;
    Associate(BigEndian(|a.path|, 8), a.path, Tail(a), x);
    Associate(BigEndian(|b.path|, 8), b.path, Tail(b), y);
    SplitAt(BigEndian(|a.path|, 8), a.path + (Tail(a) + x), BigEndian(|b.path|, 8), b.path + (Tail(b) + y));
    BigEndianInjective(|a.path|, |b.path|, 8);
    SplitAt(a.path, Tail(a) + x, b.path, Tail(b) + y);
    TailPrefixFree(a, x, b, y);
  }

  lemma {:induction false} EncodedInjective(a: seq<Key>, b: seq<Key>)
    requires Addressable(a) && Addressable(b) && |a| == |b| && Encoded(a) == Encoded(b)
    ensures a == b
  {
    if a != [] {
      KeyPrefixFree(a[0], Encoded(a[1..]), b[0], Encoded(b[1..]));
      EncodedInjective(a[1..], b[1..]);
      assert a == [a[0]] + a[1..] && b == [b[0]] + b[1..];
    }
  }

  lemma StreamInjective(a: seq<Key>, b: seq<Key>)
    requires Addressable(a) && Addressable(b) && Stream(a) == Stream(b)
    ensures a == b
  {
    SplitAt(HEADER + BigEndian(|a|, 8), Encoded(a), HEADER + BigEndian(|b|, 8), Encoded(b));
    SplitAt(HEADER, BigEndian(|a|, 8), HEADER, BigEndian(|b|, 8));
    BigEndianInjective(|a|, |b|, 8);
    EncodedInjective(a, b);
  }

  // ---- The set determines the sequence -----------------------------------------------------

  ghost predicate DistinctPaths(keys: set<Key>) {
    forall a, b :: a in keys && b in keys && a.path == b.path ==> a == b
  }

  predicate ByPath(a: FileEntry, b: FileEntry) { PathPolicy.ComponentLeq(a.path, b.path) }

  ghost predicate InOrder(s: seq<Key>, keys: set<Key>) {
    && Elements(s) == keys && Distinct(s)
    && forall i, j :: 0 <= i < j < |s| ==> PathPolicy.ComponentLeq(s[i].path, s[j].path)
  }

  lemma InOrderUnique(s: seq<Key>, t: seq<Key>, keys: set<Key>)
    requires InOrder(s, keys) && InOrder(t, keys) && DistinctPaths(keys)
    ensures s == t
  {
    var toPath := (k: Key) => k.path;
    var p, q := Map(toPath, s), Map(toPath, t);
    PathPolicy.PathLeqTotalOrder();
    PathsDistinct(s, keys);
    PathsDistinct(t, keys);
    forall x ensures x in p <==> x in q {
      if x in p { var i :| 0 <= i < |s| && p[i] == x; assert s[i] in Elements(t); var j :| 0 <= j < |t| && t[j] == s[i]; assert q[j] == x; }
      if x in q { var i :| 0 <= i < |t| && q[i] == x; assert t[i] in Elements(s); var j :| 0 <= j < |s| && s[j] == t[i]; assert p[j] == x; }
    }
    SortedUnique(PathPolicy.ComponentLeq, p, q);
    forall i | 0 <= i < |s| ensures s[i] == t[i] {
      assert p[i] == q[i] && s[i] in Elements(s) && t[i] in Elements(t);
    }
  }

  lemma PathsDistinct(s: seq<Key>, keys: set<Key>)
    requires Elements(s) == keys && Distinct(s) && DistinctPaths(keys)
    ensures Distinct(Map((k: Key) => k.path, s))
  {}

  /** What a snapshot is identified by, whatever order its files are met in. */
  ghost function IdentityOf(keys: set<Key>): Bytes {
    if exists s :: InOrder(s, keys) then (var s :| InOrder(s, keys); Stream(s)) else []
  }

  lemma IdentityIsStream(s: seq<Key>, keys: set<Key>)
    requires InOrder(s, keys) && DistinctPaths(keys)
    ensures IdentityOf(keys) == Stream(s)
  {
    forall t | InOrder(t, keys) ensures t == s { InOrderUnique(s, t, keys); }
  }

  lemma {:induction false} Enumerate(keys: set<Key>) returns (s: seq<Key>)
    ensures Elements(s) == keys && Distinct(s)
    decreases |keys|
  {
    if keys == {} {
      s := [];
    } else {
      var k :| k in keys;
      s := Enumerate(keys - {k});
      assert k !in Elements(s) && Elements(s + [k]) == Elements(s) + {k};
      s := s + [k];
    }
  }

  lemma ElementsOfMultiset<T>(s: seq<T>, t: seq<T>)
    requires multiset(s) == multiset(t)
    ensures Elements(s) == Elements(t)
  {
    forall x ensures x in s <==> x in t { assert x in multiset(s) <==> x in multiset(t); }
  }

  /** Sorting entries with different keys by path puts their keys in order. */
  lemma SortedInOrder(entries: seq<FileEntry>, keys: set<Key>)
    requires Distinct(Map(KeyOf, entries)) && Elements(Map(KeyOf, entries)) == keys
    ensures InOrder(Map(KeyOf, Sort(ByPath, entries)), keys)
  {
    var sorted := Sort(ByPath, entries);
    PathPolicy.PathLeqTotalOrder();
    forall x: FileEntry, y: FileEntry ensures ByPath(x, y) || ByPath(y, x) {}
    forall x: FileEntry, y: FileEntry, z: FileEntry | ByPath(x, y) && ByPath(y, z) ensures ByPath(x, z) {}
    SortFacts(ByPath, entries);
    MapMultiset(KeyOf, sorted, entries);
    SameMultisetDistinct(Map(KeyOf, entries), Map(KeyOf, sorted));
    ElementsOfMultiset(Map(KeyOf, sorted), Map(KeyOf, entries));
  }

  ghost predicate AddressableSet(keys: set<Key>) {
    |keys| < Limit(8) && forall k :: k in keys ==> |k.path| < Limit(8)
  }

  lemma InOrderExists(keys: set<Key>) returns (s: seq<Key>)
    ensures InOrder(s, keys)
  {
    var all := Enumerate(keys);
    var entries := Map((k: Key) => FileEntry(k.path, k.checksum, ObjectMeta(0, 0), k.metadata), all);
    assert Map(KeyOf, entries) == all;
    SortedInOrder(entries, keys);
    s := Map(KeyOf, Sort(ByPath, entries));
  }

  /** Two snapshots without a path twice have the same identity exactly when they hold the
      same files. */
  lemma IdentityDecides(a: set<Key>, b: set<Key>)
    requires DistinctPaths(a) && DistinctPaths(b) && AddressableSet(a) && AddressableSet(b)
    ensures IdentityOf(a) == IdentityOf(b) <==> a == b
  {
    var s := InOrderExists(a);
    var t := InOrderExists(b);
    IdentityIsStream(s, a);
    IdentityIsStream(t, b);
    ElementsCount(s);
    ElementsCount(t);
    assert forall i :: 0 <= i < |s| ==> s[i] in Elements(s);
    assert forall i :: 0 <= i < |t| ==> t[i] in Elements(t);
    if IdentityOf(a) == IdentityOf(b) { StreamInjective(s, t); }
  }

  // ---- compute_snapshot_checksum, up to the hash ---------------------------------------------

  lemma EntriesOfHandles(paths: seq<Bytes>, items: seq<Checksum>, metas: map<Handle, ObjectMeta>, handles: set<FileHandle>,
                         order: seq<FileHandle>, entries: seq<FileEntry>)
    requires Distinct(paths) && Distinct(items) && Covers(items, metas) && SetInRange(paths, items, handles)
    requires Elements(order) == handles && Distinct(order) && |entries| == |order|
    requires forall i :: 0 <= i < |order| ==> entries[i] == EntryAt(paths, items, metas, order[i])
    ensures Distinct(Map(KeyOf, entries)) && Elements(Map(KeyOf, entries)) == KeysAt(paths, items, handles)
  {
    var keys := Map(KeyOf, entries);
    forall i | 0 <= i < |order| ensures InRange(paths, items, order[i]) && keys[i] == KeyAt(paths, items, order[i]) {
      assert order[i] in handles;
    }
    forall i, j | 0 <= i < j < |keys| ensures keys[i] != keys[j] {
      if keys[i] == keys[j] { KeyInjective(paths, items, order[i], order[j]); }
    }
    forall k | k in KeysAt(paths, items, handles) ensures k in Elements(keys) {
      var h :| h in handles && InRange(paths, items, h) && KeyAt(paths, items, h) == k;
      assert h in Elements(order);
      var i :| 0 <= i < |order| && order[i] == h;
      assert keys[i] == k;
    }
  }

  /** The fold over the sorted entries. */
  method Feed(sorted: seq<FileEntry>) returns (stream: Bytes)
    ensures stream == Stream(Map(KeyOf, sorted))
  {
    hide EncodeKey, KeyOf, BigEndian;
    ghost var keys := Map(KeyOf, sorted);
    var hashed: Bytes := [];
    assert keys[0..] == keys;
    for k := 0 to |sorted|
      invariant hashed + Encoded(keys[k..]) == Encoded(keys)
    {
      EncodedFront(hashed, keys, k);
      hashed := hashed + EncodeKey(KeyOf(sorted[k]));
    }
    assert hashed + [] == hashed;
    return HEADER + BigEndian(|sorted|, 8) + hashed;
  }

  lemma EncodedFront(before: Bytes, keys: seq<Key>, k: nat)
    requires k < |keys|
    ensures before + Encoded(keys[k..]) == before + EncodeKey(keys[k]) + Encoded(keys[k+1..])
  {}

  lemma SameTagSameSnapshot(contents: seq<Snapshot>, tags: seq<string>, i: nat, j: nat)
    requires |contents| == |tags| && Distinct(tags) && (forall n :: 0 <= n < |tags| ==> contents[n].0 == tags[n])
    requires i < |tags| && j < |tags| && contents[i].0 == contents[j].0
    ensures i == j
  {}

  method SnapshotIdentity(index: PackIndex, snapshot: string) returns (r: Option<Bytes>)
    requires index.Readable()
    ensures r.None? <==> snapshot !in index.snapshotTags
    ensures r.Some? ==> forall i :: 0 <= i < |index.Contents()| && index.Contents()[i].0 == snapshot && DistinctPaths(index.Contents()[i].1) ==>
      r.value == IdentityOf(index.Contents()[i].1)
  {
    hide Chain, After, AllInRange, ContentsOf, KeysAt, Distinct, MetasOf, Covers, IdentityOf, Stream, Sort, DistinctPaths, Elements, InOrder;
    var resolved := index.ResolveSnapshot(snapshot);
    if resolved.NoSnapshot? { return None; }
    ghost var paths, items, contents := index.pathPool.entries, index.itemPool.entries, index.Contents();
    var order := Iterate(resolved.handles);
    var entries := index.EntriesFromHandles(order);
    OrderInRange(paths, items, resolved.handles, order);
    if !entries.Found? { return None; }
    ghost var keys := KeysAt(paths, items, resolved.handles);
    ghost var at :| 0 <= at < |contents| && contents[at] == (snapshot, keys);
    EntriesOfHandles(paths, items, index.objectMetadata, resolved.handles, order, entries.value);
    SortedInOrder(entries.value, keys);
    var sorted := Sort(ByPath, entries.value);
    var stream := Feed(sorted);
    if DistinctPaths(keys) { IdentityIsStream(Map(KeyOf, sorted), keys); }
    forall i | 0 <= i < |contents| && contents[i].0 == snapshot ensures i == at {
      SameTagSameSnapshot(contents, index.snapshotTags, i, at);
    }
    return Some(stream);
  }

  lemma OrderInRange(paths: seq<Bytes>, items: seq<Checksum>, handles: set<FileHandle>, order: seq<FileHandle>)
    requires SetInRange(paths, items, handles) && Elements(order) == handles
    ensures forall h :: h in order ==> InRange(paths, items, h)
  {}
}
