/** The index of a pack, grown by pushing snapshots, and merging many into one. */
module PackIndexes {
  import opened ByteStrings
  import opened EntryPools
  import opened Orders
  import opened Snapshots

  // ---- What the tables mean -----------------------------------------------------------

  ghost predicate InRange(paths: seq<Bytes>, items: seq<Checksum>, h: FileHandle) {
    h.path < |paths| && h.item < |items|
  }

  ghost predicate SetInRange(paths: seq<Bytes>, items: seq<Checksum>, s: set<FileHandle>) {
    forall h :: h in s ==> InRange(paths, items, h)
  }

  ghost predicate AllInRange(paths: seq<Bytes>, items: seq<Checksum>, deltas: seq<ChangeSet<FileHandle>>) {
    forall i, h :: 0 <= i < |deltas| && (h in deltas[i].added || h in deltas[i].removed) ==> InRange(paths, items, h)
  }

  function KeyAt(paths: seq<Bytes>, items: seq<Checksum>, h: FileHandle): Key
    requires InRange(paths, items, h)
  {
    Key(paths[h.path], items[h.item], h.metadata)
  }

  ghost function KeysAt(paths: seq<Bytes>, items: seq<Checksum>, s: set<FileHandle>): set<Key> {
    set h | h in s && InRange(paths, items, h) :: KeyAt(paths, items, h)
  }

  type Snapshot = (string, set<Key>)

  /** Every tag with the files it stands for. */
  ghost function ContentsOf(tags: seq<string>, deltas: seq<ChangeSet<FileHandle>>, paths: seq<Bytes>, items: seq<Checksum>): (r: seq<Snapshot>)
    requires |tags| == |deltas|
    ensures |r| == |tags| && forall i :: 0 <= i < |tags| ==> r[i].0 == tags[i]
  {
    seq(|tags|, i requires 0 <= i < |tags| => (tags[i], KeysAt(paths, items, After(deltas[..i+1]))))
  }

  lemma {:induction false} AfterInRange(paths: seq<Bytes>, items: seq<Checksum>, deltas: seq<ChangeSet<FileHandle>>, i: nat)
    requires AllInRange(paths, items, deltas) && i <= |deltas|
    ensures SetInRange(paths, items, After(deltas[..i]))
  {
    if i > 0 {
      AfterInRange(paths, items, deltas, i - 1);
      AfterNext(deltas, i - 1);
    }
  }

  lemma KeysGrow(paths: seq<Bytes>, items: seq<Checksum>, paths': seq<Bytes>, items': seq<Checksum>, s: set<FileHandle>)
    requires paths <= paths' && items <= items' && SetInRange(paths, items, s)
    ensures KeysAt(paths', items', s) == KeysAt(paths, items, s) && SetInRange(paths', items', s)
  {}

  /** Pools only grow at the end, so what is recorded keeps its meaning. */
  lemma ContentsGrow(tags: seq<string>, deltas: seq<ChangeSet<FileHandle>>,
                     paths: seq<Bytes>, items: seq<Checksum>, paths': seq<Bytes>, items': seq<Checksum>)
    requires |tags| == |deltas| && AllInRange(paths, items, deltas) && paths <= paths' && items <= items'
    ensures ContentsOf(tags, deltas, paths', items') == ContentsOf(tags, deltas, paths, items)
    ensures AllInRange(paths', items', deltas)
  {
    hide After;
    forall h | InRange(paths, items, h) ensures InRange(paths', items', h) && KeyAt(paths', items', h) == KeyAt(paths, items, h) {}
    assert AllInRange(paths', items', deltas);
    var l, r := ContentsOf(tags, deltas, paths', items'), ContentsOf(tags, deltas, paths, items);
    forall i | 0 <= i < |tags| ensures l[i] == r[i] {
      AfterInRange(paths, items, deltas, i + 1);
      KeysGrow(paths, items, paths', items', After(deltas[..i+1]));
    }
  }

  lemma {:induction false} ContentsSnoc(tags: seq<string>, deltas: seq<ChangeSet<FileHandle>>, paths: seq<Bytes>, items: seq<Checksum>,
                     tag: string, c: ChangeSet<FileHandle>)
    requires |tags| == |deltas| && Chain(deltas) && Applicable(After(deltas), c)
    ensures ContentsOf(tags + [tag], deltas + [c], paths, items)
      == ContentsOf(tags, deltas, paths, items) + [(tag, KeysAt(paths, items, Apply(After(deltas), c)))]
  {
    hide Chain, Applicable, Apply, After, KeysAt;
    ChainSnoc(deltas, c);
    assert (deltas + [c])[..|deltas|+1] == deltas + [c];
  }

  ghost predicate Covers(items: seq<Checksum>, metas: map<Handle, ObjectMeta>) {
    forall h: Handle :: h in metas <==> h < |items|
  }

  ghost function MetasOf(items: seq<Checksum>, metas: map<Handle, ObjectMeta>): (r: map<Checksum, ObjectMeta>)
    requires Distinct(items) && Covers(items, metas)
    ensures r.Keys == Elements(items) && forall i :: 0 <= i < |items| ==> r[items[i]] == metas[i]
  {
    map c | c in items :: metas[IndexOf(items, c)]
  }

  ghost function IndexOf<T>(s: seq<T>, x: T): (i: nat)
    requires x in s
    ensures i < |s| && s[i] == x
  {
    var i :| 0 <= i < |s| && s[i] == x;
    i
  }

  lemma MetasStep(before: seq<Checksum>, x: Checksum, after: seq<Checksum>, metas: map<Handle, ObjectMeta>, h: Handle, m: ObjectMeta)
    requires Distinct(before) && Distinct(after) && Covers(before, metas)
    requires h < |after| && after[h] == x && after == if x in before then before else before + [x]
    ensures Covers(after, metas[h := m]) && MetasOf(after, metas[h := m]) == MetasOf(before, metas)[x := m]
  {
    hide MetasOf;
    assert x !in before ==> h == |before|;
    var now, was := MetasOf(after, metas[h := m]), MetasOf(before, metas);
    assert now.Keys == was.Keys + {x} by { assert Elements(after) == Elements(before) + {x}; }
    forall c | c in was && c != x ensures now[c] == was[c] {
      var i := IndexOf(before, c);
      assert before[i] == c && after[i] == c && i != h;
    }
    assert now[after[h]] == m;
  }

  // ---- The index ------------------------------------------------------------------------

  /** What the last entry of a list says about every checksum. */
  function Recorded(metas: map<Checksum, ObjectMeta>, input: seq<FileEntry>): map<Checksum, ObjectMeta> {
    if input == [] then metas else
      var last := input[|input|-1];
      Recorded(metas, input[..|input|-1])[last.checksum := last.meta]
  }

  datatype Lookup<T> = Found(value: T) | PathNotFound | ObjectNotFound

  function EntryAt(paths: seq<Bytes>, items: seq<Checksum>, metas: map<Handle, ObjectMeta>, h: FileHandle): FileEntry {
    if h.path < |paths| && h.item < |items| && h.item in metas
    then FileEntry(paths[h.path], items[h.item], metas[h.item], h.metadata)
    else FileEntry([], seq(20, _ => 0), ObjectMeta(0, 0), h.metadata)
  }

  ghost function Reading(paths: seq<Bytes>, items: seq<Checksum>, metas: map<Handle, ObjectMeta>): FileHandle -> FileEntry {
    h => EntryAt(paths, items, metas, h)
  }

  const FEATURE_SYMLINKS: bv64 := 1
  const SUPPORTED_REQUIRED_FEATURES: bv64 := FEATURE_SYMLINKS

  predicate HasSymlink(delta: ChangeSet<FileHandle>) {
    exists k :: 0 <= k < |delta.added + delta.removed| && (delta.added + delta.removed)[k].metadata.Symlink?
  }

  /** Some tag has a symbolic link among its files. */
  ghost predicate HoldsLink(contents: seq<Snapshot>) {
    exists i, key :: 0 <= i < |contents| && key in contents[i].1 && key.metadata.Symlink?
  }

  lemma {:induction false} LinkWasAdded(deltas: seq<ChangeSet<FileHandle>>, n: nat, h: FileHandle) returns (i: nat)
    requires n <= |deltas| && h in After(deltas[..n]) && h.metadata.Symlink?
    ensures i < n && HasSymlink(deltas[i])
  {
    AfterNext(deltas, n - 1);
    if h in deltas[n-1].added {
      i := n - 1;
      var k :| 0 <= k < |deltas[i].added| && deltas[i].added[k] == h;
      assert (deltas[i].added + deltas[i].removed)[k] == h;
    } else {
      i := LinkWasAdded(deltas, n - 1, h);
    }
  }

  lemma LinkIsHeld(tags: seq<string>, deltas: seq<ChangeSet<FileHandle>>, paths: seq<Bytes>, items: seq<Checksum>, i: nat, h: FileHandle)
    requires |tags| == |deltas| && i < |tags| && AllInRange(paths, items, deltas)
    requires h in After(deltas[..i+1]) && h.metadata.Symlink?
    ensures HoldsLink(ContentsOf(tags, deltas, paths, items))
  {
    AfterInRange(paths, items, deltas, i + 1);
    assert KeyAt(paths, items, h) in ContentsOf(tags, deltas, paths, items)[i].1;
  }

  /** What a change names is in the snapshot it makes or in the one before. */
  lemma ChangeIsSeen(deltas: seq<ChangeSet<FileHandle>>, i: nat, h: FileHandle)
    requires Chain(deltas) && i < |deltas| && (h in deltas[i].added || h in deltas[i].removed)
    ensures h in After(deltas[..i+1]) || (i > 0 && h in After(deltas[..i]))
  {
    AfterNext(deltas, i);
    assert Applicable(After(deltas[..i]), deltas[i]);
    assert h in deltas[i].removed ==> h in Elements(deltas[i].removed);
  }

  lemma ChangeShows(tags: seq<string>, deltas: seq<ChangeSet<FileHandle>>, paths: seq<Bytes>, items: seq<Checksum>, i: nat)
    requires |tags| == |deltas| && Chain(deltas) && AllInRange(paths, items, deltas)
    requires i < |deltas| && HasSymlink(deltas[i])
    ensures HoldsLink(ContentsOf(tags, deltas, paths, items))
  {
    var c := deltas[i];
    var k :| 0 <= k < |c.added + c.removed| && (c.added + c.removed)[k].metadata.Symlink?;
    var h := (c.added + c.removed)[k];
    assert h in c.added + c.removed;
    ChangeIsSeen(deltas, i, h);
    hide Chain, AllInRange, After, HoldsLink, ContentsOf;
    LinkIsHeld(tags, deltas, paths, items, if h in After(deltas[..i+1]) then i else i - 1, h);
  }

  lemma LinkShows(tags: seq<string>, deltas: seq<ChangeSet<FileHandle>>, paths: seq<Bytes>, items: seq<Checksum>) returns (j: nat)
    requires |tags| == |deltas| && HoldsLink(ContentsOf(tags, deltas, paths, items))
    ensures j < |deltas| && HasSymlink(deltas[j])
  {
    hide After, HasSymlink;
    var contents := ContentsOf(tags, deltas, paths, items);
    var i, key :| 0 <= i < |contents| && key in contents[i].1 && key.metadata.Symlink?;
    var h :| h in After(deltas[..i+1]) && InRange(paths, items, h) && KeyAt(paths, items, h) == key;
    j := LinkWasAdded(deltas, i + 1, h);
  }

  /** The changes name a link exactly when some tag has one. */
  lemma LinksShow(tags: seq<string>, deltas: seq<ChangeSet<FileHandle>>, paths: seq<Bytes>, items: seq<Checksum>)
    requires |tags| == |deltas| && Chain(deltas) && AllInRange(paths, items, deltas)
    ensures (exists i :: 0 <= i < |deltas| && HasSymlink(deltas[i])) <==> HoldsLink(ContentsOf(tags, deltas, paths, items))
  {
    hide HasSymlink, HoldsLink, ContentsOf, Chain, AllInRange;
    forall i | 0 <= i < |deltas| && HasSymlink(deltas[i]) ensures HoldsLink(ContentsOf(tags, deltas, paths, items)) {
      ChangeShows(tags, deltas, paths, items, i);
    }
    if HoldsLink(ContentsOf(tags, deltas, paths, items)) { var j := LinkShows(tags, deltas, paths, items); }
  }

  /** The index as it is written, field by field. */
  datatype Wire = Wire(features: bv64, tags: seq<string>, deltas: seq<ChangeSet<FileHandle>>,
                       paths: seq<Bytes>, items: seq<Checksum>, metas: seq<ObjectMeta>)

  function Numbered(metas: seq<ObjectMeta>): map<Handle, ObjectMeta> {
    map i: Handle | i < |metas| :: metas[i]
  }

  datatype Resolved = NoSnapshot | Files(handles: set<FileHandle>)

  class PackIndex {
    var snapshotTags: seq<string>
    var snapshotDeltas: seq<ChangeSet<FileHandle>>
    var pathPool: EntryPool<Bytes>
    var itemPool: EntryPool<Checksum>
    var objectMetadata: map<Handle, ObjectMeta>
    var current: set<FileHandle>

    ghost predicate Tables()
      reads this, pathPool, itemPool
    {
      && (pathPool as object) != (itemPool as object) && (pathPool as object) != this && (itemPool as object) != this
      && pathPool.Valid() && itemPool.Valid()
      && Covers(itemPool.entries, objectMetadata)
    }

    /** Enough to read the index. */
    ghost predicate Readable()
      reads this, pathPool, itemPool
    {
      && Tables()
      && |snapshotTags| == |snapshotDeltas| && Distinct(snapshotTags)
      && Chain(snapshotDeltas) && AllInRange(pathPool.entries, itemPool.entries, snapshotDeltas)
    }

    /** Enough to push to it: `current` is the last snapshot. */
    ghost predicate Valid()
      reads this, pathPool, itemPool
    {
      Readable() && current == After(snapshotDeltas)
    }

    ghost function Contents(): seq<Snapshot>
      reads this, pathPool, itemPool
      requires Readable()
    {
      ContentsOf(snapshotTags, snapshotDeltas, pathPool.entries, itemPool.entries)
    }

    /** Where each known object lies, and its size. */
    ghost function Metas(): map<Checksum, ObjectMeta>
      reads this, pathPool, itemPool
      requires Tables()
    {
      MetasOf(itemPool.entries, objectMetadata)
    }

    /** from_parts: the lists are interned again, the metadata is numbered. */
    constructor FromParts(wire: Wire)
      ensures snapshotTags == wire.tags && snapshotDeltas == wire.deltas && current == {}
      ensures pathPool.Valid() && itemPool.Valid() && fresh(pathPool) && fresh(itemPool)
      ensures (pathPool as object) != (itemPool as object) && (pathPool as object) != this && (itemPool as object) != this
      ensures pathPool.entries == Interned(wire.paths) && itemPool.entries == Interned(wire.items)
      ensures objectMetadata == Numbered(wire.metas)
    {
      snapshotTags, snapshotDeltas := wire.tags, wire.deltas;
      var paths := new EntryPool.FromList(wire.paths);
      var items := new EntryPool.FromList(wire.items);
      pathPool, itemPool := paths, items;
      objectMetadata, current := Numbered(wire.metas), {};
    }

    constructor ()
      ensures Valid() && Contents() == [] && Metas() == map[]
      ensures fresh(pathPool) && fresh(itemPool)
    {
      snapshotTags, snapshotDeltas := [], [];
      var paths := new EntryPool();
      var items := new EntryPool();
      pathPool, itemPool := paths, items;
      objectMetadata, current := map[], {};
      new;
    }

    /** entry_to_handle: interns both halves and records the object's place. */
    method EntryToHandle(entry: FileEntry) returns (handle: FileHandle)
      requires Tables()
      modifies this`objectMetadata, pathPool, itemPool
      ensures Tables() && pathPool == old(pathPool) && itemPool == old(itemPool)
      ensures old(pathPool.entries) <= pathPool.entries && old(itemPool.entries) <= itemPool.entries
      ensures InRange(pathPool.entries, itemPool.entries, handle)
      ensures KeyAt(pathPool.entries, itemPool.entries, handle) == KeyOf(entry)
      ensures Metas() == old(Metas())[entry.checksum := entry.meta]
    {
      ghost var items, metas := itemPool.entries, objectMetadata;
      var item := itemPool.GetOrInsert(entry.checksum);
      objectMetadata := objectMetadata[item := entry.meta];
      var path := pathPool.GetOrInsert(entry.path);
      handle := FileHandle(path, item, entry.metadata);
      MetasStep(items, entry.checksum, itemPool.entries, metas, item, entry.meta);
    }

    method InternAll(input: seq<FileEntry>) returns (files: set<FileHandle>)
      requires Tables()
      modifies this`objectMetadata, pathPool, itemPool
      ensures Tables() && pathPool == old(pathPool) && itemPool == old(itemPool)
      ensures old(pathPool.entries) <= pathPool.entries && old(itemPool.entries) <= itemPool.entries
      ensures SetInRange(pathPool.entries, itemPool.entries, files)
      ensures KeysAt(pathPool.entries, itemPool.entries, files) == Keys(Elements(input))
      ensures Metas() == Recorded(old(Metas()), input)
    {
      hide KeysAt, InRange, SetInRange, Recorded, MetasOf, Distinct, KeyAt, Keys, Elements, KeyOf, Covers;
      files := {};
      KeysOfNothing(pathPool.entries, itemPool.entries, input);
      for k := 0 to |input|
        invariant Tables() && pathPool == old(pathPool) && itemPool == old(itemPool)
        invariant old(pathPool.entries) <= pathPool.entries && old(itemPool.entries) <= itemPool.entries
        invariant SetInRange(pathPool.entries, itemPool.entries, files)
        invariant KeysAt(pathPool.entries, itemPool.entries, files) == Keys(Elements(input[..k]))
        invariant Metas() == Recorded(old(Metas()), input[..k])
      {
        ghost var paths, items := pathPool.entries, itemPool.entries;
        var handle := EntryToHandle(input[k]);
        KeysGrow(paths, items, pathPool.entries, itemPool.entries, files);
        KeysAdd(pathPool.entries, itemPool.entries, files, handle, input, k);
        RecordedStep(old(Metas()), input, k);
        files := files + {handle};
      }
      assert input[..|input|] == input;
    }

    /** push_snapshot: the new tag stands for exactly what was given, and no other tag
        changes its meaning. */
    method PushSnapshot(tag: string, input: seq<FileEntry>) returns (ok: bool)
      requires Valid()
      modifies this, pathPool, itemPool
      ensures Valid() && pathPool == old(pathPool) && itemPool == old(itemPool)
      ensures ok <==> tag !in old(snapshotTags)
      ensures Contents() == old(Contents()) + if ok then [(tag, Keys(Elements(input)))] else []
      ensures Metas() == if ok then Recorded(old(Metas()), input) else old(Metas())
    {
      hide Chain, Applicable, Apply, After, AllInRange, KeysAt, ContentsOf, SetInRange, Distinct, MetasOf, Recorded, Elements, Keys;
      if tag in snapshotTags { return false; }
      ghost var paths, items := pathPool.entries, itemPool.entries;
      var files := InternAll(input);
      var delta, _ := GetChanges(current, files);
      PushStep(snapshotTags, snapshotDeltas, paths, items, pathPool.entries, itemPool.entries, tag, delta, files);
      current := files;
      snapshotTags := snapshotTags + [tag];
      snapshotDeltas := snapshotDeltas + [delta];
      return true;
    }

    /** resolve_snapshot. */
    method ResolveSnapshot(needle: string) returns (r: Resolved)
      requires Readable()
      ensures r.NoSnapshot? <==> needle !in snapshotTags
      ensures r.Files? ==> SetInRange(pathPool.entries, itemPool.entries, r.handles)
      ensures r.Files? ==> exists i :: 0 <= i < |snapshotTags| && Contents()[i] == (needle, KeysAt(pathPool.entries, itemPool.entries, r.handles))
    {
      var files: set<FileHandle> := {};
      for i := 0 to |snapshotTags|
        invariant files == After(snapshotDeltas[..i])
        invariant needle !in snapshotTags[..i]
      {
        files := ApplyChanges(files, snapshotDeltas[i]);
        AfterNext(snapshotDeltas, i);
        if snapshotTags[i] == needle {
          AfterInRange(pathPool.entries, itemPool.entries, snapshotDeltas, i + 1);
          assert Contents()[i] == (needle, KeysAt(pathPool.entries, itemPool.entries, files));
          return Files(files);
        }
      }
      return NoSnapshot;
    }

    /** required_features: told from the changes alone, it tells whether there are links. */
    method RequiredFeatures() returns (features: bv64)
      requires Readable()
      ensures features == if HoldsLink(Contents()) then 1 else 0
    {
      LinksShow(snapshotTags, snapshotDeltas, pathPool.entries, itemPool.entries);
      hide HoldsLink, HasSymlink, Chain, AllInRange, ContentsOf;
      for i := 0 to |snapshotDeltas|
        invariant forall j :: 0 <= j < i ==> !HasSymlink(snapshotDeltas[j])
      {
        if HasSymlink(snapshotDeltas[i]) { return FEATURE_SYMLINKS; }
      }
      return 0;
    }

    /** serialize: seven fields, the metadata in the order of the handles. */
    method Serialize() returns (wire: Wire)
      requires Readable()
      ensures wire.tags == snapshotTags && wire.deltas == snapshotDeltas
      ensures wire.paths == pathPool.entries && wire.items == itemPool.entries
      ensures Numbered(wire.metas) == objectMetadata
      ensures wire.features == if HoldsLink(Contents()) then 1 else 0
    {
      var features := RequiredFeatures();
      var metas: seq<ObjectMeta> := [];
      var handles := objectMetadata.Keys;
      while handles != {}
        invariant forall h: Handle :: h in handles <==> |metas| <= h < |itemPool.entries|
        invariant |metas| <= |itemPool.entries|
        invariant forall i :: 0 <= i < |metas| ==> i in objectMetadata && metas[i] == objectMetadata[i]
        decreases |handles|
      {
        ghost var some: Handle :| some in handles;
        assert |metas| in handles;
        var next: Handle :| next in handles && forall h :: h in handles ==> next <= h;
        metas := metas + [objectMetadata[next]];
        handles := handles - {next};
      }
      assert |metas| < |itemPool.entries| ==> |metas| in handles;
      return Wire(features, snapshotTags, snapshotDeltas, pathPool.entries, itemPool.entries, metas);
    }

    method HandleToEntry(h: FileHandle) returns (r: Lookup<FileEntry>)
      requires Tables()
      ensures InRange(pathPool.entries, itemPool.entries, h) ==>
        r == Found(EntryAt(pathPool.entries, itemPool.entries, objectMetadata, h))
      ensures r.Found? ==> InRange(pathPool.entries, itemPool.entries, h)
      ensures h.path >= |pathPool.entries| <==> r.PathNotFound?
    {
      var path := pathPool.Lookup(h.path);
      if path.None? { return PathNotFound; }
      var item := itemPool.Lookup(h.item);
      if item.None? { return ObjectNotFound; }
      return Found(FileEntry(path.value, item.value, objectMetadata[h.item], h.metadata));
    }

    method EntriesFromHandles(handles: seq<FileHandle>) returns (r: Lookup<seq<FileEntry>>)
      requires Tables()
      ensures (forall h :: h in handles ==> InRange(pathPool.entries, itemPool.entries, h)) ==>
        r.Found? && |r.value| == |handles|
        && forall i :: 0 <= i < |handles| ==> r.value[i] == EntryAt(pathPool.entries, itemPool.entries, objectMetadata, handles[i])
    {
      var entries: seq<FileEntry> := [];
      for k := 0 to |handles|
        invariant |entries| == k
        invariant forall i :: 0 <= i < k && InRange(pathPool.entries, itemPool.entries, handles[i]) ==>
          entries[i] == EntryAt(pathPool.entries, itemPool.entries, objectMetadata, handles[i])
      {
        var e := HandleToEntry(handles[k]);
        if !e.Found? {
          return if e.PathNotFound? then PathNotFound else ObjectNotFound;
        }
        entries := entries + [e.value];
      }
      return Found(entries);
    }

    /** for_each_snapshot: replays the materialized entries; none of the assertions of
        apply_changes fails on the way. */
    method Visits() returns (r: Lookup<seq<(string, set<FileEntry>)>>)
      requires Readable()
      ensures r.Found? && |r.value| == |Contents()|
      ensures forall i :: 0 <= i < |r.value| ==> (r.value[i].0, Keys(r.value[i].1)) == Contents()[i]
      ensures forall i, e :: 0 <= i < |r.value| && e in r.value[i].1 ==> e.checksum in Metas() && Metas()[e.checksum] == e.meta
    {
      hide Chain, Apply, Applicable, After, AllInRange, KeysAt, ContentsOf, SetInRange, Keys, Image, MetasOf;
      ghost var paths, items := pathPool.entries, itemPool.entries;
      ghost var reading := Reading(paths, items, objectMetadata);
      var visits: seq<(string, set<FileEntry>)> := [];
      var complete: set<FileEntry> := {};
      NothingRead(snapshotDeltas, reading);
      for i := 0 to |snapshotTags|
        invariant |visits| == i && complete == Image(reading, After(snapshotDeltas[..i]))
        invariant forall j :: 0 <= j < i ==> (visits[j].0, Keys(visits[j].1)) == Contents()[j]
        invariant forall j, e :: 0 <= j < i && e in visits[j].1 ==> e.checksum in Metas() && Metas()[e.checksum] == e.meta
      {
        VisitStep(snapshotTags, snapshotDeltas, paths, items, objectMetadata, i);
        var added := EntriesFromHandles(snapshotDeltas[i].added);
        var removed := EntriesFromHandles(snapshotDeltas[i].removed);
        if !added.Found? || !removed.Found? { assert false; return ObjectNotFound; }
        var deltas := ChangeSet(added.value, removed.value);
        assert deltas == ReadChanges(reading, snapshotDeltas[i]);
        complete := ApplyChanges(complete, deltas);
        visits := visits + [(snapshotTags[i], complete)];
      }
      return Found(visits);
    }

    /** for_each_snapshot_file_count: the lengths of the lists are enough. */
    method FileCounts() returns (counts: seq<int>)
      requires Readable()
      ensures |counts| == |Contents()| && forall i :: 0 <= i < |counts| ==> counts[i] == |Contents()[i].1|
    {
      hide Chain, Apply, Applicable, After, AllInRange, KeysAt, ContentsOf, SetInRange, Distinct;
      counts := [];
      var fileCount := 0;
      ghost var contents := Contents();
      AfterNothing(snapshotDeltas);
      for i := 0 to |snapshotTags|
        invariant |counts| == i && fileCount == |After(snapshotDeltas[..i])|
        invariant forall j :: 0 <= j < i ==> counts[j] == |contents[j].1|
      {
        var deltas := snapshotDeltas[i];
        fileCount := fileCount + |deltas.added|;
        fileCount := fileCount - |deltas.removed|;
        CountStep(snapshotTags, snapshotDeltas, pathPool.entries, itemPool.entries, i);
        counts := counts + [fileCount];
      }
    }
  }

  lemma NothingRead(deltas: seq<ChangeSet<FileHandle>>, reading: FileHandle -> FileEntry)
    ensures Image(reading, After(deltas[..0])) == {}
  {}

  lemma ReadingInjective(paths: seq<Bytes>, items: seq<Checksum>, metas: map<Handle, ObjectMeta>, dom: set<FileHandle>)
    requires Distinct(paths) && Distinct(items) && Covers(items, metas) && SetInRange(paths, items, dom)
    ensures InjectiveOn(Reading(paths, items, metas), dom)
  {}

  lemma ReadingKeys(paths: seq<Bytes>, items: seq<Checksum>, metas: map<Handle, ObjectMeta>, s: set<FileHandle>)
    requires Distinct(items) && Covers(items, metas) && SetInRange(paths, items, s)
    ensures Keys(Image(Reading(paths, items, metas), s)) == KeysAt(paths, items, s)
    ensures forall e :: e in Image(Reading(paths, items, metas), s) ==> e.checksum in MetasOf(items, metas) && MetasOf(items, metas)[e.checksum] == e.meta
  {
    var f := Reading(paths, items, metas);
    forall h | h in s ensures KeyOf(f(h)) == KeyAt(paths, items, h) && f(h) in Image(f, s) {}
  }

  lemma VisitStep(tags: seq<string>, deltas: seq<ChangeSet<FileHandle>>, paths: seq<Bytes>, items: seq<Checksum>,
                  metas: map<Handle, ObjectMeta>, i: nat)
    requires i < |tags| == |deltas| && Chain(deltas) && AllInRange(paths, items, deltas)
    requires Distinct(paths) && Distinct(items) && Covers(items, metas)
    ensures var f := Reading(paths, items, metas);
      var before, after := Image(f, After(deltas[..i])), Image(f, After(deltas[..i+1]));
      && Applicable(before, ReadChanges(f, deltas[i])) && Apply(before, ReadChanges(f, deltas[i])) == after
      && Keys(after) == ContentsOf(tags, deltas, paths, items)[i].1
      && (forall e :: e in after ==> e.checksum in MetasOf(items, metas) && MetasOf(items, metas)[e.checksum] == e.meta)
    ensures forall h :: h in deltas[i].added || h in deltas[i].removed ==> InRange(paths, items, h)
  {
    var s := After(deltas[..i]);
    var dom := s + Elements(deltas[i].added);
    AfterInRange(paths, items, deltas, i);
    AfterInRange(paths, items, deltas, i + 1);
    AfterNext(deltas, i);
    ReadingInjective(paths, items, metas, dom);
    ImageStep(Reading(paths, items, metas), dom, s, deltas[i]);
    ReadingKeys(paths, items, metas, After(deltas[..i+1]));
    hide Keys, KeysAt, MetasOf, After, Apply, Image, Reading, InRange, SetInRange, Distinct, InjectiveOn, ReadChanges;
  }

  lemma AfterNothing<T>(deltas: seq<ChangeSet<T>>)
    ensures After(deltas[..0]) == {}
  {}

  lemma CountStep(tags: seq<string>, deltas: seq<ChangeSet<FileHandle>>, paths: seq<Bytes>, items: seq<Checksum>, i: nat)
    requires i < |tags| == |deltas| && Chain(deltas) && AllInRange(paths, items, deltas) && Distinct(paths) && Distinct(items)
    ensures |After(deltas[..i+1])| == |After(deltas[..i])| + |deltas[i].added| - |deltas[i].removed|
    ensures |ContentsOf(tags, deltas, paths, items)[i].1| == |After(deltas[..i+1])|
  {
    AfterNext(deltas, i);
    ApplyCount(After(deltas[..i]), deltas[i]);
    AfterInRange(paths, items, deltas, i + 1);
    KeysCount(paths, items, After(deltas[..i+1]));
  }

  lemma KeysOfNothing(paths: seq<Bytes>, items: seq<Checksum>, input: seq<FileEntry>)
    ensures KeysAt(paths, items, {}) == {} == Keys(Elements(input[..0])) && SetInRange(paths, items, {})
    ensures forall m :: Recorded(m, input[..0]) == m
  {}

  lemma KeysAdd(paths: seq<Bytes>, items: seq<Checksum>, files: set<FileHandle>, handle: FileHandle, input: seq<FileEntry>, k: nat)
    requires k < |input| && InRange(paths, items, handle) && KeyAt(paths, items, handle) == KeyOf(input[k])
    requires KeysAt(paths, items, files) == Keys(Elements(input[..k])) && SetInRange(paths, items, files)
    ensures KeysAt(paths, items, files + {handle}) == Keys(Elements(input[..k+1]))
    ensures SetInRange(paths, items, files + {handle})
  {
    assert KeysAt(paths, items, files + {handle}) == KeysAt(paths, items, files) + {KeyOf(input[k])};
    assert Elements(input[..k+1]) == Elements(input[..k]) + {input[k]};
  }

  lemma RecordedStep(metas: map<Checksum, ObjectMeta>, input: seq<FileEntry>, k: nat)
    requires k < |input|
    ensures Recorded(metas, input[..k+1]) == Recorded(metas, input[..k])[input[k].checksum := input[k].meta]
  {
    assert input[..k+1][..k] == input[..k];
  }

  /** Everything a push does to the lists. */
  lemma PushStep(tags: seq<string>, deltas: seq<ChangeSet<FileHandle>>, paths: seq<Bytes>, items: seq<Checksum>,
                 paths': seq<Bytes>, items': seq<Checksum>, tag: string, delta: ChangeSet<FileHandle>, files: set<FileHandle>)
    requires |tags| == |deltas| && Distinct(tags) && tag !in tags && Chain(deltas)
    requires AllInRange(paths, items, deltas) && paths <= paths' && items <= items' && SetInRange(paths', items', files)
    requires Applicable(After(deltas), delta) && Apply(After(deltas), delta) == files
    requires Elements(delta.added) <= files
    ensures Distinct(tags + [tag]) && Chain(deltas + [delta]) && After(deltas + [delta]) == files
    ensures AllInRange(paths', items', deltas + [delta])
    ensures ContentsOf(tags + [tag], deltas + [delta], paths', items')
      == ContentsOf(tags, deltas, paths, items) + [(tag, KeysAt(paths', items', files))]
  {
    ContentsGrow(tags, deltas, paths, items, paths', items');
    RangeSnoc(paths', items', deltas, delta, files);
    ContentsSnoc(tags, deltas, paths', items', tag, delta);
    ChainSnoc(deltas, delta);
    hide Chain, Apply, After, AllInRange, ContentsOf, KeysAt, SetInRange, Applicable;
  }

  lemma RangeSnoc(paths: seq<Bytes>, items: seq<Checksum>, deltas: seq<ChangeSet<FileHandle>>, delta: ChangeSet<FileHandle>, files: set<FileHandle>)
    requires AllInRange(paths, items, deltas) && SetInRange(paths, items, files)
    requires Elements(delta.added) <= files && Applicable(After(deltas), delta)
    ensures AllInRange(paths, items, deltas + [delta])
  {
    assert deltas[..|deltas|] == deltas;
    AfterInRange(paths, items, deltas, |deltas|);
    forall h | h in delta.added || h in delta.removed ensures InRange(paths, items, h) {
      assert h in delta.added ==> h in Elements(delta.added);
      assert h in delta.removed ==> h in Elements(delta.removed);
    }
  }

  /** Different handles of one index stand for different files. */
  lemma KeyInjective(paths: seq<Bytes>, items: seq<Checksum>, g: FileHandle, h: FileHandle)
    requires Distinct(paths) && Distinct(items) && InRange(paths, items, g) && InRange(paths, items, h)
    requires KeyAt(paths, items, g) == KeyAt(paths, items, h)
    ensures g == h
  {}

  lemma {:induction false} KeysCount(paths: seq<Bytes>, items: seq<Checksum>, s: set<FileHandle>)
    requires Distinct(paths) && Distinct(items) && SetInRange(paths, items, s)
    ensures |KeysAt(paths, items, s)| == |s|
  {
    if s != {} {
      var h :| h in s;
      KeysCount(paths, items, s - {h});
      forall g | g in s - {h} ensures KeyAt(paths, items, g) != KeyAt(paths, items, h) {
        if KeyAt(paths, items, g) == KeyAt(paths, items, h) { KeyInjective(paths, items, g, h); }
      }
      assert KeysAt(paths, items, s) == KeysAt(paths, items, s - {h}) + {KeyAt(paths, items, h)};
    }
  }

  // ---- Saving and loading ----------------------------------------------------------------

  /** parse_v3: unknown features are refused before anything else is looked at. */
  method Load(wire: Wire) returns (index: PackIndex?)
    ensures index != null <==> wire.features == 0 || wire.features == 1
    ensures index != null ==>
      && fresh(index) && fresh(index.pathPool) && fresh(index.itemPool)
      && index.snapshotTags == wire.tags && index.snapshotDeltas == wire.deltas
      && (index.pathPool as object) != (index.itemPool as object) && (index.pathPool as object) != index && (index.itemPool as object) != index
      && index.pathPool.Valid() && index.pathPool.entries == Interned(wire.paths)
      && index.itemPool.Valid() && index.itemPool.entries == Interned(wire.items)
      && index.objectMetadata == Numbered(wire.metas)
  {
    if wire.features & !SUPPORTED_REQUIRED_FEATURES != 0 { return null; }
    index := new PackIndex.FromParts(wire);
  }

  /** A saved index loads, every handle means what it meant, and so does every tag. */
  method SaveAndLoad(index: PackIndex) returns (loaded: PackIndex?)
    requires index.Readable()
    ensures loaded != null && fresh(loaded) && loaded.Readable()
    ensures loaded.pathPool.entries == index.pathPool.entries && loaded.itemPool.entries == index.itemPool.entries
    ensures loaded.objectMetadata == index.objectMetadata
    ensures loaded.Contents() == index.Contents() && loaded.Metas() == index.Metas()
  {
    var wire := index.Serialize();
    loaded := Load(wire);
    InternedIsIdentity(index.pathPool.entries);
    InternedIsIdentity(index.itemPool.entries);
  }

  // ---- Merging loose indexes ---------------------------------------------------------------

  ghost predicate Tagged(contents: seq<Snapshot>, tag: string) {
    exists i :: 0 <= i < |contents| && contents[i].0 == tag
  }

  /** One index poured into another: the first tag that is already there ends it, silently. */
  ghost function MergeOne(merged: seq<Snapshot>, contents: seq<Snapshot>): seq<Snapshot>
    decreases |contents|
  {
    if contents == [] || Tagged(merged, contents[0].0) then merged
    else MergeOne(merged + [contents[0]], contents[1..])
  }

  ghost function MergeAll(all: seq<seq<Snapshot>>): seq<Snapshot> {
    if all == [] then [] else MergeOne(MergeAll(all[..|all|-1]), all[|all|-1])
  }

  ghost predicate DistinctTags(contents: seq<Snapshot>) {
    forall i, j :: 0 <= i < j < |contents| ==> contents[i].0 != contents[j].0
  }

  function Flatten<T>(all: seq<seq<T>>): seq<T> {
    if all == [] then [] else Flatten(all[..|all|-1]) + all[|all|-1]
  }

  lemma {:induction false} MergeOneIsAppend(merged: seq<Snapshot>, contents: seq<Snapshot>)
    requires DistinctTags(merged)
    ensures DistinctTags(MergeOne(merged, contents))
    ensures |MergeOne(merged, contents)| <= |merged| + |contents|
    ensures MergeOne(merged, contents) == merged + contents <==> DistinctTags(merged + contents)
    decreases |contents|
  {
    if contents == [] {
      assert merged + contents == merged;
    } else if Tagged(merged, contents[0].0) {
      var i :| 0 <= i < |merged| && merged[i].0 == contents[0].0;
      assert (merged + contents)[i].0 == (merged + contents)[|merged|].0;
    } else {
      assert merged + contents == merged + [contents[0]] + contents[1..];
      MergeOneIsAppend(merged + [contents[0]], contents[1..]);
    }
  }

  lemma {:induction false} MergeLosesNothing(all: seq<seq<Snapshot>>)
    ensures DistinctTags(MergeAll(all)) && |MergeAll(all)| <= |Flatten(all)|
    ensures MergeAll(all) == Flatten(all) <==> DistinctTags(Flatten(all))
  {
    if all != [] {
      var front, last := all[..|all|-1], all[|all|-1];
      MergeLosesNothing(front);
      MergeOneIsAppend(MergeAll(front), last);
      if DistinctTags(Flatten(all)) {
        assert Flatten(all)[..|Flatten(front)|] == Flatten(front);
        assert forall i :: 0 <= i < |Flatten(front)| ==> Flatten(front)[i] == Flatten(all)[i];
      } else if MergeAll(all) == Flatten(all) {
        assert false;
      }
    }
  }

  /** Every snapshot of every source is in the merged index. */
  ghost predicate Lossless(all: seq<seq<Snapshot>>) {
    forall s :: s in Flatten(all) ==> s in MergeAll(all)
  }

  /** Snapshot k of source j is pushed: neither it nor one before it in its source has a
      tag that an earlier source got in. */
  ghost predicate Pushed(all: seq<seq<Snapshot>>, j: nat, k: nat)
    requires j < |all| && k < |all[j]|
    decreases j
  {
    forall before, i, l :: 0 <= before <= k && 0 <= i < j && 0 <= l < |all[i]| && Pushed(all, i, l) ==>
      all[i][l].0 != all[j][before].0
  }

  ghost predicate SourcesDistinct(all: seq<seq<Snapshot>>) { forall j :: 0 <= j < |all| ==> DistinctTags(all[j]) }

  /** Equal tags carry equal files. */
  ghost predicate TagsAgree(snapshots: seq<Snapshot>) {
    forall s, t :: s in snapshots && t in snapshots && s.0 == t.0 ==> s == t
  }

  ghost predicate SomePushed(all: seq<seq<Snapshot>>, tag: string) {
    exists j, k :: 0 <= j < |all| && 0 <= k < |all[j]| && Pushed(all, j, k) && all[j][k].0 == tag
  }

  lemma {:induction false} MergeOnePrefix(merged: seq<Snapshot>, contents: seq<Snapshot>) returns (n: nat)
    requires DistinctTags(contents)
    ensures n <= |contents| && MergeOne(merged, contents) == merged + contents[..n]
    ensures forall k :: 0 <= k < n ==> !Tagged(merged, contents[k].0)
    ensures n < |contents| ==> Tagged(merged, contents[n].0)
    decreases |contents|
  {
    if contents == [] || Tagged(merged, contents[0].0) {
      n := 0;
      assert merged + contents[..0] == merged;
    } else {
      var more := merged + [contents[0]];
      n := MergeOnePrefix(more, contents[1..]);
      forall k | 0 <= k < n ensures !Tagged(merged, contents[1..][k].0) {
        TaggedMore(merged, contents[0], contents[1..][k].0);
      }
      if n < |contents[1..]| {
        var i :| 0 <= i < |more| && more[i].0 == contents[1..][n].0;
        assert contents[1..][n] == contents[n+1];
        assert i < |merged| && merged[i] == more[i];
      }
      n := n + 1;
      assert merged + contents[..n] == more + contents[1..][..n-1];
    }
  }

  lemma TaggedMore(merged: seq<Snapshot>, s: Snapshot, tag: string)
    ensures Tagged(merged + [s], tag) <==> Tagged(merged, tag) || s.0 == tag
  {
    var more := merged + [s];
    if Tagged(merged, tag) {
      var i :| 0 <= i < |merged| && merged[i].0 == tag;
      assert more[i] == merged[i];
    }
    assert more[|merged|] == s;
  }

  lemma {:induction false} PushedInFront(all: seq<seq<Snapshot>>, n: nat, j: nat, k: nat)
    requires j < n <= |all| && k < |all[j]|
    ensures Pushed(all, j, k) <==> Pushed(all[..n], j, k)
    decreases j
  {
    forall i, l | 0 <= i < j && 0 <= l < |all[i]| ensures Pushed(all, i, l) <==> Pushed(all[..n], i, l) {
      PushedInFront(all, n, i, l);
    }
  }

  /** What arrives is exactly what is pushed. */
  lemma {:induction false} MergedIsPushed(all: seq<seq<Snapshot>>, s: Snapshot)
    requires SourcesDistinct(all)
    ensures s in MergeAll(all) <==> exists j, k :: 0 <= j < |all| && 0 <= k < |all[j]| && Pushed(all, j, k) && all[j][k] == s
    decreases |all|, 1
  {
    if all != [] {
      var front, last, m := all[..|all|-1], all[|all|-1], |all| - 1;
      MergedIsPushed(front, s);
      var n := MergeOnePrefix(MergeAll(front), last);
      forall k | 0 <= k < |last| ensures Pushed(all, m, k) <==> k < n { LastPushed(all, n, k); }
      forall j, k | 0 <= j < m && 0 <= k < |all[j]| ensures Pushed(all, j, k) <==> Pushed(front, j, k) { PushedInFront(all, m, j, k); }
      if s in MergeAll(front) {
        var j, k :| 0 <= j < |front| && 0 <= k < |front[j]| && Pushed(front, j, k) && front[j][k] == s;
        assert Pushed(all, j, k) && all[j][k] == s;
      } else if s in last[..n] {
        var k :| 0 <= k < n && last[k] == s;
        assert Pushed(all, m, k);
      }
      forall j, k | 0 <= j < |all| && 0 <= k < |all[j]| && Pushed(all, j, k) && all[j][k] == s ensures s in MergeAll(all) {
        if j < m { assert Pushed(front, j, k) && front[j][k] == s; } else { assert last[..n][k] == s; }
      }
    }
  }

  lemma LastPushed(all: seq<seq<Snapshot>>, n: nat, k: nat)
    requires SourcesDistinct(all) && all != [] && k < |all[|all|-1]|
    requires var merged, last := MergeAll(all[..|all|-1]), all[|all|-1];
      && n <= |last| && (forall k :: 0 <= k < n ==> !Tagged(merged, last[k].0)) && (n < |last| ==> Tagged(merged, last[n].0))
    ensures Pushed(all, |all| - 1, k) <==> k < n
    decreases |all|, 0
  {
    var front, last, m := all[..|all|-1], all[|all|-1], |all| - 1;
    var merged := MergeAll(front);
    hide MergeAll;
    if k < n {
      forall before, i, l | 0 <= before <= k && 0 <= i < m && 0 <= l < |all[i]| && Pushed(all, i, l) ensures all[i][l].0 != last[before].0 {
        PushedInFront(all, m, i, l);
        assert front[i] == all[i];
        MergedIsPushed(front, front[i][l]);
        var at :| 0 <= at < |merged| && merged[at] == front[i][l];
      }
    } else {
      var at :| 0 <= at < |merged| && merged[at].0 == last[n].0;
      MergedIsPushed(front, merged[at]);
      var i, l :| 0 <= i < |front| && 0 <= l < |front[i]| && Pushed(front, i, l) && front[i][l] == merged[at];
      PushedInFront(all, m, i, l);
      assert n <= k && Pushed(all, i, l) && all[i][l].0 == all[m][n].0;
    }
  }

  lemma {:induction false} FlattenMember(all: seq<seq<Snapshot>>, s: Snapshot)
    ensures s in Flatten(all) <==> exists j, k :: 0 <= j < |all| && 0 <= k < |all[j]| && all[j][k] == s
  {
    if all != [] {
      var front, last := all[..|all|-1], all[|all|-1];
      FlattenMember(front, s);
      if s in Flatten(front) {
        var j, k :| 0 <= j < |front| && 0 <= k < |front[j]| && front[j][k] == s;
        assert all[j][k] == s;
      } else if s in last {
        var k :| 0 <= k < |last| && last[k] == s;
        assert all[|all|-1][k] == s;
      }
      forall j, k | 0 <= j < |all| && 0 <= k < |all[j]| && all[j][k] == s ensures s in Flatten(all) {
        if j < |front| { assert front[j][k] == s; }
      }
    }
  }

  lemma SameTagSame(merged: seq<Snapshot>, s: Snapshot, t: Snapshot)
    requires DistinctTags(merged) && s in merged && t in merged && s.0 == t.0
    ensures s == t
  {}

  /** Merging loses nothing exactly when equal tags carry equal files and every tag is
      pushed from somewhere. */
  lemma LosslessIff(all: seq<seq<Snapshot>>)
    requires SourcesDistinct(all)
    ensures Lossless(all) <==> TagsAgree(Flatten(all)) && forall s :: s in Flatten(all) ==> SomePushed(all, s.0)
  {
    MergeLosesNothing(all);
    hide MergeAll, Flatten, Pushed, SourcesDistinct, DistinctTags;
    if Lossless(all) {
      forall s, t | s in Flatten(all) && t in Flatten(all) && s.0 == t.0 ensures s == t { SameTagSame(MergeAll(all), s, t); }
      forall s | s in Flatten(all) ensures SomePushed(all, s.0) { MergedIsPushed(all, s); }
    }
    if TagsAgree(Flatten(all)) && forall s :: s in Flatten(all) ==> SomePushed(all, s.0) {
      forall s | s in Flatten(all) ensures s in MergeAll(all) {
        var j, k :| 0 <= j < |all| && 0 <= k < |all[j]| && Pushed(all, j, k) && all[j][k].0 == s.0;
        FlattenMember(all, all[j][k]);
        MergedIsPushed(all, s);
      }
    }
  }

  ghost predicate OneEach(all: seq<seq<Snapshot>>) { forall j :: 0 <= j < |all| ==> |all[j]| == 1 }

  lemma FirstIsPushed(all: seq<seq<Snapshot>>, j: nat)
    requires OneEach(all) && j < |all|
    ensures SomePushed(all, all[j][0].0)
  {
    if !Pushed(all, j, 0) {
      var before, i, l :| 0 <= before <= 0 && 0 <= i < j && 0 <= l < |all[i]| && Pushed(all, i, l) && all[i][l].0 == all[j][before].0;
    }
  }

  lemma LooseArePushed(all: seq<seq<Snapshot>>, s: Snapshot)
    requires OneEach(all) && s in Flatten(all)
    ensures SomePushed(all, s.0)
  {
    hide Flatten, Pushed, SomePushed;
    FlattenMember(all, s);
    var j, k :| 0 <= j < |all| && 0 <= k < |all[j]| && all[j][k] == s;
    FirstIsPushed(all, j);
  }

  /** Indexes of one snapshot, as loose ones are: nothing is lost exactly when equal tags
      carry equal files. */
  lemma LosslessLoose(all: seq<seq<Snapshot>>)
    requires OneEach(all)
    ensures Lossless(all) <==> TagsAgree(Flatten(all))
  {
    assert SourcesDistinct(all);
    LosslessIff(all);
    hide Lossless, TagsAgree, Flatten, SourcesDistinct, SomePushed, OneEach;
    forall s | s in Flatten(all) ensures SomePushed(all, s.0) { LooseArePushed(all, s); }
  }

  /** The loose indexes on disk: each holds one snapshot and lies where its tag says. */
  ghost predicate LooseStore(store: map<string, Snapshot>, pathOf: string -> string) {
    forall path :: path in store ==> pathOf(store[path].0) == path
  }

  /** So packing any list of loose packs, with repetitions or without, loses nothing. */
  lemma PackingLooseIsLossless(store: map<string, Snapshot>, pathOf: string -> string, request: seq<string>)
    requires LooseStore(store, pathOf) && forall n :: 0 <= n < |request| ==> request[n] in store
    ensures Lossless(seq(|request|, n requires 0 <= n < |request| => [store[request[n]]]))
  {
    var all: seq<seq<Snapshot>> := seq(|request|, n requires 0 <= n < |request| => [store[request[n]]]);
    LosslessLoose(all);
    forall s: Snapshot, t: Snapshot | s in Flatten(all) && t in Flatten(all) && s.0 == t.0 ensures s == t {
      FlattenMember(all, s);
      FlattenMember(all, t);
      var i, k :| 0 <= i < |all| && 0 <= k < |all[i]| && all[i][k] == s;
      var j, l :| 0 <= j < |all| && 0 <= l < |all[j]| && all[j][l] == t;
      assert s == store[request[i]] && t == store[request[j]];
    }
  }

  lemma MergePair(first: seq<Snapshot>, second: seq<Snapshot>)
    ensures MergeAll([first, second]) == MergeOne(MergeOne([], first), second)
    ensures Flatten([first, second]) == first + second
  {
    var one, none: seq<seq<Snapshot>> := [first], [];
    assert [first, second][..1] == one && one[..0] == none;
    assert MergeAll(none) == [] && Flatten(none) == [];
    assert MergeAll(one) == MergeOne([], first);
    assert [] + first == first;
  }

  /** For instance, one-snapshot indexes with one tag and different files: the second is
      lost and nothing is reported. */
  lemma TagTakenLosesSnapshot(x: set<Key>, y: set<Key>)
    requires x != y
    ensures !Lossless([[("a", x)], [("a", y)]]) && MergeAll([[("a", x)], [("a", y)]]) == [("a", x)]
  {
    var first: seq<Snapshot>, second: seq<Snapshot> := [("a", x)], [("a", y)];
    MergePair(first, second);
    MergeOneStep([], first, 0);
    MergeOneStep(first, first, 1);
    MergeOneStep(first, second, 0);
    assert first[0..] == first && second[0..] == second && [] + [first[0]] == first;
    assert first[0].0 == second[0].0 && Tagged(first, second[0].0);
    assert second[0] in first + second;
  }

  /** For instance, an index of two snapshots, which the store does not write: one behind
      a taken tag is lost as well, whatever it holds. */
  lemma TagTakenLosesTheRest(x: set<Key>, y: set<Key>, z: set<Key>)
    ensures MergeAll([[("a", x)], [("a", y), ("b", z)]]) == [("a", x)] && !Lossless([[("a", x)], [("a", y), ("b", z)]])
  {
    var first: seq<Snapshot>, second: seq<Snapshot> := [("a", x)], [("a", y), ("b", z)];
    MergePair(first, second);
    MergeOneStep([], first, 0);
    MergeOneStep(first, first, 1);
    MergeOneStep(first, second, 0);
    assert first[0..] == first && second[0..] == second && [] + [first[0]] == first;
    assert first[0].0 == second[0].0 && Tagged(first, second[0].0);
    assert second[1] in first + second && second[1] !in first by { assert "a"[0] != "b"[0]; }
  }

  /** What a list of indexes holds, as values. */
  ghost predicate Describes(indexes: seq<PackIndex>, all: seq<seq<Snapshot>>, metas: seq<map<Checksum, ObjectMeta>>)
    reads indexes, set i | 0 <= i < |indexes| :: indexes[i].pathPool
    reads set i | 0 <= i < |indexes| :: indexes[i].itemPool
  {
    && |all| == |metas| == |indexes|
    && forall i :: 0 <= i < |indexes| ==> indexes[i].Readable() && indexes[i].Contents() == all[i] && indexes[i].Metas() == metas[i]
  }

  /** Everything known is known from one of two sources. */
  ghost predicate KnownFrom(metas: map<Checksum, ObjectMeta>, a: map<Checksum, ObjectMeta>, b: map<Checksum, ObjectMeta>) {
    forall c :: c in metas ==> (c in a && metas[c] == a[c]) || (c in b && metas[c] == b[c])
  }

  lemma {:induction false} RecordedFrom(metas: map<Checksum, ObjectMeta>, input: seq<FileEntry>,
                                        a: map<Checksum, ObjectMeta>, b: map<Checksum, ObjectMeta>)
    requires KnownFrom(metas, a, b) && forall i :: 0 <= i < |input| ==> input[i].checksum in b && b[input[i].checksum] == input[i].meta
    ensures KnownFrom(Recorded(metas, input), a, b)
  {
    if input != [] { RecordedFrom(metas, input[..|input|-1], a, b); }
  }

  lemma MergeOneStep(merged: seq<Snapshot>, contents: seq<Snapshot>, k: nat)
    requires k <= |contents|
    ensures k < |contents| && !Tagged(merged, contents[k].0) ==>
      MergeOne(merged, contents[k..]) == MergeOne(merged + [contents[k]], contents[k+1..])
    ensures k == |contents| || Tagged(merged, contents[k].0) ==> MergeOne(merged, contents[k..]) == merged
  {}

  /** The inner loop of pack: one index visited, every snapshot pushed, until a push fails. */
  method PourInto(merged: PackIndex, index: PackIndex)
    requires merged.Valid() && index.Readable()
    modifies merged, merged.pathPool, merged.itemPool
    ensures merged.Valid() && merged.pathPool == old(merged.pathPool) && merged.itemPool == old(merged.itemPool)
    ensures merged.Contents() == MergeOne(old(merged.Contents()), old(index.Contents()))
    ensures KnownFrom(merged.Metas(), old(merged.Metas()), old(index.Metas()))
  {
    hide Chain, Apply, Applicable, After, AllInRange, ContentsOf, Keys, MetasOf, MergeOne, KnownFrom, Distinct, Covers, Recorded, Elements, Tagged;
    var visits := index.Visits();
    ghost var contents, metas := index.Contents(), index.Metas();
    assert contents[0..] == contents;
    KnownAlready(merged.Metas(), metas);
    for k := 0 to |visits.value|
      invariant merged.Valid() && merged.pathPool == old(merged.pathPool) && merged.itemPool == old(merged.itemPool)
      invariant MergeOne(merged.Contents(), contents[k..]) == MergeOne(old(merged.Contents()), contents)
      invariant KnownFrom(merged.Metas(), old(merged.Metas()), metas)
    {
      var (tag, entries) := visits.value[k];
      var input := Iterate(entries);
      MergeOneStep(merged.Contents(), contents, k);
      TaggedMeans(merged.Contents(), merged.snapshotTags, tag);
      InputKnown(entries, input, metas);
      RecordedFrom(merged.Metas(), input, old(merged.Metas()), metas);
      var pushed := merged.PushSnapshot(tag, input);
      if !pushed { return; }
    }
    MergeOneStep(merged.Contents(), contents, |contents|);
  }

  lemma KnownAlready(a: map<Checksum, ObjectMeta>, b: map<Checksum, ObjectMeta>)
    ensures KnownFrom(a, a, b)
  {}

  lemma TaggedMeans(contents: seq<Snapshot>, tags: seq<string>, tag: string)
    requires |contents| == |tags| && forall i :: 0 <= i < |tags| ==> contents[i].0 == tags[i]
    ensures Tagged(contents, tag) <==> tag in tags
  {}

  lemma InputKnown(entries: set<FileEntry>, input: seq<FileEntry>, metas: map<Checksum, ObjectMeta>)
    requires Elements(input) == entries && forall e :: e in entries ==> e.checksum in metas && metas[e.checksum] == e.meta
    ensures forall i :: 0 <= i < |input| ==> input[i].checksum in metas && metas[input[i].checksum] == input[i].meta
  {}

  /** What is known about any object is what one of the sources says. */
  ghost predicate Sourced(metas: map<Checksum, ObjectMeta>, sources: seq<map<Checksum, ObjectMeta>>) {
    forall c :: c in metas ==> exists i :: 0 <= i < |sources| && c in sources[i] && sources[i][c] == metas[c]
  }

  lemma SourcedStep(metas: map<Checksum, ObjectMeta>, before: map<Checksum, ObjectMeta>, sources: seq<map<Checksum, ObjectMeta>>, k: nat)
    requires k < |sources| && Sourced(before, sources[..k]) && KnownFrom(metas, before, sources[k])
    ensures Sourced(metas, sources[..k+1])
  {}

  lemma MergeAllStep(all: seq<seq<Snapshot>>, k: nat)
    requires k < |all|
    ensures MergeAll(all[..k+1]) == MergeOne(MergeAll(all[..k]), all[k])
  {
    assert all[..k+1][..k] == all[..k];
  }

  /** Many loose indexes become one, every snapshot with the files it had. Nothing is lost
      exactly when equal tags carry equal files and every tag gets in; nothing is left out
      or joined exactly when no tag occurs twice. */
  method Merge(indexes: seq<PackIndex>, ghost all: seq<seq<Snapshot>>, ghost metas: seq<map<Checksum, ObjectMeta>>)
    returns (merged: PackIndex)
    requires Describes(indexes, all, metas)
    ensures fresh(merged) && merged.Valid() && merged.Contents() == MergeAll(all)
    ensures merged.Contents() == Flatten(all) <==> DistinctTags(Flatten(all))
    ensures (forall s :: s in Flatten(all) ==> s in merged.Contents())
      <==> (TagsAgree(Flatten(all)) && forall s :: s in Flatten(all) ==> SomePushed(all, s.0))
    ensures Sourced(merged.Metas(), metas)
  {
    hide MergeOne, MergeAll, KnownFrom, Sourced, ContentsOf, MetasOf, Chain, Distinct, AllInRange, Covers, After, Flatten, DistinctTags, Describes, TagsAgree, SomePushed, SourcesDistinct;
    merged := new PackIndex();
    NothingMerged(all, metas);
    DescribedLengths(indexes, all, metas);
    for k := 0 to |indexes|
      invariant fresh(merged) && fresh(merged.pathPool) && fresh(merged.itemPool) && merged.Valid()
      invariant Describes(indexes, all, metas)
      invariant merged.Contents() == MergeAll(all[..k]) && Sourced(merged.Metas(), metas[..k])
    {
      ghost var before := merged.Metas();
      Described(indexes, all, metas, k);
      PourInto(merged, indexes[k]);
      MergeAllStep(all, k);
      SourcedStep(merged.Metas(), before, metas, k);
    }
    assert all[..|all|] == all && metas[..|metas|] == metas;
    MergeLosesNothing(all);
    DescribedDistinct(indexes, all, metas);
    LosslessIff(all);
  }

  lemma DescribedLengths(indexes: seq<PackIndex>, all: seq<seq<Snapshot>>, metas: seq<map<Checksum, ObjectMeta>>)
    requires Describes(indexes, all, metas)
    ensures |all| == |metas| == |indexes|
  {}

  lemma Described(indexes: seq<PackIndex>, all: seq<seq<Snapshot>>, metas: seq<map<Checksum, ObjectMeta>>, k: nat)
    requires Describes(indexes, all, metas) && k < |indexes|
    ensures indexes[k].Readable() && indexes[k].Contents() == all[k] && indexes[k].Metas() == metas[k]
  {}

  lemma DescribedDistinct(indexes: seq<PackIndex>, all: seq<seq<Snapshot>>, metas: seq<map<Checksum, ObjectMeta>>)
    requires Describes(indexes, all, metas)
    ensures SourcesDistinct(all)
  {
    forall k | 0 <= k < |all| ensures DistinctTags(all[k]) {
      Described(indexes, all, metas, k);
      var tags := indexes[k].snapshotTags;
      assert forall n :: 0 <= n < |tags| ==> all[k][n].0 == tags[n];
    }
  }

  lemma NothingMerged(all: seq<seq<Snapshot>>, metas: seq<map<Checksum, ObjectMeta>>)
    ensures MergeAll(all[..0]) == [] && Sourced(map[], metas[..0])
  {}
}
