/** What a pack index records: sets of files per tag, kept as changes from one snapshot
    to the next. */
module Snapshots {
  import opened ByteStrings
  import opened EntryPools
  import opened Orders

  type U32 = n: int | 0 <= n < 0x1_0000_0000

  datatype SymlinkTargetEncoding = PortableUtf8 | UnixBytes | WindowsUtf16Le
  datatype SymlinkTargetKind = ToFile | ToDirectory | Unknown
  datatype Metadata = Regular(mode: U32) | Symlink(encoding: SymlinkTargetEncoding, kind: SymlinkTargetKind)
  datatype ObjectMeta = ObjectMeta(offset: nat, size: nat)

  datatype FileHandle = FileHandle(path: Handle, item: Handle, metadata: Metadata)
  datatype FileEntry = FileEntry(path: Bytes, checksum: Checksum, meta: ObjectMeta, metadata: Metadata)
  /** What a file in a snapshot is, wherever its object lies. */
  datatype Key = Key(path: Bytes, checksum: Checksum, metadata: Metadata)

  function KeyOf(e: FileEntry): Key { Key(e.path, e.checksum, e.metadata) }
  function Keys(entries: set<FileEntry>): set<Key> { set e | e in entries :: KeyOf(e) }

  // ---- Change sets -------------------------------------------------------------------

  datatype ChangeSet<T> = ChangeSet(added: seq<T>, removed: seq<T>)

  function Elements<T>(s: seq<T>): set<T> { set x | x in s }

  /** The assertions of apply_changes: what is removed is there, what is added is not. */
  ghost predicate Applicable<T>(s: set<T>, c: ChangeSet<T>) {
    && Distinct(c.removed) && Elements(c.removed) <= s
    && Distinct(c.added) && Elements(c.added) !! (s - Elements(c.removed))
  }

  function Apply<T>(s: set<T>, c: ChangeSet<T>): set<T> { (s - Elements(c.removed)) + Elements(c.added) }

  /** apply_changes: every assert is one of the code's own. */
  method ApplyChanges<T(==)>(s: set<T>, changes: ChangeSet<T>) returns (r: set<T>)
    requires Applicable(s, changes)
    ensures r == Apply(s, changes)
  {
    r := s;
    for k := 0 to |changes.removed|
      invariant r == s - Elements(changes.removed[..k])
    {
      assert changes.removed[k] in r;
      r := r - {changes.removed[k]};
    }
    assert changes.removed[..|changes.removed|] == changes.removed;
    for k := 0 to |changes.added|
      invariant r == s - Elements(changes.removed) + Elements(changes.added[..k])
    {
      assert changes.added[k] in Elements(changes.added);
      assert changes.added[k] !in r;
      r := r + {changes.added[k]};
    }
    assert changes.added[..|changes.added|] == changes.added;
  }

  /** The elements of a set, in the order a hash set happens to give. */
  method Iterate<T(==)>(s: set<T>) returns (order: seq<T>)
    ensures Elements(order) == s && Distinct(order)
  {
    order := [];
    var rest := s;
    while rest != {}
      invariant rest <= s && Elements(order) == s - rest && Distinct(order)
      decreases |rest|
    {
      var x :| x in rest;
      assert x !in Elements(order) && Elements(order + [x]) == Elements(order) + {x};
      order := order + [x];
      rest := rest - {x};
    }
  }

  /** get_changes: afterwards `set` is `next`. */
  method GetChanges<T(==)>(s: set<T>, next: set<T>) returns (changes: ChangeSet<T>, updated: set<T>)
    ensures Applicable(s, changes) && Apply(s, changes) == next && updated == next
    ensures Elements(changes.added) == next - s && Elements(changes.removed) == s - next
  {
    var removed := Iterate(s - next);
    var added := Iterate(next - s);
    updated := s;
    for k := 0 to |added|
      invariant updated == s + Elements(added[..k])
    {
      assert added[k] in Elements(added);
      assert added[k] !in updated;
      updated := updated + {added[k]};
    }
    assert added[..|added|] == added;
    for k := 0 to |removed|
      invariant updated == s + (next - s) - Elements(removed[..k])
    {
      assert removed[k] in Elements(removed);
      assert removed[k] in updated;
      updated := updated - {removed[k]};
    }
    assert removed[..|removed|] == removed;
    changes := ChangeSet(added, removed);
  }

  /** The set after all the changes, from nothing. */
  function After<T>(deltas: seq<ChangeSet<T>>): set<T> {
    if deltas == [] then {} else Apply(After(deltas[..|deltas|-1]), deltas[|deltas|-1])
  }

  ghost predicate Chain<T>(deltas: seq<ChangeSet<T>>) {
    forall i :: 0 <= i < |deltas| ==> Applicable(After(deltas[..i]), deltas[i])
  }

  lemma ChainSnoc<T>(deltas: seq<ChangeSet<T>>, c: ChangeSet<T>)
    requires Chain(deltas) && Applicable(After(deltas), c)
    ensures Chain(deltas + [c]) && After(deltas + [c]) == Apply(After(deltas), c)
    ensures forall i :: 0 <= i <= |deltas| ==> (deltas + [c])[..i] == deltas[..i]
  {
    hide Applicable, Apply;
    assert (deltas + [c])[..|deltas|] == deltas;
    assert deltas[..|deltas|] == deltas;
    forall i | 0 <= i <= |deltas| ensures (deltas + [c])[..i] == deltas[..i] {}
  }

  lemma AfterNext<T>(deltas: seq<ChangeSet<T>>, i: nat)
    requires i < |deltas|
    ensures After(deltas[..i+1]) == Apply(After(deltas[..i]), deltas[i])
  {
    assert deltas[..i+1][..i] == deltas[..i];
  }

  // ---- Counting without replaying ------------------------------------------------------

  lemma {:induction false} ElementsCount<T>(s: seq<T>)
    requires Distinct(s)
    ensures |Elements(s)| == |s|
  {
    if s != [] {
      var front, last := s[..|s|-1], s[|s|-1];
      ElementsCount(front);
      assert Elements(s) == Elements(front) + {last};
    }
  }

  /** Sizes of the lists are enough to know the size of the set. */
  lemma ApplyCount<T>(s: set<T>, c: ChangeSet<T>)
    requires Applicable(s, c)
    ensures |Apply(s, c)| == |s| + |c.added| - |c.removed|
  {
    ElementsCount(c.added);
    ElementsCount(c.removed);
    assert |s - Elements(c.removed)| == |s| - |Elements(c.removed)|;
  }

  // ---- Changes seen through an injective reading ----------------------------------------

  ghost predicate InjectiveOn<T(!new), U>(f: T -> U, dom: set<T>) {
    forall x, y :: x in dom && y in dom && f(x) == f(y) ==> x == y
  }

  function Image<T, U>(f: T -> U, s: set<T>): set<U> { set x | x in s :: f(x) }
  function ReadChanges<T, U>(f: T -> U, c: ChangeSet<T>): ChangeSet<U> {
    ChangeSet(seq(|c.added|, i requires 0 <= i < |c.added| => f(c.added[i])),
              seq(|c.removed|, i requires 0 <= i < |c.removed| => f(c.removed[i])))
  }

  lemma ImageElements<T(!new), U>(f: T -> U, s: seq<T>, r: seq<U>)
    requires |r| == |s| && forall i :: 0 <= i < |s| ==> r[i] == f(s[i])
    ensures Elements(r) == Image(f, Elements(s))
    ensures InjectiveOn(f, Elements(s)) && Distinct(s) ==> Distinct(r)
  {}

  /** Replaying what the handles stand for is replaying the handles: no assertion can fail
      on one side only. */
  lemma ImageStep<T(!new), U>(f: T -> U, dom: set<T>, s: set<T>, c: ChangeSet<T>)
    requires InjectiveOn(f, dom) && s <= dom && Elements(c.added) <= dom && Applicable(s, c)
    ensures Applicable(Image(f, s), ReadChanges(f, c))
    ensures Apply(Image(f, s), ReadChanges(f, c)) == Image(f, Apply(s, c))
  {
    var r := ReadChanges(f, c);
    ImageElements(f, c.added, r.added);
    ImageElements(f, c.removed, r.removed);
    forall x | x in s ensures f(x) in Image(f, Elements(c.removed)) <==> x in Elements(c.removed) {}
  }
}
