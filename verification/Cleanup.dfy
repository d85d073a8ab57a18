/** remove_empty_dirs and the one-slot EmptyDirectoryCleanupQueue. */
module Cleanup {
  import opened PathPolicy
  import opened WorkTree

  /** The result of a file-system operation that may stop half way: the tree it leaves. */
  datatype Outcome = Outcome(tree: Tree, ok: bool)

  /** rmdir on a path; `broken` says which calls fail with an unrelated I/O error. */
  type Faults = Path -> bool

  /** remove_empty_dirs: rmdir the leaf, then its parents, until one is not empty. */
  function RemoveEmptyDirs(t: Tree, leaf: Path, boundary: Path, broken: Faults): Outcome
    requires boundary <= leaf
    decreases |leaf|
  {
    if leaf == boundary then Outcome(t, true)
    else if broken(leaf) || Blocked(t, leaf) then Outcome(t, false)
    else if leaf !in t then Outcome(t, true)
    else if !t[leaf].Dir? then Outcome(t, false)
    else if HasChild(t, leaf) then Outcome(t, true)
    else if Parent(leaf) == boundary then Outcome(t - {leaf}, true)
    else RemoveEmptyDirs(t - {leaf}, Parent(leaf), boundary, broken)
  }

  type Slot = s: seq<(Path, Path)> | |s| <= 1 && forall x :: x in s ==> x.1 <= x.0

  datatype QueueState = QueueState(tree: Tree, slot: Slot, ok: bool)

  function AfterEnqueue(t: Tree, slot: Slot, leaf: Path, boundary: Path, broken: Faults): QueueState
    requires boundary <= leaf
  {
    if slot == [] then QueueState(t, [(leaf, boundary)], true)
    else if slot[0].1 == boundary && slot[0].0 <= leaf then QueueState(t, [(leaf, boundary)], true)
    else
      var r := RemoveEmptyDirs(t, slot[0].0, slot[0].1, broken);
      QueueState(r.tree, if r.ok then [(leaf, boundary)] else slot, r.ok)
  }

  function AfterProcess(t: Tree, slot: Slot, broken: Faults): Outcome {
    if slot == [] then Outcome(t, true) else RemoveEmptyDirs(t, slot[0].0, slot[0].1, broken)
  }

  // ---- What cleanup is meant to leave behind --------------------------------------

  ghost predicate Touched(touched: set<Path>, p: Path) { exists d :: d in touched && p <= d }

  /** A directory may go exactly when all that is left below it (and it itself) are
      directories from which a file was removed at some depth. */
  ghost predicate Prunable(base: Tree, touched: set<Path>, boundary: Path, p: Path) {
    && p in base && boundary < p
    && forall q :: q in base && p <= q ==> base[q].Dir? && Touched(touched, q)
  }

  ghost function Pruned(base: Tree, touched: set<Path>, boundary: Path): Tree {
    map p | p in base && !Prunable(base, touched, boundary, p) :: base[p]
  }

  /** Only prunable directories of `base` are missing from `t`. */
  ghost predicate Between(t: Tree, base: Tree, touched: set<Path>, boundary: Path) {
    && WellFormed(t)
    && (forall p :: p in t ==> p in base && t[p] == base[p])
    && (forall p :: p in base && p !in t ==> Prunable(base, touched, boundary, p))
  }

  ghost predicate Left(t: Tree, base: Tree, touched: set<Path>, boundary: Path, p: Path) {
    p in t && Prunable(base, touched, boundary, p)
  }

  /** Prunable directories still standing are all on the way to `keep[0]`, which stands. */
  ghost predicate Pending(t: Tree, base: Tree, touched: set<Path>, boundary: Path, keep: seq<Path>)
    requires |keep| <= 1
  {
    forall p :: Left(t, base, touched, boundary, p) ==> keep != [] && p <= keep[0] && keep[0] in t
  }

  lemma PrunableBelow(base: Tree, touched: set<Path>, boundary: Path, p: Path, q: Path)
    requires Prunable(base, touched, boundary, p) && p <= q && q in base
    ensures Prunable(base, touched, boundary, q)
  {}

  lemma SettledIsPruned(t: Tree, base: Tree, touched: set<Path>, boundary: Path)
    requires Between(t, base, touched, boundary) && Pending(t, base, touched, boundary, [])
    ensures t == Pruned(base, touched, boundary)
  {
    forall p ensures p in t <==> p in Pruned(base, touched, boundary) {
      if p in t { assert !Left(t, base, touched, boundary, p); }
    }
  }

  /** The heart of both forms: one call removes every prunable directory on the way to
      `leaf` except those needed by `keep`, and nothing else. */
  lemma {:induction false} RemoveEmptyDirsLemma(
      t: Tree, base: Tree, touched: set<Path>, boundary: Path, leaf: Path, keep: seq<Path>, broken: Faults)
    requires boundary <= leaf && WellFormed(base) && |keep| <= 1
    requires Between(t, base, touched, boundary)
    requires leaf == boundary || (leaf in base && base[leaf].Dir? && Touched(touched, leaf))
    requires forall p :: Left(t, base, touched, boundary, p) ==>
      || (p <= leaf && leaf in t)
      || (keep != [] && p <= keep[0] && keep[0] in t)
    ensures Between(RemoveEmptyDirs(t, leaf, boundary, broken).tree, base, touched, boundary)
    ensures RemoveEmptyDirs(t, leaf, boundary, broken).ok ==>
      Pending(RemoveEmptyDirs(t, leaf, boundary, broken).tree, base, touched, boundary, keep)
    ensures (forall p :: !broken(p)) ==> RemoveEmptyDirs(t, leaf, boundary, broken).ok
    decreases |leaf|
  {
    if leaf != boundary {
      PresentNotBlocked(base, leaf);
      assert !Blocked(t, leaf);
      if broken(leaf) || leaf !in t {
      } else if HasChild(t, leaf) {
        OccupiedKeeps(t, base, touched, boundary, leaf, keep);
      } else {
        LeafIsPrunable(t, base, touched, boundary, leaf);
        RemoveLeafWellFormed(t, leaf);
        var t' := t - {leaf};
        var up := Parent(leaf);
        var keep' := if keep == [leaf] then [] else keep;
        EmptyMovesUp(t, base, touched, boundary, leaf, keep);
        if up != boundary {
          TouchedUp(touched, leaf);
          RemoveEmptyDirsLemma(t', base, touched, boundary, up, keep', broken);
        }
      }
    }
  }

  /** Nothing prunable below an occupied directory, except on the way to `keep`. */
  lemma OccupiedKeeps(t: Tree, base: Tree, touched: set<Path>, boundary: Path, leaf: Path, keep: seq<Path>)
    requires Between(t, base, touched, boundary) && HasChild(t, leaf) && |keep| <= 1
    requires forall p :: Left(t, base, touched, boundary, p) ==>
      (p <= leaf && leaf in t) || (keep != [] && p <= keep[0] && keep[0] in t)
    ensures Pending(t, base, touched, boundary, keep)
  {
    var q :| q in t && leaf < q;
    forall p | Left(t, base, touched, boundary, p) && p <= leaf
      ensures keep != [] && p <= keep[0] && keep[0] in t
    {
      PrunableBelow(base, touched, boundary, p, q);
      assert Left(t, base, touched, boundary, q);
      assert p <= q;
    }
  }

  lemma EmptyMovesUp(t: Tree, base: Tree, touched: set<Path>, boundary: Path, leaf: Path, keep: seq<Path>)
    requires WellFormed(t) && leaf in t && leaf != [] && |keep| <= 1
    requires forall p :: Left(t, base, touched, boundary, p) ==>
      (p <= leaf && leaf in t) || (keep != [] && p <= keep[0] && keep[0] in t)
    ensures var keep' := if keep == [leaf] then [] else keep;
      forall p :: Left(t - {leaf}, base, touched, boundary, p) ==>
        || (p <= Parent(leaf) && Parent(leaf) in t - {leaf})
        || (keep' != [] && p <= keep'[0] && keep'[0] in t - {leaf})
  {
    forall p | Left(t - {leaf}, base, touched, boundary, p) && p <= leaf
      ensures p <= Parent(leaf) && Parent(leaf) in t - {leaf}
    {
      assert p != leaf;
      assert p != [];
    }
    forall p | Left(t - {leaf}, base, touched, boundary, p) ensures Left(t, base, touched, boundary, p) {}
  }

  /** Whatever is pending and wherever it stops, cleanup takes only prunable directories. */
  lemma {:induction false} RemoveEmptyDirsBetween(
      t: Tree, base: Tree, touched: set<Path>, boundary: Path, leaf: Path, broken: Faults)
    requires boundary <= leaf && Between(t, base, touched, boundary)
    requires leaf == boundary || Touched(touched, leaf)
    ensures Between(RemoveEmptyDirs(t, leaf, boundary, broken).tree, base, touched, boundary)
    decreases |leaf|
  {
    if leaf != boundary && leaf in t && t[leaf].Dir? && !HasChild(t, leaf) && !broken(leaf) && !Blocked(t, leaf) {
      LeafIsPrunable(t, base, touched, boundary, leaf);
      RemoveLeafWellFormed(t, leaf);
      if Parent(leaf) != boundary {
        TouchedUp(touched, leaf);
        RemoveEmptyDirsBetween(t - {leaf}, base, touched, boundary, Parent(leaf), broken);
      }
    }
  }

  lemma TouchedUp(touched: set<Path>, leaf: Path)
    requires leaf != [] && Touched(touched, leaf)
    ensures Touched(touched, Parent(leaf))
  {}

  lemma LeafIsPrunable(t: Tree, base: Tree, touched: set<Path>, boundary: Path, leaf: Path)
    requires Between(t, base, touched, boundary) && boundary < leaf
    requires leaf in t && t[leaf].Dir? && !HasChild(t, leaf) && Touched(touched, leaf)
    ensures Prunable(base, touched, boundary, leaf)
  {
    forall q | q in base && leaf <= q ensures base[q].Dir? && Touched(touched, q) {
      if q != leaf {
        assert leaf < q;
        assert q !in t;
      }
    }
  }

  // ---- One removal followed by cleanup --------------------------------------------

  /** Removing a file adds its directory to the touched ones; all newly prunable
      directories are on the way to it. */
  lemma RemovalStep(t: Tree, base: Tree, touched: set<Path>, boundary: Path, keep: seq<Path>, file: Path)
    requires WellFormed(base) && Between(t, base, touched, boundary) && |keep| <= 1
    requires Pending(t, base, touched, boundary, keep)
    requires keep != [] && keep[0] in base ==> base[keep[0]].Dir?
    requires file in base && !base[file].Dir? && boundary < file
    ensures file in t && IsDirAt(t - {file}, Parent(file))
    ensures WellFormed(base - {file})
    ensures Between(t - {file}, base - {file}, touched + {Parent(file)}, boundary)
    ensures forall p :: Left(t - {file}, base - {file}, touched + {Parent(file)}, boundary, p) ==>
      || (p <= Parent(file) && Parent(file) in t - {file})
      || (keep != [] && p <= keep[0] && keep[0] in t - {file})
  {
    var dir := Parent(file);
    assert !Prunable(base, touched, boundary, file);
    assert file in t;
    FileHasNoChild(base, file);
    assert !HasChild(t, file);
    RemoveLeafWellFormed(base, file);
    RemoveLeafWellFormed(t, file);
    var t', base', touched' := t - {file}, base - {file}, touched + {dir};
    forall p | p in base' && p !in t' ensures Prunable(base', touched', boundary, p) {
      assert Prunable(base, touched, boundary, p);
      forall q | q in base' && p <= q ensures base'[q].Dir? && Touched(touched', q) {
        var d :| d in touched && q <= d;
        assert d in touched';
      }
    }
    forall p | Left(t', base', touched', boundary, p)
      ensures (p <= dir && dir in t') || (keep != [] && p <= keep[0] && keep[0] in t')
    {
      if p <= dir {
        assert dir != [];
      } else {
        PrefixSplit(p, file);
        forall q | q in base && p <= q ensures base[q].Dir? && Touched(touched, q) {
          assert q in base';
          var d :| d in touched' && q <= d;
          assert p <= d;
        }
        assert Left(t, base, touched, boundary, p);
      }
    }
  }

  lemma PrefixSplit(p: Path, file: Path)
    requires file != []
    ensures p <= file <==> p == file || p <= Parent(file)
  {}

  lemma FileHasNoChild(t: Tree, file: Path)
    requires WellFormed(t) && file in t && !t[file].Dir?
    ensures !HasChild(t, file)
  {
    forall q | q in t ensures !(file < q) {
      if file < q { AncestorsAreDirs(t, file, q); }
    }
  }

  // ---- The two forms --------------------------------------------------------------

  predicate AllBelow(files: seq<Path>, boundary: Path) {
    forall i :: 0 <= i < |files| ==> boundary < files[i]
  }

  /** The simple form: clean up right after each removal. */
  function CleanEagerly(t: Tree, files: seq<Path>, boundary: Path, broken: Faults): Outcome
    requires AllBelow(files, boundary)
    decreases |files|
  {
    if files == [] then Outcome(t, true)
    else
      var r := RemoveEmptyDirs(t - {files[0]}, Parent(files[0]), boundary, broken);
      if r.ok then CleanEagerly(r.tree, files[1..], boundary, broken) else r
  }

  /** The queue: one pending directory, processed when the next one leaves it. */
  function CleanQueued(t: Tree, slot: Slot, files: seq<Path>, boundary: Path, broken: Faults): Outcome
    requires AllBelow(files, boundary)
    decreases |files|
  {
    if files == [] then AfterProcess(t, slot, broken)
    else
      var r := AfterEnqueue(t - {files[0]}, slot, Parent(files[0]), boundary, broken);
      if r.ok then CleanQueued(r.tree, r.slot, files[1..], boundary, broken)
      else AfterProcess(r.tree, r.slot, broken)
  }

  ghost predicate Removable(base: Tree, files: seq<Path>, boundary: Path) {
    && AllBelow(files, boundary)
    && (forall i :: 0 <= i < |files| ==> files[i] in base && !base[files[i]].Dir?)
    && (forall i, j :: 0 <= i < j < |files| ==> files[i] != files[j])
  }

  ghost function Directories(files: seq<Path>): set<Path>
  {
    set f | f in files && f != [] :: Parent(f)
  }

  ghost function Without(base: Tree, files: seq<Path>): Tree { base - (set f | f in files) }

  ghost predicate SlotFits(slot: Slot, base: Tree, touched: set<Path>, boundary: Path) {
    slot != [] ==> && slot[0].1 == boundary && Touched(touched, slot[0].0)
                   && (slot[0].0 == boundary || (slot[0].0 in base && base[slot[0].0].Dir?))
  }

  ghost function KeepOf(slot: Slot): seq<Path> { if slot == [] then [] else [slot[0].0] }

  lemma NextRemovable(base: Tree, files: seq<Path>, boundary: Path)
    requires Removable(base, files, boundary) && files != []
    ensures Removable(base - {files[0]}, files[1..], boundary)
    ensures Without(base, files) == Without(base - {files[0]}, files[1..])
    ensures Directories(files) == {Parent(files[0])} + Directories(files[1..])
  {}

  lemma {:induction false} QueuedCleansAll(
      t: Tree, slot: Slot, base: Tree, touched: set<Path>, files: seq<Path>, boundary: Path, broken: Faults)
    requires WellFormed(base) && Between(t, base, touched, boundary) && SlotFits(slot, base, touched, boundary)
    requires Pending(t, base, touched, boundary, KeepOf(slot)) && Removable(base, files, boundary)
    ensures var r := CleanQueued(t, slot, files, boundary, broken);
      && (r.ok && (forall p :: !broken(p)) ==> r.tree == Pruned(Without(base, files), touched + Directories(files), boundary))
      && ((forall p :: !broken(p)) ==> r.ok)
    decreases |files|
  {
    if files == [] {
      assert Without(base, files) == base && touched + Directories(files) == touched;
      if slot == [] {
        SettledIsPruned(t, base, touched, boundary);
      } else {
        RemoveEmptyDirsLemma(t, base, touched, boundary, slot[0].0, [], broken);
        var r := AfterProcess(t, slot, broken);
        if r.ok { SettledIsPruned(r.tree, base, touched, boundary); }
      }
    } else {
      EnqueueStep(t, slot, base, touched, boundary, files[0], broken);
      var r := AfterEnqueue(t - {files[0]}, slot, Parent(files[0]), boundary, broken);
      NextRemovable(base, files, boundary);
      if r.ok {
        QueuedCleansAll(r.tree, r.slot, base - {files[0]}, touched + {Parent(files[0])}, files[1..], boundary, broken);
        assert touched + {Parent(files[0])} + Directories(files[1..]) == touched + Directories(files);
      }
    }
  }

  /** One removal and enqueue keeps the queue's invariant. */
  lemma EnqueueStep(t: Tree, slot: Slot, base: Tree, touched: set<Path>, boundary: Path, file: Path, broken: Faults)
    requires WellFormed(base) && Between(t, base, touched, boundary) && SlotFits(slot, base, touched, boundary)
    requires Pending(t, base, touched, boundary, KeepOf(slot))
    requires boundary < file && file in base && !base[file].Dir?
    ensures var r := AfterEnqueue(t - {file}, slot, Parent(file), boundary, broken);
      && file in t && WellFormed(base - {file})
      && Between(r.tree, base - {file}, touched + {Parent(file)}, boundary)
      && SlotFits(r.slot, base - {file}, touched + {Parent(file)}, boundary)
      && (r.ok ==> Pending(r.tree, base - {file}, touched + {Parent(file)}, boundary, KeepOf(r.slot)))
      && ((forall p :: !broken(p)) ==> r.ok)
  {
    var dir := Parent(file);
    AncestorsAreDirs(base, boundary, file);
    RemovalStep(t, base, touched, boundary, KeepOf(slot), file);
    var t', base', touched' := t - {file}, base - {file}, touched + {dir};
    assert Touched(touched', dir) by { assert dir in touched'; }
    if slot != [] {
      assert Touched(touched', slot[0].0) by {
        var d :| d in touched && slot[0].0 <= d;
        assert d in touched';
      }
      if !(slot[0].0 <= dir) {
        RemoveEmptyDirsLemma(t', base', touched', boundary, slot[0].0, [dir], broken);
      }
    }
  }

  lemma {:induction false} EagerCleansAll(
      t: Tree, base: Tree, touched: set<Path>, files: seq<Path>, boundary: Path, broken: Faults)
    requires WellFormed(base) && Between(t, base, touched, boundary) && (forall p :: !broken(p))
    requires Pending(t, base, touched, boundary, []) && Removable(base, files, boundary)
    ensures CleanEagerly(t, files, boundary, broken)
         == Outcome(Pruned(Without(base, files), touched + Directories(files), boundary), true)
    decreases |files|
  {
    if files == [] {
      assert Without(base, files) == base && touched + Directories(files) == touched;
      SettledIsPruned(t, base, touched, boundary);
    } else {
      var dir := Parent(files[0]);
      RemovalStep(t, base, touched, boundary, [], files[0]);
      var touched' := touched + {dir};
      assert Touched(touched', dir) by { assert dir in touched'; }
      RemoveEmptyDirsLemma(t - {files[0]}, base - {files[0]}, touched', boundary, dir, [], broken);
      var r := RemoveEmptyDirs(t - {files[0]}, dir, boundary, broken);
      NextRemovable(base, files, boundary);
      EagerCleansAll(r.tree, base - {files[0]}, touched', files[1..], boundary, broken);
      assert touched' + Directories(files[1..]) == touched + Directories(files);
    }
  }

  /** The one-slot queue ends in the tree that cleaning up after every single removal
      ends in, whatever the order of removals; and that tree is `Pruned`. */
  lemma QueueEqualsEager(t: Tree, files: seq<Path>, boundary: Path)
    requires WellFormed(t) && Removable(t, files, boundary)
    ensures CleanQueued(t, [], files, boundary, _ => false) == CleanEagerly(t, files, boundary, _ => false)
    ensures CleanQueued(t, [], files, boundary, _ => false)
         == Outcome(Pruned(Without(t, files), Directories(files), boundary), true)
  {
    forall p ensures !Prunable(t, {}, boundary, p) {
      assert Prunable(t, {}, boundary, p) ==> Touched({}, p);
    }
    QueuedCleansAll(t, [], t, {}, files, boundary, _ => false);
    EagerCleansAll(t, t, {}, files, boundary, _ => false);
    assert {} + Directories(files) == Directories(files);
  }

  /** Two removal orders of the same files leave the same tree. */
  lemma OrderIsIrrelevant(t: Tree, files: seq<Path>, other: seq<Path>, boundary: Path)
    requires WellFormed(t) && Removable(t, files, boundary) && Removable(t, other, boundary)
    requires forall f :: f in files <==> f in other
    ensures CleanQueued(t, [], files, boundary, _ => false) == CleanQueued(t, [], other, boundary, _ => false)
  {
    QueueEqualsEager(t, files, boundary);
    QueueEqualsEager(t, other, boundary);
    assert (set f | f in files) == (set f | f in other);
    assert Directories(files) == Directories(other);
  }

  /** What `Pruned` promises: no touched directory is left empty, and only touched
      directories without any surviving content are gone. */
  lemma PrunedMeaning(base: Tree, touched: set<Path>, boundary: Path)
    requires WellFormed(base)
    ensures var r := Pruned(base, touched, boundary);
      && WellFormed(r)
      && (forall p :: p in r && boundary < p && r[p].Dir? && Touched(touched, p) ==> HasChild(r, p))
      && (forall p :: p in base && p !in r ==> base[p].Dir? && Touched(touched, p) && boundary < p && !HasChild(r, p))
  {
    var r := Pruned(base, touched, boundary);
    forall p | p in r ensures p != [] && IsDirAt(r, Parent(p)) {
      if Parent(p) != [] {
        assert !Prunable(base, touched, boundary, Parent(p)) by {
          if Prunable(base, touched, boundary, Parent(p)) { PrunableBelow(base, touched, boundary, Parent(p), p); }
        }
      }
    }
    forall p | p in r && boundary < p && r[p].Dir? && Touched(touched, p) ensures HasChild(r, p) {
      var q :| q in base && p <= q && !(base[q].Dir? && Touched(touched, q));
      assert q != p;
      assert q in r;
      assert p < q;
    }
    forall p | p in base && p !in r ensures !HasChild(r, p) {
      forall q | q in r ensures !(p < q) {
        if p < q { PrunableBelow(base, touched, boundary, p, q); }
      }
    }
  }

  // ---- The imperative form --------------------------------------------------------

  class WorkDir {
    var nodes: Tree

    constructor (nodes: Tree)
      ensures this.nodes == nodes
    {
      this.nodes := nodes;
    }

    /** remove_empty_dirs on the file system itself. */
    method PruneUpwards(leaf: Path, boundary: Path, broken: Faults) returns (ok: bool)
      requires boundary <= leaf
      modifies this
      ensures Outcome(nodes, ok) == RemoveEmptyDirs(old(nodes), leaf, boundary, broken)
      decreases |leaf|
    {
      if leaf == boundary { return true; }
      if broken(leaf) || Blocked(nodes, leaf) { return false; }
      if leaf !in nodes { return true; }
      if !nodes[leaf].Dir? { return false; }
      if HasChild(nodes, leaf) { return true; }
      nodes := nodes - {leaf};
      if Parent(leaf) != boundary {
        ok := PruneUpwards(Parent(leaf), boundary, broken);
      } else {
        ok := true;
      }
    }
  }

  class EmptyDirectoryCleanupQueue {
    var last: Slot

    constructor ()
      ensures last == []
    {
      last := [];
    }

    method Enqueue(dir: WorkDir, leaf: Path, boundary: Path, broken: Faults) returns (ok: bool)
      requires boundary <= leaf
      modifies this, dir
      ensures QueueState(dir.nodes, last, ok) == AfterEnqueue(old(dir.nodes), old(last), leaf, boundary, broken)
    {
      if last == [] {
        last := [(leaf, boundary)];
        return true;
      }
      if last[0].1 == boundary && last[0].0 <= leaf {
        last := [(leaf, boundary)];
        return true;
      }
      ok := dir.PruneUpwards(last[0].0, last[0].1, broken);
      if ok { last := [(leaf, boundary)]; }
    }

    method Process(dir: WorkDir, broken: Faults) returns (ok: bool)
      modifies this, dir
      ensures last == [] && Outcome(dir.nodes, ok) == AfterProcess(old(dir.nodes), old(last), broken)
    {
      ok := true;
      var taken := last;
      last := [];
      if taken != [] { ok := dir.PruneUpwards(taken[0].0, taken[0].1, broken); }
    }
  }
}
