/** Incremental, unforced extraction of a snapshot into the checkout directory. */
module Extraction {
  import opened ByteStrings
  import opened Orders
  import opened PathPolicy
  import opened WorkTree
  import opened Cleanup
  import Snapshots
  import Symlinks

  type Metadata = Snapshots.Metadata
  /** What the diff compares: path, checksum and metadata, but not the pack offset. */
  datatype Entry = Entry(path: Path, checksum: Checksum, metadata: Metadata)

  /** How the write of one entry fares. `Loses` is the second try of a replacement: the
      old destination is removed, and then the rename fails again. */
  datatype WriteFault = Fine | MkdirStops(levels: nat) | Aborts | Loses | NotAttempted

  /** What lstat finds behind a symbolic link. It fails on a link that leads to itself and
      in a directory that may not be searched. */
  datatype Lookup = Missing | Plain | AnotherLink | Fails

  /** An input or output error of the preflights, if there is one. */
  datatype PreflightFault = NoFault | LookupFails | ProbeFails | ObjectsUnreadable | CheckFails | WalkFails

  /** Everything the file system and the object store decide on their own. `buffer` is what
      the extraction loop hands on for a link whose object is empty. */
  datatype Os = Os(
    content: Checksum -> Bytes,
    buffer: Path -> Bytes,
    behind: Path -> Lookup,
    preflight: PreflightFault,
    unlinkFails: Path -> bool,
    rmdirFails: Path -> bool,
    write: Path -> WriteFault,
    headFails: bool)

  /** `Unfinished` is whatever error stops a checkout behind its preflights. */
  datatype ExtractError =
    | Policy(error: PolicyError) | SymlinkedDestination | SymlinksUnsupported | InvalidSymlinkTarget
    | DirtyWorkDir | UntrackedPaths(paths: set<Path>) | IoError | Unfinished
  datatype Result = Extracted(added: int, removed: nat, modified: nat) | Failed(error: ExtractError)

  function NodeOf(os: Os, e: Entry): Node {
    match e.metadata
    case Regular(mode) => File(os.content(e.checksum), mode)
    case Symlink(_, _) => Link(os.content(e.checksum))
  }

  predicate TargetDecodes(encoding: Snapshots.SymlinkTargetEncoding, bytes: Bytes) {
    Symlinks.DecodeTarget(bytes, encoding).Target?
  }

  predicate AllDecode(os: Os, es: set<Entry>) {
    forall e :: e in es && e.metadata.Symlink? ==> TargetDecodes(e.metadata.encoding, os.content(e.checksum))
  }

  predicate EmptyLink(os: Os, e: Entry) { e.metadata.Symlink? && os.content(e.checksum) == [] }

  predicate NoEmptyLinks(os: Os, es: set<Entry>) { forall e :: e in es ==> !EmptyLink(os, e) }

  /** A link can be made of what is handed on for it. */
  predicate Linkable(os: Os, e: Entry) {
    EmptyLink(os, e) ==> os.buffer(e.path) != [] && TargetDecodes(e.metadata.encoding, os.buffer(e.path))
  }

  predicate AllLinkable(os: Os, es: set<Entry>) { forall e :: e in es ==> Linkable(os, e) }

  /** What a write puts in place: the entry, unless it is a link with an empty object. */
  function Placed(os: Os, e: Entry): Node { if EmptyLink(os, e) then Link(os.buffer(e.path)) else NodeOf(os, e) }

  ghost predicate Places(t: Tree, os: Os, es: set<Entry>) { forall e :: e in es ==> e.path in t && t[e.path] == Placed(os, e) }

  /** How far a write gets: what does not decode is refused before anything is made, and
      there is no link without a target. */
  function Attempt(os: Os, e: Entry): WriteFault {
    if !EmptyLink(os, e) then os.write(e.path)
    else if !TargetDecodes(e.metadata.encoding, os.buffer(e.path)) then NotAttempted
    else if os.buffer(e.path) == [] && (os.write(e.path).Fine? || os.write(e.path).Loses?) then Aborts
    else os.write(e.path)
  }

  function Paths(es: set<Entry>): set<Path> { set e | e in es :: e.path }
  /** Paths which HEAD has and which the write step will not overwrite. */
  function RemovedPaths(head: set<Entry>, target: set<Entry>): set<Path> {
    Paths(head - target) - Paths(target - head)
  }

  ghost predicate CoexistSet(es: set<Entry>) {
    forall x, y :: x in es && y in es ==> (x.path == y.path ==> x == y) && !(x.path < y.path) && x.path != []
  }

  ghost predicate Holds(t: Tree, os: Os, es: set<Entry>) {
    forall e :: e in es ==> e.path in t && t[e.path] == NodeOf(os, e)
  }

  /** Directories HEAD does not need and files or links HEAD does not name. */
  ghost predicate Untracked(t: Tree, head: set<Entry>, q: Path) {
    q in t && if t[q].Dir? then forall e :: e in head ==> !(q < e.path) else q !in Paths(head)
  }

  ghost predicate Preserved(before: Tree, after: Tree, head: set<Entry>) {
    forall q :: Untracked(before, head, q) ==> q in after && after[q] == before[q]
  }

  // ---- Preflights ------------------------------------------------------------------

  predicate LinkAbove(t: Tree, p: Path) { exists a :: a in t && a < p && t[a].Link? }

  /** lstat of an ancestor. */
  function LookAt(t: Tree, os: Os, a: Path): Lookup {
    if a in t then if t[a].Link? then AnotherLink else Plain
    else if LinkAbove(t, a) then os.behind(a) else Missing
  }

  /** The check refuses a symbolic link that this checkout does not remove, and an ancestor
      that cannot be looked up. */
  predicate Refused(t: Tree, os: Os, removable: set<Path>, a: Path) {
    match LookAt(t, os, a)
    case AnotherLink => a !in removable
    case Fails => true
    case _ => false
  }

  /** A missing ancestor further up ends the check. */
  predicate Stops(t: Tree, os: Os, p: Path, k: nat)
    requires k <= |p|
  {
    exists j :: 1 <= j < k && LookAt(t, os, p[..j]).Missing?
  }

  ghost predicate AncestorsClear(t: Tree, os: Os, removable: set<Path>, p: Path) {
    forall k :: 1 <= k < |p| && Refused(t, os, removable, p[..k]) ==> Stops(t, os, p, k)
  }

  ghost predicate FirstRefused(t: Tree, os: Os, removable: set<Path>, p: Path, k: nat, error: ExtractError)
    requires k <= |p|
  {
    && Refused(t, os, removable, p[..k]) && !Stops(t, os, p, k) && (forall j :: 1 <= j < k ==> !Refused(t, os, removable, p[..j]))
    && error == if LookAt(t, os, p[..k]).Fails? then IoError else SymlinkedDestination
  }

  /** check_destination_ancestors: top down, stopping at the first missing component; the
      error is that of the first ancestor refused. */
  method CheckDestinationAncestors(t: Tree, os: Os, removable: set<Path>, p: Path) returns (r: Option<ExtractError>)
    ensures r.None? <==> AncestorsClear(t, os, removable, p)
    ensures r.Some? ==> exists k :: 1 <= k < |p| && FirstRefused(t, os, removable, p, k, r.value)
  {
    var k := 1;
    while k < |p|
      invariant 1 <= k
      invariant forall j :: 1 <= j < k && j < |p| ==> !Refused(t, os, removable, p[..j]) && !LookAt(t, os, p[..j]).Missing?
      decreases |p| - k
    {
      match LookAt(t, os, p[..k]) {
        case AnotherLink =>
          if p[..k] !in removable {
            assert FirstRefused(t, os, removable, p, k, SymlinkedDestination);
            return Some(SymlinkedDestination);
          }
        case Plain =>
        case Missing => return None;
        case Fails =>
          assert FirstRefused(t, os, removable, p, k, IoError);
          return Some(IoError);
      }
      k := k + 1;
    }
    return None;
  }

  /** The check of one of the paths ends with this error. */
  ghost predicate LedToError(t: Tree, os: Os, removable: set<Path>, paths: set<Path>, error: ExtractError) {
    exists p, k :: p in paths && 1 <= k < |p| && FirstRefused(t, os, removable, p, k, error)
  }

  lemma RefusedKinds(t: Tree, os: Os, removable: set<Path>, p: Path, error: ExtractError)
    requires exists k :: 1 <= k < |p| && FirstRefused(t, os, removable, p, k, error)
    ensures error.SymlinkedDestination? || error.IoError?
  {}

  /** Nothing is found below what is missing. */
  ghost predicate Coherent(os: Os) { forall a, b :: os.behind(a).Missing? && a < b ==> os.behind(b).Missing? }

  /** Then stopping there decides the same as looking at every ancestor. */
  lemma StoppingDecides(t: Tree, os: Os, removable: set<Path>, p: Path)
    requires WellFormed(t) && Coherent(os)
    ensures AncestorsClear(t, os, removable, p) <==> forall k :: 1 <= k < |p| ==> !Refused(t, os, removable, p[..k])
  {
    forall k | 1 <= k < |p| && Stops(t, os, p, k) ensures !Refused(t, os, removable, p[..k]) {
      var j :| 1 <= j < k && LookAt(t, os, p[..j]).Missing?;
      assert p[..j] < p[..k];
      MissingStaysMissing(t, os, p[..j], p[..k]);
    }
  }

  lemma MissingStaysMissing(t: Tree, os: Os, a: Path, b: Path)
    requires WellFormed(t) && Coherent(os) && a != [] && LookAt(t, os, a).Missing? && a < b
    ensures LookAt(t, os, b).Missing?
  {
    if b in t { AncestorsAreDirs(t, a, b); }
    forall c | c in t && c < b ensures t[c].Link? ==> c < a {
      if |c| >= |a| {
        assert a == c || a < c;
        if a < c { AncestorsAreDirs(t, a, c); }
      }
    }
    if LinkAbove(t, a) { assert LinkAbove(t, b); }
  }

  predicate Owned(t: Tree, head: set<Entry>, q: Path)
    requires q in t
  {
    if t[q].Dir? then exists e :: e in head && q < e.path else q in Paths(head)
  }

  ghost predicate CollisionFree(t: Tree, added: set<Entry>, head: set<Entry>, removable: set<Path>) {
    forall e, q :: e in added && !(exists r :: r in removable && r < e.path) && q in t && e.path <= q ==> Owned(t, head, q)
  }

  /** What one walk reports: unowned nodes, without descending into unowned directories. */
  function Reported(t: Tree, strange: set<Path>): set<Path>
    requires strange <= t.Keys
  {
    set q | q in strange && !(exists d :: d in strange && d < q && t[d].Dir?)
  }

  /** What a walk from an output comes upon that HEAD does not own, with nothing such but
      files and links above it on the way. */
  ghost predicate Topmost(t: Tree, head: set<Entry>, output: Path, q: Path) {
    && q in t && output <= q && !Owned(t, head, q)
    && forall d :: d in t && output <= d && d < q && t[d].Dir? ==> Owned(t, head, d)
  }

  ghost predicate Walked(removable: set<Path>, e: Entry) { !exists r :: r in removable && r < e.path }

  ghost predicate Collides(t: Tree, added: set<Entry>, head: set<Entry>, removable: set<Path>, q: Path) {
    exists e :: e in added && Walked(removable, e) && Topmost(t, head, e.path, q)
  }

  lemma OneMoreWalked(t: Tree, seen: set<Entry>, e: Entry, head: set<Entry>, removable: set<Path>, q: Path)
    ensures Collides(t, seen + {e}, head, removable, q) <==>
      Collides(t, seen, head, removable, q) || (Walked(removable, e) && Topmost(t, head, e.path, q))
  {
    hide Topmost, Walked;
    assert e in seen + {e};
  }

  lemma {:induction false} SomethingReported(t: Tree, strange: set<Path>, q: Path)
    requires strange <= t.Keys && q in strange
    ensures exists r :: r in Reported(t, strange)
    decreases |q|
  {
    if q !in Reported(t, strange) {
      var d :| d in strange && d < q && t[d].Dir?;
      SomethingReported(t, strange, d);
    }
  }

  /** The tracked paths and their proper ancestors, as collected from HEAD. */
  method TrackedSets(head: set<Entry>) returns (tracked: set<Path>, directories: set<Path>)
    ensures tracked == Paths(head)
    ensures forall d :: d in directories <==> exists e :: e in head && d != [] && d < e.path
  {
    tracked, directories := {}, {};
    var todo := head;
    while todo != {}
      invariant todo <= head
      invariant tracked == Paths(head - todo)
      invariant forall d :: d in directories <==> exists e :: e in head - todo && d != [] && d < e.path
    {
      var e :| e in todo;
      var above := set k | 1 <= k < |e.path| :: e.path[..k];
      forall d ensures d in above <==> d != [] && d < e.path {
        if d != [] && d < e.path { assert d == e.path[..|d|]; }
      }
      ghost var seen := head - todo;
      todo := todo - {e};
      assert head - todo == seen + {e};
      tracked := tracked + {e.path};
      directories := directories + above;
    }
    assert head - todo == head;
  }

  /** preflight_untracked_collisions: the paths it reports are all untracked, and it
      reports none exactly when every existing output is HEAD's. */
  method PreflightUntrackedCollisions(t: Tree, added: set<Entry>, head: set<Entry>, removable: set<Path>)
    returns (collisions: set<Path>)
    requires WellFormed(t)
    ensures collisions == {} <==> CollisionFree(t, added, head, removable)
    ensures forall q :: q in collisions ==> Untracked(t, head, q)
    ensures forall q :: q in collisions <==> Collides(t, added, head, removable, q)
  {
    var tracked, directories := TrackedSets(head);
    collisions := {};
    var rest := added;
    while rest != {}
      invariant rest <= added
      invariant forall q :: q in collisions ==> Untracked(t, head, q)
      invariant collisions == {} <==> CollisionFree(t, added - rest, head, removable)
      invariant forall q :: q in collisions <==> Collides(t, added - rest, head, removable, q)
    {
      hide Collides;
      var e :| e in rest;
      ghost var seen := added - rest;
      rest := rest - {e};
      assert added - rest == seen + {e};
      if !(exists r :: r in removable && r < e.path) {
        var strange := set q | q in t && e.path <= q && !(if t[q].Dir? then q in directories else q in tracked) :: q;
        forall q | q in t && e.path <= q ensures q in strange <==> !Owned(t, head, q) {}
        var reported := Reported(t, strange);
        assert strange != {} ==> reported != {} by {
          if strange != {} { var q :| q in strange; SomethingReported(t, strange, q); }
        }
        forall q ensures q in reported <==> Topmost(t, head, e.path, q) {}
        collisions := collisions + reported;
      }
      forall q ensures q in collisions <==> Collides(t, seen + {e}, head, removable, q) {
        OneMoreWalked(t, seen, e, head, removable, q);
      }
    }
    assert added - rest == added;
  }

  // ---- The write step --------------------------------------------------------------

  function Ancestors(p: Path, levels: nat): set<Path> {
    set k | 1 <= k < |p| && k <= levels :: p[..k]
  }

  function WithDirs(t: Tree, p: Path, levels: nat): Tree {
    map a | a in t.Keys + Ancestors(p, levels) :: if a in t then t[a] else Dir
  }

  /** materialize and materialize_regular: make the parents, then rename over the
      destination. The temporary file is gone again in every outcome. */
  function Materialize(t: Tree, p: Path, node: Node, fault: WriteFault): Outcome {
    if fault.NotAttempted? || Blocked(t, p) then Outcome(t, false)
    else if fault.MkdirStops? then Outcome(WithDirs(t, p, fault.levels), false)
    else
      var t' := WithDirs(t, p, |p|);
      if fault.Aborts? then Outcome(t', false)
      else if p in t' && t'[p].Dir? && HasChild(t', p) then Outcome(t', false)
      else if fault.Loses? then Outcome(t' - {p}, false)
      else Outcome(t'[p := node], true)
  }

  /** The tree the write step starts from can take the new entries: an existing output
      is a tracked file or link, and what stands in the way of a parent is untracked. */
  ghost predicate Ready(t: Tree, added: set<Entry>, head: set<Entry>) {
    && WellFormed(t) && CoexistSet(added)
    && (forall e :: e in added && e.path in t ==> !t[e.path].Dir? && e.path in Paths(head))
    && (forall e, a :: e in added && a in t && a < e.path && !t[a].Dir? ==> a !in Paths(head))
  }

  ghost predicate Obstructed(t: Tree, added: set<Entry>, head: set<Entry>) {
    exists e, a :: e in added && a in t && a < e.path && !t[a].Dir? && a !in Paths(head)
  }

  /** The tree part way through the write step, with the entries in `done` in place. */
  ghost predicate Writing(t: Tree, start: Tree, os: Os, added: set<Entry>, done: set<Entry>) {
    && WellFormed(t) && done <= added
    && KeepsOthers(t, start, Paths(added))
    && AddsOnlyParents(t, start, added)
    && OutputsKnown(t, start, os, added)
    && Places(t, os, done)
  }

  ghost predicate KeepsOthers(t: Tree, start: Tree, outputs: set<Path>) {
    forall q :: q in start && q !in outputs ==> q in t && t[q] == start[q]
  }

  ghost predicate Above(q: Path, es: set<Entry>) { exists e :: e in es && q < e.path }

  ghost predicate AddsOnlyParents(t: Tree, start: Tree, added: set<Entry>) {
    forall q :: q in t && q !in start && q !in Paths(added) ==> t[q].Dir? && Above(q, added)
  }

  ghost predicate OutputsKnown(t: Tree, start: Tree, os: Os, added: set<Entry>) {
    forall e :: e in added && e.path in t ==>
      t[e.path] == Placed(os, e) || (e.path in start && t[e.path] == start[e.path])
  }

  lemma WithDirsWellFormed(t: Tree, p: Path, levels: nat)
    requires WellFormed(t) && !Blocked(t, p)
    ensures WellFormed(WithDirs(t, p, levels))
    ensures levels >= |p| > 0 ==> IsDirAt(WithDirs(t, p, levels), Parent(p))
  {
    var t' := WithDirs(t, p, levels);
    forall q | q in t' ensures q != [] && IsDirAt(t', Parent(q)) {
      if q !in t {
        var k :| 1 <= k < |p| && k <= levels && q == p[..k];
        if k > 1 {
          assert Parent(q) == p[..k-1];
          assert p[..k-1] in Ancestors(p, levels);
          assert p[..k-1] < p;
        }
      }
    }
    if levels >= |p| > 1 {
      assert Parent(p) == p[..|p|-1];
      assert p[..|p|-1] in Ancestors(p, levels);
    }
  }

  lemma ReplaceWellFormed(t: Tree, p: Path, node: Node)
    requires WellFormed(t) && p != [] && IsDirAt(t, Parent(p)) && !HasChild(t, p) && (node.Link? ==> node.target != [])
    ensures WellFormed(t[p := node])
  {}

  lemma MaterializeWellFormed(t: Tree, p: Path, node: Node, fault: WriteFault)
    requires WellFormed(t) && p != [] && (p in t ==> !t[p].Dir?) && !node.Dir?
    requires fault.Fine? && node.Link? ==> node.target != []
    ensures WellFormed(Materialize(t, p, node, fault).tree)
    ensures Materialize(t, p, node, fault).ok <==> fault.Fine? && !Blocked(t, p)
  {
    if !Blocked(t, p) && !fault.NotAttempted? {
      var t' := WithDirs(t, p, |p|);
      WithDirsWellFormed(t, p, |p|);
      if fault.MkdirStops? { WithDirsWellFormed(t, p, fault.levels); }
      assert p !in Ancestors(p, |p|);
      if p in t { FileHasNoChild(t, p); } else { NothingBelowMissing(t, p); }
      assert !HasChild(t', p);
      if fault.Fine? { ReplaceWellFormed(t', p, node); }
      RemoveLeafWellFormed(t', p);
    }
  }

  lemma NothingBelowMissing(t: Tree, p: Path)
    requires WellFormed(t) && p !in t && p != []
    ensures !HasChild(t, p)
  {
    forall q | q in t ensures !(p < q) {
      if p < q { AncestorsAreDirs(t, p, q); }
    }
  }

  /** The footprint of one write: its own path and missing parents. */
  lemma MaterializeFootprint(t: Tree, p: Path, node: Node, fault: WriteFault)
    ensures Footprint(t, Materialize(t, p, node, fault), p, node)
  {}

  lemma NoOutputAbove(added: set<Entry>, e: Entry, a: Path)
    requires CoexistSet(added) && e in added && a < e.path
    ensures a !in Paths(added)
  {}

  /** Away from the outputs there are the same files and links as at the start. */
  lemma SameFileAbove(t: Tree, start: Tree, added: set<Entry>, a: Path)
    requires KeepsOthers(t, start, Paths(added)) && AddsOnlyParents(t, start, added) && a !in Paths(added)
    ensures a in t && !t[a].Dir? <==> a in start && !start[a].Dir?
  {}

  /** Parents of a new entry are obstructed now exactly when they were at the start. */
  lemma BlockedIffObstructed(t: Tree, start: Tree, os: Os, added: set<Entry>, done: set<Entry>, head: set<Entry>, e: Entry)
    requires Ready(start, added, head) && Writing(t, start, os, added, done) && e in added
    ensures Blocked(t, e.path) <==> Obstructed(start, {e}, head)
  {
    hide WellFormed, Above, CoexistSet, KeepsOthers, AddsOnlyParents, OutputsKnown, Places, Paths;
    forall a | a < e.path ensures a in t && !t[a].Dir? <==> a in start && !start[a].Dir? {
      NoOutputAbove(added, e, a);
      SameFileAbove(t, start, added, a);
    }
    if Blocked(t, e.path) {
      var a :| a in t && a < e.path && !t[a].Dir?;
      assert a in start && a !in Paths(head);
      assert e in {e};
    }
  }

  /** Writing one entry succeeds unless something untracked obstructs its parents, and
      it keeps everything the write step has promised so far. */
  lemma WriteStep(t: Tree, start: Tree, os: Os, added: set<Entry>, done: set<Entry>, head: set<Entry>, e: Entry)
    requires Ready(start, added, head) && Writing(t, start, os, added, done) && e in added - done
    ensures var r := Materialize(t, e.path, Placed(os, e), Attempt(os, e));
      && Writing(r.tree, start, os, added, if r.ok then done + {e} else done)
      && (r.ok <==> Attempt(os, e).Fine? && !Obstructed(start, {e}, head))
  {
    BlockedIffObstructed(t, start, os, added, done, head, e);
    AttemptFine(os, e);
    MaterializeWellFormed(t, e.path, Placed(os, e), Attempt(os, e));
    MaterializeFootprint(t, e.path, Placed(os, e), Attempt(os, e));
    FootprintKeepsWriting(t, Materialize(t, e.path, Placed(os, e), Attempt(os, e)), start, os, added, done, e);
  }

  lemma AttemptFine(os: Os, e: Entry)
    ensures Attempt(os, e).Fine? <==> os.write(e.path).Fine? && Linkable(os, e)
    ensures Linkable(os, e) && Placed(os, e).Link? ==> Placed(os, e).target != []
  {}

  ghost predicate Footprint(t: Tree, r: Outcome, p: Path, node: Node) {
    && (forall q :: q in t && q != p ==> q in r.tree && r.tree[q] == t[q])
    && (forall q :: q in r.tree && q !in t && q != p ==> q < p && r.tree[q].Dir?)
    && (r.ok ==> p in r.tree && r.tree[p] == node)
    && (!r.ok && p in r.tree ==> p in t && r.tree[p] == t[p])
  }

  lemma FootprintKeepsWriting(t: Tree, r: Outcome, start: Tree, os: Os, added: set<Entry>, done: set<Entry>, e: Entry)
    requires CoexistSet(added) && Writing(t, start, os, added, done) && e in added - done && WellFormed(r.tree)
    requires Footprint(t, r, e.path, Placed(os, e))
    ensures Writing(r.tree, start, os, added, if r.ok then done + {e} else done)
  {
    assert e.path in Paths(added);
    assert KeepsOthers(r.tree, start, Paths(added));
    assert AddsOnlyParents(r.tree, start, added) by { ParentsStep(t, r, start, added, e, Placed(os, e)); }
    forall x | x in added && x != e && x.path in r.tree ensures x.path in t && r.tree[x.path] == t[x.path] {}
    assert OutputsKnown(r.tree, start, os, added);
    assert Places(r.tree, os, done);
  }

  lemma ParentsStep(t: Tree, r: Outcome, start: Tree, added: set<Entry>, e: Entry, node: Node)
    requires AddsOnlyParents(t, start, added) && Footprint(t, r, e.path, node) && e in added
    ensures AddsOnlyParents(r.tree, start, added)
  {}

  // ---- The whole checkout ----------------------------------------------------------

  /** The preflights that depend on the tree, for an accepted target. */
  ghost predicate Preflight(t: Tree, os: Os, head: set<Entry>, target: set<Entry>) {
    && CoexistSet(target)
    && (forall p :: p in Paths(target - head) + RemovedPaths(head, target) ==>
          AncestorsClear(t, os, RemovedPaths(head, target), p))
    && AllDecode(os, target - head)
    && Holds(t, os, head - target)
    && CollisionFree(t, target - head, head, RemovedPaths(head, target))
  }

  predicate AnyLink(es: set<Entry>) { exists e :: e in es && e.metadata.Symlink? }

  /** The first preflights are passed: the paths may stand together, and their ancestors
      are clear. */
  ghost predicate WayClear(t: Tree, os: Os, head: set<Entry>, target: set<Entry>) {
    && !os.preflight.LookupFails?
    && forall p :: p in Paths(target - head) + RemovedPaths(head, target) ==> AncestorsClear(t, os, RemovedPaths(head, target), p)
  }

  /** What each error of the preflights says is so, and the preflights before it are passed. */
  ghost predicate ForReason(t: Tree, os: Os, head: set<Entry>, target: seq<Entry>, error: ExtractError) {
    var wanted := EntrySet(target);
    if error.Policy? then Justified(PathsOf(target), error.error)
    else Coexist(PathsOf(target)) && LaterReason(t, os, head, wanted, RemovedPaths(head, wanted), error)
  }

  ghost predicate LaterReason(t: Tree, os: Os, head: set<Entry>, target: set<Entry>, removed: set<Path>, error: ExtractError) {
    var added, clear := target - head, WayClear(t, os, head, target);
    var unchanged' := clear && AllDecode(os, added) && Holds(t, os, head - target);
    match error
    case SymlinkedDestination => LedToError(t, os, removed, Paths(added) + removed, error)
    case SymlinksUnsupported => clear && AnyLink(added) && os.preflight.ProbeFails?
    case InvalidSymlinkTarget => clear && !AllDecode(os, added)
    case DirtyWorkDir => clear && AllDecode(os, added) && (os.preflight.CheckFails? || !Holds(t, os, head - target))
    case UntrackedPaths(paths) => unchanged' && paths != {} && forall q :: q in paths <==> Collides(t, added, head, removed, q)
    case IoError =>
      || os.preflight.LookupFails? || LedToError(t, os, removed, Paths(added) + removed, error)
      || (clear && AnyLink(added) && os.preflight.ObjectsUnreadable?)
      || (unchanged' && os.preflight.WalkFails?)
    case _ => false
  }

  ghost function ParentsOf(ps: set<Path>): set<Path> { set p | p in ps && p != [] :: Parent(p) }

  /** After the removal step: HEAD-only files are gone and so are the directories that
      this leaves empty. */
  ghost function Swept(t: Tree, head: set<Entry>, target: set<Entry>): Tree {
    Pruned(t - RemovedPaths(head, target), ParentsOf(RemovedPaths(head, target)), [])
  }

  ghost function EntryAt(es: set<Entry>, p: Path): Entry
    requires p in Paths(es)
  {
    var e :| e in es && e.path == p; e
  }

  ghost function ParentDirs(es: set<Entry>): set<Path> { set e, k | e in es && 1 <= k < |e.path| :: e.path[..k] }

  /** The tree a successful checkout leaves, given outright. */
  ghost function CheckedOut(t: Tree, os: Os, head: set<Entry>, target: set<Entry>): Tree {
    var swept, added := Swept(t, head, target), target - head;
    map q | q in swept.Keys + ParentDirs(added) + Paths(added) ::
      if q in Paths(added) then Placed(os, EntryAt(added, q)) else if q in swept then swept[q] else Dir
  }

  lemma RemovedAreFiles(t: Tree, os: Os, head: set<Entry>, target: set<Entry>, p: Path)
    requires Holds(t, os, head - target) && p in RemovedPaths(head, target)
    ensures p in t && !t[p].Dir? && p in Paths(head)
  {}

  /** HEAD-only paths are not target paths: HEAD names every path once. */
  lemma RemovedNotTarget(head: set<Entry>, target: set<Entry>, p: Path)
    requires CoexistSet(head)
    ensures p in RemovedPaths(head, target) <==> p in Paths(head) && p !in Paths(target)
  {}

  /** A new entry's existing output is a tracked file or link once HEAD-only files and
      their emptied directories are gone. */
  lemma OutputIsTracked(t: Tree, os: Os, head: set<Entry>, target: set<Entry>, e: Entry)
    requires WellFormed(t) && CoexistSet(head) && Preflight(t, os, head, target)
    requires e in target - head && e.path in Swept(t, head, target)
    ensures !t[e.path].Dir? && e.path in Paths(head)
  {
    var removed := RemovedPaths(head, target);
    forall r | r in removed ensures !(r < e.path) {
      RemovedAreFiles(t, os, head, target, r);
      if r < e.path { AncestorsAreDirs(t, r, e.path); }
    }
    assert Owned(t, head, e.path);
    hide RemovedPaths, CoexistSet, Holds;
    if t[e.path].Dir? { EmptiedDirGoes(t, head, target, e); }
  }

  /** A directory in the place of a new entry that holds nothing untracked goes with the
      removed files. */
  lemma EmptiedDirGoes(t: Tree, head: set<Entry>, target: set<Entry>, e: Entry)
    requires WellFormed(t) && CoexistSet(head) && CoexistSet(target) && e in target - head
    requires e.path in t && t[e.path].Dir? && forall q :: q in t && e.path <= q ==> Owned(t, head, q)
    ensures e.path !in Swept(t, head, target)
  {
    var removed := RemovedPaths(head, target);
    var base, touched := t - removed, ParentsOf(removed);
    hide RemovedPaths, CoexistSet, Owned;
    forall q | q in base && e.path <= q ensures base[q].Dir? && Touched(touched, q) {
      assert Owned(t, head, q);
      OwnedGoes(t, head, target, e, q);
    }
    assert e.path in base ==> Prunable(base, touched, [], e.path);
  }

  /** What HEAD owns below a directory in the place of a new entry is removed, or lies
      above something that is. */
  lemma OwnedGoes(t: Tree, head: set<Entry>, target: set<Entry>, e: Entry, q: Path)
    requires WellFormed(t) && CoexistSet(head) && CoexistSet(target) && e in target - head
    requires q in t && e.path <= q && Owned(t, head, q) && q !in RemovedPaths(head, target)
    requires e.path in t && t[e.path].Dir?
    ensures t[q].Dir? && Touched(ParentsOf(RemovedPaths(head, target)), q)
  {
    var removed := RemovedPaths(head, target);
    if t[q].Dir? {
      var h :| h in head && q < h.path;
      BelowTargetIsRemoved(head, target, e, h.path);
      assert h.path in removed && Parent(h.path) in ParentsOf(removed) && q <= Parent(h.path);
    } else {
      assert e.path != q;
      BelowTargetIsRemoved(head, target, e, q);
    }
  }

  lemma BelowTargetIsRemoved(head: set<Entry>, target: set<Entry>, e: Entry, q: Path)
    requires CoexistSet(head) && CoexistSet(target) && e in target && e.path < q && q in Paths(head)
    ensures q in RemovedPaths(head, target)
  {}

  lemma SweptMeaning(t: Tree, os: Os, head: set<Entry>, target: set<Entry>)
    requires WellFormed(t) && CoexistSet(head) && Holds(t, os, head - target)
    ensures WellFormed(Swept(t, head, target))
    ensures forall q :: q in Swept(t, head, target) ==> q in t && Swept(t, head, target)[q] == t[q] && q !in RemovedPaths(head, target)
    ensures forall q :: q in t && !t[q].Dir? && q !in RemovedPaths(head, target) ==> q in Swept(t, head, target)
  {}

  /** Passing the preflights makes the swept tree ready for the write step; what can
      still obstruct it is untracked, and stood there from the beginning. */
  lemma PreflightMakesReady(t: Tree, os: Os, head: set<Entry>, target: set<Entry>)
    requires WellFormed(t) && CoexistSet(head) && Preflight(t, os, head, target)
    ensures Ready(Swept(t, head, target), target - head, head)
    ensures Obstructed(Swept(t, head, target), target - head, head) <==> Obstructed(t, target - head, head)
  {
    var swept, added := Swept(t, head, target), target - head;
    SweptMeaning(t, os, head, target);
    forall e | e in added && e.path in swept ensures !swept[e.path].Dir? && e.path in Paths(head) {
      OutputIsTracked(t, os, head, target, e);
    }
    forall e, a | e in added && a in swept && a < e.path && !swept[a].Dir? ensures a !in Paths(head) {
      RemovedNotTarget(head, target, a);
    }
    if Obstructed(t, added, head) {
      var e, a :| e in added && a in t && a < e.path && !t[a].Dir? && a !in Paths(head);
      RemovedNotTarget(head, target, a);
      assert a in swept;
    }
  }

  lemma ParentDirsMeaning(es: set<Entry>, q: Path)
    ensures q in ParentDirs(es) <==> q != [] && Above(q, es)
  {
    if q in ParentDirs(es) {
      var e, k :| e in es && 1 <= k < |e.path| && q == e.path[..k];
      assert q < e.path;
    }
    if q != [] && Above(q, es) {
      var e :| e in es && q < e.path;
      assert q == e.path[..|q|];
    }
  }

  lemma DoneHasParents(cur: Tree, added: set<Entry>, q: Path)
    requires WellFormed(cur) && (forall e :: e in added ==> e.path in cur) && q != [] && Above(q, added)
    ensures q in cur && cur[q].Dir?
  {
    var e :| e in added && q < e.path;
    AncestorsAreDirs(cur, q, e.path);
  }

  /** A finished write step leaves exactly the tree given by `CheckedOut`. */
  lemma FinishedIsCheckedOut(t: Tree, cur: Tree, os: Os, head: set<Entry>, target: set<Entry>)
    requires Writing(cur, Swept(t, head, target), os, target - head, target - head)
    ensures cur == CheckedOut(t, os, head, target)
  {
    var swept, added := Swept(t, head, target), target - head;
    var want := CheckedOut(t, os, head, target);
    assert [] !in cur;
    forall q ensures (q in cur <==> q in want) && (q in cur ==> cur[q] == want[q]) {
      ParentDirsMeaning(added, q);
      if q in Paths(added) {
        assert EntryAt(added, q) in added && EntryAt(added, q).path == q;
      } else if q in swept {
      } else if q in ParentDirs(added) {
        DoneHasParents(cur, added, q);
      }
    }
  }

  // ---- What the checkout promises --------------------------------------------------

  /** Only the removed files and directories above them can be missing. */
  ghost predicate KeepsUnswept(t: Tree, cur: Tree, removed: set<Path>) {
    forall q :: q in t && q !in removed && !(t[q].Dir? && Touched(ParentsOf(removed), q)) ==> q in cur && cur[q] == t[q]
  }

  /** Sweeping away HEAD-only files never takes an untracked node with it. */
  lemma SweepPreserves(t: Tree, cur: Tree, head: set<Entry>, target: set<Entry>)
    requires KeepsUnswept(t, cur, RemovedPaths(head, target))
    requires forall p :: p in RemovedPaths(head, target) && p in t ==> !t[p].Dir?
    ensures Preserved(t, cur, head)
  {}

  lemma WritingPreserves(t: Tree, swept: Tree, cur: Tree, os: Os, added: set<Entry>, done: set<Entry>, head: set<Entry>)
    requires Ready(swept, added, head) && Writing(cur, swept, os, added, done) && Preserved(t, swept, head)
    ensures Preserved(t, cur, head)
  {}

  lemma CheckedOutWellFormed(t: Tree, os: Os, head: set<Entry>, target: set<Entry>)
    requires Ready(Swept(t, head, target), target - head, head) && AllLinkable(os, target - head)
    requires !Obstructed(Swept(t, head, target), target - head, head)
    ensures WellFormed(CheckedOut(t, os, head, target))
  {
    var swept, added := Swept(t, head, target), target - head;
    var r := CheckedOut(t, os, head, target);
    ParentDirsMeaning(added, []);
    forall q | q in r ensures r[q].Link? ==> r[q].target != [] {
      if q in Paths(added) { AttemptFine(os, EntryAt(added, q)); }
    }
    hide AllLinkable, Obstructed;
    forall q | q in r && q != [] ensures IsDirAt(r, Parent(q)) { ParentIsDir(swept, added, head, r, q); }
  }

  lemma ParentIsDir(swept: Tree, added: set<Entry>, head: set<Entry>, r: Tree, q: Path)
    requires Ready(swept, added, head) && !Obstructed(swept, added, head) && q != []
    requires q in swept || q in ParentDirs(added) || q in Paths(added)
    requires forall p :: p in r <==> p in swept || p in ParentDirs(added) || p in Paths(added)
    requires forall p :: p in r && p !in Paths(added) ==> r[p] == if p in swept then swept[p] else Dir
    ensures IsDirAt(r, Parent(q))
  {
    var up := Parent(q);
    if up != [] {
      ParentDirsMeaning(added, q);
      ParentDirsMeaning(added, up);
      if q in Paths(added) || q in ParentDirs(added) {
        var e :| e in added && q <= e.path;
        AboveAddedIsFree(swept, added, head, up, e);
      } else {
        assert swept[up].Dir?;
        assert up !in Paths(added);
      }
    }
  }

  lemma AboveAddedIsFree(swept: Tree, added: set<Entry>, head: set<Entry>, up: Path, e: Entry)
    requires Ready(swept, added, head) && !Obstructed(swept, added, head) && e in added && up < e.path
    ensures Above(up, added) && up !in Paths(added) && (up in swept ==> swept[up].Dir?)
  {}

  /** What a checkout without input or output errors needs to succeed. */
  ghost predicate Succeeds(t: Tree, os: Os, head: set<Entry>, target: set<Entry>) {
    Preflight(t, os, head, target) && !Obstructed(t, target - head, head) && AllLinkable(os, target - head)
  }

  /** No step of the checkout has a reason to fail, but for the directories it empties. */
  ghost predicate NothingFails(t: Tree, os: Os, head: set<Entry>, target: seq<Entry>) {
    var wanted := EntrySet(target);
    && Coexist(PathsOf(target)) && Preflight(t, os, head, wanted) && !Faulted(os, wanted - head)
    && Unlinks(os, RemovedPaths(head, wanted)) && AllFine(os, wanted - head) && !Obstructed(t, wanted - head, head) && !os.headFails
  }

  /** A node of its kind at every path. */
  ghost predicate Shows(t: Tree, es: set<Entry>) {
    forall e :: e in es ==> e.path in t && !t[e.path].Dir? && (t[e.path].Link? <==> e.metadata.Symlink?)
  }

  lemma HeldIsShown(t: Tree, os: Os, es: set<Entry>)
    requires Holds(t, os, es)
    ensures Shows(t, es)
  {}

  /** A successful checkout, from a tree that holds what HEAD and the target share:
      at every target path a node of its kind, and exactly the target's entry everywhere if
      and only if none of the new ones is a link with an empty object; nothing of HEAD's
      elsewhere, every untracked node as it was, and no node from anywhere else. */
  lemma CheckoutMeaning(t: Tree, os: Os, head: set<Entry>, target: set<Entry>)
    requires WellFormed(t) && CoexistSet(head) && Succeeds(t, os, head, target) && Holds(t, os, head * target)
    ensures var r := CheckedOut(t, os, head, target);
      && WellFormed(r)
      && Shows(r, target) && (Holds(r, os, target) <==> NoEmptyLinks(os, target - head))
      && (forall p :: p in Paths(head) && p !in Paths(target) && p in r ==> r[p].Dir? && Above(p, target))
      && Preserved(t, r, head)
      && (forall q :: q in r && q !in Paths(target) && !Above(q, target) ==> q in t && r[q] == t[q] && q !in Paths(head))
  {
    var swept, added, removed := Swept(t, head, target), target - head, RemovedPaths(head, target);
    var r := CheckedOut(t, os, head, target);
    PreflightMakesReady(t, os, head, target);
    SweptMeaning(t, os, head, target);
    CheckedOutWellFormed(t, os, head, target);
    SharedEntriesStay(t, r, os, head, target);
    CheckoutPreserves(t, os, head, target);
    hide Holds, Preserved, NoEmptyLinks, Preflight, Shows, Obstructed, AllLinkable;
    forall p | p in Paths(head) && p !in Paths(target) && p in r ensures r[p].Dir? && Above(p, target) {
      RemovedNotTarget(head, target, p);
      ParentDirsMeaning(added, p);
      assert Above(p, added);
      var e :| e in added && p < e.path;
    }
    forall q | q in r && q !in Paths(target) && !Above(q, target) ensures q in t && r[q] == t[q] && q !in Paths(head) {
      ParentDirsMeaning(added, q);
      assert Above(q, added) ==> Above(q, target);
      RemovedNotTarget(head, target, q);
    }
  }

  lemma CheckoutPreserves(t: Tree, os: Os, head: set<Entry>, target: set<Entry>)
    requires WellFormed(t) && CoexistSet(head) && Preflight(t, os, head, target)
    ensures Preserved(t, CheckedOut(t, os, head, target), head)
  {
    var swept, added, removed := Swept(t, head, target), target - head, RemovedPaths(head, target);
    PreflightMakesReady(t, os, head, target);
    forall p | p in removed ensures p in t && !t[p].Dir? { RemovedAreFiles(t, os, head, target, p); }
    SweepPreserves(t, swept, head, target);
    var r := CheckedOut(t, os, head, target);
    forall q | Untracked(t, head, q) ensures q in r && r[q] == t[q] {
      assert q in swept && swept[q] == t[q];
    }
  }

  /** The tree a checkout left, as far as the way back depends on it. */
  ghost predicate Arrived(t: Tree, there: Tree, head: set<Entry>, target: set<Entry>) {
    && WellFormed(t) && Shows(t, head) && CoexistSet(head) && CoexistSet(target)
    && WellFormed(there) && Shows(there, target)
    && forall q :: q in there && q !in Paths(target) && !Above(q, target) ==> q in t && there[q] == t[q] && q !in Paths(head)
  }

  lemma CheckoutArrives(t: Tree, os: Os, head: set<Entry>, target: set<Entry>)
    requires WellFormed(t) && CoexistSet(head) && Holds(t, os, head) && Succeeds(t, os, head, target)
    ensures Arrived(t, CheckedOut(t, os, head, target), head, target)
    ensures Holds(CheckedOut(t, os, head, target), os, target) <==> NoEmptyLinks(os, target - head)
  {
    CheckoutMeaning(t, os, head, target);
    HeldIsShown(t, os, head);
    hide CheckedOut, Obstructed, Holds, CoexistSet, Preserved, WellFormed, NoEmptyLinks, Shows, AllLinkable;
  }

  lemma EntryIsLeaf(t: Tree, es: set<Entry>, e: Entry, q: Path)
    requires WellFormed(t) && Shows(t, es) && e in es && e.path <= q && q in t
    ensures !t[q].Dir? && q == e.path
  {
    assert e.path in t && !t[e.path].Dir?;
    if e.path < q { AncestorsAreDirs(t, e.path, q); } else { assert e.path == q; }
  }

  /** A file or link above or below a HEAD path is now the target's. */
  lemma OverHeadIsTarget(t: Tree, there: Tree, head: set<Entry>, target: set<Entry>, e: Entry, q: Path)
    requires Arrived(t, there, head, target) && e in head && q in there && !there[q].Dir? && (q < e.path || e.path <= q)
    ensures q in Paths(target)
  {
    if q !in Paths(target) && !Above(q, target) {
      assert e.path in t && q in t;
      if q < e.path { AncestorsAreDirs(t, q, e.path); } else { EntryIsLeaf(t, head, e, q); }
    }
    if Above(q, target) { OutputsHaveDirParents(there, target, q); }
  }

  /** A directory at or below a HEAD path is one the target needs. */
  lemma DirOverHeadIsTargets(t: Tree, there: Tree, head: set<Entry>, target: set<Entry>, e: Entry, q: Path)
    requires Arrived(t, there, head, target) && e in head && q in there && there[q].Dir? && e.path <= q
    ensures Above(q, target)
  {
    assert q !in Paths(target) by { TargetIsLeaf(there, target, q); }
    if !Above(q, target) { EntryIsLeaf(t, head, e, q); }
  }

  lemma TargetIsLeaf(there: Tree, target: set<Entry>, q: Path)
    requires Shows(there, target)
    ensures q in Paths(target) ==> q in there && !there[q].Dir?
  {}

  lemma BackOwned(t: Tree, there: Tree, head: set<Entry>, target: set<Entry>, e: Entry, q: Path)
    requires Arrived(t, there, head, target) && e in head && q in there && e.path <= q
    ensures Owned(there, target, q)
  {
    hide Arrived;
    if there[q].Dir? { DirOverHeadIsTargets(t, there, head, target, e, q); } else { OverHeadIsTarget(t, there, head, target, e, q); }
  }

  lemma BackUnobstructed(t: Tree, there: Tree, head: set<Entry>, target: set<Entry>)
    requires Arrived(t, there, head, target)
    ensures !Obstructed(there, head - target, target)
  {
    hide Arrived;
    forall e, a | e in head - target && a in there && a < e.path && !there[a].Dir? ensures a in Paths(target) {
      OverHeadIsTarget(t, there, head, target, e, a);
    }
  }

  ghost predicate LinkOver(target: set<Entry>, a: Path) { exists link :: link in target && link.metadata.Symlink? && link.path < a }

  /** On the way down this path, behind a link of the target, another link turns up or a
      lookup fails, and nothing is missing before that. */
  ghost predicate Turned(later: Os, target: set<Entry>, p: Path, k: nat)
    requires k <= |p|
  {
    && LinkOver(target, p[..k]) && (later.behind(p[..k]).AnotherLink? || later.behind(p[..k]).Fails?)
    && forall j :: 1 <= j < k && LinkOver(target, p[..j]) ==> !later.behind(p[..j]).Missing?
  }

  /** A HEAD path leads through a link of the target astray. */
  ghost predicate LedAway(later: Os, head: set<Entry>, target: set<Entry>) {
    exists e, k :: e in head && 1 <= k < |e.path| && Turned(later, target, e.path, k)
  }

  lemma LinkOverHead(t: Tree, there: Tree, head: set<Entry>, target: set<Entry>, e: Entry, a: Path)
    requires Arrived(t, there, head, target) && e in head && a < e.path && LinkAbove(there, a)
    ensures LinkOver(target, a)
  {
    var b :| b in there && b < a && there[b].Link?;
    OverHeadIsTarget(t, there, head, target, e, b);
    var link :| link in target && link.path == b;
  }

  lemma LinkOverHides(t: Tree, there: Tree, head: set<Entry>, target: set<Entry>, a: Path)
    requires Arrived(t, there, head, target) && LinkOver(target, a)
    ensures a !in there && LinkAbove(there, a) && a !in Paths(target)
  {
    var link :| link in target && link.metadata.Symlink? && link.path < a;
    assert link.path in there && there[link.path].Link?;
    if a in there { AncestorsAreDirs(there, link.path, a); }
  }

  /** The ancestors of a HEAD path, seen from the target: a link in the way is the
      target's own, which goes; what lies behind it is looked up there. */
  lemma BackAncestor(t: Tree, there: Tree, later: Os, head: set<Entry>, target: set<Entry>, e: Entry, a: Path)
    requires Arrived(t, there, head, target) && e in head && a < e.path
    ensures LinkOver(target, a) ==> LookAt(there, later, a) == later.behind(a)
    ensures Refused(there, later, RemovedPaths(target, head), a) <==>
      LinkOver(target, a) && (later.behind(a).AnotherLink? || later.behind(a).Fails?)
  {
    RemovedNotTarget(target, head, a);
    assert a !in Paths(head);
    if LinkOver(target, a) { LinkOverHides(t, there, head, target, a); }
    if LinkAbove(there, a) { LinkOverHead(t, there, head, target, e, a); }
    hide Arrived, RemovedPaths, LinkAbove, LinkOver;
    if a in there && there[a].Link? { OverHeadIsTarget(t, there, head, target, e, a); }
  }

  /** Above or at a link of the target nothing is missing. */
  lemma NotMissingBefore(t: Tree, there: Tree, later: Os, head: set<Entry>, target: set<Entry>, a: Path, b: Path)
    requires Arrived(t, there, head, target) && a != [] && a < b && LinkOver(target, b) && !LinkOver(target, a)
    ensures !LookAt(there, later, a).Missing?
  {
    var link :| link in target && link.metadata.Symlink? && link.path < b;
    assert link.path in there;
    assert a == b[..|a|] && link.path == b[..|link.path|];
    if |a| < |link.path| {
      assert a == link.path[..|a|];
      AncestorsAreDirs(there, a, link.path);
    } else {
      assert link.path == a[..|link.path|];
      assert |link.path| == |a| ==> a == link.path;
    }
  }

  lemma BackStops(t: Tree, there: Tree, later: Os, head: set<Entry>, target: set<Entry>, e: Entry, k: nat)
    requires Arrived(t, there, head, target) && e in head && 1 <= k < |e.path| && LinkOver(target, e.path[..k])
    ensures Stops(there, later, e.path, k) <==> exists j :: 1 <= j < k && LinkOver(target, e.path[..j]) && later.behind(e.path[..j]).Missing?
  {
    hide Arrived, LinkOver;
    forall j | 1 <= j < k ensures LookAt(there, later, e.path[..j]).Missing? <==> LinkOver(target, e.path[..j]) && later.behind(e.path[..j]).Missing? {
      if LinkOver(target, e.path[..j]) {
        BackAncestor(t, there, later, head, target, e, e.path[..j]);
      } else {
        assert e.path[..j] < e.path[..k];
        NotMissingBefore(t, there, later, head, target, e.path[..j], e.path[..k]);
      }
    }
  }

  /** So the check of the way back refuses one ancestor exactly when the path is turned there. */
  lemma BackTurned(t: Tree, there: Tree, later: Os, head: set<Entry>, target: set<Entry>, e: Entry, k: nat)
    requires Arrived(t, there, head, target) && e in head && 1 <= k < |e.path|
    ensures Refused(there, later, RemovedPaths(target, head), e.path[..k]) && !Stops(there, later, e.path, k) <==> Turned(later, target, e.path, k)
  {
    BackAncestor(t, there, later, head, target, e, e.path[..k]);
    if LinkOver(target, e.path[..k]) { BackStops(t, there, later, head, target, e, k); }
    hide Arrived, LinkOver, Refused, Stops;
  }

  /** Paths of the target itself lie below directories. */
  lemma OwnAncestorsClear(there: Tree, later: Os, target: set<Entry>, removable: set<Path>, p: Path)
    requires WellFormed(there) && Shows(there, target) && p in Paths(target)
    ensures AncestorsClear(there, later, removable, p)
  {
    forall k | 1 <= k < |p| ensures !Refused(there, later, removable, p[..k]) {
      AncestorsAreDirs(there, p[..k], p);
    }
  }

  ghost predicate BackClear(there: Tree, later: Os, head: set<Entry>, target: set<Entry>) {
    forall p :: p in Paths(head - target) + RemovedPaths(target, head) ==> AncestorsClear(there, later, RemovedPaths(target, head), p)
  }

  lemma BackClearIff(t: Tree, there: Tree, later: Os, head: set<Entry>, target: set<Entry>)
    requires Arrived(t, there, head, target)
    ensures BackClear(there, later, head, target) <==> !LedAway(later, head, target)
  {
    var removable := RemovedPaths(target, head);
    ArrivedFacts(t, there, head, target);
    hide Refused, Stops, Turned, Arrived, Shows, WellFormed, CoexistSet;
    if !LedAway(later, head, target) {
      forall p | p in Paths(head - target) + removable ensures AncestorsClear(there, later, removable, p) {
        if p in Paths(target) {
          OwnAncestorsClear(there, later, target, removable, p);
        } else {
          var e :| e in head && e.path == p;
          forall k | 1 <= k < |p| ensures Refused(there, later, removable, p[..k]) ==> Stops(there, later, p, k) {
            BackTurned(t, there, later, head, target, e, k);
          }
        }
      }
    } else {
      var e, k :| e in head && 1 <= k < |e.path| && Turned(later, target, e.path, k);
      BackTurned(t, there, later, head, target, e, k);
      assert LinkOver(target, e.path[..k]) by { TurnedBehindLink(later, target, e.path, k); }
      BelowLinkIsNew(t, there, head, target, e, e.path[..k]);
      assert e.path in Paths(head - target);
      assert !AncestorsClear(there, later, removable, e.path);
    }
  }

  lemma TurnedBehindLink(later: Os, target: set<Entry>, p: Path, k: nat)
    requires k <= |p| && Turned(later, target, p, k)
    ensures LinkOver(target, p[..k])
  {}

  lemma ArrivedFacts(t: Tree, there: Tree, head: set<Entry>, target: set<Entry>)
    requires Arrived(t, there, head, target)
    ensures WellFormed(there) && Shows(there, target) && CoexistSet(head)
  {}

  lemma BelowLinkIsNew(t: Tree, there: Tree, head: set<Entry>, target: set<Entry>, e: Entry, a: Path)
    requires Arrived(t, there, head, target) && e in head && a < e.path && LinkOver(target, a)
    ensures e !in target
  {
    var link :| link in target && link.metadata.Symlink? && link.path < a;
    assert link.path < e.path;
  }

  /** The preflights of the way back, given what of the target is still in place. */
  lemma BackPreflight(t: Tree, there: Tree, later: Os, head: set<Entry>, target: set<Entry>)
    requires Arrived(t, there, head, target)
    ensures Preflight(there, later, target, head) <==>
      AllDecode(later, head - target) && Holds(there, later, target - head) && !LedAway(later, head, target)
  {
    var removable := RemovedPaths(target, head);
    forall e, q | e in head && q in there && e.path <= q ensures Owned(there, target, q) { BackOwned(t, there, head, target, e, q); }
    assert CollisionFree(there, head - target, target, removable) by { hide Arrived, Owned; }
    ArrivedFacts(t, there, head, target);
    BackClearIff(t, there, later, head, target);
    hide CollisionFree, Owned, Holds, Arrived, LedAway, CoexistSet, AncestorsClear, RemovedPaths, AllDecode;
  }

  lemma HeldLinksAreNotEmpty(t: Tree, os: Os, head: set<Entry>)
    requires WellFormed(t) && Holds(t, os, head)
    ensures NoEmptyLinks(os, head)
  {
    forall e | e in head ensures !EmptyLink(os, e) { assert t[e.path] == NodeOf(os, e); }
  }

  /** The links that were put in place are what they should be exactly when none has an
      empty object. */
  lemma NewStillHeld(there: Tree, os: Os, later: Os, head: set<Entry>, target: set<Entry>, t: Tree)
    requires CoexistSet(target) && AllLinkable(os, target - head) && later.content == os.content
    requires there == CheckedOut(t, os, head, target)
    ensures Holds(there, later, target - head) <==> NoEmptyLinks(os, target - head)
  {
    NewEntriesShow(t, os, head, target);
    hide CheckedOut;
    assert forall e :: NodeOf(later, e) == NodeOf(os, e);
    assert Holds(there, later, target - head) <==> Holds(there, os, target - head);
  }

  /** What the way back needs: the old link targets decode, no HEAD path is led astray, and
      the checkout put no link with an empty object in place. */
  ghost predicate WayBackOpen(os: Os, later: Os, head: set<Entry>, target: set<Entry>) {
    AllDecode(later, head - target) && !LedAway(later, head, target) && NoEmptyLinks(os, target - head)
  }

  /** Checking out another snapshot and coming back: the way back is never obstructed, it
      succeeds exactly when it is open, and then every file and link is restored. */
  lemma ThereAndBack(t: Tree, os: Os, later: Os, head: set<Entry>, target: set<Entry>)
    requires WellFormed(t) && CoexistSet(head) && Holds(t, os, head) && later.content == os.content
    requires Succeeds(t, os, head, target)
    ensures !Obstructed(CheckedOut(t, os, head, target), head - target, target)
    ensures Preflight(CheckedOut(t, os, head, target), later, target, head) <==> WayBackOpen(os, later, head, target)
    ensures Succeeds(CheckedOut(t, os, head, target), later, target, head) <==> WayBackOpen(os, later, head, target)
    ensures var back := CheckedOut(CheckedOut(t, os, head, target), later, target, head);
      WayBackOpen(os, later, head, target) ==> forall q :: q in t && !t[q].Dir? <==> q in back && !back[q].Dir?
    ensures var back := CheckedOut(CheckedOut(t, os, head, target), later, target, head);
      WayBackOpen(os, later, head, target) ==> forall q :: q in t && !t[q].Dir? ==> back[q] == t[q]
  {
    var there := CheckedOut(t, os, head, target);
    CheckoutArrives(t, os, head, target);
    NewStillHeld(there, os, later, head, target, t);
    HeldLinksAreNotEmpty(t, os, head);
    BackUnobstructed(t, there, head, target);
    BackPreflight(t, there, later, head, target);
    assert AllLinkable(later, head - target);
    hide Obstructed, LedAway, CheckedOut, Arrived, Preflight, Holds, CoexistSet, WellFormed, NoEmptyLinks, AllLinkable, AllDecode;
    if WayBackOpen(os, later, head, target) { BackRestores(t, os, later, head, target); }
  }

  lemma BackRestores(t: Tree, os: Os, later: Os, head: set<Entry>, target: set<Entry>)
    requires WellFormed(t) && CoexistSet(head) && Holds(t, os, head) && later.content == os.content
    requires Succeeds(t, os, head, target) && NoEmptyLinks(os, target - head)
    requires Succeeds(CheckedOut(t, os, head, target), later, target, head)
    ensures var back := CheckedOut(CheckedOut(t, os, head, target), later, target, head);
      forall q :: q in t && !t[q].Dir? <==> q in back && !back[q].Dir?
    ensures var back := CheckedOut(CheckedOut(t, os, head, target), later, target, head);
      forall q :: q in t && !t[q].Dir? ==> back[q] == t[q]
  {
    var there := CheckedOut(t, os, head, target);
    var back := CheckedOut(there, later, target, head);
    CheckoutArrives(t, os, head, target);
    BackArrives(t, os, later, head, target);
    forall q | q in t && !t[q].Dir? ensures q in back && back[q] == t[q] { LeafComesBack(t, os, later, head, target, q); }
    hide CheckedOut, Succeeds, Holds;
    forall q | q in back && !back[q].Dir? ensures q in t && !t[q].Dir? { LeafWasThere(t, there, back, head, target, q); }
  }

  lemma BackArrives(t: Tree, os: Os, later: Os, head: set<Entry>, target: set<Entry>)
    requires WellFormed(t) && Holds(t, os, head) && later.content == os.content
    requires Arrived(t, CheckedOut(t, os, head, target), head, target) && Holds(CheckedOut(t, os, head, target), os, target)
    requires Succeeds(CheckedOut(t, os, head, target), later, target, head)
    ensures var there := CheckedOut(t, os, head, target);
      var back := CheckedOut(there, later, target, head);
      Arrived(there, back, target, head) && Holds(back, later, head)
  {
    var there := CheckedOut(t, os, head, target);
    HeldLinksAreNotEmpty(t, os, head);
    assert NoEmptyLinks(later, head - target);
    hide CheckedOut, Succeeds;
    assert Holds(there, later, target);
    CheckoutArrives(there, later, target, head);
  }

  lemma LeafComesBack(t: Tree, os: Os, later: Os, head: set<Entry>, target: set<Entry>, q: Path)
    requires WellFormed(t) && CoexistSet(head) && Holds(t, os, head) && later.content == os.content
    requires Succeeds(t, os, head, target) && Succeeds(CheckedOut(t, os, head, target), later, target, head)
    requires var there := CheckedOut(t, os, head, target);
      && Arrived(t, there, head, target) && Holds(CheckedOut(there, later, target, head), later, head)
    requires q in t && !t[q].Dir?
    ensures var back := CheckedOut(CheckedOut(t, os, head, target), later, target, head); q in back && back[q] == t[q]
  {
    var there := CheckedOut(t, os, head, target);
    var back := CheckedOut(there, later, target, head);
    if q in Paths(head) {
      hide CheckedOut, Succeeds, WellFormed, CoexistSet, Arrived;
      var e :| e in head && e.path == q;
      assert back[q] == NodeOf(later, e) == NodeOf(os, e);
    } else {
      if q in Paths(target) { NewOutputWasFree(t, os, head, target, q); }
      CheckoutPreserves(t, os, head, target);
      CheckoutPreserves(there, later, target, head);
      hide CheckedOut, Succeeds, Arrived, WellFormed, CoexistSet, Holds;
      assert Untracked(t, head, q) && there[q] == t[q];
      assert Untracked(there, target, q);
    }
  }

  lemma LeafWasThere(t: Tree, there: Tree, back: Tree, head: set<Entry>, target: set<Entry>, q: Path)
    requires Arrived(t, there, head, target) && Arrived(there, back, target, head) && q in back && !back[q].Dir?
    ensures q in t && !t[q].Dir?
  {
    if q in Paths(head) {
      TargetIsLeaf(t, head, q);
    } else {
      assert !Above(q, head) by { if Above(q, head) { OutputsHaveDirParents(back, head, q); } }
      assert there[q] == back[q] && q !in Paths(target);
      assert !Above(q, target) by { if Above(q, target) { OutputsHaveDirParents(there, target, q); } }
    }
  }

  /** A file two directories deep and nothing else. */
  function DeepFile(os: Os, file: Entry): Tree
    requires |file.path| == 3
  {
    map[file.path[..1] := Dir, file.path[..2] := Dir, file.path := NodeOf(os, file)]
  }

  lemma DeepFileIsTree(os: Os, file: Entry)
    requires |file.path| == 3 && file.metadata.Regular?
    ensures var t := DeepFile(os, file); WellFormed(t) && Holds(t, os, {file}) && forall q :: q in t ==> Owned(t, {file}, q)
  {
    var p := file.path;
    var t := DeepFile(os, file);
    assert Parent(p) == p[..2] && Parent(p[..2]) == p[..1] && Parent(p[..1]) == [];
    assert p[..1] < p && p[..2] < p && |p[..1]| == 1 && |p[..2]| == 2;
  }

  /** HEAD has the file c/x/y and the target has c as a link with a target. */
  ghost predicate LinkForDirectory(os: Os, later: Os, file: Entry, link: Entry) {
    && |file.path| == 3 && file.metadata.Regular? && link.path == file.path[..1] && link.metadata.Symlink?
    && AllDecode(os, {link}) && NoEmptyLinks(os, {link}) && later.content == os.content
  }

  /** For instance: in the directory c leads to, x is a link. Going there succeeds; coming
      back is refused. */
  lemma WayBackClosed(os: Os, later: Os, file: Entry, link: Entry)
    requires LinkForDirectory(os, later, file, link)
    requires later.behind(file.path[..2]).AnotherLink? || later.behind(file.path[..2]).Fails?
    ensures var t := DeepFile(os, file);
      && WellFormed(t) && CoexistSet({file}) && Holds(t, os, {file}) && Succeeds(t, os, {file}, {link})
      && !Preflight(CheckedOut(t, os, {file}, {link}), later, {link}, {file})
  {
    var t, head, target := DeepFile(os, file), {file}, {link};
    DeepFileIsTree(os, file);
    GoesThere(os, later, file, link);
    assert file.path[..2][..1] == file.path[..1];
    assert LinkOver(target, file.path[..2]) && !LinkOver(target, file.path[..1]);
    assert Turned(later, target, file.path, 2);
    hide WellFormed, Owned, Preflight, Obstructed, DeepFile, CheckedOut, Turned, CoexistSet, AllDecode;
    ThereAndBack(t, os, later, head, target);
  }

  /** A link that leads to itself cannot be looked behind. */
  ghost predicate SelfLinksFail(t: Tree, os: Os) {
    forall p, b :: p in t && p != [] && t[p] == Link(p[|p|-1]) && p < b ==> os.behind(b).Fails?
  }

  /** For instance: c is a link to c. Going there succeeds; coming back fails, and there is
      no other link about. */
  lemma WayBackLoops(os: Os, later: Os, file: Entry, link: Entry)
    requires LinkForDirectory(os, later, file, link) && os.content(link.checksum) == file.path[0]
    requires SelfLinksFail(CheckedOut(DeepFile(os, file), os, {file}, {link}), later)
    ensures var t := DeepFile(os, file);
      && WellFormed(t) && CoexistSet({file}) && Holds(t, os, {file}) && Succeeds(t, os, {file}, {link})
      && !Preflight(CheckedOut(t, os, {file}, {link}), later, {link}, {file})
  {
    var t, head, target := DeepFile(os, file), {file}, {link};
    DeepFileIsTree(os, file);
    GoesThere(os, later, file, link);
    assert Holds(CheckedOut(t, os, head, target), os, target) by {
      hide WellFormed, Owned, Preflight, Obstructed, DeepFile, CheckedOut;
      CheckoutArrives(t, os, head, target);
    }
    assert CheckedOut(t, os, head, target)[link.path] == Link(link.path[0]);
    assert link.path < file.path[..2];
    hide WellFormed, Owned, Preflight, Obstructed, DeepFile, CheckedOut, LinkForDirectory, Succeeds, Holds, CoexistSet;
    WayBackClosed(os, later, file, link);
  }

  lemma GoesThere(os: Os, later: Os, file: Entry, link: Entry)
    requires LinkForDirectory(os, later, file, link)
    ensures CoexistSet({file}) && Succeeds(DeepFile(os, file), os, {file}, {link})
  {
    var t, head, target := DeepFile(os, file), {file}, {link};
    DeepFileIsTree(os, file);
    assert Paths(target) == {link.path} && Paths(head) == {file.path};
    assert target - head == target && head - target == head;
    assert CollisionFree(t, target - head, head, RemovedPaths(head, target)) by { hide WellFormed, Owned, DeepFile; }
    GoingThere(os, file, link);
    assert Preflight(t, os, head, target) by { hide WellFormed, Owned, CollisionFree, DeepFile, AncestorsClear; }
    assert !Obstructed(t, target - head, head) by { hide WellFormed, Owned, Preflight; }
    hide WellFormed, Owned, Preflight, Obstructed, DeepFile;
  }

  lemma GoingThere(os: Os, file: Entry, link: Entry)
    requires |file.path| == 3 && file.metadata.Regular? && link.path == file.path[..1] && link.metadata.Symlink?
    ensures forall p, removable :: p in {link.path, file.path} ==> AncestorsClear(DeepFile(os, file), os, removable, p)
  {
    var t := DeepFile(os, file);
    forall p, removable: set<Path> | p in {link.path, file.path} ensures AncestorsClear(t, os, removable, p) {
      forall k | 1 <= k < |p| ensures !Refused(t, os, removable, p[..k]) {
        assert p == file.path && (k == 1 || k == 2) && p[..k] in t && t[p[..k]].Dir?;
      }
    }
  }

  /** For instance: an untracked file at a, no HEAD, and a target with the file a/b. The
      preflights look at what is at or below an output, not above it, so they pass. */
  lemma ObstructedUnnoticed(os: Os, e: Entry)
    requires e.path == [[0x61], [0x62]] && e.metadata.Regular?
    ensures var t: Tree := map[[[0x61]] := File([], 0)];
      WellFormed(t) && Preflight(t, os, {}, {e}) && Obstructed(t, {e}, {})
  {
    var a: Path := [[0x61]];
    var t: Tree := map[a := File([], 0)];
    assert a == e.path[..1] && Parent(a) == [];
    assert forall q :: q in t ==> !(e.path <= q);
    assert a in t && a < e.path && !t[a].Dir? && a !in Paths({});
  }

  /** For instance: a new link with an empty object. No preflight refuses it; it is made
      only of other bytes, and then it is not what it should be. */
  lemma EmptyLinkUnnoticed(os: Os, e: Entry)
    requires |e.path| == 1 && EmptyLink(os, e) && e.metadata.encoding.UnixBytes?
    ensures WellFormed(map[]) && Preflight(map[], os, {}, {e}) && !Obstructed(map[], {e}, {})
    ensures Succeeds(map[], os, {}, {e}) <==> os.buffer(e.path) != [] && 0 !in os.buffer(e.path)
    ensures Succeeds(map[], os, {}, {e}) ==> !Holds(CheckedOut(map[], os, {}, {e}), os, {e})
  {
    assert {e} - {} == {e};
    if Succeeds(map[], os, {}, {e}) {
      CheckoutMeaning(map[], os, {}, {e});
      assert !NoEmptyLinks(os, {e});
    }
  }

  lemma OutputsHaveDirParents(t: Tree, es: set<Entry>, q: Path)
    requires WellFormed(t) && Shows(t, es) && Above(q, es) && q in t
    ensures t[q].Dir?
  {
    DoneHasParents(t, es, q);
  }

  /** A file or link at a target path is HEAD's: untracked ones are refused. */
  lemma NewOutputWasFree(t: Tree, os: Os, head: set<Entry>, target: set<Entry>, q: Path)
    requires WellFormed(t) && CoexistSet(head) && Preflight(t, os, head, target)
    requires q in Paths(target) && q in t && !t[q].Dir?
    ensures q in Paths(head)
  {
    var e :| e in target && e.path == q;
    if e !in head {
      SweptMeaning(t, os, head, target);
      RemovedNotTarget(head, target, q);
      OutputIsTracked(t, os, head, target, e);
    }
  }

  // ---- The imperative form --------------------------------------------------------

  /** No directory resists being removed. */
  ghost predicate Empties(os: Os) { forall p :: !os.rmdirFails(p) }

  /** None of these files resists being removed. */
  ghost predicate Unlinks(os: Os, removed: set<Path>) { forall p :: p in removed ==> !os.unlinkFails(p) }

  ghost predicate Quiet(os: Os) {
    && (forall p :: !os.unlinkFails(p)) && Empties(os)
    && (forall p :: os.write(p).Fine?)
    && os.preflight.NoFault? && !os.headFails
  }

  lemma QuietSweeps(os: Os, removed: set<Path>)
    ensures Quiet(os) ==> Empties(os) && Unlinks(os, removed)
  {}

  /** Removing one tracked path: a missing one is fine, a directory goes recursively. */
  function RemoveOne(t: Tree, p: Path, fails: Path -> bool): Outcome {
    if fails(p) then Outcome(t, false)
    else if p in t then
      if t[p].Dir? then Outcome(map q | q in t && !(p <= q) :: t[q], true) else Outcome(t - {p}, true)
    else Outcome(t, !Blocked(t, p))
  }

  /** It fails if the step does or something on the way is no directory, and else leaves
      nothing at the path and below it, and everything else. */
  lemma RemoveOneMeans(t: Tree, p: Path, fails: Path -> bool)
    requires WellFormed(t) && p != []
    ensures var r := RemoveOne(t, p, fails);
      && (r.ok <==> !fails(p) && !Blocked(t, p))
      && (!r.ok ==> r.tree == t)
      && (r.ok ==> forall q :: q in r.tree <==> q in t && !(p <= q))
      && (forall q :: q in r.tree ==> q in t && r.tree[q] == t[q])
  {
    forall q | q in t && p <= q ensures p == q || p < q { assert |p| == |q| ==> p == q[..|p|] == q; }
    if p in t {
      PresentNotBlocked(t, p);
      forall q | q in t && p < q ensures t[p].Dir? { AncestorsAreDirs(t, p, q); }
    } else {
      NothingBelowMissing(t, p);
    }
  }

  function PathsOf(entries: seq<Entry>): seq<Path> { seq(|entries|, i requires 0 <= i < |entries| => entries[i].path) }
  function EntrySet(entries: seq<Entry>): set<Entry> { set e | e in entries }

  lemma PolicyOnEntries(entries: seq<Entry>)
    requires Coexist(PathsOf(entries)) && forall e :: e in entries ==> e.path != []
    ensures CoexistSet(EntrySet(entries))
  {
    forall x, y | x in EntrySet(entries) && y in EntrySet(entries)
      ensures (x.path == y.path ==> x == y) && !(x.path < y.path) && x.path != []
    {
      var i :| 0 <= i < |entries| && entries[i] == x;
      var j :| 0 <= j < |entries| && entries[j] == y;
      assert PathsOf(entries)[i] == x.path && PathsOf(entries)[j] == y.path;
    }
  }

  /** What a partly swept tree still has. */
  lemma PartlySwept(t: Tree, cur: Tree, gone: set<Path>, removed: set<Path>)
    requires Between(cur, t - gone, ParentsOf(gone), []) && gone <= removed
    ensures KeepsUnswept(t, cur, removed)
  {
    forall q | q in t && q !in removed && !(t[q].Dir? && Touched(ParentsOf(removed), q)) ensures q in cur && cur[q] == t[q] {
      assert q in t - gone;
      assert ParentsOf(gone) <= ParentsOf(removed);
      assert Touched(ParentsOf(gone), q) ==> Touched(ParentsOf(removed), q);
    }
  }

  class Repository {
    const dir: WorkDir
    /** The entries of the snapshot HEAD names; none when there is no HEAD. */
    var head: set<Entry>

    ghost predicate Valid()
      reads this, dir
    {
      WellFormed(dir.nodes) && CoexistSet(head)
    }

    constructor (dir: WorkDir)
      requires WellFormed(dir.nodes)
      ensures this.dir == dir && head == {} && Valid()
    {
      this.dir := dir;
      head := {};
    }

    /** One turn of the removal loop: unlink, then hand the directory to the queue. */
    method RemoveTracked(queue: EmptyDirectoryCleanupQueue, p: Path, os: Os) returns (ok: bool)
      requires p != []
      modifies dir, queue
      ensures var r := RemoveOne(old(dir.nodes), p, os.unlinkFails);
        if r.ok then QueueState(dir.nodes, queue.last, ok) == AfterEnqueue(r.tree, old(queue.last), Parent(p), [], os.rmdirFails)
        else !ok && dir.nodes == r.tree && queue.last == old(queue.last)
    {
      var r := RemoveOne(dir.nodes, p, os.unlinkFails);
      dir.nodes := r.tree;
      ok := r.ok;
      if ok { ok := queue.Enqueue(dir, Parent(p), [], os.rmdirFails); }
    }

    /** The same turn, seen through the loop invariant. */
    method SweepOne(queue: EmptyDirectoryCleanupQueue, p: Path, os: Os, ghost t: Tree, ghost gone: set<Path>)
      returns (ok: bool, ghost gone': set<Path>)
      requires Sweeping(dir.nodes, queue.last, t, gone) && WellFormed(t)
      requires p in t && !t[p].Dir? && p !in gone
      modifies dir, queue
      ensures SweepingAny(dir.nodes, queue.last, t, gone') && (gone' == gone || gone' == gone + {p})
      ensures ok ==> Sweeping(dir.nodes, queue.last, t, gone') && gone' == gone + {p}
      ensures if os.unlinkFails(p) then !ok else Empties(os) ==> ok
    {
      SweepStep(dir.nodes, queue.last, t, gone, p, os);
      ok := RemoveTracked(queue, p, os);
      gone' := if os.unlinkFails(p) then gone else gone + {p};
    }

    /** The removal loop, in any order of the removed paths. */
    method SweepLoop(queue: EmptyDirectoryCleanupQueue, removed: set<Path>, os: Os) returns (ok: bool, ghost gone: set<Path>)
      requires WellFormed(dir.nodes) && AllFiles(dir.nodes, removed) && queue.last == []
      modifies dir, queue
      ensures gone <= removed && SweepingAny(dir.nodes, queue.last, old(dir.nodes), gone)
      ensures ok ==> gone == removed && Sweeping(dir.nodes, queue.last, old(dir.nodes), gone)
      ensures ok ==> Unlinks(os, removed)
      ensures Empties(os) && Unlinks(os, removed) ==> ok
    {
      ghost var t := dir.nodes;
      gone := {};
      var todo := removed;
      SweepStart(t);
      SweepIsAny(t, [], t, {});
      hide Sweeping, SweepingAny, WellFormed, Empties;
      ok := true;
      while todo != {} && ok
        invariant todo <= removed && gone <= removed - todo
        invariant SweepingAny(dir.nodes, queue.last, t, gone)
        invariant ok ==> gone == removed - todo && Sweeping(dir.nodes, queue.last, t, gone)
        invariant ok ==> Unlinks(os, removed - todo)
        invariant !ok ==> !Empties(os) || !Unlinks(os, removed)
        decreases todo
      {
        var p :| p in todo;
        ghost var tried := removed - todo;
        assert p in removed && p !in gone;
        ok, gone := SweepOne(queue, p, os, t, gone);
        todo := todo - {p};
        assert removed - todo == tried + {p};
      }
      assert todo == {} ==> removed - todo == removed;
    }

    /** However the loop ends, the queue is processed: at the end, or when it is dropped
        on an early return. */
    method SweepRemoved(removed: set<Path>, os: Os) returns (ok: bool)
      requires WellFormed(dir.nodes) && AllFiles(dir.nodes, removed)
      modifies dir
      ensures WellFormed(dir.nodes) && KeepsUnswept(old(dir.nodes), dir.nodes, removed)
      ensures ok ==> dir.nodes == Pruned(old(dir.nodes) - removed, ParentsOf(removed), [])
      ensures ok ==> Unlinks(os, removed)
      ensures Empties(os) && Unlinks(os, removed) ==> ok
    {
      ghost var t := dir.nodes;
      var queue := new EmptyDirectoryCleanupQueue();
      ghost var gone;
      ok, gone := SweepLoop(queue, removed, os);
      SweepEnd(dir.nodes, queue.last, t, gone, removed, os);
      var processed := queue.Process(dir, os.rmdirFails);
      ok := ok && processed;
    }

    /** The write step, in any order of the entries. A failed entry does not stop the
        others: they may belong to other workers. */
    method WriteEntries(added: set<Entry>, os: Os) returns (ok: bool)
      requires Ready(dir.nodes, added, head)
      modifies dir
      ensures exists done :: Writing(dir.nodes, old(dir.nodes), os, added, done) && (ok ==> done == added)
      ensures ok <==> AllFine(os, added) && !Obstructed(old(dir.nodes), added, head)
    {
      hide Ready, Writing, AllFine, Obstructed, Materialize, Placed, Attempt;
      ghost var start := dir.nodes;
      ghost var done: set<Entry> := {};
      var todo := added;
      ok := true;
      NothingTried(start, os, added, head);
      assert added - todo == {};
      while todo != {}
        invariant todo <= added && unchanged(this)
        invariant Writing(dir.nodes, start, os, added, done) && done !! todo
        invariant ok ==> done == added - todo
        invariant ok <==> AllFine(os, added - todo) && !Obstructed(start, added - todo, head)
      {
        var e :| e in todo;
        ghost var tried := added - todo;
        WriteStep(dir.nodes, start, os, added, done, head, e);
        OneMoreTried(start, os, tried, e, head);
        var r := Materialize(dir.nodes, e.path, Placed(os, e), Attempt(os, e));
        dir.nodes := r.tree;
        if r.ok { done := done + {e}; }
        ok := ok && r.ok;
        todo := todo - {e};
        assert added - todo == tried + {e};
      }
      assert added - todo == added;
    }

    /** The preflights, one after the other; they change nothing. */
    method RunPreflights(target: seq<Entry>, os: Os) returns (error: Option<ExtractError>)
      requires Valid() && forall e :: e in target ==> e.path != []
      ensures error.None? <==>
        && Coexist(PathsOf(target)) && Preflight(dir.nodes, os, head, EntrySet(target)) && !Faulted(os, EntrySet(target) - head)
      ensures error.Some? && error.value.UntrackedPaths? ==>
        error.value.paths != {} && forall q :: q in error.value.paths ==> Untracked(dir.nodes, head, q)
      ensures error.Some? ==> !error.value.Unfinished?
      ensures error.Some? ==> ForReason(dir.nodes, os, head, target, error.value)
    {
      hide Coexist, Justified, LedToError, Collides, Untracked, AncestorsClear;
      var verdict := PreflightPathPolicy(PathsOf(target));
      if verdict.Rejected? { return Some(Policy(verdict.error)); }
      PolicyOnEntries(target);
      var wanted := EntrySet(target);
      var removed := RemovedPaths(head, wanted);
      if os.preflight.LookupFails? { return Some(IoError); }
      error := AncestorsOf(Paths(wanted - head) + removed, removed, os);
      if error.Some? { return; }
      var links := AnyLink(wanted - head);
      if links && os.preflight.ProbeFails? { return Some(SymlinksUnsupported); }
      if links && os.preflight.ObjectsUnreadable? { return Some(IoError); }
      if !AllDecode(os, wanted - head) { return Some(InvalidSymlinkTarget); }
      if os.preflight.CheckFails? { return Some(DirtyWorkDir); }
      if exists e :: e in head - wanted && !(e.path in dir.nodes && dir.nodes[e.path] == NodeOf(os, e)) {
        return Some(DirtyWorkDir);
      }
      if os.preflight.WalkFails? { return Some(IoError); }
      var collisions := PreflightUntrackedCollisions(dir.nodes, wanted - head, head, removed);
      if collisions != {} { return Some(UntrackedPaths(collisions)); }
      return None;
    }

    /** preflight_destination_ancestors. */
    method AncestorsOf(paths: set<Path>, removed: set<Path>, os: Os) returns (error: Option<ExtractError>)
      ensures error.None? <==> forall p :: p in paths ==> AncestorsClear(dir.nodes, os, removed, p)
      ensures error.Some? ==> error.value.SymlinkedDestination? || error.value.IoError?
      ensures error.Some? ==> LedToError(dir.nodes, os, removed, paths, error.value)
    {
      hide AncestorsClear, FirstRefused;
      var todo := paths;
      while todo != {}
        invariant todo <= paths
        invariant forall p :: p in paths - todo ==> AncestorsClear(dir.nodes, os, removed, p)
      {
        var p :| p in todo;
        error := CheckDestinationAncestors(dir.nodes, os, removed, p);
        if error.Some? { RefusedKinds(dir.nodes, os, removed, p, error.value); return; }
        todo := todo - {p};
      }
      assert paths - todo == paths;
      return None;
    }

    /** extract_snapshot, unforced and without --reset. Success leaves exactly the tree
        `CheckedOut` describes and moves HEAD; the tree then holds the target if and only if
        no new entry is a link with an empty object. Whatever happens, every untracked node
        is still there unchanged; what the preflights stop changes nothing at all. Without
        I/O faults it succeeds exactly when the preflights pass, nothing untracked obstructs
        and every link can be made. */
    method ExtractSnapshot(target: seq<Entry>, os: Os) returns (r: Result)
      requires Valid() && forall e :: e in target ==> e.path != []
      modifies this, dir
      ensures Valid()
      ensures Preserved(old(dir.nodes), dir.nodes, old(head))
      ensures r.Extracted? ==> head == EntrySet(target)
      ensures r.Extracted? ==> r.added == |Paths(head) - Paths(old(head))|
      ensures r.Extracted? ==> r.removed == |Paths(old(head)) - Paths(head)|
      ensures r.Extracted? ==> r.modified == |ModifiedPaths(old(head), head)|
      ensures r.Extracted? ==> dir.nodes == CheckedOut(old(dir.nodes), os, old(head), EntrySet(target))
      ensures r.Extracted? && Holds(old(dir.nodes), os, old(head) * EntrySet(target)) ==>
        (Holds(dir.nodes, os, head) <==> NoEmptyLinks(os, head - old(head)))
      ensures r.Failed? ==> head == old(head)
      ensures !(Coexist(PathsOf(target)) && Preflight(old(dir.nodes), os, old(head), EntrySet(target)) && !Faulted(os, EntrySet(target) - old(head)))
        ==> r.Failed? && !r.error.Unfinished?
      ensures r.Failed? && !r.error.Unfinished? ==> dir.nodes == old(dir.nodes)
      ensures r.Failed? && !r.error.Unfinished? ==> ForReason(old(dir.nodes), os, old(head), target, r.error)
      ensures r.Extracted? ==> NothingFails(old(dir.nodes), os, old(head), target)
      ensures NothingFails(old(dir.nodes), os, old(head), target) && Empties(os) ==> r.Extracted?
      ensures Quiet(os) ==> (r.Extracted? <==> Coexist(PathsOf(target)) && Succeeds(old(dir.nodes), os, old(head), EntrySet(target)))
    {
      hide CheckedOut, Ready, Obstructed, Writing, Preserved, ForReason, Unlinks, Empties, KeepsUnswept, CoexistSet, Coexist, Holds, Preflight, AllLinkable, AllFine, Faulted, NoEmptyLinks;
      ghost var t := dir.nodes;
      var error := RunPreflights(target, os);
      if error.Some? {
        UnchangedIsPreserved(t, head);
        FineIsLinkable(os, EntrySet(target) - head);
        return Failed(error.value);
      }
      var wanted := EntrySet(target);
      ghost var added := wanted - head;
      FineIsLinkable(os, added);
      QuietSweeps(os, RemovedPaths(head, wanted));
      var ok := Sweep(wanted, os);
      if !ok { return Failed(Unfinished); }
      ok := WriteEntries(wanted - head, os);
      WritesFinish(t, dir.nodes, os, head, wanted, ok);
      if !ok || os.headFails { return Failed(Unfinished); }
      var updated := Paths(wanted - head) * Paths(head - wanted);
      CountsMean(head, wanted);
      r := Extracted(|wanted - head| - |updated|, |RemovedPaths(head, wanted)|, |updated|);
      head := wanted;
    }

    method Sweep(wanted: set<Entry>, os: Os) returns (ok: bool)
      requires Valid() && Preflight(dir.nodes, os, head, wanted)
      modifies dir
      ensures Valid() && Preserved(old(dir.nodes), dir.nodes, head)
      ensures ok ==> dir.nodes == Swept(old(dir.nodes), head, wanted)
      ensures ok ==> Ready(dir.nodes, wanted - head, head)
      ensures ok ==> Unlinks(os, RemovedPaths(head, wanted))
      ensures Empties(os) && Unlinks(os, RemovedPaths(head, wanted)) ==> ok
    {
      ghost var t := dir.nodes;
      var removed := RemovedPaths(head, wanted);
      forall p | p in removed ensures p in t && !t[p].Dir? { RemovedAreFiles(t, os, head, wanted, p); }
      ok := SweepRemoved(removed, os);
      SweepPreserves(t, dir.nodes, head, wanted);
      PreflightMakesReady(t, os, head, wanted);
    }
  }

  /** An input or output error keeps the preflights from passing. Links are only tried and
      read when there are new ones. */
  predicate Faulted(os: Os, added: set<Entry>) {
    match os.preflight
    case NoFault => false
    case ProbeFails => AnyLink(added)
    case ObjectsUnreadable => AnyLink(added)
    case _ => true
  }

  /** Paths both snapshots have, with another entry. */
  function ModifiedPaths(head: set<Entry>, target: set<Entry>): set<Path> {
    set e | e in target && e !in head && e.path in Paths(head) :: e.path
  }

  lemma {:induction false} PathsCount(es: set<Entry>)
    requires CoexistSet(es)
    ensures |Paths(es)| == |es|
  {
    if es != {} {
      var e :| e in es;
      PathsCount(es - {e});
      assert Paths(es) == Paths(es - {e}) + {e.path};
    }
  }

  /** The three numbers reported count what was added, removed and modified. */
  lemma CountsMean(head: set<Entry>, target: set<Entry>)
    requires CoexistSet(head) && CoexistSet(target)
    ensures var updated := Paths(target - head) * Paths(head - target);
      && |target - head| - |updated| == |Paths(target) - Paths(head)|
      && |RemovedPaths(head, target)| == |Paths(head) - Paths(target)|
      && |updated| == |ModifiedPaths(head, target)|
  {
    var updated := Paths(target - head) * Paths(head - target);
    PathsCount(target - head);
    assert updated == ModifiedPaths(head, target);
    PathsDiffer(head, target);
    hide Paths, ModifiedPaths, RemovedPaths, CoexistSet;
  }

  lemma PathsDiffer(head: set<Entry>, target: set<Entry>)
    requires CoexistSet(head) && CoexistSet(target)
    ensures Paths(target - head) - Paths(head - target) == Paths(target) - Paths(head)
    ensures RemovedPaths(head, target) == Paths(head) - Paths(target)
  {}

  lemma UnchangedIsPreserved(t: Tree, head: set<Entry>)
    ensures Preserved(t, t, head)
  {}

  /** What a write step over the swept tree amounts to for the checkout as a whole. */
  lemma WritesFinish(t: Tree, cur: Tree, os: Os, head: set<Entry>, target: set<Entry>, ok: bool)
    requires WellFormed(t) && CoexistSet(head) && Preflight(t, os, head, target)
    requires exists done :: Writing(cur, Swept(t, head, target), os, target - head, done) && (ok ==> done == target - head)
    ensures WellFormed(cur) && Preserved(t, cur, head)
    ensures ok ==> cur == CheckedOut(t, os, head, target) && CoexistSet(target)
    ensures ok && AllLinkable(os, target - head) && Holds(t, os, head * target) ==> (Holds(cur, os, target) <==> NoEmptyLinks(os, target - head))
    ensures Obstructed(Swept(t, head, target), target - head, head) <==> Obstructed(t, target - head, head)
  {
    var swept, added := Swept(t, head, target), target - head;
    var done :| Writing(cur, swept, os, added, done) && (ok ==> done == added);
    PreflightMakesReady(t, os, head, target);
    forall p | p in RemovedPaths(head, target) ensures p in t && !t[p].Dir? { RemovedAreFiles(t, os, head, target, p); }
    SweepPreserves(t, swept, head, target);
    WritingPreserves(t, swept, cur, os, added, done, head);
    if ok {
      FinishedIsCheckedOut(t, cur, os, head, target);
      if AllLinkable(os, target - head) && Holds(t, os, head * target) { SharedEntriesStay(t, cur, os, head, target); }
    }
  }

  lemma SharedEntriesStay(t: Tree, cur: Tree, os: Os, head: set<Entry>, target: set<Entry>)
    requires WellFormed(t) && CoexistSet(head) && Preflight(t, os, head, target) && Holds(t, os, head * target)
    requires cur == CheckedOut(t, os, head, target) && AllLinkable(os, target - head)
    ensures Shows(cur, target) && (Holds(cur, os, target) <==> NoEmptyLinks(os, target - head))
  {
    NewEntriesShow(t, os, head, target);
    assert Holds(cur, os, head * target) by { OldEntriesStay(t, os, head, target); }
    HeldIsShown(cur, os, head * target);
    hide CheckedOut, Preflight, CoexistSet, WellFormed;
    assert forall e :: e in target ==> e in target - head || e in head * target;
  }

  lemma OldEntriesStay(t: Tree, os: Os, head: set<Entry>, target: set<Entry>)
    requires WellFormed(t) && CoexistSet(head) && Preflight(t, os, head, target) && Holds(t, os, head * target)
    ensures Holds(CheckedOut(t, os, head, target), os, head * target)
  {}

  lemma NewEntriesShow(t: Tree, os: Os, head: set<Entry>, target: set<Entry>)
    requires CoexistSet(target) && AllLinkable(os, target - head)
    ensures Shows(CheckedOut(t, os, head, target), target - head)
    ensures Holds(CheckedOut(t, os, head, target), os, target - head) <==> NoEmptyLinks(os, target - head)
  {
    NewEntriesPlaced(t, os, head, target);
    hide CheckedOut, CoexistSet;
    PlacedShow(CheckedOut(t, os, head, target), os, target - head);
  }

  lemma NewEntriesPlaced(t: Tree, os: Os, head: set<Entry>, target: set<Entry>)
    requires CoexistSet(target)
    ensures Places(CheckedOut(t, os, head, target), os, target - head)
  {
    var added, cur := target - head, CheckedOut(t, os, head, target);
    hide Swept, Placed, ParentDirs;
    forall e | e in added ensures e.path in cur && cur[e.path] == Placed(os, e) {
      assert e.path in Paths(added) && EntryAt(added, e.path) in added && EntryAt(added, e.path).path == e.path;
    }
  }

  lemma PlacedShow(t: Tree, os: Os, added: set<Entry>)
    requires Places(t, os, added) && AllLinkable(os, added)
    ensures Shows(t, added) && (Holds(t, os, added) <==> NoEmptyLinks(os, added))
  {}

  ghost predicate AllFine(os: Os, es: set<Entry>) { forall e :: e in es ==> Attempt(os, e).Fine? }

  lemma FineIsLinkable(os: Os, es: set<Entry>)
    ensures AllFine(os, es) ==> AllLinkable(os, es)
    ensures Quiet(os) ==> (AllFine(os, es) <==> AllLinkable(os, es))
    ensures Quiet(os) ==> !Faulted(os, es)
  {
    forall e | e in es ensures Attempt(os, e).Fine? <==> os.write(e.path).Fine? && Linkable(os, e) { AttemptFine(os, e); }
  }

  lemma NothingTried(start: Tree, os: Os, added: set<Entry>, head: set<Entry>)
    requires Ready(start, added, head)
    ensures Writing(start, start, os, added, {}) && AllFine(os, {}) && !Obstructed(start, {}, head)
  {}

  lemma OneMoreTried(start: Tree, os: Os, tried: set<Entry>, e: Entry, head: set<Entry>)
    ensures AllFine(os, tried + {e}) <==> AllFine(os, tried) && Attempt(os, e).Fine?
    ensures Obstructed(start, tried + {e}, head) <==> Obstructed(start, tried, head) || Obstructed(start, {e}, head)
  {}

  ghost predicate AllFiles(t: Tree, ps: set<Path>) { forall p :: p in ps ==> p in t && !t[p].Dir? }

  /** The loop invariant of the removal loop, and the part of it that survives a failure. */
  ghost predicate SweepingAny(cur: Tree, slot: Slot, t: Tree, gone: set<Path>) {
    WellFormed(t - gone) && Between(cur, t - gone, ParentsOf(gone), []) && SlotFits(slot, t - gone, ParentsOf(gone), [])
  }

  ghost predicate Sweeping(cur: Tree, slot: Slot, t: Tree, gone: set<Path>) {
    SweepingAny(cur, slot, t, gone) && Pending(cur, t - gone, ParentsOf(gone), [], KeepOf(slot))
  }

  lemma SweepIsAny(cur: Tree, slot: Slot, t: Tree, gone: set<Path>)
    requires Sweeping(cur, slot, t, gone)
    ensures SweepingAny(cur, slot, t, gone)
  {}

  lemma SweepStart(t: Tree)
    requires WellFormed(t)
    ensures Sweeping(t, [], t, {})
  {}

  lemma SweepStep(cur: Tree, slot: Slot, t: Tree, gone: set<Path>, p: Path, os: Os)
    requires Sweeping(cur, slot, t, gone) && WellFormed(t)
    requires p in t && !t[p].Dir? && p !in gone
    ensures p != [] && p in cur && RemoveOne(cur, p, os.unlinkFails) == if os.unlinkFails(p) then Outcome(cur, false) else Outcome(cur - {p}, true)
    ensures RemoveOne(t, p, os.unlinkFails).ok == !os.unlinkFails(p)
    ensures var r := AfterEnqueue(cur - {p}, slot, Parent(p), [], os.rmdirFails);
      && SweepingAny(r.tree, r.slot, t, gone + {p})
      && (r.ok ==> Sweeping(r.tree, r.slot, t, gone + {p}))
      && (Empties(os) ==> r.ok)
  {
    assert p in t - gone && [] < p;
    EnqueueStep(cur, slot, t - gone, ParentsOf(gone), [], p, os.rmdirFails);
    assert (t - gone) - {p} == t - (gone + {p});
    assert ParentsOf(gone) + {Parent(p)} == ParentsOf(gone + {p});
  }

  lemma SweepEnd(cur: Tree, slot: Slot, t: Tree, gone: set<Path>, removed: set<Path>, os: Os)
    requires SweepingAny(cur, slot, t, gone) && gone <= removed
    ensures var r := AfterProcess(cur, slot, os.rmdirFails);
      && WellFormed(r.tree) && KeepsUnswept(t, r.tree, removed)
      && (Sweeping(cur, slot, t, gone) && gone == removed ==>
            (r.ok ==> r.tree == Pruned(t - removed, ParentsOf(removed), [])) && (Empties(os) ==> r.ok))
  {
    DropKeeps(cur, slot, t, gone, removed, os.rmdirFails);
    if Sweeping(cur, slot, t, gone) && gone == removed {
      if slot != [] { RemoveEmptyDirsLemma(cur, t - gone, ParentsOf(gone), [], slot[0].0, [], os.rmdirFails); }
      var r := AfterProcess(cur, slot, os.rmdirFails);
      if r.ok { SettledIsPruned(r.tree, t - gone, ParentsOf(gone), []); }
    }
  }

  /** Processing what the queue still holds only ever takes prunable directories. */
  lemma DropKeeps(cur: Tree, slot: Slot, t: Tree, gone: set<Path>, removed: set<Path>, broken: Faults)
    requires WellFormed(t - gone) && Between(cur, t - gone, ParentsOf(gone), []) && gone <= removed
    requires SlotFits(slot, t - gone, ParentsOf(gone), [])
    ensures WellFormed(AfterProcess(cur, slot, broken).tree)
    ensures KeepsUnswept(t, AfterProcess(cur, slot, broken).tree, removed)
  {
    if slot == [] {
      PartlySwept(t, cur, gone, removed);
    } else {
      RemoveEmptyDirsBetween(cur, t - gone, ParentsOf(gone), [], slot[0].0, broken);
      PartlySwept(t, AfterProcess(cur, slot, broken).tree, gone, removed);
    }
  }
}
