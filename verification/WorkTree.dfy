/** The checkout directory as a value: every node below the root, by component path. */
module WorkTree {
  import opened ByteStrings
  import opened PathPolicy

  datatype Node = Dir | File(bytes: Bytes, mode: nat) | Link(target: Bytes)

  /** The root itself, the empty path, is always a directory and is not a key. */
  type Tree = map<Path, Node>

  function Parent(p: Path): Path
    requires p != []
  {
    p[..|p| - 1]
  }

  predicate IsDirAt(t: Tree, p: Path) { p == [] || (p in t && t[p].Dir?) }

  /** Nodes sit in directories, and no link is without a target. */
  ghost predicate WellFormed(t: Tree) {
    && [] !in t && (forall p {:trigger Parent(p)} :: p in t && p != [] ==> IsDirAt(t, Parent(p)))
    && (forall p :: p in t && t[p].Link? ==> t[p].target != [])
  }

  predicate HasChild(t: Tree, p: Path) { exists q :: q in t && p < q }

  /** Something other than a directory sits at a proper ancestor of the path. */
  predicate Blocked(t: Tree, p: Path) { exists a :: a in t && a < p && !t[a].Dir? }

  lemma {:induction false} AncestorsAreDirs(t: Tree, a: Path, p: Path)
    requires WellFormed(t) && p in t && a < p
    ensures IsDirAt(t, a)
    decreases |p|
  {
    if a != Parent(p) {
      assert a < Parent(p);
      AncestorsAreDirs(t, a, Parent(p));
    }
  }

  lemma PresentNotBlocked(t: Tree, p: Path)
    requires WellFormed(t) && p in t
    ensures !Blocked(t, p)
  {
    forall a | a in t && a < p ensures t[a].Dir? { AncestorsAreDirs(t, a, p); }
  }

  /** Removing a node with nothing below it keeps the tree well formed. */
  lemma RemoveLeafWellFormed(t: Tree, p: Path)
    requires WellFormed(t) && !HasChild(t, p)
    ensures WellFormed(t - {p})
  {}
}
