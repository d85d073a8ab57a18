/** preflight_path_policy: one sort and one pass over neighbours decides whether a
    set of target paths can exist side by side in one file tree. */
module PathPolicy {
  import opened ByteStrings
  import opened Orders

  type Component = Bytes
  /** A path as the sequence of its components; on Unix this is also its target key. */
  type Path = seq<Component>

  datatype PolicyError =
    | DuplicateLogicalPath(path: Path)
    | TargetPathCollision(left: Path, right: Path)
    | PathPrefixConflict(left: Path, right: Path)
  datatype Verdict = Accepted | Rejected(error: PolicyError)

  predicate ByteLeq(x: Byte, y: Byte) { x <= y }
  predicate ComponentLeq(x: Component, y: Component) { Lex(ByteLeq, x, y) }
  predicate PathLeq(x: Path, y: Path) { Lex(ComponentLeq, x, y) }

  lemma PathLeqTotalOrder()
    ensures TotalOrder(ComponentLeq) && TotalOrder(PathLeq) && TotalPreorder(PathLeq)
  {
    LexIsTotalOrder(ByteLeq);
    var byBytes := (a: Component, b: Component) => Lex(ByteLeq, a, b);
    forall x, y, z
      ensures ComponentLeq(x, y) == byBytes(x, y) && ComponentLeq(y, z) == byBytes(y, z)
           && ComponentLeq(y, x) == byBytes(y, x) && ComponentLeq(x, z) == byBytes(x, z) {}
    assert TotalOrder(ComponentLeq);
    LexIsTotalOrder(ComponentLeq);
    var byParts := (a: Path, b: Path) => Lex(ComponentLeq, a, b);
    forall x, y, z
      ensures PathLeq(x, y) == byParts(x, y) && PathLeq(y, z) == byParts(y, z)
           && PathLeq(y, x) == byParts(y, x) && PathLeq(x, z) == byParts(x, z) {}
  }

  predicate IsComponentPrefix(prefix: Path, path: Path) { prefix < path }

  /** What the policy is for: no path twice, and no path that would have to be both a
      file and a directory. */
  ghost predicate Coexist(paths: seq<Path>) {
    && Distinct(paths)
    && forall i, j :: 0 <= i < |paths| && 0 <= j < |paths| ==> !(paths[i] < paths[j])
  }

  ghost predicate NeighboursFine(s: seq<Path>) {
    forall i :: 0 <= i < |s| - 1 ==> s[i] != s[i+1] && !(s[i] < s[i+1])
  }

  lemma NextExtends(s: seq<Path>, i: nat, j: nat)
    requires Sorted(PathLeq, s) && i < j < |s| && s[i] <= s[j]
    ensures s[i] <= s[i+1]
  {
    PathLeqTotalOrder();
    if i + 1 < j { BetweenExtends(ComponentLeq, s[i], s[i+1], s[j]); }
  }

  lemma SortedPrefixEqual(s: seq<Path>, i: nat, j: nat)
    requires Sorted(PathLeq, s) && i < j < |s| && s[j] <= s[i]
    ensures s[j] == s[i]
  {
    PathLeqTotalOrder();
    PrefixIsBelow(s[j], s[i]);
  }

  /** Neighbours suffice: anything sorted between a path and its extension extends it. */
  lemma NeighboursDecide(s: seq<Path>)
    requires Sorted(PathLeq, s) && NeighboursFine(s)
    ensures Coexist(s)
  {
    forall i: nat, j: nat | i < j < |s| ensures !(s[i] <= s[j]) {
      if s[i] <= s[j] { NextExtends(s, i, j); assert false; }
    }
    forall i: nat, j: nat | i < |s| && j < |s| ensures !(s[i] < s[j]) {
      if j < i && s[i] <= s[j] { SortedPrefixEqual(s, j, i); }
    }
  }

  lemma {:induction false} PrefixIsBelow(a: Path, b: Path)
    requires a <= b
    ensures PathLeq(a, b)
  {
    if a != [] { PrefixIsBelow(a[1..], b[1..]); }
  }

  /** Whether paths coexist is a property of the collection, not of its order. */
  lemma CoexistReordered(s: seq<Path>, t: seq<Path>)
    requires multiset(s) == multiset(t) && Coexist(s)
    ensures Coexist(t)
  {
    SameMultisetDistinct(s, t);
    forall i, j | 0 <= i < |t| && 0 <= j < |t| ensures !(t[i] < t[j]) {
      assert t[i] in multiset(t) && t[j] in multiset(t);
      assert t[i] in s && t[j] in s;
    }
  }

  lemma Twice(s: seq<Path>, i: nat, j: nat)
    requires i < j < |s| && s[i] == s[j]
    ensures multiset(s)[s[i]] >= 2
  {
    assert s == s[..i] + [s[i]] + s[i+1..j] + [s[j]] + s[j+1..];
  }

  function SortedKeys(keys: seq<Path>): (sorted: seq<Path>)
    ensures Sorted(PathLeq, sorted) && multiset(sorted) == multiset(keys) && |sorted| == |keys|
    ensures Coexist(sorted) <==> Coexist(keys)
  {
    PathLeqTotalOrder();
    SortFacts(PathLeq, keys);
    assert Coexist(keys) ==> Coexist(Sort(PathLeq, keys)) by { if Coexist(keys) { CoexistReordered(keys, Sort(PathLeq, keys)); } }
    assert Coexist(Sort(PathLeq, keys)) ==> Coexist(keys) by {
      if Coexist(Sort(PathLeq, keys)) { CoexistReordered(Sort(PathLeq, keys), keys); }
    }
    Sort(PathLeq, keys)
  }

  ghost predicate Justified(paths: seq<Path>, error: PolicyError) {
    match error
    case DuplicateLogicalPath(p) => multiset(paths)[p] >= 2
    case TargetPathCollision(l, r) => l == r && multiset(paths)[l] >= 2
    case PathPrefixConflict(l, r) => l in paths && r in paths && l < r
  }

  lemma JustifiedMeansConflict(paths: seq<Path>, error: PolicyError)
    requires Justified(paths, error)
    ensures !Coexist(paths)
  {
    match error
    case DuplicateLogicalPath(p) => if Distinct(paths) { DistinctMultiset(paths, p); }
    case TargetPathCollision(l, r) => if Distinct(paths) { DistinctMultiset(paths, l); }
    case PathPrefixConflict(l, r) =>
  }

  /** The first pass, over a set of exact paths. */
  method FindDuplicate(paths: seq<Path>) returns (verdict: Verdict)
    ensures verdict.Accepted? <==> Distinct(paths)
    ensures verdict.Rejected? ==> Justified(paths, verdict.error)
  {
    var exact: set<Path> := {};
    for i := 0 to |paths|
      invariant exact == (set p | p in paths[..i]) && Distinct(paths[..i])
    {
      if paths[i] in exact {
        ghost var k :| 0 <= k < i && paths[k] == paths[i];
        Twice(paths, k, i);
        return Rejected(DuplicateLogicalPath(paths[i]));
      }
      exact := exact + {paths[i]};
      assert paths[..i+1] == paths[..i] + [paths[i]];
    }
    assert paths[..|paths|] == paths;
    return Accepted;
  }

  /** The second pass, over adjacent pairs of sorted keys. */
  method CheckNeighbours(sorted: seq<Path>) returns (verdict: Verdict)
    ensures verdict.Accepted? ==> NeighboursFine(sorted)
    ensures verdict.Rejected? ==> Justified(sorted, verdict.error)
  {
    var i := 0;
    while i + 1 < |sorted|
      invariant 0 <= i && (i == 0 || i < |sorted|)
      invariant forall k :: 0 <= k < i ==> sorted[k] != sorted[k+1] && !(sorted[k] < sorted[k+1])
    {
      var left, right := sorted[i], sorted[i+1];
      if left == right {
        Twice(sorted, i, i + 1);
        return Rejected(TargetPathCollision(left, right));
      }
      if IsComponentPrefix(left, right) {
        return Rejected(PathPrefixConflict(left, right));
      }
      i := i + 1;
    }
    return Accepted;
  }

  lemma JustifiedReordered(s: seq<Path>, t: seq<Path>, error: PolicyError)
    requires multiset(s) == multiset(t) && Justified(s, error)
    ensures Justified(t, error)
  {
    assert forall p :: p in s <==> p in multiset(s);
    assert forall p :: p in t <==> p in multiset(t);
  }

  /** preflight_path_policy on Unix. Accepts exactly the collections that can coexist,
      and a rejection names a genuine offender. */
  method PreflightPathPolicy(paths: seq<Path>) returns (verdict: Verdict)
    ensures verdict.Accepted? <==> Coexist(paths)
    ensures verdict.Rejected? ==> Justified(paths, verdict.error)
  {
    verdict := FindDuplicate(paths);
    if verdict.Accepted? {
      var sorted := SortedKeys(paths);
      verdict := CheckNeighbours(sorted);
      if verdict.Accepted? {
        NeighboursDecide(sorted);
      } else {
        JustifiedReordered(sorted, paths, verdict.error);
      }
    }
    if verdict.Rejected? { JustifiedMeansConflict(paths, verdict.error); }
  }
}
