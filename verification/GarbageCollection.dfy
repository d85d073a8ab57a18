/** Garbage collection of loose snapshots and loose objects. */
module GarbageCollection {
  import opened ByteStrings
  import opened Faults
  import opened Orders
  import opened Snapshots

  type Hash = Checksum
  type PackName = string

  const LOOSE_PREFIX := "loose/"

  predicate IsLoose(p: PackName) { LOOSE_PREFIX <= p }

  /** An index as garbage collection sees it: its snapshots, and its object pool. */
  datatype Index = Index(snapshots: seq<(string, set<Key>)>, objects: set<Checksum>)

  datatype SnapshotId = SnapshotId(pack: PackName, tag: string)

  ghost predicate IndexOk(p: PackName, index: Index) {
    && (forall i, j :: 0 <= i < j < |index.snapshots| ==> index.snapshots[i].0 != index.snapshots[j].0)
    && (forall i, k :: 0 <= i < |index.snapshots| && k in index.snapshots[i].1 ==> k.checksum in index.objects)
    && (IsLoose(p) ==> |index.snapshots| == 1 && p == LOOSE_PREFIX + index.snapshots[0].0)
  }

  /** Some snapshot of this index has this identity. */
  ghost predicate Has(index: Index, identity: set<Key> -> Hash, h: Hash) {
    exists i :: 0 <= i < |index.snapshots| && identity(index.snapshots[i].1) == h
  }

  /** The snapshot is packed: some pack that is not loose has its identity. */
  ghost predicate Packed(packs: map<PackName, Index>, identity: set<Key> -> Hash, h: Hash) {
    exists q :: q in packs && !IsLoose(q) && Has(packs[q], identity, h)
  }

  /** A loose pack whose one snapshot is packed. */
  ghost predicate Redundant(packs: map<PackName, Index>, identity: set<Key> -> Hash, p: PackName) {
    p in packs && IsLoose(p) && |packs[p].snapshots| == 1 && Packed(packs, identity, identity(packs[p].snapshots[0].1))
  }

  ghost function Referenced(packs: map<PackName, Index>, roots: set<PackName>): set<Checksum> {
    set p, c | p in roots && p in packs && c in packs[p].objects :: c
  }

  // ---- Grouping by identity ----------------------------------------------------------------

  type Groups = map<Hash, seq<SnapshotId>>
  type Member = (Hash, SnapshotId)

  /** The first `upto` snapshots of a pack, each with its identity. */
  ghost function MembersUpTo(p: PackName, index: Index, identity: set<Key> -> Hash, upto: nat): set<Member>
    requires upto <= |index.snapshots|
  {
    set i | 0 <= i < upto :: (identity(index.snapshots[i].1), SnapshotId(p, index.snapshots[i].0))
  }

  ghost function Members(packs: map<PackName, Index>, identity: set<Key> -> Hash, names: seq<PackName>): set<Member> {
    if names == [] then {} else
      var p := names[|names|-1];
      Members(packs, identity, names[..|names|-1])
        + if p in packs then MembersUpTo(p, packs[p], identity, |packs[p].snapshots|) else {}
  }

  /** Every member is in the group of its identity, once, and nothing else is. */
  ghost predicate GroupsAre(groups: Groups, members: set<Member>) {
    && (forall h :: h in groups ==> Distinct(groups[h]))
    && (forall h, id :: (h, id) in members <==> h in groups && id in groups[h])
  }

  function Grouped(groups: Groups, h: Hash, id: SnapshotId): Groups {
    groups[h := (if h in groups then groups[h] else []) + [id]]
  }

  lemma GroupedIs(groups: Groups, members: set<Member>, h: Hash, id: SnapshotId)
    requires GroupsAre(groups, members) && (h, id) !in members
    ensures GroupsAre(Grouped(groups, h, id), members + {(h, id)})
  {}

  lemma {:induction false} MembersFrom(packs: map<PackName, Index>, identity: set<Key> -> Hash, names: seq<PackName>, m: Member)
    ensures m in Members(packs, identity, names) <==>
      m.1.pack in names && m.1.pack in packs
      && exists i :: 0 <= i < |packs[m.1.pack].snapshots| && m == (identity(packs[m.1.pack].snapshots[i].1), SnapshotId(m.1.pack, packs[m.1.pack].snapshots[i].0))
  {
    if names != [] { MembersFrom(packs, identity, names[..|names|-1], m); }
  }

  class DataDir {
    var packs: map<PackName, Index>
    var looseObjects: set<Checksum>
    /** Deletions so far; deletion n fails if `fails(n)` says so, and then changes nothing. */
    var step: nat
    const fails: nat -> bool
    const identity: set<Key> -> Hash

    ghost predicate Valid() reads this { forall p :: p in packs ==> IndexOk(p, packs[p]) }

    constructor (packs: map<PackName, Index>, looseObjects: set<Checksum>, fails: nat -> bool, identity: set<Key> -> Hash)
      ensures this.packs == packs && this.looseObjects == looseObjects && this.fails == fails && this.identity == identity
    {
      this.packs, this.looseObjects, this.step, this.fails, this.identity := packs, looseObjects, 0, fails, identity;
    }

    /** find_duplicate_snapshots. */
    method FindDuplicateSnapshots(names: seq<PackName>) returns (groups: Groups)
      requires Valid() && Distinct(names) && forall n :: 0 <= n < |names| ==> names[n] in packs
      ensures GroupsAre(groups, Members(packs, identity, names))
    {
      groups := map[];
      for n := 0 to |names|
        invariant GroupsAre(groups, Members(packs, identity, names[..n]))
      {
        ghost var before := Members(packs, identity, names[..n]);
        assert names[..n+1][..n] == names[..n];
        groups := GroupPack(names[n], groups, before, names[..n]);
      }
      assert names[..|names|] == names;
    }

    method GroupPack(p: PackName, given: Groups, ghost before: set<Member>, ghost done: seq<PackName>) returns (groups: Groups)
      requires Valid() && p in packs && p !in done && before == Members(packs, identity, done) && GroupsAre(given, before)
      ensures GroupsAre(groups, before + MembersUpTo(p, packs[p], identity, |packs[p].snapshots|))
    {
      hide GroupsAre, Members, Grouped;
      var snapshots := packs[p].snapshots;
      assert IndexOk(p, packs[p]);
      groups := given;
      assert before + MembersUpTo(p, packs[p], identity, 0) == before;
      for t := 0 to |snapshots|
        invariant GroupsAre(groups, before + MembersUpTo(p, packs[p], identity, t))
      {
        var (tag, keys) := snapshots[t];
        var m := (identity(keys), SnapshotId(p, tag));
        MembersFrom(packs, identity, done, m);
        GroupedIs(groups, before + MembersUpTo(p, packs[p], identity, t), m.0, m.1);
        assert MembersUpTo(p, packs[p], identity, t + 1) == MembersUpTo(p, packs[p], identity, t) + {m};
        assert before + MembersUpTo(p, packs[p], identity, t) + {m} == before + MembersUpTo(p, packs[p], identity, t + 1);
        groups := Grouped(groups, m.0, m.1);
      }
    }

    /** find_redundant_loose_packs: the loose members of every group that has one that is
        not loose. */
    method FindRedundantLoosePacks() returns (redundant: seq<PackName>)
      requires Valid()
      ensures Distinct(redundant) && forall p :: p in redundant <==> Redundant(packs, identity, p)
    {
      var names := Iterate(packs.Keys);
      NamesInPacks(names, packs);
      var groups := FindDuplicateSnapshots(names);
      ghost var members := Members(packs, identity, names);
      var hashes := Iterate(groups.Keys);
      hide GroupsAre, Members, Redundant, Elements, IndexOk, Chosen;
      NothingChosen(members);
      redundant := [];
      for n := 0 to |hashes|
        invariant Distinct(redundant) && forall p :: p in redundant <==> Chosen(members, hashes[..n], p)
      {
        assert hashes[n] in Elements(hashes) by { InElements(hashes, n); }
        var group := groups[hashes[n]];
        ChosenNext(groups, members, hashes, n);
        if |group| > 1 && AnyNonLoose(group) {
          redundant := TakeLoose(group, hashes, n, redundant, groups, members, names);
        }
      }
      assert hashes[..|hashes|] == hashes;
      ChosenIsRedundant(packs, identity, names, groups, hashes);
    }

    method TakeLoose(group: seq<SnapshotId>, ghost hashes: seq<Hash>, ghost n: nat, before: seq<PackName>, ghost groups: Groups,
                     ghost members: set<Member>, ghost names: seq<PackName>) returns (redundant: seq<PackName>)
      requires Valid() && members == Members(packs, identity, names) && GroupsAre(groups, members)
      requires n < |hashes| && Distinct(hashes) && hashes[n] in groups && group == groups[hashes[n]]
      requires Distinct(before) && forall p :: p in before <==> Chosen(members, hashes[..n], p)
      ensures Distinct(redundant)
      ensures forall p :: p in redundant <==> Chosen(members, hashes[..n], p) || LooseAmong(group, |group|, p)
    {
      hide Members, IndexOk, Chosen;
      redundant := before;
      for k := 0 to |group|
        invariant Distinct(redundant)
        invariant forall p :: p in redundant <==> Chosen(members, hashes[..n], p) || LooseAmong(group, k, p)
      {
        var id := group[k];
        if IsLoose(id.pack) {
          NotYetTaken(packs, identity, names, groups, hashes, n, k);
          assert (hashes[n], id) in members;
          OneSnapshot(packs, identity, names, (hashes[n], id));
          assert id.pack == LOOSE_PREFIX + id.tag;
          redundant := redundant + [id.pack];
        }
      }
    }

    /** find_unreferenced_objects: what is on disk, less what the roots' pools list. */
    method FindUnreferencedObjects(roots: seq<PackName>) returns (unreferenced: set<Checksum>)
      requires forall n :: 0 <= n < |roots| ==> roots[n] in packs
      ensures unreferenced == looseObjects - Referenced(packs, Elements(roots))
    {
      unreferenced := looseObjects;
      for n := 0 to |roots|
        invariant unreferenced == looseObjects - Referenced(packs, Elements(roots[..n]))
      {
        ReferencedNext(packs, roots, n);
        unreferenced := unreferenced - packs[roots[n]].objects;
      }
      assert roots[..|roots|] == roots;
    }

    method LoosePacks() returns (loose: seq<PackName>)
      ensures Distinct(loose) && forall p :: p in loose <==> p in packs && IsLoose(p)
    {
      var names := Iterate(packs.Keys);
      loose := [];
      for n := 0 to |names|
        invariant Distinct(loose) && forall p :: p in loose <==> p in names[..n] && IsLoose(p)
      {
        assert names[..n+1] == names[..n] + [names[n]] && names[n] !in names[..n];
        if IsLoose(names[n]) { loose := loose + [names[n]]; }
      }
      assert names[..|names|] == names;
      forall p ensures p in names <==> p in packs { assert p in Elements(names) <==> p in packs.Keys; }
    }

    method DeletePack(p: PackName) returns (ok: bool)
      requires p in packs
      modifies this`packs, this`step
      ensures step == old(step) + 1 && ok == !fails(step)
      ensures packs == if ok then old(packs) - {p} else old(packs)
    {
      step := step + 1;
      ok := !fails(step);
      if ok { packs := packs - {p}; }
    }

    method DeleteObject(c: Checksum) returns (ok: bool)
      modifies this`looseObjects, this`step
      ensures step == old(step) + 1 && ok == !fails(step)
      ensures looseObjects == if ok then old(looseObjects) - {c} else old(looseObjects)
    {
      step := step + 1;
      ok := !fails(step);
      if ok { looseObjects := looseObjects - {c}; }
    }

    /** The first half of gc: redundant loose packs are taken off the roots and deleted. */
    method CollectSnapshots(dryRun: bool, loose: seq<PackName>) returns (ok: bool, remainingRoots: seq<PackName>)
      requires Valid() && Distinct(loose) && forall p :: p in loose <==> p in packs && IsLoose(p)
      modifies this`packs, this`step
      ensures step >= old(step) && (dryRun ==> step == old(step)) && (ok <==> !FailedWithin(fails, old(step), step))
      ensures !ok ==> fails(step) && !FailedWithin(fails, old(step), step - 1)
      ensures Valid() && Shrunk(old(packs), packs, identity) && (dryRun ==> packs == old(packs))
      ensures ok ==> forall p :: p in remainingRoots <==> p in old(packs) && IsLoose(p) && !Redundant(old(packs), identity, p)
      ensures ok && !dryRun ==> forall p :: p in old(packs) ==> (p in packs <==> !Redundant(old(packs), identity, p))
    {
      ghost var before := packs;
      remainingRoots := loose;
      var redundant := FindRedundantLoosePacks();
      hide Redundant, IndexOk, FailedWithin, Shrunk, Elements;
      NoneYet(packs, fails, step);
      for n := 0 to |redundant|
        invariant Distinct(remainingRoots) && forall p :: p in remainingRoots <==> p in before && IsLoose(p) && p !in redundant[..n]
        invariant packs == if dryRun then before else before - Elements(redundant[..n])
        invariant step == (if dryRun then old(step) else old(step) + n) && !FailedWithin(fails, old(step), step)
      {
        var loosePack := redundant[n];
        RedundantNext(before, identity, redundant, n);
        remainingRoots := Without(remainingRoots, loosePack);
        if !dryRun {
          ok := DeletePack(loosePack);
          OneDeletion(fails, old(step), step);
          if !ok {
            ShrunkBy(before, identity, redundant, n);
            return;
          }
        }
      }
      assert redundant[..|redundant|] == redundant;
      ShrunkBy(before, identity, redundant, |redundant|);
      NothingShrunk(before, identity);
      ok := true;
    }

    /** The second half: objects the roots do not need are deleted. */
    method CollectObjects(dryRun: bool, roots: seq<PackName>) returns (ok: bool)
      requires forall n :: 0 <= n < |roots| ==> roots[n] in packs
      modifies this`looseObjects, this`step
      ensures step >= old(step) && (dryRun ==> step == old(step)) && (ok <==> !FailedWithin(fails, old(step), step))
      ensures !ok ==> fails(step) && !FailedWithin(fails, old(step), step - 1)
      ensures looseObjects <= old(looseObjects) && old(looseObjects) * Referenced(packs, Elements(roots)) <= looseObjects
      ensures dryRun ==> looseObjects == old(looseObjects)
      ensures ok && !dryRun ==> looseObjects == old(looseObjects) * Referenced(packs, Elements(roots))
    {
      ghost var before, referenced := looseObjects, Referenced(packs, Elements(roots));
      var unreferenced := FindUnreferencedObjects(roots);
      var order := Iterate(unreferenced);
      hide Referenced;
      for n := 0 to |order|
        invariant looseObjects == if dryRun then before else before - Elements(order[..n])
        invariant step == (if dryRun then old(step) else old(step) + n) && !FailedWithin(fails, old(step), step)
      {
        assert order[..n+1] == order[..n] + [order[n]] && order[n] in Elements(order);
        assert Elements(order[..n]) <= Elements(order);
        if !dryRun {
          ok := DeleteObject(order[n]);
          if !ok { return; }
        }
      }
      assert order[..|order|] == order;
      ok := true;
    }

    /** gc: snapshots first, then the objects the remaining loose packs do not need. It
        stops at the first deletion that fails and reports it, and nothing else; what is
        said about losing nothing holds then as well. */
    method Run(dryRun: bool, snapshots: bool, objects: bool) returns (ok: bool)
      requires Valid()
      modifies this`packs, this`looseObjects, this`step
      ensures step >= old(step) && (dryRun ==> step == old(step)) && (ok <==> !FailedWithin(fails, old(step), step))
      ensures !ok ==> fails(step) && !FailedWithin(fails, old(step), step - 1)
      ensures Valid()
      ensures LosesNothing(old(packs), packs, identity, old(looseObjects), looseObjects)
      ensures dryRun || !snapshots ==> packs == old(packs)
      ensures dryRun || !objects ==> looseObjects == old(looseObjects)
      ensures ok && !dryRun && snapshots ==> forall p :: p in old(packs) ==> (p in packs <==> !Redundant(old(packs), identity, p))
      ensures ok && !dryRun && objects ==> looseObjects == old(looseObjects) * Referenced(packs, LooseOnes(packs))
      ensures forall tag :: TagKept(old(packs), identity, tag) ==> Tagged(packs, tag)
      ensures ok && !dryRun && snapshots ==> forall tag :: Tagged(packs, tag) <==> TagKept(old(packs), identity, tag)
    {
      var remainingRoots := LoosePacks();
      NothingShrunk(packs, identity);
      if snapshots {
        ok, remainingRoots := CollectSnapshots(dryRun, remainingRoots);
        LostNothing(old(packs), packs, identity, looseObjects, looseObjects, {});
        if !ok { TagsKept(old(packs), packs, identity); return; }
      }
      ghost var mid := step;
      TagsKept(old(packs), packs, identity);
      assert forall n :: 0 <= n < |remainingRoots| ==> remainingRoots[n] in remainingRoots;
      if !dryRun || !snapshots { RootsCover(packs, remainingRoots); }
      ghost var kept := Referenced(packs, Elements(remainingRoots));
      hide Redundant, IndexOk, Referenced, LosesNothing, Shrunk, LooseOnes, Tagged, TagKept;
      ok := true;
      if objects { ok := CollectObjects(dryRun, remainingRoots); }
      if ok { FineThen(fails, old(step), mid, step); } else { FailedLater(fails, old(step), mid, step); }
      LostNothing(old(packs), packs, identity, old(looseObjects), looseObjects, kept);
    }
  }

  predicate AnyNonLoose(group: seq<SnapshotId>) { exists k :: 0 <= k < |group| && !IsLoose(group[k].pack) }

  ghost predicate LooseAmong(group: seq<SnapshotId>, upto: nat, p: PackName)
    requires upto <= |group|
  {
    IsLoose(p) && exists k :: 0 <= k < upto && group[k].pack == p
  }

  ghost predicate NonLooseWith(members: set<Member>, h: Hash) { exists o :: o in members && o.0 == h && !IsLoose(o.1.pack) }

  /** A loose pack with a member in one of these groups, which has a member that is not loose. */
  ghost predicate Chosen(members: set<Member>, hashes: seq<Hash>, p: PackName) {
    IsLoose(p) && exists m :: m in members && m.1.pack == p && m.0 in hashes && NonLooseWith(members, m.0)
  }

  lemma NothingChosen(members: set<Member>)
    ensures forall p :: !Chosen(members, [], p)
  {}

  lemma InElements<T>(s: seq<T>, n: nat)
    requires n < |s|
    ensures s[n] in Elements(s)
  {}

  lemma NamesInPacks(names: seq<PackName>, packs: map<PackName, Index>)
    requires Elements(names) == packs.Keys
    ensures forall n :: 0 <= n < |names| ==> names[n] in packs
  {}

  /** One more group adds its loose packs, if it has a member that is not loose. */
  lemma ChosenNext(groups: Groups, members: set<Member>, hashes: seq<Hash>, n: nat)
    requires GroupsAre(groups, members) && n < |hashes| && hashes[n] in groups
    ensures var group := groups[hashes[n]];
      forall p :: Chosen(members, hashes[..n+1], p) <==>
        Chosen(members, hashes[..n], p) || (|group| > 1 && AnyNonLoose(group) && LooseAmong(group, |group|, p))
  {
    var h, group := hashes[n], groups[hashes[n]];
    assert NonLooseWith(members, h) <==> AnyNonLoose(group) by { NonLooseGroup(groups, members, h); }
    forall p ensures Chosen(members, hashes[..n+1], p) <==>
      Chosen(members, hashes[..n], p) || (|group| > 1 && AnyNonLoose(group) && LooseAmong(group, |group|, p))
    {
      if Chosen(members, hashes[..n+1], p) && !Chosen(members, hashes[..n], p) {
        var m :| m in members && m.1.pack == p && m.0 in hashes[..n+1] && NonLooseWith(members, m.0);
        assert m.0 == h && (h, m.1) in members;
        var k :| 0 <= k < |group| && group[k] == m.1;
        var o :| 0 <= o < |group| && !IsLoose(group[o].pack);
        assert k != o;
      }
      if |group| > 1 && AnyNonLoose(group) && LooseAmong(group, |group|, p) {
        var k :| 0 <= k < |group| && group[k].pack == p;
        assert group[k] in group && (h, group[k]) in members;
        assert h in hashes[..n+1] by { assert hashes[..n+1][n] == h; }
      }
      if Chosen(members, hashes[..n], p) {
        var m :| m in members && m.1.pack == p && m.0 in hashes[..n] && NonLooseWith(members, m.0);
        assert hashes[..n+1] == hashes[..n] + [h];
      }
    }
  }

  lemma NonLooseGroup(groups: Groups, members: set<Member>, h: Hash)
    requires GroupsAre(groups, members) && h in groups
    ensures NonLooseWith(members, h) <==> AnyNonLoose(groups[h])
  {
    var group := groups[h];
    if NonLooseWith(members, h) {
      var o :| o in members && o.0 == h && !IsLoose(o.1.pack);
      assert (h, o.1) in members;
      var k :| 0 <= k < |group| && group[k] == o.1;
    }
    if AnyNonLoose(group) {
      var k :| 0 <= k < |group| && !IsLoose(group[k].pack);
      assert group[k] in group && (h, group[k]) in members;
    }
  }

  /** A loose pack has one member, named after its tag. */
  lemma {:induction false} OneSnapshot(packs: map<PackName, Index>, identity: set<Key> -> Hash, names: seq<PackName>, m: Member)
    requires forall p :: p in packs ==> IndexOk(p, packs[p])
    requires m in Members(packs, identity, names) && IsLoose(m.1.pack)
    ensures m.1.pack in packs && |packs[m.1.pack].snapshots| == 1 && m.0 == identity(packs[m.1.pack].snapshots[0].1)
    ensures m.1.tag == packs[m.1.pack].snapshots[0].0 && m.1.pack == LOOSE_PREFIX + m.1.tag
  {
    MembersFrom(packs, identity, names, m);
    assert IndexOk(m.1.pack, packs[m.1.pack]);
  }

  lemma NotYetTaken(packs: map<PackName, Index>, identity: set<Key> -> Hash, names: seq<PackName>, groups: Groups, hashes: seq<Hash>, n: nat, k: nat)
    requires forall p :: p in packs ==> IndexOk(p, packs[p])
    requires GroupsAre(groups, Members(packs, identity, names)) && Distinct(hashes) && n < |hashes| && hashes[n] in groups
    requires k < |groups[hashes[n]]| && IsLoose(groups[hashes[n]][k].pack)
    ensures !Chosen(Members(packs, identity, names), hashes[..n], groups[hashes[n]][k].pack)
    ensures !LooseAmong(groups[hashes[n]], k, groups[hashes[n]][k].pack)
    ensures (hashes[n], groups[hashes[n]][k]) in Members(packs, identity, names)
  {
    hide Members, IndexOk;
    var members, h, group := Members(packs, identity, names), hashes[n], groups[hashes[n]];
    var p := group[k].pack;
    assert group[k] in group && (h, group[k]) in members;
    OneSnapshot(packs, identity, names, (h, group[k]));
    forall m | m in members && m.1.pack == p ensures m == (h, group[k]) { OneSnapshot(packs, identity, names, m); }
    forall j | 0 <= j < k ensures group[j].pack != p {
      assert group[j] in group && (h, group[j]) in members && group[j] != group[k];
    }
  }

  lemma ChosenIsRedundant(packs: map<PackName, Index>, identity: set<Key> -> Hash, names: seq<PackName>, groups: Groups, hashes: seq<Hash>)
    requires forall p :: p in packs ==> IndexOk(p, packs[p])
    requires Elements(names) == packs.Keys && Elements(hashes) == groups.Keys && GroupsAre(groups, Members(packs, identity, names))
    ensures forall p :: Chosen(Members(packs, identity, names), hashes, p) <==> Redundant(packs, identity, p)
  {
    hide IndexOk, Members;
    var members := Members(packs, identity, names);
    forall p ensures Chosen(members, hashes, p) <==> Redundant(packs, identity, p) {
      if Chosen(members, hashes, p) {
        var m :| m in members && m.1.pack == p && m.0 in hashes && NonLooseWith(members, m.0);
        OneSnapshot(packs, identity, names, m);
        var o :| o in members && o.0 == m.0 && !IsLoose(o.1.pack);
        MembersFrom(packs, identity, names, o);
        assert Has(packs[o.1.pack], identity, m.0);
      }
      if Redundant(packs, identity, p) {
        var h := identity(packs[p].snapshots[0].1);
        var m := (h, SnapshotId(p, packs[p].snapshots[0].0));
        assert p in Elements(names);
        MembersFrom(packs, identity, names, m);
        var q :| q in packs && !IsLoose(q) && Has(packs[q], identity, h);
        var i :| 0 <= i < |packs[q].snapshots| && identity(packs[q].snapshots[i].1) == h;
        var o := (h, SnapshotId(q, packs[q].snapshots[i].0));
        assert q in Elements(names);
        MembersFrom(packs, identity, names, o);
        assert (h, m.1) in members;
        assert h in Elements(hashes);
      }
    }
  }

  ghost function LooseOnes(packs: map<PackName, Index>): set<PackName> { set p | p in packs && IsLoose(p) }

  lemma ReferencedNext(packs: map<PackName, Index>, roots: seq<PackName>, n: nat)
    requires n < |roots| && roots[n] in packs
    ensures Referenced(packs, Elements(roots[..n+1])) == Referenced(packs, Elements(roots[..n])) + packs[roots[n]].objects
  {}

  /** position and remove. */
  method Without(roots: seq<PackName>, p: PackName) returns (rest: seq<PackName>)
    requires p in roots && Distinct(roots)
    ensures Distinct(rest) && forall q :: q in rest <==> q in roots && q != p
  {
    var i := 0;
    while roots[i] != p
      invariant 0 <= i < |roots| && p !in roots[..i]
      decreases |roots| - i
    {
      assert i + 1 < |roots| by { assert roots == roots[..i] + [roots[i]] + roots[i+1..]; }
      i := i + 1;
    }
    rest := roots[..i] + roots[i+1..];
    assert roots == roots[..i] + [p] + roots[i+1..];
  }

  /** Some redundant packs are gone, the rest is as it was. */
  ghost predicate Shrunk(before: map<PackName, Index>, after: map<PackName, Index>, identity: set<Key> -> Hash) {
    && (forall p :: p in after ==> p in before && after[p] == before[p])
    && (forall p :: p in before && p !in after ==> Redundant(before, identity, p))
  }

  lemma NoneYet(packs: map<PackName, Index>, fails: nat -> bool, step: nat)
    ensures packs - Elements([]) == packs && !FailedWithin(fails, step, step)
  {}

  lemma OneDeletion(fails: nat -> bool, start: nat, step: nat)
    requires step > start && !FailedWithin(fails, start, step - 1)
    ensures FailedWithin(fails, start, step) <==> fails(step)
  {}

  /** Taking some of the redundant packs away. */
  lemma ShrunkBy(before: map<PackName, Index>, identity: set<Key> -> Hash, redundant: seq<PackName>, n: nat)
    requires n <= |redundant| && forall p :: p in redundant <==> Redundant(before, identity, p)
    requires forall p :: p in before ==> IndexOk(p, before[p])
    ensures var after := before - Elements(redundant[..n]);
      && Shrunk(before, after, identity) && (forall p :: p in after ==> IndexOk(p, after[p]))
      && (n == |redundant| ==> forall p :: p in before ==> (p in after <==> !Redundant(before, identity, p)))
  {
    hide Redundant, IndexOk;
    forall p | p in Elements(redundant[..n]) ensures p in redundant {}
    assert n == |redundant| ==> redundant[..n] == redundant;
  }

  lemma NothingShrunk(packs: map<PackName, Index>, identity: set<Key> -> Hash)
    ensures Shrunk(packs, packs, identity)
  {}

  lemma RedundantNext(packs: map<PackName, Index>, identity: set<Key> -> Hash, redundant: seq<PackName>, n: nat)
    requires n < |redundant| && Distinct(redundant) && forall p :: p in redundant <==> Redundant(packs, identity, p)
    ensures redundant[n] in packs && IsLoose(redundant[n]) && redundant[n] !in redundant[..n]
    ensures redundant[..n+1] == redundant[..n] + [redundant[n]]
    ensures forall p :: p in Elements(redundant[..n]) ==> Redundant(packs, identity, p)
  {
    assert redundant[n] in redundant;
    forall p | p in Elements(redundant[..n]) ensures p in redundant {}
  }

  /** Only loose packs go, each of them packed in a pack that stays; and a loose pack that
      stays finds all the loose objects it had. */
  ghost predicate LosesNothing(before: map<PackName, Index>, after: map<PackName, Index>, identity: set<Key> -> Hash,
                               objectsBefore: set<Checksum>, objectsAfter: set<Checksum>) {
    && (forall p :: p in after ==> p in before && after[p] == before[p])
    && (forall p :: p in before && p !in after ==> IsLoose(p) && |before[p].snapshots| == 1)
    && (forall p :: p in before && p !in after ==> Packed(after, identity, identity(before[p].snapshots[0].1)))
    && objectsAfter <= objectsBefore
    && (forall p :: p in after && IsLoose(p) ==> after[p].objects * objectsBefore <= objectsAfter)
  }

  lemma LostNothing(before: map<PackName, Index>, after: map<PackName, Index>, identity: set<Key> -> Hash,
                    objectsBefore: set<Checksum>, objectsAfter: set<Checksum>, kept: set<Checksum>)
    requires Shrunk(before, after, identity) && objectsAfter <= objectsBefore && objectsBefore * kept <= objectsAfter
    requires objectsAfter == objectsBefore || forall p :: p in after && IsLoose(p) ==> after[p].objects <= kept
    ensures LosesNothing(before, after, identity, objectsBefore, objectsAfter)
  {}

  /** Everything a loose pack lists is referenced when all of them are roots. */
  lemma RootsCover(packs: map<PackName, Index>, roots: seq<PackName>)
    requires forall p :: p in roots <==> p in packs && IsLoose(p)
    ensures Elements(roots) == LooseOnes(packs)
    ensures forall p :: p in packs && IsLoose(p) ==> packs[p].objects <= Referenced(packs, Elements(roots))
  {}

  /** For the user: whatever was snapshot before is snapshot still, perhaps under another
      tag; and no file of a loose snapshot that is left has lost its object. */
  lemma NoSnapshotLost(before: map<PackName, Index>, after: map<PackName, Index>, identity: set<Key> -> Hash,
                       objectsBefore: set<Checksum>, objectsAfter: set<Checksum>)
    requires (forall p :: p in before ==> IndexOk(p, before[p])) && LosesNothing(before, after, identity, objectsBefore, objectsAfter)
    ensures forall p, i :: p in before && 0 <= i < |before[p].snapshots| ==>
      exists q :: q in after && Has(after[q], identity, identity(before[p].snapshots[i].1))
    ensures forall p, i, k :: p in after && IsLoose(p) && 0 <= i < |after[p].snapshots| && k in after[p].snapshots[i].1 ==>
      (k.checksum in objectsBefore ==> k.checksum in objectsAfter)
  {}

  ghost predicate HasTag(index: Index, tag: string) {
    exists i :: 0 <= i < |index.snapshots| && index.snapshots[i].0 == tag
  }

  ghost predicate Tagged(packs: map<PackName, Index>, tag: string) { exists p :: p in packs && HasTag(packs[p], tag) }

  /** Some pack that is not redundant has the tag. */
  ghost predicate TagKept(packs: map<PackName, Index>, identity: set<Key> -> Hash, tag: string) {
    exists p :: p in packs && !Redundant(packs, identity, p) && HasTag(packs[p], tag)
  }

  lemma TagsKept(before: map<PackName, Index>, after: map<PackName, Index>, identity: set<Key> -> Hash)
    requires Shrunk(before, after, identity)
    ensures forall tag :: TagKept(before, identity, tag) ==> Tagged(after, tag)
    ensures (forall p :: p in before ==> (p in after <==> !Redundant(before, identity, p))) ==>
      forall tag :: Tagged(after, tag) <==> TagKept(before, identity, tag)
  {
    hide Redundant, HasTag;
  }

  /** Content is kept and names are not: a successful collection takes a tag away exactly
      when it names a loose snapshot that is packed and no pack that is not loose has it. */
  lemma TagLost(before: map<PackName, Index>, after: map<PackName, Index>, identity: set<Key> -> Hash, tag: string)
    requires forall p :: p in before ==> IndexOk(p, before[p])
    requires Shrunk(before, after, identity) && forall p :: p in before ==> (p in after <==> !Redundant(before, identity, p))
    ensures Tagged(before, tag) && !Tagged(after, tag) <==>
      Redundant(before, identity, LOOSE_PREFIX + tag) && forall q :: q in before && !IsLoose(q) ==> !HasTag(before[q], tag)
  {
    TagsKept(before, after, identity);
    hide Packed, Shrunk;
    var own := LOOSE_PREFIX + tag;
    forall p | p in before && IsLoose(p) ensures HasTag(before[p], tag) <==> p == own { LooseHasTag(p, before[p], tag); }
    if Redundant(before, identity, own) { assert HasTag(before[own], tag); }
    forall q | q in before && !IsLoose(q) && HasTag(before[q], tag) ensures TagKept(before, identity, tag) {
      assert !Redundant(before, identity, q);
    }
  }

  lemma LooseHasTag(p: PackName, index: Index, tag: string)
    requires IndexOk(p, index) && IsLoose(p)
    ensures HasTag(index, tag) <==> p == LOOSE_PREFIX + tag
  {
    assert p[|LOOSE_PREFIX|..] == index.snapshots[0].0 && (LOOSE_PREFIX + tag)[|LOOSE_PREFIX|..] == tag;
  }

  /** HEAD is not among the roots: a successful collection leaves it resolving exactly when
      the pack it names is not redundant. */
  lemma HeadResolves(before: map<PackName, Index>, after: map<PackName, Index>, identity: set<Key> -> Hash, head: SnapshotId)
    requires head.pack in before && HasTag(before[head.pack], head.tag)
    requires Shrunk(before, after, identity) && forall p :: p in before ==> (p in after <==> !Redundant(before, identity, p))
    ensures head.pack in after && HasTag(after[head.pack], head.tag) <==> !Redundant(before, identity, head.pack)
  {}

  /** For instance: content is compared, not names. A loose snapshot goes when a pack has
      the same files under another tag, and its own tag goes with it. */
  lemma TagMayBeLost(keys: set<Key>, identity: set<Key> -> Hash)
    ensures var objects := set k | k in keys :: k.checksum;
      var packs := map["loose/a" := Index([("a", keys)], objects), "p" := Index([("b", keys)], objects)];
      && (forall p :: p in packs ==> IndexOk(p, packs[p]))
      && Redundant(packs, identity, "loose/a")
      && (forall p :: p in packs && p != "loose/a" ==> forall i :: 0 <= i < |packs[p].snapshots| ==> packs[p].snapshots[i].0 != "a")
  {
    var objects := set k | k in keys :: k.checksum;
    var packs := map["loose/a" := Index([("a", keys)], objects), "p" := Index([("b", keys)], objects)];
    assert "p"[0] != LOOSE_PREFIX[0] && !IsLoose("p");
    assert "loose/a" == LOOSE_PREFIX + "a";
    assert "b"[0] != "a"[0];
    assert packs["p"].snapshots[0].1 == keys && Has(packs["p"], identity, identity(keys));
    assert Packed(packs, identity, identity(keys));
  }
}
