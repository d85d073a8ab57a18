/** Interning: a pool hands out the position of a value's first occurrence. */
module EntryPools {
  import opened ByteStrings
  import opened Orders

  type Handle = nat

  /** The pool a list of values gives: first occurrences, in order. */
  function Interned<T(==, !new)>(list: seq<T>): (r: seq<T>)
    ensures forall x :: x in r <==> x in list
  {
    if list == [] then [] else
      var front, last := Interned(list[..|list|-1]), list[|list|-1];
      if last in front then front else front + [last]
  }

  lemma {:induction false} InternedDistinct<T(!new)>(list: seq<T>)
    ensures Distinct(Interned(list))
  {
    if list != [] { InternedDistinct(list[..|list|-1]); }
  }

  /** A list without duplicates keeps every position, and only such a list does. */
  lemma {:induction false} InternedIsIdentity<T(!new)>(list: seq<T>)
    ensures Interned(list) == list <==> Distinct(list)
  {
    InternedDistinct(list);
    if Distinct(list) && list != [] { InternedIsIdentity(list[..|list|-1]); }
  }

  class EntryPool<T(==, !new)> {
    var entries: seq<T>
    var entryMap: map<T, Handle>

    /** No value twice, and the map is the inverse of the list. */
    ghost predicate Valid() reads this {
      && Distinct(entries)
      && (forall i :: 0 <= i < |entries| ==> entries[i] in entryMap && entryMap[entries[i]] == i)
      && (forall x :: x in entryMap ==> entryMap[x] < |entries| && entries[entryMap[x]] == x)
    }

    constructor ()
      ensures Valid() && entries == []
    {
      entries, entryMap := [], map[];
    }

    /** Deserialize: a loop of inserts. */
    constructor FromList(list: seq<T>)
      ensures Valid() && entries == Interned(list)
    {
      entries, entryMap := [], map[];
      new;
      for k := 0 to |list|
        invariant Valid() && entries == Interned(list[..k])
      {
        assert list[..k+1][..k] == list[..k];
        var _ := GetOrInsert(list[k]);
      }
      assert list[..|list|] == list;
    }

    method Get(x: T) returns (r: Option<Handle>)
      requires Valid()
      ensures r.Some? <==> x in entries
      ensures r.Some? ==> r.value < |entries| && entries[r.value] == x
    {
      return if x in entryMap then Some(entryMap[x]) else None;
    }

    method GetOrInsert(x: T) returns (handle: Handle)
      requires Valid()
      modifies this
      ensures Valid() && entries == if x in old(entries) then old(entries) else old(entries) + [x]
      ensures handle < |entries| && entries[handle] == x
    {
      var known := Get(x);
      if known.Some? { return known.value; }
      handle := |entries|;
      entryMap := entryMap[x := handle];
      entries := entries + [x];
    }

    function Lookup(h: Handle): (r: Option<T>)
      reads this
      ensures r.Some? <==> h < |entries|
    {
      if h < |entries| then Some(entries[h]) else None
    }
  }
}
