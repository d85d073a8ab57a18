/** The pack file: objects ordered by size, split into frames, compressed frame by frame
    and concatenated; and the forward-only reader that gets them back. */
module PackStream {
  import opened ByteStrings
  import opened Orders
  import opened Algo
  import opened EntryPools
  import Snapshots

  /** Zstandard as a pair of functions. A decoder started at a frame runs on through the
      frames behind it. */
  datatype Codec = Codec(zip: Bytes -> Bytes, unzip: Bytes -> Bytes)

  ghost predicate Lawful(codec: Codec) {
    && codec.unzip([]) == []
    && forall x, rest :: codec.unzip(codec.zip(x) + rest) == x + codec.unzip(rest)
  }

  datatype Frame = Frame(frameSize: nat, decompressedSize: nat)
  datatype Pack = Pack(frames: seq<Frame>, body: Bytes)
  type Meta = Snapshots.ObjectMeta

  // ---- Offsets and ordering ----------------------------------------------------------

  predicate SizeThenHandle(a: (nat, Handle), b: (nat, Handle)) { a.0 < b.0 || (a.0 == b.0 && a.1 <= b.1) }

  function Sizes(objects: seq<Bytes>): seq<nat> { Map((o: Bytes) => |o|, objects) }

  ghost predicate IsOrdering(ordering: seq<Handle>, n: nat) {
    && |ordering| == n && Distinct(ordering) && (forall k :: 0 <= k < n ==> ordering[k] < n)
    && (forall h :: 0 <= h < n ==> h in ordering)
  }

  /** Every object starts where the ones before it in the ordering end. */
  ghost predicate Laid(metas: seq<Meta>, sizes: seq<nat>, ordering: seq<Handle>) {
    && |metas| == |sizes| && IsOrdering(ordering, |sizes|)
    && (forall h :: 0 <= h < |sizes| ==> metas[h].size == sizes[h])
    && (forall k :: 0 <= k < |ordering| ==> metas[ordering[k]].offset == SizeSum(sizes, ordering[..k]))
  }

  function SizeOf(sizes: seq<nat>, h: Handle): nat { if h < |sizes| then sizes[h] else 0 }
  function SizeSum(sizes: seq<nat>, hs: seq<Handle>): nat { Sum(Map(h => SizeOf(sizes, h), hs)) }

  function SizeHandles(sizes: seq<nat>): (r: seq<(nat, Handle)>)
    ensures |r| == |sizes| && forall h :: 0 <= h < |sizes| ==> r[h] == (sizes[h], h)
  {
    seq(|sizes|, h requires 0 <= h < |sizes| => (sizes[h], h))
  }

  predicate SizedHandles(sizes: seq<nat>, s: seq<(nat, Handle)>) {
    |s| == |sizes| && forall k :: 0 <= k < |s| ==> s[k].1 < |sizes| && s[k].0 == sizes[s[k].1]
  }

  function HandlesOf(s: seq<(nat, Handle)>): seq<Handle> { Map((p: (nat, Handle)) => p.1, s) }

  /** Sorting (size, handle) pairs yields every handle once, sizes ascending. */
  lemma SortedHandles(sizes: seq<nat>)
    ensures var s := Sort(SizeThenHandle, SizeHandles(sizes));
      && SizedHandles(sizes, s) && IsOrdering(HandlesOf(s), |sizes|)
      && (forall i, j :: 0 <= i < j < |s| ==> SizeThenHandle(s[i], s[j]))
  {
    var pairs := SizeHandles(sizes);
    SortFacts(SizeThenHandle, pairs);
    var s := Sort(SizeThenHandle, pairs);
    SameMultisetDistinct(pairs, s);
    hide Sort;
    forall k | 0 <= k < |s| ensures s[k].1 < |sizes| && s[k].0 == sizes[s[k].1] {
      assert s[k] in multiset(s);
      assert s[k] in pairs;
    }
    SortedIsOrdering(sizes, s);
    assert forall i, j :: 0 <= i < j < |s| ==> SizeThenHandle(s[i], s[j]);
  }

  lemma SortedIsOrdering(sizes: seq<nat>, s: seq<(nat, Handle)>)
    requires SizedHandles(sizes, s) && Distinct(s) && multiset(s) == multiset(SizeHandles(sizes))
    ensures IsOrdering(HandlesOf(s), |sizes|)
  {
    var ordering := HandlesOf(s);
    forall i, j | 0 <= i < j < |s| ensures ordering[i] != ordering[j] { assert s[i] != s[j]; }
    forall h | 0 <= h < |sizes| ensures h in ordering {
      assert SizeHandles(sizes)[h] in multiset(s);
      var k :| 0 <= k < |s| && s[k] == SizeHandles(sizes)[h];
      assert ordering[k] == h;
    }
  }

  /** compute_object_offsets_and_ordering: smallest objects first, back to back; equally
      large ones in the order of their handles. */
  method ComputeObjectOffsetsAndOrdering(sizes: seq<nat>) returns (metas: seq<Meta>, ordering: seq<Handle>)
    ensures Laid(metas, sizes, ordering)
    ensures BySize(sizes, ordering)
  {
    hide Sort, SizeThenHandle, SizeSum;
    var sizeHandle := Sort(SizeThenHandle, SizeHandles(sizes));
    SortedHandles(sizes);
    ordering := HandlesOf(sizeHandle);
    metas := seq(|sizes|, h requires 0 <= h < |sizes| => Snapshots.ObjectMeta(0, sizes[h]));
    var offset := 0;
    SizeSumEmpty(sizes, ordering);
    for k := 0 to |sizeHandle|
      invariant |metas| == |sizes| && forall h :: 0 <= h < |sizes| ==> metas[h].size == sizes[h]
      invariant offset == SizeSum(sizes, ordering[..k])
      invariant forall j :: 0 <= j < k ==> metas[ordering[j]].offset == SizeSum(sizes, ordering[..j])
    {
      var (size, h) := sizeHandle[k];
      assert ordering[k] == h;
      SizeSumSnoc(sizes, ordering, k);
      metas := metas[h := Snapshots.ObjectMeta(offset, sizes[h])];
      offset := offset + size;
    }
  }

  ghost predicate BySize(sizes: seq<nat>, ordering: seq<Handle>) {
    forall i, j :: 0 <= i < j < |ordering| ==>
      SizeThenHandle((SizeOf(sizes, ordering[i]), ordering[i]), (SizeOf(sizes, ordering[j]), ordering[j]))
  }

  lemma SizeSumEmpty(sizes: seq<nat>, ordering: seq<Handle>)
    ensures SizeSum(sizes, ordering[..0]) == 0
  {}

  lemma SizeSumSnoc(sizes: seq<nat>, ordering: seq<Handle>, k: nat)
    requires k < |ordering|
    ensures SizeSum(sizes, ordering[..k+1]) == SizeSum(sizes, ordering[..k]) + SizeOf(sizes, ordering[k])
  {
    WeightSnoc(x => SizeOf(sizes, x), ordering[..k], ordering[k]);
    assert ordering[..k+1] == ordering[..k] + [ordering[k]];
  }

  /** The smallest object with bytes, and among several the one with the least handle. */
  ghost predicate Smallest(sizes: seq<nat>, h: Handle) {
    && h < |sizes| && sizes[h] > 0
    && forall g :: 0 <= g < |sizes| && sizes[g] > 0 ==> SizeThenHandle((sizes[h], h), (sizes[g], g))
  }

  lemma OffsetIsZero(metas: seq<Meta>, sizes: seq<nat>, ordering: seq<Handle>, k: nat)
    requires Laid(metas, sizes, ordering) && k < |ordering|
    ensures ordering[k] < |metas| == |sizes|
    ensures metas[ordering[k]].offset == 0 <==> forall l :: 0 <= l < k ==> SizeOf(sizes, ordering[l]) == 0
  {
    SumIsZero(sizes, ordering[..k]);
    assert forall l :: 0 <= l < k ==> ordering[..k][l] == ordering[l];
    hide SizeSum, SizeOf;
  }

  /** At the start of the stream there are the empty objects and the smallest other one. */
  lemma AtZero(metas: seq<Meta>, sizes: seq<nat>, ordering: seq<Handle>, k: nat)
    requires Laid(metas, sizes, ordering) && BySize(sizes, ordering) && k < |ordering|
    ensures ordering[k] < |metas| == |sizes|
    ensures metas[ordering[k]].offset == 0 <==> sizes[ordering[k]] == 0 || Smallest(sizes, ordering[k])
  {
    OffsetIsZero(metas, sizes, ordering, k);
    var o := metas[ordering[k]].offset;
    assert IsOrdering(ordering, |sizes|);
    hide Laid, BySize, IsOrdering, Smallest;
    if o == 0 {
      NothingBefore(sizes, ordering, k);
    } else {
      var l :| 0 <= l < k && SizeOf(sizes, ordering[l]) != 0;
      SomethingBefore(sizes, ordering, l, k);
    }
  }

  lemma AllAtZero(metas: seq<Meta>, sizes: seq<nat>, ordering: seq<Handle>)
    requires Laid(metas, sizes, ordering) && BySize(sizes, ordering)
    ensures |metas| == |sizes| && forall h :: 0 <= h < |sizes| ==> (metas[h].offset == 0 <==> sizes[h] == 0 || Smallest(sizes, h))
  {
    hide BySize, Smallest;
    forall h | 0 <= h < |sizes| ensures h < |metas| && (metas[h].offset == 0 <==> sizes[h] == 0 || Smallest(sizes, h)) {
      assert h in ordering;
      var k :| 0 <= k < |ordering| && ordering[k] == h;
      AtZero(metas, sizes, ordering, k);
    }
  }

  lemma NothingBefore(sizes: seq<nat>, ordering: seq<Handle>, k: nat)
    requires IsOrdering(ordering, |sizes|) && BySize(sizes, ordering) && k < |ordering|
    requires forall l :: 0 <= l < k ==> SizeOf(sizes, ordering[l]) == 0
    ensures SizeOf(sizes, ordering[k]) == 0 || Smallest(sizes, ordering[k])
  {
    forall g | 0 <= g < |sizes| && sizes[g] > 0 ensures SizeThenHandle((SizeOf(sizes, ordering[k]), ordering[k]), (sizes[g], g)) {
      assert g in ordering;
      var l :| 0 <= l < |ordering| && ordering[l] == g;
    }
  }

  lemma SomethingBefore(sizes: seq<nat>, ordering: seq<Handle>, l: nat, k: nat)
    requires IsOrdering(ordering, |sizes|) && BySize(sizes, ordering) && l < k < |ordering| && SizeOf(sizes, ordering[l]) > 0
    ensures SizeOf(sizes, ordering[k]) > 0 && !Smallest(sizes, ordering[k])
  {
    assert ordering[l] != ordering[k];
  }

  lemma {:induction false} SumIsZero(sizes: seq<nat>, hs: seq<Handle>)
    ensures SizeSum(sizes, hs) == 0 <==> forall l :: 0 <= l < |hs| ==> SizeOf(sizes, hs[l]) == 0
  {
    if hs != [] {
      var front, last := hs[..|hs|-1], hs[|hs|-1];
      SumIsZero(sizes, front);
      WeightSnoc(h => SizeOf(sizes, h), front, last);
      assert hs == front + [last];
    }
  }

  // ---- Writing -----------------------------------------------------------------------

  function ObjectOf(objects: seq<Bytes>, h: Handle): Bytes { if h < |objects| then objects[h] else [] }
  function Contents(objects: seq<Bytes>, hs: seq<Handle>): Bytes { Concat(Map(h => ObjectOf(objects, h), hs)) }

  /** What a pack holds: `raws` are the decompressed frames, in order. */
  ghost predicate HoldsFrames(pack: Pack, codec: Codec, raws: seq<Bytes>) {
    && |pack.frames| == |raws|
    && (forall i :: 0 <= i < |raws| ==> pack.frames[i] == Frame(|codec.zip(raws[i])|, |raws[i]|))
    && pack.body == Concat(Map(codec.zip, raws))
  }

  /** The frames and the body, one partition after the other. */
  method WriteFrames(objects: seq<Bytes>, parts: seq<seq<Handle>>, codec: Codec, workers: nat) returns (pack: Pack)
    requires workers != 0
    ensures HoldsFrames(pack, codec, Map(part => Contents(objects, part), parts))
  {
    var raws, _ := RunInParallel(workers, parts, part => Contents(objects, part));
    var frames: seq<Frame> := [];
    var body: Bytes := [];
    for i := 0 to |raws|
      invariant |frames| == i && forall j :: 0 <= j < i ==> frames[j] == Frame(|codec.zip(raws[j])|, |raws[j]|)
      invariant body == Concat(Map(codec.zip, raws[..i]))
    {
      var compressed := codec.zip(raws[i]);
      frames := frames + [Frame(|compressed|, |raws[i]|)];
      ConcatAppend(Map(codec.zip, raws[..i]), compressed);
      assert Map(codec.zip, raws[..i+1]) == Map(codec.zip, raws[..i]) + [compressed];
      body := body + compressed;
    }
    assert raws[..|raws|] == raws;
    return Pack(frames, body);
  }

  /** create_pack: order the objects, partition them into frames, write. */
  method WritePack(objects: seq<Bytes>, numFrames: U32, codec: Codec, workers: nat) returns (pack: Pack, metas: seq<Meta>)
    requires workers != 0
    ensures Stored(pack, codec, objects, metas)
    ensures |pack.frames| <= Max(1, Min(numFrames, |objects|))
    ensures |metas| == |objects|
    ensures forall h :: 0 <= h < |objects| ==> (metas[h].offset == 0 <==> objects[h] == [] || Smallest(Sizes(objects), h))
  {
    var sizes := Sizes(objects);
    var ordering;
    metas, ordering := ComputeObjectOffsetsAndOrdering(sizes);
    AllAtZero(metas, sizes, ordering);
    var parts := PartitionBy(ordering, numFrames, h => SizeOf(sizes, h));
    LaidSizes(objects, metas, ordering);
    hide Stored, StoredIn, Laid, Filled, Smallest;
    pack := WriteFrames(objects, parts, codec, workers);
    hide HoldsFrames;
    LaidIsStored(objects, metas, ordering, parts);
    StoredWitness(pack, codec, objects, metas, Map(part => Contents(objects, part), parts));
  }

  // ---- Where objects end up -----------------------------------------------------------

  /** The bytes before frame i of the decompressed stream. */
  function Start(raws: seq<Bytes>, i: nat): nat
    requires i <= |raws|
  {
    if i == 0 then 0 else Start(raws, i - 1) + |raws[i-1]|
  }

  /** An object with bytes lies within frame i. */
  ghost predicate InFrame(raws: seq<Bytes>, i: nat, m: Meta, object': Bytes) {
    && i < |raws| && Start(raws, i) <= m.offset && m.offset + m.size <= Start(raws, i) + |raws[i]|
    && raws[i][m.offset - Start(raws, i)..m.offset - Start(raws, i) + m.size] == object'
  }

  ghost predicate Apart(a: Meta, b: Meta) { a.offset + a.size <= b.offset || b.offset + b.size <= a.offset }

  /** The pack and its index agree: every object with bytes lies in one frame, where the
      index says, and different objects do not overlap; an empty one lies in no other. */
  ghost predicate StoredIn(raws: seq<Bytes>, objects: seq<Bytes>, metas: seq<Meta>) {
    && |metas| == |objects|
    && (forall h :: 0 <= h < |objects| ==> metas[h].size == |objects[h]|)
    && (forall h :: 0 <= h < |objects| && objects[h] != [] ==> exists i :: InFrame(raws, i, metas[h], objects[h]))
    && (forall g, h :: 0 <= g < |objects| && 0 <= h < |objects| && g != h ==> Apart(metas[g], metas[h]))
    && (objects != [] ==> raws != [])
  }

  ghost predicate Stored(pack: Pack, codec: Codec, objects: seq<Bytes>, metas: seq<Meta>) {
    exists raws :: HoldsFrames(pack, codec, raws) && StoredIn(raws, objects, metas)
  }

  lemma StoredWitness(pack: Pack, codec: Codec, objects: seq<Bytes>, metas: seq<Meta>, raws: seq<Bytes>)
    requires HoldsFrames(pack, codec, raws) && StoredIn(raws, objects, metas)
    ensures Stored(pack, codec, objects, metas)
  {}

  lemma {:induction false} ConcatConcat<T>(a: seq<seq<T>>, b: seq<seq<T>>)
    ensures Concat(a + b) == Concat(a) + Concat(b)
  {
    if a == [] {
      assert a + b == b;
    } else {
      assert (a + b)[1..] == a[1..] + b;
      ConcatConcat(a[1..], b);
    }
  }

  lemma ContentsConcat(objects: seq<Bytes>, a: seq<Handle>, b: seq<Handle>)
    ensures Contents(objects, a + b) == Contents(objects, a) + Contents(objects, b)
  {
    var f := h => ObjectOf(objects, h);
    MapConcat(f, a, b);
    ConcatConcat(Map(f, a), Map(f, b));
  }

  lemma ContentsOne(objects: seq<Bytes>, h: Handle)
    ensures Contents(objects, [h]) == ObjectOf(objects, h)
  {
    var one := Map(x => ObjectOf(objects, x), [h]);
    assert one == [ObjectOf(objects, h)];
    assert Concat(one) == one[0] + Concat(one[1..]);
  }

  lemma {:induction false} ContentsLength(objects: seq<Bytes>, hs: seq<Handle>)
    ensures |Contents(objects, hs)| == SizeSum(Sizes(objects), hs)
  {
    if hs != [] {
      var front, last := hs[..|hs|-1], hs[|hs|-1];
      assert hs == front + [last];
      ContentsLength(objects, front);
      ContentsConcat(objects, front, [last]);
      ContentsOne(objects, last);
      WeightSnoc(h => SizeOf(Sizes(objects), h), front, last);
    }
  }

  lemma {:induction false} FindPart<T>(parts: seq<seq<T>>, k: nat) returns (i: nat, j: nat)
    requires k < |Concat(parts)|
    ensures i < |parts| && j < |parts[i]|
    ensures Concat(parts)[..k] == Concat(parts[..i]) + parts[i][..j] && Concat(parts)[k] == parts[i][j]
  {
    if k < |parts[0]| {
      i, j := 0, k;
      assert parts[..0] == [];
      assert Concat(parts)[..k] == parts[0][..k];
    } else {
      i, j := FindPart(parts[1..], k - |parts[0]|);
      i := i + 1;
      assert parts[..i][1..] == parts[1..][..i-1];
      assert Concat(parts)[..k] == parts[0] + Concat(parts[1..])[..k - |parts[0]|];
    }
  }

  lemma {:induction false} StartOfPart(objects: seq<Bytes>, parts: seq<seq<Handle>>, i: nat)
    requires i <= |parts|
    ensures Start(Map(part => Contents(objects, part), parts), i) == |Contents(objects, Concat(parts[..i]))|
  {
    if i == 0 {
      assert parts[..0] == [];
    } else {
      StartOfPart(objects, parts, i - 1);
      assert parts[..i] == parts[..i-1] + [parts[i-1]];
      ConcatAppend(parts[..i-1], parts[i-1]);
      ContentsConcat(objects, Concat(parts[..i-1]), parts[i-1]);
    }
  }

  /** Object h sits in part i behind the j objects before it. */
  lemma OffsetInPart(objects: seq<Bytes>, metas: seq<Meta>, ordering: seq<Handle>, parts: seq<seq<Handle>>, h: Handle)
    returns (i: nat, j: nat)
    requires Laid(metas, Sizes(objects), ordering) && Concat(parts) == ordering && h < |objects|
    ensures i < |parts| && j < |parts[i]| && parts[i][j] == h
    ensures |metas| == |objects| && metas[h].size == |objects[h]|
    ensures metas[h].offset == Start(Map(part => Contents(objects, part), parts), i) + |Contents(objects, parts[i][..j])|
  {
    assert h in ordering;
    var k :| 0 <= k < |ordering| && ordering[k] == h;
    i, j := FindPart(parts, k);
    StartOfPart(objects, parts, i);
    ContentsLength(objects, ordering[..k]);
    ContentsConcat(objects, Concat(parts[..i]), parts[i][..j]);
    hide Contents, Concat, IsOrdering, SizeSum, Start, Map;
  }

  lemma ObjectIsInFrame(objects: seq<Bytes>, metas: seq<Meta>, ordering: seq<Handle>, parts: seq<seq<Handle>>, h: Handle) returns (i: nat)
    requires Laid(metas, Sizes(objects), ordering) && Concat(parts) == ordering && h < |objects|
    ensures |metas| == |objects| && InFrame(Map(part => Contents(objects, part), parts), i, metas[h], objects[h])
  {
    hide Laid, Contents, Concat, Start, Sizes;
    var j;
    i, j := OffsetInPart(objects, metas, ordering, parts, h);
    PartAround(objects, parts[i], j);
  }

  lemma PartAround(objects: seq<Bytes>, part: seq<Handle>, j: nat)
    requires j < |part| && part[j] < |objects|
    ensures var before, raw := |Contents(objects, part[..j])|, Contents(objects, part);
      before + |objects[part[j]]| <= |raw| && raw[before..before + |objects[part[j]]|] == objects[part[j]]
  {
    assert part == part[..j] + [part[j]] + part[j+1..];
    ContentsConcat(objects, part[..j] + [part[j]], part[j+1..]);
    ContentsConcat(objects, part[..j], [part[j]]);
    ContentsOne(objects, part[j]);
  }

  lemma ObjectsApart(metas: seq<Meta>, sizes: seq<nat>, ordering: seq<Handle>, a: nat, b: nat)
    requires Laid(metas, sizes, ordering) && a < b < |ordering|
    ensures metas[ordering[a]].offset + metas[ordering[a]].size <= metas[ordering[b]].offset
  {
    var weigh := h => SizeOf(sizes, h);
    WeightSnoc(weigh, ordering[..a], ordering[a]);
    assert ordering[..b] == ordering[..a] + [ordering[a]] + ordering[a+1..b];
    MapConcat(weigh, ordering[..a] + [ordering[a]], ordering[a+1..b]);
    SumConcat(Map(weigh, ordering[..a] + [ordering[a]]), Map(weigh, ordering[a+1..b]));
  }

  lemma HandlesApart(metas: seq<Meta>, sizes: seq<nat>, ordering: seq<Handle>, g: Handle, h: Handle)
    requires Laid(metas, sizes, ordering) && g < |sizes| && h < |sizes| && g != h
    ensures Apart(metas[g], metas[h])
  {
    assert g in ordering && h in ordering;
    var a :| 0 <= a < |ordering| && ordering[a] == g;
    var b :| 0 <= b < |ordering| && ordering[b] == h;
    hide SizeSum, IsOrdering;
    if a < b { ObjectsApart(metas, sizes, ordering, a, b); } else { ObjectsApart(metas, sizes, ordering, b, a); }
  }

  /** Cutting the ordering into frames leaves every object whole and in its place. */
  lemma LaidIsStored(objects: seq<Bytes>, metas: seq<Meta>, ordering: seq<Handle>, parts: seq<seq<Handle>>)
    requires Laid(metas, Sizes(objects), ordering) && Concat(parts) == ordering
    ensures StoredIn(Map(part => Contents(objects, part), parts), objects, metas)
  {
    var raws := Map(part => Contents(objects, part), parts);
    forall h | 0 <= h < |objects| && objects[h] != [] ensures exists i :: InFrame(raws, i, metas[h], objects[h]) {
      var i := ObjectIsInFrame(objects, metas, ordering, parts, h);
    }
    forall g, h | 0 <= g < |objects| && 0 <= h < |objects| && g != h ensures Apart(metas[g], metas[h]) {
      HandlesApart(metas, Sizes(objects), ordering, g, h);
    }
    assert parts == [] ==> |ordering| == 0;
    hide Laid, SizeSum, InFrame, Contents, Concat;
    LaidSizes(objects, metas, ordering);
  }

  lemma LaidSizes(objects: seq<Bytes>, metas: seq<Meta>, ordering: seq<Handle>)
    requires Laid(metas, Sizes(objects), ordering)
    ensures |metas| == |objects| && |ordering| == |objects|
    ensures forall h :: 0 <= h < |objects| ==> metas[h].size == |objects[h]|
  {}

  // ---- Frames, seen by the reader ------------------------------------------------------

  /** compute_frame_offsets and compute_frame_decompressed_offset: prefix sums, in place. */
  method PrefixSums(sizes: seq<nat>) returns (sums: array<nat>)
    ensures fresh(sums) && sums[..] == Prefixes(sizes)
  {
    sums := new nat[|sizes|](_ => 0);
    var i := 1;
    while i < sums.Length
      invariant 1 <= i
      invariant forall j :: 0 <= j < i && j < sums.Length ==> sums[j] == Sum(sizes[..j])
    {
      assert sizes[..i][..i-1] == sizes[..i-1];
      sums[i] := sizes[i-1] + sums[i-1];
      i := i + 1;
    }
  }

  ghost function Prefixes(sizes: seq<nat>): (r: seq<nat>)
    ensures |r| == |sizes|
  {
    seq(|sizes|, i requires 0 <= i < |sizes| => Sum(sizes[..i]))
  }

  function FrameSizes(frames: seq<Frame>): seq<nat> { Map((f: Frame) => f.frameSize, frames) }
  function DecompressedSizes(frames: seq<Frame>): seq<nat> { Map((f: Frame) => f.decompressedSize, frames) }
  ghost function StartsOf(frames: seq<Frame>): seq<nat> { Prefixes(DecompressedSizes(frames)) }

  /** The frame an offset falls into: the last one that starts at or before it. */
  ghost predicate IsFrameOf(starts: seq<nat>, offset: nat, i: nat) {
    && i < |starts| && starts[i] <= offset
    && forall j :: i < j < |starts| ==> starts[j] > offset
  }

  /** rposition over the frame starts. */
  method FrameOf(starts: array<nat>, offset: nat) returns (r: Read<nat>)
    ensures r.Done? ==> IsFrameOf(starts[..], offset, r.value)
    ensures !r.Done? ==> r.CorruptPack? && forall j :: 0 <= j < starts.Length ==> starts[j] > offset
  {
    var i: int := starts.Length - 1;
    while i >= 0
      invariant -1 <= i < starts.Length
      invariant forall j :: i < j < starts.Length ==> starts[j] > offset
    {
      if starts[i] <= offset { return Done(i); }
      i := i - 1;
    }
    return CorruptPack;
  }

  /** What is asked for: `key` stands for the path, the kind and the mode. */
  datatype Entry<K> = Entry(key: K, link: bool, handle: Handle, meta: Meta)
  datatype Read<T> = Done(value: T) | CorruptPack | UnexpectedEnd | ObjectNotFound

  function Localized<K>(e: Entry<K>, start: nat): Entry<K>
    requires start <= e.meta.offset
  {
    e.(meta := Snapshots.ObjectMeta(e.meta.offset - start, e.meta.size))
  }

  /** The entries that start in frame i, in order, seen from that frame. */
  ghost function Local<K>(starts: seq<nat>, i: nat, entries: seq<Entry<K>>): (r: seq<Entry<K>>)
    ensures |r| <= |entries|
  {
    if entries == [] then [] else
      var last := entries[|entries|-1];
      Local(starts, i, entries[..|entries|-1])
        + if IsFrameOf(starts, last.meta.offset, i) then [Localized(last, starts[i])] else []
  }

  /** assign_to_frames: every entry goes, with a local offset, to the frame it starts in. */
  method AssignToFrames<K>(frames: seq<Frame>, entries: seq<Entry<K>>) returns (r: Read<seq<seq<Entry<K>>>>)
    ensures !r.Done? ==> r.CorruptPack? && frames == [] && entries != []
    ensures r.Done? ==> |r.value| == |frames|
    ensures r.Done? ==> forall i :: 0 <= i < |frames| ==> r.value[i] == Local(StartsOf(frames), i, entries)
  {
    var starts := PrefixSums(DecompressedSizes(frames));
    assert |starts[..]| > 0 ==> starts[..][0] == 0;
    var perFrame: seq<seq<Entry<K>>> := seq(|frames|, _ => []);
    for n := 0 to |entries|
      invariant |perFrame| == |frames| && starts[..] == StartsOf(frames)
      invariant n > 0 ==> frames != []
      invariant forall i :: 0 <= i < |frames| ==> perFrame[i] == Local(StartsOf(frames), i, entries[..n])
    {
      var e := entries[n];
      var f := FrameOf(starts, e.meta.offset);
      assert entries[..n+1][..n] == entries[..n];
      if !f.Done? {
        return CorruptPack;
      }
      perFrame := perFrame[f.value := perFrame[f.value] + [Localized(e, starts[f.value])]];
    }
    assert entries[..|entries|] == entries;
    return Done(perFrame);
  }

  // ---- The forward-only reader ---------------------------------------------------------

  function Slice(stream: Bytes, m: Meta): Bytes {
    if m.offset + m.size <= |stream| then stream[m.offset..m.offset + m.size] else []
  }

  function Drop(stream: Bytes, n: nat): Bytes { if n <= |stream| then stream[n..] else [] }

  class PackReader {
    var rest: Bytes

    constructor (stream: Bytes)
      ensures rest == stream
    {
      rest := stream;
    }

    /** Discards bytes; running into the end is not an error here. */
    method Seek(bytes: nat)
      modifies this
      ensures rest == Drop(old(rest), bytes)
    {
      rest := Drop(rest, bytes);
    }

    method ReadExact(size: nat) returns (r: Read<Bytes>)
      modifies this
      ensures old(|rest|) < size ==> r == UnexpectedEnd && rest == []
      ensures old(|rest|) >= size ==> r == Done(old(rest[..size])) && rest == old(rest[size..])
    {
      if |rest| < size {
        rest := [];
        return UnexpectedEnd;
      }
      r := Done(rest[..size]);
      rest := rest[size..];
    }
  }

  /** Discards up to an object and reads it. */
  method ReadAt(reader: PackReader, pos: nat, m: Meta, ghost stream: Bytes) returns (r: Read<Bytes>)
    requires reader.rest == Drop(stream, pos) && pos <= m.offset
    modifies reader
    ensures r == if m.size == 0 || m.offset + m.size <= |stream| then Done(Slice(stream, m)) else UnexpectedEnd
    ensures r.Done? ==> reader.rest == Drop(stream, m.offset + m.size)
  {
    reader.Seek(m.offset - pos);
    assert reader.rest == Drop(stream, m.offset);
    assert |reader.rest| >= m.size ==> reader.rest[..m.size] == Slice(stream, m);
    r := reader.ReadExact(m.size);
  }

  predicate ByOffset<K>(a: Entry<K>, b: Entry<K>) { a.meta.offset <= b.meta.offset }

  /** Objects with bytes lie within the stream, and two of them are the same or disjoint. */
  ghost predicate Readable<K>(stream: Bytes, entries: seq<Entry<K>>) {
    && (forall i :: 0 <= i < |entries| && entries[i].meta.size > 0 ==> entries[i].meta.offset + entries[i].meta.size <= |stream|)
    && (forall i, j :: 0 <= i < |entries| && 0 <= j < |entries| && entries[i].meta.size > 0 && entries[j].meta.size > 0 ==>
         entries[i].meta == entries[j].meta || Apart(entries[i].meta, entries[j].meta))
  }

  /** What the forward-only reader lives on: an entry still to come either starts at or
      behind the reader, or is the object that is in the buffer. */
  ghost predicate Ahead<K>(stream: Bytes, pos: nat, buf: Bytes, coming: seq<Entry<K>>) {
    forall i :: 0 <= i < |coming| && coming[i].meta.size > 0 ==>
      pos <= coming[i].meta.offset || buf == Slice(stream, coming[i].meta)
  }

  lemma ReadableSorted<K(!new)>(stream: Bytes, entries: seq<Entry<K>>)
    ensures var s := Sort(ByOffset, entries); Sorted(ByOffset, s) && multiset(s) == multiset(entries) && |s| == |entries|
    ensures Readable(stream, entries) ==> Readable(stream, Sort(ByOffset, entries))
  {
    SortFacts(ByOffset<K>, entries);
    var s := Sort(ByOffset, entries);
    forall i | 0 <= i < |s| ensures s[i] in entries { assert s[i] in multiset(s); }
  }

  ghost predicate Produced<K(!new)>(out: seq<(Entry<K>, Bytes)>, stream: Bytes, entries: seq<Entry<K>>, k: nat) {
    |out| == k <= |entries| && forall j :: 0 <= j < k ==> out[j] == (entries[j], Slice(stream, entries[j].meta))
  }

  lemma Produces<K(!new)>(out: seq<(Entry<K>, Bytes)>, stream: Bytes, entries: seq<Entry<K>>, k: nat, content: Bytes)
    requires k < |entries| && Produced(out, stream, entries, k)
    requires content == Slice(stream, entries[k].meta)
    ensures Produced(out + [(entries[k], content)], stream, entries, k + 1)
  {}

  lemma ProducedAll<K(!new)>(out: seq<(Entry<K>, Bytes)>, stream: Bytes, entries: seq<Entry<K>>)
    requires Produced(out, stream, entries, |entries|)
    ensures out == Map((e: Entry<K>) => (e, Slice(stream, e.meta)), entries)
  {}

  /** Where the reader stands in front of entry k, as far as the objects with bytes go. */
  function Stand<K>(sorted: seq<Entry<K>>, k: nat): nat
    requires k <= |sorted|
    decreases k, 0
  {
    if k == 0 then 0
    else if IsRead(sorted, k - 1) then sorted[k-1].meta.offset + sorted[k-1].meta.size
    else Stand(sorted, k - 1)
  }

  /** An object with bytes that the reader is not past. */
  predicate IsRead<K>(sorted: seq<Entry<K>>, k: nat)
    requires k < |sorted|
    decreases k, 1
  {
    sorted[k].meta.size > 0 && Stand(sorted, k) <= sorted[k].meta.offset
  }

  /** All that is read is there to be read. */
  ghost predicate Within<K>(stream: Bytes, sorted: seq<Entry<K>>, k: nat)
    requires k <= |sorted|
  {
    forall j :: 0 <= j < k && IsRead(sorted, j) ==> sorted[j].meta.offset + sorted[j].meta.size <= |stream|
  }

  /** One result for every entry, and for an entry that is read its own object. */
  ghost predicate Took<K(!new)>(out: seq<(Entry<K>, Bytes)>, stream: Bytes, sorted: seq<Entry<K>>, k: nat) {
    && |out| == k <= |sorted|
    && forall j :: 0 <= j < k ==> out[j].0 == sorted[j] && (IsRead(sorted, j) ==> out[j].1 == Slice(stream, sorted[j].meta))
  }

  lemma Takes<K(!new)>(out: seq<(Entry<K>, Bytes)>, stream: Bytes, sorted: seq<Entry<K>>, k: nat, content: Bytes)
    requires k < |sorted| && Took(out, stream, sorted, k) && Within(stream, sorted, k)
    requires IsRead(sorted, k) ==> content == Slice(stream, sorted[k].meta) && sorted[k].meta.offset + sorted[k].meta.size <= |stream|
    ensures Took(out + [(sorted[k], content)], stream, sorted, k + 1) && Within(stream, sorted, k + 1)
    ensures Stand(sorted, k + 1) == if IsRead(sorted, k) then sorted[k].meta.offset + sorted[k].meta.size else Stand(sorted, k)
  {
    hide Slice;
  }

  lemma RunsOut<K>(stream: Bytes, sorted: seq<Entry<K>>, k: nat)
    requires k < |sorted| && IsRead(sorted, k) && sorted[k].meta.offset + sorted[k].meta.size > |stream|
    ensures !Within(stream, sorted, |sorted|)
  {}

  lemma TookNothing<K(!new)>(stream: Bytes, sorted: seq<Entry<K>>)
    ensures Took([], stream, sorted, 0) && Within(stream, sorted, 0) && Stand(sorted, 0) == 0
  {}

  /** read_objects: sorted by offset, one pass, an object read once serves all its entries. */
  method ReadObjects<K(!new)>(reader: PackReader, entries: seq<Entry<K>>) returns (r: Read<seq<(Entry<K>, Bytes)>>)
    modifies reader
    ensures Readable(old(reader.rest), entries) ==>
      r == Done(Map((e: Entry<K>) => (e, Slice(old(reader.rest), e.meta)), Sort(ByOffset, entries)))
    ensures r.Done? <==> Within(old(reader.rest), Sort(ByOffset, entries), |Sort(ByOffset, entries)|)
    ensures r.Done? ==> Took(r.value, old(reader.rest), Sort(ByOffset, entries), |entries|)
  {
    hide Readable, Ahead, Sorted, Produced, Sort, Slice, Drop, Within, Took, Stand;
    ghost var stream := reader.rest;
    var sorted := Sort(ByOffset, entries);
    ReadableSorted(stream, entries);
    ghost var good := Readable(stream, entries);
    var objects: seq<(Entry<K>, Bytes)> := [];
    var buf: Bytes := [];
    var pos: nat := 0;
    Nothing(stream, buf, sorted);
    TookNothing(stream, sorted);
    for k := 0 to |sorted|
      invariant reader.rest == Drop(stream, pos) && pos == Stand(sorted, k)
      invariant Took(objects, stream, sorted, k) && Within(stream, sorted, k)
      invariant good ==> Ahead(stream, pos, buf, sorted[k..]) && Produced(objects, stream, sorted, k)
    {
      var entry := sorted[k];
      var metadata := entry.meta;
      if good { Step(stream, pos, buf, sorted, k); }
      if metadata.size == 0 {
        if good { Produces(objects, stream, sorted, k, []); }
        Takes(objects, stream, sorted, k, []);
        objects := objects + [(entry, [])];
      } else {
        if pos <= metadata.offset {
          var bytes := ReadAt(reader, pos, metadata, stream);
          if !bytes.Done? { RunsOut(stream, sorted, k); return UnexpectedEnd; }
          buf := bytes.value;
          pos := metadata.offset + metadata.size;
        }
        if good { Produces(objects, stream, sorted, k, buf); }
        Takes(objects, stream, sorted, k, buf);
        objects := objects + [(entry, buf)];
      }
    }
    if good { ProducedAll(objects, stream, sorted); }
    return Done(objects);
  }

  /** What holds of the entry the loop is at, and of the ones behind it either way. */
  lemma Step<K>(stream: Bytes, pos: nat, buf: Bytes, entries: seq<Entry<K>>, k: nat)
    requires k < |entries| && Sorted(ByOffset, entries) && Readable(stream, entries)
    requires Ahead(stream, pos, buf, entries[k..])
    ensures var m := entries[k].meta;
      && Ahead(stream, pos, buf, entries[k+1..]) && Ahead(stream, m.offset + m.size, Slice(stream, m), entries[k+1..])
      && (m.size > 0 && pos > m.offset ==> buf == Slice(stream, m))
      && (m.size == 0 ==> Slice(stream, m) == [])
      && (m.size > 0 ==> m.offset + m.size <= |stream|)
  {}

  lemma Nothing<K(!new)>(stream: Bytes, buf: Bytes, entries: seq<Entry<K>>)
    ensures Ahead(stream, 0, buf, entries[0..])
    ensures Produced([], stream, entries, 0) && Drop(stream, 0) == stream
  {}

  // ---- Links with an empty object --------------------------------------------------------

  function End<K>(e: Entry<K>): nat { e.meta.offset + e.meta.size }

  /** A link with an empty object, placed where another object has begun and not ended. */
  predicate Hit<K>(a: Entry<K>, b: Entry<K>) {
    a.meta.size > 0 && b.link && b.meta.size == 0 && a.meta.offset <= b.meta.offset < End(a)
  }

  /** No such pair with the object in front. */
  ghost predicate NoHit<K>(entries: seq<Entry<K>>) {
    forall a, b :: 0 <= a < b < |entries| ==> !Hit(entries[a], entries[b])
  }

  /** What entry k of a sorted list is written: its own object, unless it is hit by one in
      front of it, and then that one. */
  ghost predicate Hands<K>(stream: Bytes, entries: seq<Entry<K>>, k: nat, content: Bytes)
    requires k < |entries|
  {
    && (forall a :: 0 <= a < k && Hit(entries[a], entries[k]) ==> content == Slice(stream, entries[a].meta))
    && ((forall a :: 0 <= a < k ==> !Hit(entries[a], entries[k])) ==> content == Slice(stream, entries[k].meta))
  }

  ghost predicate Handed<K(!new)>(out: seq<(Entry<K>, Bytes)>, stream: Bytes, entries: seq<Entry<K>>, k: nat) {
    |out| == k <= |entries| && forall j :: 0 <= j < k ==> out[j].0 == entries[j] && Hands(stream, entries, j, out[j].1)
  }

  /** Where the extraction loop stands: behind every object it has been asked for, and if
      not in front of all that is to come then right behind the one in the buffer. */
  ghost predicate Trail<K>(stream: Bytes, pos: nat, buf: Bytes, entries: seq<Entry<K>>, k: nat)
    requires k <= |entries|
  {
    && (forall a :: 0 <= a < k && entries[a].meta.size > 0 ==> End(entries[a]) <= pos)
    && ((forall j :: k <= j < |entries| ==> pos <= entries[j].meta.offset)
        || exists a :: 0 <= a < k && entries[a].meta.size > 0 && End(entries[a]) == pos && buf == Slice(stream, entries[a].meta))
  }

  /** An entry in front of which the loop stands is read, and nothing hits it. */
  lemma TrailReads<K>(stream: Bytes, pos: nat, buf: Bytes, entries: seq<Entry<K>>, k: nat)
    requires k < |entries| && Sorted(ByOffset, entries) && Readable(stream, entries)
    requires Trail(stream, pos, buf, entries, k) && pos <= entries[k].meta.offset
    ensures Trail(stream, End(entries[k]), Slice(stream, entries[k].meta), entries, k + 1)
    ensures Hands(stream, entries, k, Slice(stream, entries[k].meta))
    ensures var m := entries[k].meta; (m.size == 0 ==> Slice(stream, m) == []) && (m.size > 0 ==> m.offset + m.size <= |stream|)
  {
    if entries[k].meta.size == 0 {
      forall j | k < j < |entries| ensures entries[k].meta.offset <= entries[j].meta.offset { assert ByOffset(entries[k], entries[j]); }
    }
  }

  lemma SameObject<K>(stream: Bytes, entries: seq<Entry<K>>, a: nat, b: nat, at: nat)
    requires Readable(stream, entries) && a < |entries| && b < |entries|
    requires entries[a].meta.size > 0 && entries[a].meta.offset <= at < End(entries[a])
    requires entries[b].meta.size > 0 && entries[b].meta.offset <= at < End(entries[b])
    ensures entries[a].meta == entries[b].meta
  {}

  /** Behind an entry's offset, the object in the buffer is one that reaches over it. */
  lemma TrailBuffer<K>(stream: Bytes, pos: nat, buf: Bytes, entries: seq<Entry<K>>, k: nat) returns (o: nat)
    requires k < |entries| && Sorted(ByOffset, entries) && Trail(stream, pos, buf, entries, k) && pos > entries[k].meta.offset
    ensures o < k && entries[o].meta.size > 0 && End(entries[o]) == pos && buf == Slice(stream, entries[o].meta)
    ensures entries[o].meta.offset <= entries[k].meta.offset
  {
    o :| 0 <= o < k && entries[o].meta.size > 0 && End(entries[o]) == pos && buf == Slice(stream, entries[o].meta);
    assert ByOffset(entries[o], entries[k]);
  }

  /** Any other entry is the object in the buffer, or empty and hit by it. */
  lemma TrailKeeps<K>(stream: Bytes, pos: nat, buf: Bytes, entries: seq<Entry<K>>, k: nat)
    requires k < |entries| && Sorted(ByOffset, entries) && Readable(stream, entries)
    requires Trail(stream, pos, buf, entries, k) && pos > entries[k].meta.offset
    ensures Trail(stream, pos, buf, entries, k + 1)
    ensures Hands(stream, entries, k, if !entries[k].link && entries[k].meta.size == 0 then [] else buf)
  {
    var o := TrailBuffer(stream, pos, buf, entries, k);
    if entries[k].meta.size > 0 { SameObject(stream, entries, k, o, entries[k].meta.offset); }
    BufferHands(stream, buf, entries, k, o);
    hide Readable, Sorted, Hands, Slice;
  }

  lemma BufferHands<K>(stream: Bytes, buf: Bytes, entries: seq<Entry<K>>, k: nat, o: nat)
    requires k < |entries| && Readable(stream, entries) && o < k
    requires entries[o].meta.size > 0 && entries[o].meta.offset <= entries[k].meta.offset < End(entries[o]) && buf == Slice(stream, entries[o].meta)
    ensures Hands(stream, entries, k, if !entries[k].link && entries[k].meta.size == 0 then [] else buf)
  {
    var at := entries[k].meta.offset;
    if entries[k].meta.size > 0 { SameObject(stream, entries, k, o, at); }
    forall a | 0 <= a < k && Hit(entries[a], entries[k]) ensures entries[a].meta == entries[o].meta { SameObject(stream, entries, a, o, at); }
    hide Readable;
  }

  lemma HandsOn<K(!new)>(out: seq<(Entry<K>, Bytes)>, stream: Bytes, entries: seq<Entry<K>>, k: nat, content: Bytes)
    requires k < |entries| && Handed(out, stream, entries, k) && Hands(stream, entries, k, content)
    ensures Handed(out + [(entries[k], content)], stream, entries, k + 1)
  {}

  lemma HandedNothing<K(!new)>(stream: Bytes, buf: Bytes, entries: seq<Entry<K>>)
    ensures Trail(stream, 0, buf, entries, 0) && Handed([], stream, entries, 0) && Drop(stream, 0) == stream
  {}

  /** Every entry is written its own object exactly when none is hit. */
  lemma HandedRight<K(!new)>(out: seq<(Entry<K>, Bytes)>, stream: Bytes, entries: seq<Entry<K>>)
    requires Readable(stream, entries) && Handed(out, stream, entries, |entries|)
    ensures NoHit(entries) <==> forall k :: 0 <= k < |entries| ==> out[k].1 == Slice(stream, entries[k].meta)
    ensures NoHit(entries) <==> out == Map((e: Entry<K>) => (e, Slice(stream, e.meta)), entries)
  {
    forall a, k | 0 <= a < k < |entries| && Hit(entries[a], entries[k])
      ensures out[k].1 != Slice(stream, entries[k].meta)
    {
      assert Hands(stream, entries, k, out[k].1);
      assert |Slice(stream, entries[a].meta)| > 0;
    }
    if NoHit(entries) {
      forall k | 0 <= k < |entries| ensures out[k].1 == Slice(stream, entries[k].meta) { assert Hands(stream, entries, k, out[k].1); }
    }
    var own := Map((e: Entry<K>) => (e, Slice(stream, e.meta)), entries);
    assert forall k :: 0 <= k < |entries| ==> own[k] == (entries[k], Slice(stream, entries[k].meta));
  }

  /** An empty object moves the extraction loop on, but past nothing that is still to come. */
  ghost predicate SameSide<K>(sorted: seq<Entry<K>>, pos: nat, k: nat)
    requires k <= |sorted|
  {
    forall j :: k <= j < |sorted| ==> (pos <= sorted[j].meta.offset <==> Stand(sorted, k) <= sorted[j].meta.offset)
  }

  lemma SideKept<K>(sorted: seq<Entry<K>>, pos: nat, k: nat)
    requires k < |sorted| && Sorted(ByOffset, sorted) && SameSide(sorted, pos, k)
    ensures SameSide(sorted, if pos <= sorted[k].meta.offset then sorted[k].meta.offset + sorted[k].meta.size else pos, k + 1)
  {
    forall j | k < j < |sorted| ensures sorted[k].meta.offset <= sorted[j].meta.offset { assert ByOffset(sorted[k], sorted[j]); }
  }

  /** extract_files: the same pass, except that an empty object is seeked to as well; what
      it writes for an empty regular file never comes from the buffer, for an empty link
      always. Every entry gets its object exactly when no link is hit. */
  method ExtractFiles<K(!new)>(reader: PackReader, entries: seq<Entry<K>>) returns (r: Read<seq<(Entry<K>, Bytes)>>)
    modifies reader
    ensures Readable(old(reader.rest), entries) ==> r.Done? && Handed(r.value, old(reader.rest), Sort(ByOffset, entries), |entries|)
    ensures Readable(old(reader.rest), entries) ==>
      (NoHit(Sort(ByOffset, entries)) <==> r.value == Map((e: Entry<K>) => (e, Slice(old(reader.rest), e.meta)), Sort(ByOffset, entries)))
    ensures r.Done? <==> Within(old(reader.rest), Sort(ByOffset, entries), |Sort(ByOffset, entries)|)
    ensures r.Done? ==> Took(r.value, old(reader.rest), Sort(ByOffset, entries), |entries|)
  {
    hide Readable, Trail, Sorted, Handed, Hands, NoHit, Sort, Slice, Drop, Within, Took, Stand;
    ghost var stream := reader.rest;
    var sorted := Sort(ByOffset, entries);
    ReadableSorted(stream, entries);
    ghost var good := Readable(stream, entries);
    var written: seq<(Entry<K>, Bytes)> := [];
    var buf: Bytes := [];
    var pos: nat := 0;
    HandedNothing(stream, buf, sorted);
    TookNothing(stream, sorted);
    for k := 0 to |sorted|
      invariant reader.rest == Drop(stream, pos) && SameSide(sorted, pos, k)
      invariant Took(written, stream, sorted, k) && Within(stream, sorted, k)
      invariant good ==> Trail(stream, pos, buf, sorted, k) && Handed(written, stream, sorted, k)
    {
      var entry := sorted[k];
      var metadata := entry.meta;
      ghost var before := pos;
      if pos <= metadata.offset {
        if good { TrailReads(stream, pos, buf, sorted, k); }
        var bytes := ReadAt(reader, pos, metadata, stream);
        if !bytes.Done? { RunsOut(stream, sorted, k); return UnexpectedEnd; }
        buf := bytes.value;
        pos := metadata.offset + metadata.size;
      } else if good {
        TrailKeeps(stream, pos, buf, sorted, k);
      }
      var content := if !entry.link && metadata.size == 0 then [] else buf;
      if good { HandsOn(written, stream, sorted, k, content); }
      Takes(written, stream, sorted, k, content);
      SideKept(sorted, before, k);
      written := written + [(entry, content)];
    }
    if good { HandedRight(written, stream, sorted); }
    return Done(written);
  }

  /** For instance: a file with the one byte 7 and behind it a link with an empty object,
      both at offset 0. The link is written with the target 7. */
  lemma EmptyLinkHit<K>(file: Entry<K>, link: Entry<K>, content: Bytes)
    requires file.meta == Snapshots.ObjectMeta(0, 1) && link.link && link.meta == Snapshots.ObjectMeta(0, 0)
    ensures Readable([7], [file, link]) && Sort(ByOffset, [file, link]) == [file, link] && !NoHit([file, link])
    ensures Hands([7], [file, link], 1, content) ==> content == [7]
  {
    var entries, one: seq<Entry<K>> := [file, link], [link];
    assert Hit(entries[0], entries[1]);
    assert entries[1..] == one && one[1..] == [];
    assert Sort(ByOffset, one) == one;
    assert [file] + one == entries;
  }

  // ---- From requests to object bytes ---------------------------------------------------

  lemma {:induction false} StartsMatch(pack: Pack, codec: Codec, raws: seq<Bytes>, i: nat)
    requires HoldsFrames(pack, codec, raws) && i < |raws|
    ensures |StartsOf(pack.frames)| == |raws| && StartsOf(pack.frames)[i] == Start(raws, i)
  {
    if i > 0 {
      StartsMatch(pack, codec, raws, i - 1);
      var sizes := DecompressedSizes(pack.frames);
      assert sizes[..i][..i-1] == sizes[..i-1];
    }
  }

  lemma {:induction false} StartMonotone(raws: seq<Bytes>, i: nat, j: nat)
    requires i < j <= |raws|
    ensures Start(raws, i) + |raws[i]| <= Start(raws, j)
  {
    if i + 1 < j { StartMonotone(raws, i, j - 1); }
  }

  lemma {:induction false} Decodes(codec: Codec, raws: seq<Bytes>)
    requires Lawful(codec)
    ensures codec.unzip(Concat(Map(codec.zip, raws))) == Concat(raws)
  {
    if raws != [] {
      assert Map(codec.zip, raws)[1..] == Map(codec.zip, raws[1..]);
      Decodes(codec, raws[1..]);
    }
  }

  lemma {:induction false} CompressedLength(pack: Pack, codec: Codec, raws: seq<Bytes>, i: nat)
    requires HoldsFrames(pack, codec, raws) && i <= |raws|
    ensures |Concat(Map(codec.zip, raws[..i]))| == Sum(FrameSizes(pack.frames)[..i])
  {
    if i > 0 {
      CompressedLength(pack, codec, raws, i - 1);
      assert Map(codec.zip, raws[..i]) == Map(codec.zip, raws[..i-1]) + [codec.zip(raws[i-1])];
      ConcatAppend(Map(codec.zip, raws[..i-1]), codec.zip(raws[i-1]));
      assert FrameSizes(pack.frames)[..i][..i-1] == FrameSizes(pack.frames)[..i-1];
    }
  }

  /** A decoder placed at a frame yields that frame and everything behind it. */
  lemma FrameStream(pack: Pack, codec: Codec, raws: seq<Bytes>, i: nat)
    requires Lawful(codec) && HoldsFrames(pack, codec, raws) && i < |raws|
    ensures codec.unzip(Drop(pack.body, Prefixes(FrameSizes(pack.frames))[i])) == Concat(raws[i..])
  {
    CompressedLength(pack, codec, raws, i);
    var before, after := Map(codec.zip, raws[..i]), Map(codec.zip, raws[i..]);
    assert Map(codec.zip, raws) == before + after;
    ConcatConcat(before, after);
    assert Drop(pack.body, Prefixes(FrameSizes(pack.frames))[i]) == Concat(after);
    Decodes(codec, raws[i..]);
  }

  lemma {:induction false} LocalFrom<K>(starts: seq<nat>, i: nat, entries: seq<Entry<K>>, k: nat) returns (n: nat)
    requires k < |Local(starts, i, entries)|
    ensures n < |entries| && IsFrameOf(starts, entries[n].meta.offset, i)
    ensures Local(starts, i, entries)[k] == Localized(entries[n], starts[i])
  {
    var front := entries[..|entries|-1];
    if k < |Local(starts, i, front)| { n := LocalFrom(starts, i, front, k); } else { n := |entries| - 1; }
  }

  /** The entries carry the places the pack's own index gives. */
  ghost predicate AsIndexed<K>(entries: seq<Entry<K>>, objects: seq<Bytes>, metas: seq<Meta>) {
    |metas| == |objects| && forall n :: 0 <= n < |entries| ==> entries[n].handle < |objects| && entries[n].meta == metas[entries[n].handle]
  }

  /** The frame that holds an object with bytes is the one its offset is assigned to. */
  lemma OneFrame(pack: Pack, codec: Codec, raws: seq<Bytes>, m: Meta, content: Bytes, i: nat, j: nat)
    requires HoldsFrames(pack, codec, raws) && m.size > 0
    requires IsFrameOf(StartsOf(pack.frames), m.offset, i) && InFrame(raws, j, m, content)
    ensures i == j && i < |raws| && StartsOf(pack.frames)[i] == Start(raws, i)
  {
    StartsMatch(pack, codec, raws, j);
    StartsMatch(pack, codec, raws, i);
    if j < i { StartMonotone(raws, j, i); }
  }

  lemma SliceOfFrame(raws: seq<Bytes>, i: nat, m: Meta, content: Bytes)
    requires InFrame(raws, i, m, content)
    ensures var local := Snapshots.ObjectMeta(m.offset - Start(raws, i), m.size);
      local.offset + local.size <= |Concat(raws[i..])| && Slice(Concat(raws[i..]), local) == content
  {}

  /** Everything a frame is asked for is whole in that frame. */
  lemma LocalSlice<K>(pack: Pack, codec: Codec, raws: seq<Bytes>, objects: seq<Bytes>, metas: seq<Meta>,
                      entries: seq<Entry<K>>, i: nat, k: nat)
    requires HoldsFrames(pack, codec, raws) && StoredIn(raws, objects, metas) && AsIndexed(entries, objects, metas)
    requires i < |raws| && k < |Local(StartsOf(pack.frames), i, entries)|
    ensures var e := Local(StartsOf(pack.frames), i, entries)[k];
      && e.handle < |objects| && e.meta.size == |objects[e.handle]|
      && Slice(Concat(raws[i..]), e.meta) == objects[e.handle]
      && (e.meta.size > 0 ==> e.meta.offset + e.meta.size <= |Concat(raws[i..])|)
  {
    hide StartsOf, InFrame, Concat, HoldsFrames;
    var n := LocalFrom(StartsOf(pack.frames), i, entries, k);
    var h := entries[n].handle;
    if objects[h] != [] {
      var j: nat :| InFrame(raws, j, metas[h], objects[h]);
      OneFrame(pack, codec, raws, metas[h], objects[h], i, j);
      SliceOfFrame(raws, i, metas[h], objects[h]);
    }
  }

  lemma LocalReadable<K>(pack: Pack, codec: Codec, raws: seq<Bytes>, objects: seq<Bytes>, metas: seq<Meta>,
                         entries: seq<Entry<K>>, i: nat)
    requires HoldsFrames(pack, codec, raws) && StoredIn(raws, objects, metas) && AsIndexed(entries, objects, metas)
    requires i < |raws|
    ensures Readable(Concat(raws[i..]), Local(StartsOf(pack.frames), i, entries))
  {
    var starts := StartsOf(pack.frames);
    var local := Local(starts, i, entries);
    forall k | 0 <= k < |local| && local[k].meta.size > 0 ensures local[k].meta.offset + local[k].meta.size <= |Concat(raws[i..])| {
      LocalSlice(pack, codec, raws, objects, metas, entries, i, k);
    }
    forall k, l | 0 <= k < |local| && 0 <= l < |local| && local[k].meta.size > 0 && local[l].meta.size > 0
      ensures local[k].meta == local[l].meta || Apart(local[k].meta, local[l].meta)
    {
      var m := LocalFrom(starts, i, entries, k);
      var n := LocalFrom(starts, i, entries, l);
      assert entries[m].handle != entries[n].handle ==> Apart(metas[entries[m].handle], metas[entries[n].handle]);
    }
  }

  datatype Answer<K> = Answer(key: K, handle: Handle, content: Bytes)

  /** What the entries should get. */
  ghost function Wanted<K>(objects: seq<Bytes>, entries: seq<Entry<K>>): seq<Answer<K>> {
    Map((e: Entry<K>) => Answer(e.key, e.handle, ObjectOf(objects, e.handle)), entries)
  }

  /** What they got. */
  ghost function Got<K>(results: seq<(Entry<K>, Bytes)>): seq<Answer<K>> {
    Map((x: (Entry<K>, Bytes)) => Answer(x.0.key, x.0.handle, x.1), results)
  }

  /** What the first n frames should yield. */
  ghost function Gathered<K>(objects: seq<Bytes>, starts: seq<nat>, n: nat, entries: seq<Entry<K>>): multiset<Answer<K>> {
    if n == 0 then multiset{} else
      Gathered(objects, starts, n - 1, entries) + multiset(Wanted(objects, Local(starts, n - 1, entries)))
  }

  lemma LocalSnoc<K>(objects: seq<Bytes>, starts: seq<nat>, i: nat, entries: seq<Entry<K>>, e: Entry<K>, f: nat)
    requires IsFrameOf(starts, e.meta.offset, f) && i < |starts|
    ensures Wanted(objects, Local(starts, i, entries + [e]))
      == Wanted(objects, Local(starts, i, entries)) + if f == i then Wanted(objects, [e]) else []
  {}

  lemma {:induction false} GatheredSnoc<K>(objects: seq<Bytes>, starts: seq<nat>, n: nat, entries: seq<Entry<K>>, e: Entry<K>, f: nat)
    requires IsFrameOf(starts, e.meta.offset, f) && n <= |starts|
    ensures Gathered(objects, starts, n, entries + [e])
      == Gathered(objects, starts, n, entries) + if f < n then multiset(Wanted(objects, [e])) else multiset{}
  {
    hide Local, Wanted, IsFrameOf;
    if n > 0 {
      GatheredSnoc(objects, starts, n - 1, entries, e, f);
      LocalSnoc(objects, starts, n - 1, entries, e, f);
    }
  }

  lemma {:induction false} LastFrame(starts: seq<nat>, offset: nat, n: nat) returns (f: nat)
    requires 0 < n <= |starts| && starts[0] == 0 && forall j :: n <= j < |starts| ==> starts[j] > offset
    ensures IsFrameOf(starts, offset, f)
  {
    if starts[n-1] <= offset { f := n - 1; } else { f := LastFrame(starts, offset, n - 1); }
  }

  /** Every entry is in exactly one frame: nothing is lost and nothing is read twice. */
  lemma {:induction false} GatheredAll<K>(objects: seq<Bytes>, starts: seq<nat>, entries: seq<Entry<K>>)
    requires starts != [] && starts[0] == 0
    ensures Gathered(objects, starts, |starts|, entries) == multiset(Wanted(objects, entries))
  {
    if entries == [] {
      NothingGathered<K>(objects, starts, |starts|);
    } else {
      var front, last := entries[..|entries|-1], entries[|entries|-1];
      assert entries == front + [last];
      GatheredAll(objects, starts, front);
      var f := LastFrame(starts, last.meta.offset, |starts|);
      GatheredSnoc(objects, starts, |starts|, front, last, f);
      assert Wanted(objects, entries) == Wanted(objects, front) + Wanted(objects, [last]);
    }
  }

  lemma {:induction false} NothingGathered<K>(objects: seq<Bytes>, starts: seq<nat>, n: nat)
    ensures Gathered<K>(objects, starts, n, []) == multiset{}
  {
    if n > 0 { NothingGathered<K>(objects, starts, n - 1); }
  }

  /** A link with an empty object and an object that starts where it is placed. */
  predicate SameStart<K>(a: Entry<K>, b: Entry<K>) { a.meta.size > 0 && b.link && b.meta.size == 0 && a.meta.offset == b.meta.offset }

  ghost predicate NoTie<K>(entries: seq<Entry<K>>) { NoPair(SameStart, entries) }

  /** In a pack an empty object lies inside no other, so only one that starts there hits. */
  lemma FrameHits<K(!new)>(pack: Pack, codec: Codec, raws: seq<Bytes>, objects: seq<Bytes>, metas: seq<Meta>,
                           entries: seq<Entry<K>>, i: nat)
    requires StoredIn(raws, objects, metas) && AsIndexed(entries, objects, metas)
    ensures var local := Local(StartsOf(pack.frames), i, entries);
      NoHit(Sort(ByOffset, local)) <==> NoTie(local)
  {
    hide Sort;
    var local := Local(StartsOf(pack.frames), i, entries);
    var sorted := Sort(ByOffset, local);
    SortStable(ByOffset, SameStart, local);
    forall a, b | 0 <= a < |sorted| && 0 <= b < |sorted| ensures Hit(sorted[a], sorted[b]) <==> SameStart(sorted[a], sorted[b]) {
      LocalHit(StartsOf(pack.frames), raws, objects, metas, entries, i, sorted[a], sorted[b]);
    }
  }

  lemma LocalHit<K>(starts: seq<nat>, raws: seq<Bytes>, objects: seq<Bytes>, metas: seq<Meta>, entries: seq<Entry<K>>, i: nat, x: Entry<K>, y: Entry<K>)
    requires StoredIn(raws, objects, metas) && AsIndexed(entries, objects, metas)
    requires x in Local(starts, i, entries) && y in Local(starts, i, entries)
    ensures Hit(x, y) <==> SameStart(x, y)
  {
    hide Local, InFrame;
    var local := Local(starts, i, entries);
    var k :| 0 <= k < |local| && local[k] == x;
    var l :| 0 <= l < |local| && local[l] == y;
    var m := LocalFrom(starts, i, entries, k);
    var n := LocalFrom(starts, i, entries, l);
    assert entries[m].handle != entries[n].handle ==> Apart(metas[entries[m].handle], metas[entries[n].handle]);
  }

  lemma {:induction false} LocalHas<K>(starts: seq<nat>, i: nat, entries: seq<Entry<K>>, x: Entry<K>)
    requires x in entries && IsFrameOf(starts, x.meta.offset, i)
    ensures Localized(x, starts[i]) in Local(starts, i, entries)
  {
    var front, last := entries[..|entries|-1], entries[|entries|-1];
    assert entries == front + [last];
    if x in front { LocalHas(starts, i, front, x); }
  }

  ghost predicate NoTieInFrames<K>(starts: seq<nat>, n: nat, entries: seq<Entry<K>>) {
    forall i :: 0 <= i < n ==> NoTie(Local(starts, i, entries))
  }

  /** Entries with one offset go to one frame and keep their order there. */
  lemma {:induction false} TiesByFrame<K>(starts: seq<nat>, entries: seq<Entry<K>>)
    requires starts != [] && starts[0] == 0
    ensures NoTie(entries) <==> NoTieInFrames(starts, |starts|, entries)
  {
    if entries == [] {
      forall i | 0 <= i < |starts| ensures NoTie(Local(starts, i, entries)) {}
    } else {
      var front, last := entries[..|entries|-1], entries[|entries|-1];
      assert entries == front + [last];
      TiesByFrame(starts, front);
      NoPairSnoc(SameStart<K>, front, last);
      assert NoTie(entries) <==> NoTie(front) && forall x :: x in front ==> !SameStart(x, last);
      var f := LastFrame(starts, last.meta.offset, |starts|);
      hide NoTie, Local;
      forall i | 0 <= i < |starts| ensures NoTie(Local(starts, i, entries)) <==>
        NoTie(Local(starts, i, front)) && (i == f ==> forall x :: x in front ==> !SameStart(x, last))
      {
        FrameTies(starts, i, f, front, last);
      }
      if NoTieInFrames(starts, |starts|, entries) {
        assert NoTie(Local(starts, f, entries));
        forall i | 0 <= i < |starts| ensures NoTie(Local(starts, i, front)) { assert NoTie(Local(starts, i, entries)); }
      }
      if NoTie(entries) {
        forall i | 0 <= i < |starts| ensures NoTie(Local(starts, i, entries)) { assert NoTie(Local(starts, i, front)); }
      }
    }
  }

  lemma FrameTies<K>(starts: seq<nat>, i: nat, f: nat, front: seq<Entry<K>>, last: Entry<K>)
    requires IsFrameOf(starts, last.meta.offset, f)
    ensures NoTie(Local(starts, i, front + [last])) <==>
      NoTie(Local(starts, i, front)) && (i == f ==> forall x :: x in front ==> !SameStart(x, last))
  {
    if i == f { TiesWithLast(starts, f, front, last); } else { OtherFrame(starts, i, f, front, last); }
  }

  lemma OtherFrame<K>(starts: seq<nat>, i: nat, f: nat, front: seq<Entry<K>>, last: Entry<K>)
    requires IsFrameOf(starts, last.meta.offset, f) && i != f
    ensures Local(starts, i, front + [last]) == Local(starts, i, front)
  {
    assert (front + [last])[..|front|] == front;
  }

  lemma TiesWithLast<K>(starts: seq<nat>, f: nat, front: seq<Entry<K>>, last: Entry<K>)
    requires IsFrameOf(starts, last.meta.offset, f)
    ensures NoTie(Local(starts, f, front + [last])) <==>
      NoTie(Local(starts, f, front)) && forall x :: x in front ==> !SameStart(x, last)
  {
    var local, moved := Local(starts, f, front), Localized(last, starts[f]);
    assert (front + [last])[..|front|] == front;
    assert Local(starts, f, front + [last]) == local + [moved];
    NoPairSnoc(SameStart<K>, local, moved);
    forall x | x in front && SameStart(x, last) ensures Localized(x, starts[f]) in local && SameStart(Localized(x, starts[f]), moved) {
      LocalHas(starts, f, front, x);
    }
    forall y | y in local && SameStart(y, moved) ensures exists x :: x in front && SameStart(x, last) {
      var k :| 0 <= k < |local| && local[k] == y;
      var n := LocalFrom(starts, f, front, k);
      assert front[n] in front && SameStart(front[n], last);
    }
  }

  lemma SortedSlices<K(!new)>(pack: Pack, codec: Codec, raws: seq<Bytes>, objects: seq<Bytes>, metas: seq<Meta>,
                              entries: seq<Entry<K>>, i: nat, k: nat)
    requires HoldsFrames(pack, codec, raws) && StoredIn(raws, objects, metas) && AsIndexed(entries, objects, metas)
    requires i < |raws| && k < |Sort(ByOffset, Local(StartsOf(pack.frames), i, entries))|
    ensures var e := Sort(ByOffset, Local(StartsOf(pack.frames), i, entries))[k];
      Slice(Concat(raws[i..]), e.meta) == ObjectOf(objects, e.handle)
  {
    hide Sort, Local, HoldsFrames, StoredIn, AsIndexed, Slice, StartsOf, Concat;
    var local := Local(StartsOf(pack.frames), i, entries);
    var sorted := Sort(ByOffset, local);
    SortFacts(ByOffset<K>, local);
    assert sorted[k] in multiset(sorted);
    assert sorted[k] in local;
    var l :| 0 <= l < |local| && local[l] == sorted[k];
    LocalSlice(pack, codec, raws, objects, metas, entries, i, l);
  }

  /** One frame's results are what its entries should get. */
  lemma FrameAnswers<K(!new)>(pack: Pack, codec: Codec, raws: seq<Bytes>, objects: seq<Bytes>, metas: seq<Meta>,
                              entries: seq<Entry<K>>, i: nat, results: seq<(Entry<K>, Bytes)>)
    requires HoldsFrames(pack, codec, raws) && StoredIn(raws, objects, metas) && AsIndexed(entries, objects, metas)
    requires i < |raws|
    requires var local := Local(StartsOf(pack.frames), i, entries);
      results == Map((e: Entry<K>) => (e, Slice(Concat(raws[i..]), e.meta)), Sort(ByOffset, local))
    ensures multiset(Got(results)) == multiset(Wanted(objects, Local(StartsOf(pack.frames), i, entries)))
  {
    hide Sort, Local, HoldsFrames, StoredIn, AsIndexed, Slice, StartsOf, Concat, ObjectOf;
    var local := Local(StartsOf(pack.frames), i, entries);
    var sorted := Sort(ByOffset, local);
    SortFacts(ByOffset<K>, local);
    forall k | 0 <= k < |sorted| ensures Slice(Concat(raws[i..]), sorted[k].meta) == ObjectOf(objects, sorted[k].handle) {
      SortedSlices(pack, codec, raws, objects, metas, entries, i, k);
    }
    assert Got(results) == Wanted(objects, sorted);
    MapMultiset((e: Entry<K>) => Answer(e.key, e.handle, ObjectOf(objects, e.handle)), sorted, local);
  }

  ghost predicate Requested<K>(pack: Pack, codec: Codec, entries: seq<Entry<K>>, objects: seq<Bytes>, metas: seq<Meta>) {
    Lawful(codec) && Stored(pack, codec, objects, metas) && AsIndexed(entries, objects, metas)
  }

  ghost predicate Known<K>(pack: Pack, codec: Codec, entries: seq<Entry<K>>, raws: seq<Bytes>, objects: seq<Bytes>, metas: seq<Meta>) {
    Requested(pack, codec, entries, objects, metas) && HoldsFrames(pack, codec, raws) && StoredIn(raws, objects, metas)
  }

  /** Some entry has got other bytes than its object's. */
  ghost predicate Wrong<K(!new)>(objects: seq<Bytes>, results: seq<(Entry<K>, Bytes)>) {
    exists k :: 0 <= k < |results| && results[k].1 != ObjectOf(objects, results[k].0.handle)
  }

  ghost predicate Clear<K>(extracting: bool, local: seq<Entry<K>>) { extracting ==> NoTie(local) }

  ghost predicate ClearUpTo<K>(extracting: bool, starts: seq<nat>, n: nat, entries: seq<Entry<K>>) {
    extracting ==> NoTieInFrames(starts, n, entries)
  }

  /** One reader, placed at its frame and run over the entries of that frame. */
  method ReadFrame<K(!new)>(codec: Codec, body: Bytes, offset: nat, local: seq<Entry<K>>, extracting: bool, ghost i: nat, ghost pack: Pack,
                            ghost entries: seq<Entry<K>>, ghost raws: seq<Bytes>, ghost objects: seq<Bytes>, ghost metas: seq<Meta>)
    returns (r: Read<seq<(Entry<K>, Bytes)>>)
    requires i < |pack.frames| && body == pack.body && offset == Prefixes(FrameSizes(pack.frames))[i]
    requires local == Local(StartsOf(pack.frames), i, entries)
    ensures Known(pack, codec, entries, raws, objects, metas) ==> r.Done?
    ensures Known(pack, codec, entries, raws, objects, metas) ==>
      if Clear(extracting, local) then multiset(Got(r.value)) == multiset(Wanted(objects, local)) else Wrong(objects, r.value)
  {
    ghost var good := Known(pack, codec, entries, raws, objects, metas);
    var reader := new PackReader(codec.unzip(Drop(body, offset)));
    if good { FrameReady(pack, codec, raws, objects, metas, entries, i); }
    hide Known, Local, Sort, Readable, Got, Wanted, Prefixes, StartsOf, FrameSizes, Drop, Handed, NoHit, NoTie, Wrong;
    if extracting {
      r := ExtractFiles(reader, local);
      if good { FrameExtracted(pack, codec, raws, objects, metas, entries, i, r.value); }
    } else {
      r := ReadObjects(reader, local);
      if good { FrameRead(pack, codec, raws, objects, metas, entries, i, r.value); }
    }
  }

  lemma FrameRead<K(!new)>(pack: Pack, codec: Codec, raws: seq<Bytes>, objects: seq<Bytes>, metas: seq<Meta>,
                           entries: seq<Entry<K>>, i: nat, results: seq<(Entry<K>, Bytes)>)
    requires Known(pack, codec, entries, raws, objects, metas) && i < |raws|
    requires var local := Local(StartsOf(pack.frames), i, entries);
      results == Map((e: Entry<K>) => (e, Slice(Concat(raws[i..]), e.meta)), Sort(ByOffset, local))
    ensures multiset(Got(results)) == multiset(Wanted(objects, Local(StartsOf(pack.frames), i, entries)))
  {
    FrameAnswers(pack, codec, raws, objects, metas, entries, i, results);
  }

  lemma FrameExtracted<K(!new)>(pack: Pack, codec: Codec, raws: seq<Bytes>, objects: seq<Bytes>, metas: seq<Meta>,
                                entries: seq<Entry<K>>, i: nat, results: seq<(Entry<K>, Bytes)>)
    requires Known(pack, codec, entries, raws, objects, metas) && i < |raws|
    requires var local, stream := Local(StartsOf(pack.frames), i, entries), Concat(raws[i..]);
      && Readable(stream, local) && Handed(results, stream, Sort(ByOffset, local), |local|)
      && (NoHit(Sort(ByOffset, local)) <==> results == Map((e: Entry<K>) => (e, Slice(stream, e.meta)), Sort(ByOffset, local)))
    ensures var local := Local(StartsOf(pack.frames), i, entries);
      if NoTie(local) then multiset(Got(results)) == multiset(Wanted(objects, local)) else Wrong(objects, results)
  {
    var local := Local(StartsOf(pack.frames), i, entries);
    ReadableSorted(Concat(raws[i..]), local);
    FrameHits(pack, codec, raws, objects, metas, entries, i);
    hide Local, Lawful, Stored, HoldsFrames, StoredIn, AsIndexed, Sort, Readable, Got, Wanted, StartsOf, Handed, NoHit, NoTie, Wrong, Concat;
    if NoTie(local) {
      FrameAnswers(pack, codec, raws, objects, metas, entries, i, results);
    } else {
      HitIsWrong(pack, codec, raws, objects, metas, entries, i, results);
    }
  }

  lemma HitIsWrong<K(!new)>(pack: Pack, codec: Codec, raws: seq<Bytes>, objects: seq<Bytes>, metas: seq<Meta>,
                            entries: seq<Entry<K>>, i: nat, results: seq<(Entry<K>, Bytes)>)
    requires HoldsFrames(pack, codec, raws) && StoredIn(raws, objects, metas) && AsIndexed(entries, objects, metas) && i < |raws|
    requires var sorted := Sort(ByOffset, Local(StartsOf(pack.frames), i, entries));
      Readable(Concat(raws[i..]), sorted) && Handed(results, Concat(raws[i..]), sorted, |sorted|) && !NoHit(sorted)
    ensures Wrong(objects, results)
  {
    var sorted := Sort(ByOffset, Local(StartsOf(pack.frames), i, entries));
    HandedRight(results, Concat(raws[i..]), sorted);
    hide Sort, Local, HoldsFrames, StoredIn, AsIndexed, StartsOf, Concat, Readable, NoHit, Hands, Slice;
    var k :| 0 <= k < |sorted| && results[k].1 != Slice(Concat(raws[i..]), sorted[k].meta);
    SortedSlices(pack, codec, raws, objects, metas, entries, i, k);
  }

  /** The frames that are asked for anything, one after the other. */
  method ReadAssigned<K(!new)>(codec: Codec, pack: Pack, perFrame: seq<seq<Entry<K>>>, offsets: seq<nat>, extracting: bool,
                               ghost entries: seq<Entry<K>>, ghost raws: seq<Bytes>, ghost objects: seq<Bytes>, ghost metas: seq<Meta>)
    returns (r: Read<seq<(Entry<K>, Bytes)>>)
    requires |perFrame| == |pack.frames| && offsets == Prefixes(FrameSizes(pack.frames))
    requires forall i :: 0 <= i < |perFrame| ==> perFrame[i] == Local(StartsOf(pack.frames), i, entries)
    ensures Known(pack, codec, entries, raws, objects, metas) ==> r.Done?
    ensures Known(pack, codec, entries, raws, objects, metas) ==>
      if ClearUpTo(extracting, StartsOf(pack.frames), |pack.frames|, entries)
      then multiset(Got(r.value)) == Gathered(objects, StartsOf(pack.frames), |pack.frames|, entries) else Wrong(objects, r.value)
  {
    hide Known, Local, Gathered, Clear, Wanted, Got, Prefixes, StartsOf, Wrong;
    ghost var starts := StartsOf(pack.frames);
    ghost var good := Known(pack, codec, entries, raws, objects, metas);
    var results: seq<(Entry<K>, Bytes)> := [];
    NoneGathered(objects, starts, entries);
    for i := 0 to |pack.frames|
      invariant good && ClearUpTo(extracting, starts, i, entries) ==> multiset(Got(results)) == Gathered(objects, starts, i, entries)
      invariant good && !ClearUpTo(extracting, starts, i, entries) ==> Wrong(objects, results)
    {
      OneMore(objects, starts, i, entries);
      OneMoreClear(extracting, starts, i, entries);
      if perFrame[i] != [] {
        var frame := ReadFrame(codec, pack.body, offsets[i], perFrame[i], extracting, i, pack, entries, raws, objects, metas);
        if !frame.Done? { return UnexpectedEnd; }
        GotConcat(results, frame.value);
        WrongConcat(objects, results, frame.value);
        results := results + frame.value;
      }
    }
    return Done(results);
  }

  lemma OneMoreClear<K>(extracting: bool, starts: seq<nat>, i: nat, entries: seq<Entry<K>>)
    ensures ClearUpTo(extracting, starts, 0, entries)
    ensures ClearUpTo(extracting, starts, i + 1, entries) <==> ClearUpTo(extracting, starts, i, entries) && Clear(extracting, Local(starts, i, entries))
    ensures Local(starts, i, entries) == [] ==> Clear(extracting, Local(starts, i, entries))
  {
    hide Local;
  }

  lemma WrongConcat<K(!new)>(objects: seq<Bytes>, a: seq<(Entry<K>, Bytes)>, b: seq<(Entry<K>, Bytes)>)
    ensures Wrong(objects, a) || Wrong(objects, b) ==> Wrong(objects, a + b)
  {
    var both := a + b;
    assert forall k :: 0 <= k < |a| ==> both[k] == a[k];
    assert forall k :: 0 <= k < |b| ==> both[|a| + k] == b[k];
  }

  /** extract_entries and read_entry_objects: `extracting` picks the loop that writes files.
      Reading gives every entry its object; extracting does exactly when no link with an
      empty object stands behind an entry of an object that starts where it is placed. */
  method ReadFrames<K(!new)>(pack: Pack, codec: Codec, entries: seq<Entry<K>>, extracting: bool,
                             ghost objects: seq<Bytes>, ghost metas: seq<Meta>)
    returns (r: Read<seq<(Entry<K>, Bytes)>>)
    ensures entries == [] ==> r == Done([])
    ensures Requested(pack, codec, entries, objects, metas) ==>
      r.Done? && (multiset(Got(r.value)) == multiset(Wanted(objects, entries)) <==> Clear(extracting, entries))
  {
    if entries == [] { return Done([]); }
    hide Known, Requested, Local, Gathered, Clear, ClearUpTo, Wanted, Got, Prefixes, StartsOf, Wrong;
    ghost var good := Requested(pack, codec, entries, objects, metas);
    ghost var raws: seq<Bytes> := [];
    if good { raws := KnownRaws(pack, codec, entries, objects, metas); }
    var perFrame := AssignToFrames(pack.frames, entries);
    if !perFrame.Done? { return CorruptPack; }
    var offsets := PrefixSums(FrameSizes(pack.frames));
    r := ReadAssigned(codec, pack, perFrame.value, offsets[..], extracting, entries, raws, objects, metas);
    if good {
      AllGathered(pack, codec, raws, objects, metas, entries);
      AllClear(pack, codec, raws, objects, metas, extracting, entries);
      if Wrong(objects, r.value) { WrongIsUnwanted(objects, entries, r.value); }
    }
  }

  lemma AllClear<K>(pack: Pack, codec: Codec, raws: seq<Bytes>, objects: seq<Bytes>, metas: seq<Meta>, extracting: bool, entries: seq<Entry<K>>)
    requires Known(pack, codec, entries, raws, objects, metas) && entries != []
    ensures ClearUpTo(extracting, StartsOf(pack.frames), |pack.frames|, entries) <==> Clear(extracting, entries)
  {
    assert entries[0].handle < |objects|;
    StartsMatch(pack, codec, raws, 0);
    TiesByFrame(StartsOf(pack.frames), entries);
  }

  lemma WrongIsUnwanted<K(!new)>(objects: seq<Bytes>, entries: seq<Entry<K>>, results: seq<(Entry<K>, Bytes)>)
    requires Wrong(objects, results)
    ensures multiset(Got(results)) != multiset(Wanted(objects, entries))
  {
    var k :| 0 <= k < |results| && results[k].1 != ObjectOf(objects, results[k].0.handle);
    if Answered(objects, entries, results) { AnswerIsRight(results, objects, entries, k); }
  }

  lemma KnownRaws<K>(pack: Pack, codec: Codec, entries: seq<Entry<K>>, objects: seq<Bytes>, metas: seq<Meta>) returns (raws: seq<Bytes>)
    requires Requested(pack, codec, entries, objects, metas) && entries != []
    ensures Known(pack, codec, entries, raws, objects, metas) && pack.frames != []
  {
    raws :| HoldsFrames(pack, codec, raws) && StoredIn(raws, objects, metas);
    assert entries[0].handle < |objects|;
  }

  lemma GotConcat<K>(a: seq<(Entry<K>, Bytes)>, b: seq<(Entry<K>, Bytes)>)
    ensures multiset(Got(a + b)) == multiset(Got(a)) + multiset(Got(b))
  {
    assert Got(a + b) == Got(a) + Got(b);
  }

  lemma NoneGathered<K>(objects: seq<Bytes>, starts: seq<nat>, entries: seq<Entry<K>>)
    ensures Gathered(objects, starts, 0, entries) == multiset{} == multiset(Got<K>([]))
  {}

  lemma OneMore<K>(objects: seq<Bytes>, starts: seq<nat>, i: nat, entries: seq<Entry<K>>)
    ensures Gathered(objects, starts, i + 1, entries)
      == Gathered(objects, starts, i, entries) + multiset(Wanted(objects, Local(starts, i, entries)))
    ensures Local(starts, i, entries) == [] ==> multiset(Wanted(objects, Local(starts, i, entries))) == multiset{}
  {}

  lemma FrameReady<K>(pack: Pack, codec: Codec, raws: seq<Bytes>, objects: seq<Bytes>, metas: seq<Meta>, entries: seq<Entry<K>>, i: nat)
    requires Known(pack, codec, entries, raws, objects, metas) && i < |pack.frames|
    ensures i < |raws| && AsIndexed(entries, objects, metas)
    ensures codec.unzip(Drop(pack.body, Prefixes(FrameSizes(pack.frames))[i])) == Concat(raws[i..])
    ensures Readable(Concat(raws[i..]), Local(StartsOf(pack.frames), i, entries))
  {
    hide Readable, Prefixes;
    FrameStream(pack, codec, raws, i);
    LocalReadable(pack, codec, raws, objects, metas, entries, i);
  }

  lemma AllGathered<K>(pack: Pack, codec: Codec, raws: seq<Bytes>, objects: seq<Bytes>, metas: seq<Meta>, entries: seq<Entry<K>>)
    requires Known(pack, codec, entries, raws, objects, metas) && entries != []
    ensures Gathered(objects, StartsOf(pack.frames), |pack.frames|, entries) == multiset(Wanted(objects, entries))
  {
    assert entries[0].handle < |objects|;
    StartsMatch(pack, codec, raws, 0);
    GatheredAll(objects, StartsOf(pack.frames), entries);
  }

  ghost predicate Right<K>(objects: seq<Bytes>, byKey: map<(K, Handle), Bytes>) {
    forall k :: k in byKey ==> byKey[k] == ObjectOf(objects, k.1)
  }

  ghost predicate Answered<K(!new)>(objects: seq<Bytes>, entries: seq<Entry<K>>, results: seq<(Entry<K>, Bytes)>) {
    multiset(Got(results)) == multiset(Wanted(objects, entries))
  }

  method IndexByKey<K(==, !new)>(results: seq<(Entry<K>, Bytes)>, ghost objects: seq<Bytes>, ghost entries: seq<Entry<K>>)
    returns (byKey: map<(K, Handle), Bytes>)
    ensures forall m :: 0 <= m < |results| ==> (results[m].0.key, results[m].0.handle) in byKey
    ensures Answered(objects, entries, results) ==> Right(objects, byKey)
  {
    hide Answered;
    byKey := map[];
    for n := 0 to |results|
      invariant forall m :: 0 <= m < n ==> (results[m].0.key, results[m].0.handle) in byKey
      invariant Answered(objects, entries, results) ==> Right(objects, byKey)
    {
      var (e, content) := results[n];
      if Answered(objects, entries, results) { AnswerIsRight(results, objects, entries, n); }
      byKey := byKey[(e.key, e.handle) := content];
    }
  }

  /** Repository::read_entry_objects: the objects in the order of the request. */
  method ReadEntryObjects<K(==, !new)>(pack: Pack, codec: Codec, entries: seq<Entry<K>>, ghost objects: seq<Bytes>, ghost metas: seq<Meta>)
    returns (r: Read<seq<Bytes>>)
    ensures Requested(pack, codec, entries, objects, metas) ==> r == Done(Map((e: Entry<K>) => ObjectOf(objects, e.handle), entries))
  {
    hide Requested, Got, Wanted;
    var found := ReadFrames(pack, codec, entries, false, objects, metas);
    if !found.Done? {
      return match found case CorruptPack => CorruptPack case UnexpectedEnd => UnexpectedEnd case _ => ObjectNotFound;
    }
    ghost var good := Answered(objects, entries, found.value);
    assert Requested(pack, codec, entries, objects, metas) ==> good;
    hide Answered;
    var byKey := IndexByKey(found.value, objects, entries);
    var contents: seq<Bytes> := [];
    for n := 0 to |entries|
      invariant good ==> contents == Map((e: Entry<K>) => ObjectOf(objects, e.handle), entries[..n])
    {
      var k := (entries[n].key, entries[n].handle);
      if good { var m := AnswerExists(found.value, objects, entries, n); }
      if k !in byKey { return ObjectNotFound; }
      contents := contents + [byKey[k]];
    }
    assert entries[..|entries|] == entries;
    return Done(contents);
  }

  lemma AnswerIsRight<K(!new)>(results: seq<(Entry<K>, Bytes)>, objects: seq<Bytes>, entries: seq<Entry<K>>, n: nat)
    requires Answered(objects, entries, results) && n < |results|
    ensures results[n].1 == ObjectOf(objects, results[n].0.handle)
  {
    assert Got(results)[n] in multiset(Got(results));
    assert Got(results)[n] in Wanted(objects, entries);
  }

  lemma AnswerExists<K(!new)>(results: seq<(Entry<K>, Bytes)>, objects: seq<Bytes>, entries: seq<Entry<K>>, n: nat) returns (m: nat)
    requires Answered(objects, entries, results) && n < |entries|
    ensures m < |results| && results[m].0.key == entries[n].key && results[m].0.handle == entries[n].handle
  {
    assert Wanted(objects, entries)[n] in multiset(Wanted(objects, entries));
    assert Wanted(objects, entries)[n] in Got(results);
    m :| 0 <= m < |results| && Got(results)[m] == Wanted(objects, entries)[n];
  }

  /** No link with an empty object stands behind an entry of the smallest other object. */
  ghost predicate LinksFirst<K>(objects: seq<Bytes>, request: seq<Entry<K>>)
    requires forall n :: 0 <= n < |request| ==> request[n].handle < |objects|
  {
    forall m, n :: 0 <= m < n < |request| && request[n].link && objects[request[n].handle] == [] ==> !Smallest(Sizes(objects), request[m].handle)
  }

  /** For instance: the request of `EmptyLinkHit`, and the same one the other way round. */
  lemma LinkBehindFile<K>(file: Entry<K>, link: Entry<K>)
    requires file.handle == 0 && !file.link && link.handle == 1 && link.link
    ensures !LinksFirst([[7], []], [file, link]) && LinksFirst([[7], []], [link, file])
  {
    var objects: seq<Bytes> := [[7], []];
    assert Sizes(objects) == [1, 0] && Smallest(Sizes(objects), 0);
    var request := [file, link];
    assert request[0] == file && request[1] == link && objects[request[1].handle] == [];
  }

  lemma TiesAreSmallest<K>(objects: seq<Bytes>, metas: seq<Meta>, request: seq<Entry<K>>, entries: seq<Entry<K>>)
    requires |metas| == |objects| && (forall h :: 0 <= h < |objects| ==> metas[h].size == |objects[h]|)
    requires forall h :: 0 <= h < |objects| ==> (metas[h].offset == 0 <==> objects[h] == [] || Smallest(Sizes(objects), h))
    requires forall n :: 0 <= n < |request| ==> request[n].handle < |objects|
    requires |entries| == |request| && forall n :: 0 <= n < |request| ==> entries[n] == request[n].(meta := metas[request[n].handle])
    ensures NoTie(entries) <==> LinksFirst(objects, request)
  {
    forall m, n | 0 <= m < n < |request|
      ensures SameStart(entries[m], entries[n]) <==>
        request[n].link && objects[request[n].handle] == [] && Smallest(Sizes(objects), request[m].handle)
    {
      hide Smallest;
      assert Smallest(Sizes(objects), request[m].handle) ==> objects[request[m].handle] != [] by { SmallestHasBytes(objects, request[m].handle); }
    }
    hide Smallest;
  }

  lemma SmallestHasBytes(objects: seq<Bytes>, h: Handle)
    ensures Smallest(Sizes(objects), h) ==> h < |objects| && objects[h] != []
  {}

  /** Whatever objects go into a pack, however many frames are asked for, any request
      that uses the index built with it gets exactly the objects it names, in order. An
      extraction writes every entry that entry's bytes if and only if no link with an empty
      object stands in the request behind an entry of the smallest other object. */
  method WriteThenRead<K(==, !new)>(objects: seq<Bytes>, numFrames: U32, codec: Codec, workers: nat, request: seq<Entry<K>>)
    returns (contents: Read<seq<Bytes>>, files: Read<seq<(Entry<K>, Bytes)>>)
    requires workers != 0
    requires forall n :: 0 <= n < |request| ==> request[n].handle < |objects|
    ensures Lawful(codec) ==> contents == Done(Map((e: Entry<K>) => ObjectOf(objects, e.handle), request))
    ensures Lawful(codec) ==>
      files.Done? && (multiset(Got(files.value)) == multiset(Wanted(objects, request)) <==> LinksFirst(objects, request))
  {
    var pack, metas := WritePack(objects, numFrames, codec, workers);
    StoredSizes(pack, codec, objects, metas);
    var entries := seq(|request|, n requires 0 <= n < |request| => request[n].(meta := metas[request[n].handle]));
    TiesAreSmallest(objects, metas, request, entries);
    hide Stored, Lawful, NoTie, Smallest, LinksFirst;
    contents := ReadEntryObjects(pack, codec, entries, objects, metas);
    files := ReadFrames(pack, codec, entries, true, objects, metas);
    assert Map((e: Entry<K>) => ObjectOf(objects, e.handle), entries) == Map((e: Entry<K>) => ObjectOf(objects, e.handle), request);
    assert Wanted(objects, entries) == Wanted(objects, request);
  }

  lemma StoredSizes(pack: Pack, codec: Codec, objects: seq<Bytes>, metas: seq<Meta>)
    requires Stored(pack, codec, objects, metas)
    ensures |metas| == |objects| && forall h :: 0 <= h < |objects| ==> metas[h].size == |objects[h]|
  {}
}
