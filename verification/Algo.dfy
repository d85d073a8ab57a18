/** The partitioner and the chunking of run_in_parallel. */
module Algo {

  function Concat<T>(parts: seq<seq<T>>): seq<T> {
    if parts == [] then [] else parts[0] + Concat(parts[1..])
  }

  lemma {:induction false} ConcatAppend<T>(parts: seq<seq<T>>, last: seq<T>)
    ensures Concat(parts + [last]) == Concat(parts) + last
  {
    if parts == [] {
      assert parts + [last] == [last];
      assert Concat([last]) == last + Concat([last][1..]);
    } else {
      assert (parts + [last])[1..] == parts[1..] + [last];
      ConcatAppend(parts[1..], last);
    }
  }

  function Sum(s: seq<nat>): nat {
    if s == [] then 0 else Sum(s[..|s|-1]) + s[|s|-1]
  }

  lemma {:induction false} SumConcat(a: seq<nat>, b: seq<nat>)
    ensures Sum(a + b) == Sum(a) + Sum(b)
  {
    if b == [] {
      assert a + b == a;
    } else {
      assert (a + b)[..|a + b| - 1] == a + b[..|b|-1];
      SumConcat(a, b[..|b|-1]);
    }
  }

  function Map<T, U>(f: T -> U, s: seq<T>): (r: seq<U>)
    ensures |r| == |s| && forall i :: 0 <= i < |s| ==> r[i] == f(s[i])
  {
    seq(|s|, i requires 0 <= i < |s| => f(s[i]))
  }

  lemma MapConcat<T, U>(f: T -> U, a: seq<T>, b: seq<T>)
    ensures Map(f, a + b) == Map(f, a) + Map(f, b)
  {}

  lemma Removing<T>(s: seq<T>, i: nat)
    requires i < |s|
    ensures multiset(s) == multiset{s[i]} + multiset(s[..i] + s[i+1..])
  {
    assert s == s[..i] + [s[i]] + s[i+1..];
  }

  lemma Cancel<T>(x: T, a: multiset<T>, b: multiset<T>)
    requires multiset{x} + a == multiset{x} + b
    ensures a == b
  {
    assert a == multiset{x} + a - multiset{x};
  }

  lemma MapRemoving<T, U>(f: T -> U, s: seq<T>, i: nat)
    requires i < |s|
    ensures multiset(Map(f, s)) == multiset{f(s[i])} + multiset(Map(f, s[..i] + s[i+1..]))
  {
    Removing(Map(f, s), i);
    assert Map(f, s)[..i] + Map(f, s)[i+1..] == Map(f, s[..i] + s[i+1..]);
  }

  /** Mapping a rearrangement gives a rearrangement. */
  lemma {:induction false} MapMultiset<T, U>(f: T -> U, a: seq<T>, b: seq<T>)
    requires multiset(a) == multiset(b)
    ensures multiset(Map(f, a)) == multiset(Map(f, b))
    decreases |a|
  {
    hide Map;
    if a == [] {
      assert |multiset(a)| == |multiset(b)|;
    } else {
      assert a[0] in multiset(a);
      var i :| 0 <= i < |b| && b[i] == a[0];
      Removing(a, 0);
      Removing(b, i);
      Cancel(a[0], multiset(a[..0] + a[1..]), multiset(b[..i] + b[i+1..]));
      MapMultiset(f, a[..0] + a[1..], b[..i] + b[i+1..]);
      MapRemoving(f, a, 0);
      MapRemoving(f, b, i);
    }
  }

  // ---- partition_by_u64 -------------------------------------------------------------

  type U32 = n: int | 0 <= n < 0x1_0000_0000

  function Min(a: nat, b: nat): nat { if a < b then a else b }
  function Max(a: nat, b: nat): nat { if a < b then b else a }

  /** How many slices are asked for: the length is cut to 32 bits before comparing. */
  function SliceLimit(length: nat, n: U32): (limit: nat)
    ensures 1 <= limit <= Max(1, Min(n, length))
    ensures length < 0x1_0000_0000 ==> limit == Max(1, Min(n, length))
  {
    Max(Min(n, length % 0x1_0000_0000), 1)
  }

  /** Beyond 2^32 elements the limit is that of what is left after whole multiples of 2^32. */
  lemma LimitWraps(multiple: nat, rest: nat, n: U32)
    requires rest < 0x1_0000_0000
    ensures SliceLimit(multiple * 0x1_0000_0000 + rest, n) == SliceLimit(rest, n)
  {}

  function Weight<T>(eval: T -> nat, s: seq<T>): nat { Sum(Map(eval, s)) }

  lemma WeightSnoc<T>(eval: T -> nat, s: seq<T>, x: T)
    ensures Weight(eval, s + [x]) == Weight(eval, s) + eval(x)
  {
    assert Map(eval, s + [x])[..|s|] == Map(eval, s);
  }

  method TotalWeight<T>(xs: seq<T>, eval: T -> nat) returns (total: nat)
    ensures total == Weight(eval, xs)
  {
    total := 0;
    for k := 0 to |xs|
      invariant total == Weight(eval, xs[..k])
    {
      WeightSnoc(eval, xs[..k], xs[k]);
      assert xs[..k+1] == xs[..k] + [xs[k]];
      total := total + eval(xs[k]);
    }
    assert xs[..|xs|] == xs;
  }

  /** The inner loop: as many elements as fit within the bound. */
  method TakeFitting<T>(xs: seq<T>, begin: nat, bound: nat, eval: T -> nat) returns (i: nat)
    requires begin <= |xs|
    ensures begin <= i <= |xs| && Weight(eval, xs[begin..i]) <= bound
    ensures i < |xs| ==> Weight(eval, xs[begin..i]) + eval(xs[i]) > bound
    ensures i > begin <==> begin < |xs| && eval(xs[begin]) <= bound
  {
    i := begin;
    var curr := 0;
    while i < |xs| && curr + eval(xs[i]) <= bound
      invariant begin <= i <= |xs|
      invariant curr == Weight(eval, xs[begin..i]) <= bound
      invariant if i == begin then curr == 0 else eval(xs[begin]) <= bound
    {
      WeightSnoc(eval, xs[begin..i], xs[i]);
      assert xs[begin..i+1] == xs[begin..i] + [xs[i]];
      curr := curr + eval(xs[i]);
      i := i + 1;
    }
  }

  /** Every slice is non-empty; all but the last keep the bound and were filled as far
      as it allows. */
  ghost predicate Filled<T>(parts: seq<seq<T>>, eval: T -> nat, bound: nat) {
    && (forall i :: 0 <= i < |parts| ==> parts[i] != [])
    && (forall i :: 0 <= i < |parts| - 1 ==> Weight(eval, parts[i]) <= bound < Weight(eval, parts[i]) + eval(parts[i+1][0]))
  }

  /** The slices made so far may be followed by one that starts with `next`. */
  ghost predicate Full<T>(parts: seq<seq<T>>, eval: T -> nat, bound: nat, next: T) {
    parts == [] || Weight(eval, parts[|parts|-1]) <= bound < Weight(eval, parts[|parts|-1]) + eval(next)
  }

  ghost predicate LastKept<T>(parts: seq<seq<T>>, eval: T -> nat, bound: nat) {
    parts != [] ==> Weight(eval, parts[|parts|-1]) <= bound
  }

  /** The last slice keeps the bound as well, unless the slices asked for have run out or
      its first element alone is too much. */
  ghost predicate Ended<T>(parts: seq<seq<T>>, eval: T -> nat, bound: nat, limit: nat) {
    parts != [] && parts[|parts|-1] != [] && Weight(eval, parts[|parts|-1]) > bound ==>
      |parts| == limit || eval(parts[|parts|-1][0]) > bound
  }

  lemma EmptyFilled<T>(eval: T -> nat, bound: nat)
    ensures Filled([], eval, bound) && Concat<T>([]) == [] && LastKept([], eval, bound)
    ensures forall x :: Full([], eval, bound, x)
  {}

  lemma MayFollow<T>(parts: seq<seq<T>>, slice: seq<T>, eval: T -> nat, bound: nat, i: nat, xs: seq<T>)
    requires Weight(eval, slice) <= bound && (i < |xs| ==> Weight(eval, slice) + eval(xs[i]) > bound)
    ensures LastKept(parts + [slice], eval, bound) && (i < |xs| ==> Full(parts + [slice], eval, bound, xs[i]))
  {}

  lemma LastSlice<T>(parts: seq<seq<T>>, slice: seq<T>, eval: T -> nat, bound: nat, limit: nat)
    requires slice != [] && (|parts| + 1 == limit || eval(slice[0]) > bound)
    ensures Ended(parts + [slice], eval, bound, limit)
  {}

  lemma KeptEnds<T>(parts: seq<seq<T>>, eval: T -> nat, bound: nat, limit: nat)
    requires LastKept(parts, eval, bound)
    ensures Ended(parts, eval, bound, limit)
  {}

  lemma PushSlice<T>(parts: seq<seq<T>>, slice: seq<T>, eval: T -> nat, bound: nat)
    requires Filled(parts, eval, bound) && slice != [] && Full(parts, eval, bound, slice[0])
    ensures Filled(parts + [slice], eval, bound)
    ensures Concat(parts + [slice]) == Concat(parts) + slice
  {
    ConcatAppend(parts, slice);
  }

  /** partition_by_u64: contiguous slices that make up the input. */
  method PartitionBy<T>(xs: seq<T>, n: U32, eval: T -> nat) returns (parts: seq<seq<T>>)
    ensures Concat(parts) == xs
    ensures |parts| <= Max(1, Min(n, |xs|))
    ensures Filled(parts, eval, Weight(eval, xs) / SliceLimit(|xs|, n))
    ensures Ended(parts, eval, Weight(eval, xs) / SliceLimit(|xs|, n), SliceLimit(|xs|, n))
  {
    hide Filled, Concat, Weight, SliceLimit, Full, Ended, LastKept;
    parts := [];
    EmptyFilled(eval, Weight(eval, xs) / SliceLimit(|xs|, n));
    KeptEnds([], eval, Weight(eval, xs) / SliceLimit(|xs|, n), SliceLimit(|xs|, n));
    if xs == [] { return []; }
    var limit := SliceLimit(|xs|, n);
    var total := TotalWeight(xs, eval);
    var bound := total / limit;
    var i := 0;
    for round := 0 to limit - 1
      invariant 0 <= i <= |xs| && Concat(parts) == xs[..i] && |parts| <= round
      invariant Filled(parts, eval, bound)
      invariant i < |xs| ==> Full(parts, eval, bound, xs[i])
      invariant i < |xs| ==> |parts| == round || eval(xs[i]) > bound
      invariant LastKept(parts, eval, bound)
    {
      var begin := i;
      i := TakeFitting(xs, begin, bound, eval);
      if begin != i {
        PushSlice(parts, xs[begin..i], eval, bound);
        MayFollow(parts, xs[begin..i], eval, bound, i, xs);
        assert xs[..i] == xs[..begin] + xs[begin..i];
        parts := parts + [xs[begin..i]];
      }
    }
    if i < |xs| {
      PushSlice(parts, xs[i..], eval, bound);
      LastSlice(parts, xs[i..], eval, bound, limit);
      assert xs == xs[..i] + xs[i..];
      parts := parts + [xs[i..]];
    } else {
      KeptEnds(parts, eval, bound, limit);
      assert xs[..i] == xs;
    }
  }

  // ---- run_in_parallel --------------------------------------------------------------

  /** Outputs in the order of the inputs, whatever the chunks; and how many chunks. */
  method RunInParallel<Item, Output>(nthread: nat, items: seq<Item>, workload: Item -> Output)
    returns (outputs: seq<Output>, workers: nat)
    requires nthread != 0
    ensures outputs == Map(workload, items)
    ensures |items| < nthread ==> workers == |items|
    ensures |items| >= nthread ==> workers <= 2 * nthread - 1
  {
    var perThread := if nthread > |items| then 1 else |items| / nthread;
    assert perThread >= 1 by { if nthread <= |items| { QuotientPositive(|items|, nthread); } }
    var chunks: seq<seq<Output>> := [];
    var taken := 0;
    while taken < |items|
      invariant taken <= |items|
      invariant Concat(chunks) == Map(workload, items[..taken])
      invariant taken < |items| ==> taken == |chunks| * perThread
      invariant |chunks| * perThread < |items| + perThread
      invariant perThread == 1 ==> |chunks| == taken
    {
      var upto := if taken + perThread <= |items| then taken + perThread else |items|;
      var chunk := Map(workload, items[taken..upto]);
      ConcatAppend(chunks, chunk);
      MapConcat(workload, items[..taken], items[taken..upto]);
      assert items[..upto] == items[..taken] + items[taken..upto];
      assert (|chunks| + 1) * perThread == |chunks| * perThread + perThread;
      chunks := chunks + [chunk];
      taken := upto;
    }
    assert items[..taken] == items;
    outputs, workers := Concat(chunks), |chunks|;
    if |items| >= nthread { FewWorkers(|items|, nthread, workers); }
  }

  lemma QuotientPositive(length: nat, n: nat)
    requires 0 < n <= length
    ensures length / n >= 1
  {}

  lemma FewWorkers(length: nat, n: nat, workers: nat)
    requires 0 < n <= length && workers * (length / n) < length + length / n
    ensures workers <= 2 * n - 1
  {
    QuotientPositive(length, n);
    assert length == length / n * n + length % n;
    FewWorkersPer(length, n, length / n, workers);
  }

  lemma FewWorkersPer(length: nat, n: nat, perThread: nat, workers: nat)
    requires 0 < n && 0 < perThread && length <= perThread * n + n - 1 && workers * perThread < length + perThread
    ensures workers <= 2 * n - 1
  {
    assert (n - 1) * (perThread - 1) == perThread * n - n - perThread + 1;
    MulMono(0, n - 1, perThread - 1);
    if workers >= 2 * n { MulMono(2 * n, workers, perThread); }
  }

  lemma MulMono(a: nat, b: nat, q: nat)
    requires a <= b
    ensures a * q <= b * q
  {}
}
