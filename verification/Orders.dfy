/** Lexicographic order on sequences and sorting, shared by the components that sort. */
module Orders {

  ghost predicate TotalOrder<T(!new)>(leq: (T, T) -> bool) {
    && (forall x, y :: leq(x, y) || leq(y, x))
    && (forall x, y :: leq(x, y) && leq(y, x) ==> x == y)
    && (forall x, y, z :: leq(x, y) && leq(y, z) ==> leq(x, z))
  }

  ghost predicate TotalPreorder<T(!new)>(leq: (T, T) -> bool) {
    && (forall x, y :: leq(x, y) || leq(y, x))
    && (forall x, y, z :: leq(x, y) && leq(y, z) ==> leq(x, z))
  }

  /** The order Rust gives to slices: a proper prefix comes first. */
  predicate Lex<T(==)>(leq: (T, T) -> bool, a: seq<T>, b: seq<T>) {
    a == [] || (b != [] && (if a[0] == b[0] then Lex(leq, a[1..], b[1..]) else leq(a[0], b[0])))
  }

  lemma {:induction false} LexTotal<T(!new)>(leq: (T, T) -> bool, a: seq<T>, b: seq<T>)
    requires TotalOrder(leq)
    ensures Lex(leq, a, b) || Lex(leq, b, a)
  {
    if a != [] && b != [] && a[0] == b[0] { LexTotal(leq, a[1..], b[1..]); }
  }

  lemma {:induction false} LexAntisymmetric<T(!new)>(leq: (T, T) -> bool, a: seq<T>, b: seq<T>)
    requires TotalOrder(leq) && Lex(leq, a, b) && Lex(leq, b, a)
    ensures a == b
  {
    if a != [] && b != [] {
      LexAntisymmetric(leq, a[1..], b[1..]);
      assert a == [a[0]] + a[1..] && b == [b[0]] + b[1..];
    }
  }

  lemma {:induction false} LexTransitive<T(!new)>(leq: (T, T) -> bool, a: seq<T>, b: seq<T>, c: seq<T>)
    requires TotalOrder(leq) && Lex(leq, a, b) && Lex(leq, b, c)
    ensures Lex(leq, a, c)
  {
    if a != [] && a[0] == b[0] == c[0] { LexTransitive(leq, a[1..], b[1..], c[1..]); }
  }

  /** Lexicographic order over a total order is a total order. */
  lemma LexIsTotalOrder<T(!new)>(leq: (T, T) -> bool)
    requires TotalOrder(leq)
    ensures TotalOrder((a: seq<T>, b: seq<T>) => Lex(leq, a, b))
  {
    forall a: seq<T>, b: seq<T> ensures Lex(leq, a, b) || Lex(leq, b, a) { LexTotal(leq, a, b); }
    forall a: seq<T>, b: seq<T> | Lex(leq, a, b) && Lex(leq, b, a) ensures a == b { LexAntisymmetric(leq, a, b); }
    forall a: seq<T>, b: seq<T>, c: seq<T> | Lex(leq, a, b) && Lex(leq, b, c) ensures Lex(leq, a, c) {
      LexTransitive(leq, a, b, c);
    }
  }

  /** Whatever lies between a sequence and one of its extensions extends it too. */
  lemma {:induction false} BetweenExtends<T(!new)>(leq: (T, T) -> bool, a: seq<T>, m: seq<T>, b: seq<T>)
    requires TotalOrder(leq) && a <= b && Lex(leq, a, m) && Lex(leq, m, b)
    ensures a <= m
  {
    if a != [] {
      BetweenExtends(leq, a[1..], m[1..], b[1..]);
      assert a == [a[0]] + a[1..] && m == [m[0]] + m[1..];
    }
  }

  ghost predicate Sorted<T>(leq: (T, T) -> bool, s: seq<T>) {
    forall i, j :: 0 <= i < j < |s| ==> leq(s[i], s[j])
  }

  function Insert<T>(leq: (T, T) -> bool, x: T, s: seq<T>): seq<T> {
    if s == [] || leq(x, s[0]) then [x] + s else [s[0]] + Insert(leq, x, s[1..])
  }

  /** The library sort: stable, hence also a model of the unstable one where keys are distinct. */
  function Sort<T>(leq: (T, T) -> bool, s: seq<T>): seq<T> {
    if s == [] then [] else Insert(leq, s[0], Sort(leq, s[1..]))
  }

  lemma {:induction false} InsertFacts<T(!new)>(leq: (T, T) -> bool, x: T, s: seq<T>)
    requires TotalPreorder(leq) && Sorted(leq, s)
    ensures multiset(Insert(leq, x, s)) == multiset([x]) + multiset(s)
    ensures Sorted(leq, Insert(leq, x, s))
  {
    if s == [] || leq(x, s[0]) {
      assert [x] + s == Insert(leq, x, s);
    } else {
      InsertFacts(leq, x, s[1..]);
      var r := Insert(leq, x, s[1..]);
      assert s == [s[0]] + s[1..];
      forall j | 0 <= j < |r| ensures leq(s[0], r[j]) {
        assert r[j] in multiset(r);
        assert r[j] == x || r[j] in s[1..];
      }
    }
  }

  lemma {:induction false} SortFacts<T(!new)>(leq: (T, T) -> bool, s: seq<T>)
    requires TotalPreorder(leq)
    ensures multiset(Sort(leq, s)) == multiset(s)
    ensures Sorted(leq, Sort(leq, s))
    ensures |Sort(leq, s)| == |s|
  {
    if s != [] {
      SortFacts(leq, s[1..]);
      InsertFacts(leq, s[0], Sort(leq, s[1..]));
      assert s == [s[0]] + s[1..];
    }
    assert |multiset(Sort(leq, s))| == |multiset(s)|;
  }

  ghost predicate NoPair<T>(bad: (T, T) -> bool, s: seq<T>) {
    forall i, j :: 0 <= i < j < |s| ==> !bad(s[i], s[j])
  }

  lemma {:induction false} NoPairCons<T>(bad: (T, T) -> bool, x: T, s: seq<T>)
    ensures NoPair(bad, [x] + s) <==> NoPair(bad, s) && forall y :: y in s ==> !bad(x, y)
  {
    var t := [x] + s;
    forall i | 0 <= i < |s| ensures t[i+1] == s[i] {}
    if NoPair(bad, t) {
      forall i, j | 0 <= i < j < |s| ensures !bad(s[i], s[j]) { assert !bad(t[i+1], t[j+1]); }
      forall y | y in s ensures !bad(x, y) { var j :| 0 <= j < |s| && s[j] == y; assert !bad(t[0], t[j+1]); }
    }
  }

  lemma {:induction false} NoPairSnoc<T>(bad: (T, T) -> bool, s: seq<T>, x: T)
    ensures NoPair(bad, s + [x]) <==> NoPair(bad, s) && forall y :: y in s ==> !bad(y, x)
  {
    var t := s + [x];
    if NoPair(bad, t) {
      forall i, j | 0 <= i < j < |s| ensures !bad(s[i], s[j]) { assert !bad(t[i], t[j]); }
      forall y | y in s ensures !bad(y, x) { var i :| 0 <= i < |s| && s[i] == y; assert !bad(t[i], t[|s|]); }
    }
  }

  lemma {:induction false} InsertKeepsPairs<T(!new)>(leq: (T, T) -> bool, bad: (T, T) -> bool, x: T, s: seq<T>)
    requires forall y, z :: bad(y, z) ==> leq(y, z) && leq(z, y)
    ensures NoPair(bad, Insert(leq, x, s)) <==> NoPair(bad, s) && forall y :: y in s ==> !bad(x, y)
    ensures forall y :: y in Insert(leq, x, s) <==> y == x || y in s
  {
    if s == [] || leq(x, s[0]) {
      NoPairCons(bad, x, s);
    } else {
      InsertKeepsPairs(leq, bad, x, s[1..]);
      NoPairCons(bad, s[0], Insert(leq, x, s[1..]));
      NoPairCons(bad, s[0], s[1..]);
      assert s == [s[0]] + s[1..];
      assert !bad(x, s[0]) && !bad(s[0], x);
    }
  }

  /** The sort is stable: elements that are equal for it keep their order. */
  lemma {:induction false} SortStable<T(!new)>(leq: (T, T) -> bool, bad: (T, T) -> bool, s: seq<T>)
    requires forall y, z :: bad(y, z) ==> leq(y, z) && leq(z, y)
    ensures NoPair(bad, Sort(leq, s)) <==> NoPair(bad, s)
    ensures forall y :: y in Sort(leq, s) <==> y in s
  {
    if s != [] {
      SortStable(leq, bad, s[1..]);
      InsertKeepsPairs(leq, bad, s[0], Sort(leq, s[1..]));
      NoPairCons(bad, s[0], s[1..]);
      assert s == [s[0]] + s[1..];
    }
  }

  ghost predicate Distinct<T>(s: seq<T>) {
    forall i, j :: 0 <= i < j < |s| ==> s[i] != s[j]
  }

  /** A duplicate-free sequence holds every element once. */
  lemma {:induction false} DistinctMultiset<T>(s: seq<T>, x: T)
    requires Distinct(s)
    ensures multiset(s)[x] == if x in s then 1 else 0
  {
    if s != [] {
      assert s == [s[0]] + s[1..];
      DistinctMultiset(s[1..], x);
    }
  }

  /** Distinctness does not depend on the order of the elements. */
  lemma {:induction false} SameMultisetDistinct<T>(s: seq<T>, t: seq<T>)
    requires multiset(s) == multiset(t) && Distinct(s)
    ensures Distinct(t)
  {
    forall i, j | 0 <= i < j < |t| ensures t[i] != t[j] {
      if t[i] == t[j] {
        assert t == t[..i] + [t[i]] + t[i+1..j] + [t[j]] + t[j+1..];
        assert multiset(t)[t[i]] >= 2;
        DistinctMultiset(s, t[i]);
      }
    }
  }

  /** Two sorted duplicate-free sequences with the same elements are the same sequence. */
  lemma {:induction false} SortedUnique<T(!new)>(leq: (T, T) -> bool, s: seq<T>, t: seq<T>)
    requires TotalOrder(leq) && Sorted(leq, s) && Sorted(leq, t) && Distinct(s) && Distinct(t)
    requires forall x :: x in s <==> x in t
    ensures s == t
  {
    assert t != [] ==> t[0] in s;
    if s != [] {
      assert s[0] in t;
      assert t[0] in s;
      var i :| 0 <= i < |t| && t[i] == s[0];
      var j :| 0 <= j < |s| && s[j] == t[0];
      assert leq(s[0], t[0]) && leq(t[0], s[0]);
      assert s[0] == t[0];
      forall x ensures x in s[1..] <==> x in t[1..] {
        if x in s[1..] { assert x in s; assert x != s[0]; }
        if x in t[1..] { assert x in t; assert x != t[0]; }
      }
      SortedUnique(leq, s[1..], t[1..]);
      assert s == [s[0]] + s[1..] && t == [t[0]] + t[1..];
    }
  }
}
