/** Splitting at a separator, the way str::split does: there is always one part more than
    there are separators. */
module Splitting {
  function Split<T(==)>(s: seq<T>, separator: T): (r: seq<seq<T>>)
    ensures r != []
    ensures forall i :: 0 <= i < |r| ==> separator !in r[i]
  {
    if s == [] then [[]] else
      var rest := Split(s[1..], separator);
      if s[0] == separator then [[]] + rest else [[s[0]] + rest[0]] + rest[1..]
  }

  /** What stands between two separators, or between a separator and an end. */
  ghost predicate Part<T>(s: seq<T>, separator: T, i: nat, j: nat) {
    && i <= j <= |s| && separator !in s[i..j]
    && (i == 0 || s[i-1] == separator) && (j == |s| || s[j] == separator)
  }

  lemma RestSlice<T>(s: seq<T>, i: nat, j: nat)
    requires i <= j < |s|
    ensures s[1..][i..j] == s[i+1..j+1]
  {}

  /** Everything the splitting yields is such a part. */
  lemma {:induction false} PartOf<T>(s: seq<T>, separator: T, n: nat) returns (i: nat, j: nat)
    requires n < |Split(s, separator)|
    ensures Part(s, separator, i, j) && Split(s, separator)[n] == s[i..j]
    ensures (j == |s| <==> n == |Split(s, separator)| - 1) && (i == 0 <==> n == 0)
  {
    if s == [] || (s[0] == separator && n == 0) {
      i, j := 0, 0;
    } else {
      var rest := s[1..];
      i, j := PartOf(rest, separator, if s[0] == separator then n - 1 else n);
      RestSlice(s, i, j);
      if s[0] != separator && n == 0 {
        assert s[0..j+1] == [s[0]] + rest[0..j];
        j := j + 1;
      } else {
        i, j := i + 1, j + 1;
      }
    }
  }

  lemma PartOfRest<T>(s: seq<T>, separator: T, i: nat, j: nat)
    requires Part(s, separator, i, j) && s != [] && j > 0 && (i == 0 ==> s[0] != separator)
    ensures var k := if i == 0 then 0 else i - 1; Part(s[1..], separator, k, j - 1) && (i > 0 ==> s[1..][k..j-1] == s[i..j])
  {
    RestSlice(s, if i == 0 then 0 else i - 1, j - 1);
    if i == 0 { assert s[0..j][1..] == s[1..j]; }
  }

  /** Every such part is among what the splitting yields. */
  lemma {:induction false} PartAt<T>(s: seq<T>, separator: T, i: nat, j: nat) returns (n: nat)
    requires Part(s, separator, i, j)
    ensures n < |Split(s, separator)| && Split(s, separator)[n] == s[i..j]
    ensures (j == |s| <==> n == |Split(s, separator)| - 1) && (i == 0 <==> n == 0)
  {
    if i == 0 && j > 0 { assert s[0..j][0] == s[0]; }
    if s == [] || (s[0] == separator && i == 0) {
      n := 0;
    } else {
      var rest := s[1..];
      assert i > 0 || j > 0;
      var k := if i == 0 then 0 else i - 1;
      assert i > 0 ==> j > 0;
      PartOfRest(s, separator, i, j);
      n := PartAt(rest, separator, k, j - 1);
      hide Part;
      if s[0] == separator { n := n + 1; } else if i == 0 { assert s[i..j] == [s[0]] + rest[..j-1]; }
    }
  }
}
