/** Canonical paths: bytes with separators on disk, components in the file tree. */
module PackPaths {
  import opened ByteStrings
  import Splitting

  const SLASH: Byte := 0x2F
  const DOT: Byte := 0x2E

  datatype PathError = Empty | Absolute | EmptyComponent | CurrentDirectory | ParentDirectory | Nul | NativePrefix
  datatype Result = Ok(path: Bytes) | Err(error: PathError)
  /** What Path::components yields. */
  datatype Native = Normal(name: Bytes) | CurDir | ParentDir | RootOrPrefix

  function Components(s: Bytes): (r: seq<Bytes>)
    ensures r != [] && forall i :: 0 <= i < |r| ==> SLASH !in r[i]
  {
    Splitting.Split(s, SLASH)
  }

  function Joined(parts: seq<Bytes>): Bytes
    requires parts != []
  {
    if |parts| == 1 then parts[0] else parts[0] + [SLASH] + Joined(parts[1..])
  }

  /** The first component that has no place in a canonical path. */
  function ComponentError(parts: seq<Bytes>): Option<PathError> {
    if parts == [] then None
    else if parts[0] == [] then Some(EmptyComponent)
    else if parts[0] == [DOT] then Some(CurrentDirectory)
    else if parts[0] == [DOT, DOT] then Some(ParentDirectory)
    else ComponentError(parts[1..])
  }

  function Validate(s: Bytes): Result {
    if s == [] then Err(Empty)
    else if s[0] == SLASH then Err(Absolute)
    else if 0 in s then Err(Nul)
    else match ComponentError(Components(s)) case Some(e) => Err(e) case None => Ok(s)
  }

  predicate Good(name: Bytes) { name != [] && name != [DOT] && name != [DOT, DOT] && 0 !in name }

  ghost predicate AllGood(parts: seq<Bytes>) { forall i :: 0 <= i < |parts| ==> Good(parts[i]) }

  // ---- The two forms of a path ---------------------------------------------------------

  lemma {:induction false} JoinedComponents(s: Bytes)
    ensures Joined(Components(s)) == s
  {
    if s != [] {
      JoinedComponents(s[1..]);
      var rest := Components(s[1..]);
      assert Joined(Components(s)) == [s[0]] + Joined(rest) by {
        if s[0] == SLASH {
          assert ([[]] + rest)[1..] == rest;
        } else {
          assert ([[s[0]] + rest[0]] + rest[1..])[1..] == rest[1..];
        }
      }
      assert s == [s[0]] + s[1..];
    }
  }

  lemma {:induction false} OneComponent(name: Bytes)
    requires SLASH !in name
    ensures Components(name) == [name]
  {
    if name != [] {
      OneComponent(name[1..]);
      assert [name[0]] + name[1..] == name;
    }
  }

  lemma {:induction false} FirstComponent(name: Bytes, more: Bytes)
    requires SLASH !in name
    ensures Components(name + [SLASH] + more) == [name] + Components(more)
  {
    var s := name + [SLASH] + more;
    if name == [] {
      assert s[1..] == more;
    } else {
      assert s[1..] == name[1..] + [SLASH] + more;
      FirstComponent(name[1..], more);
      assert [name[0]] + name[1..] == name;
    }
  }

  /** Components and bytes determine each other. */
  lemma {:induction false} ComponentsJoined(parts: seq<Bytes>)
    requires parts != [] && forall i :: 0 <= i < |parts| ==> SLASH !in parts[i]
    ensures Components(Joined(parts)) == parts
  {
    if |parts| == 1 {
      OneComponent(parts[0]);
    } else {
      ComponentsJoined(parts[1..]);
      FirstComponent(parts[0], Joined(parts[1..]));
      assert parts == [parts[0]] + parts[1..];
    }
  }

  /** Different paths are different in the file tree. */
  lemma ComponentsInjective(a: Bytes, b: Bytes)
    ensures Components(a) == Components(b) <==> a == b
  {
    JoinedComponents(a);
    JoinedComponents(b);
  }

  lemma {:induction false} NulComponent(s: Bytes)
    ensures 0 in s <==> exists i :: 0 <= i < |Components(s)| && 0 in Components(s)[i]
  {
    if s != [] {
      NulComponent(s[1..]);
      var rest, all := Components(s[1..]), Components(s);
      assert s == [s[0]] + s[1..];
      if s[0] == SLASH {
        assert forall i :: 0 <= i < |rest| ==> all[i+1] == rest[i];
      } else {
        assert all[0] == [s[0]] + rest[0];
        assert forall i :: 1 <= i < |rest| ==> all[i] == rest[i];
      }
      if 0 in s && 0 !in s[1..] { assert 0 in all[0]; }
      if 0 in s[1..] {
        var i :| 0 <= i < |rest| && 0 in rest[i];
        assert 0 in all[if s[0] == SLASH then i + 1 else i];
      }
    }
  }

  lemma {:induction false} NoComponentError(parts: seq<Bytes>)
    ensures ComponentError(parts).None? <==> forall i :: 0 <= i < |parts| ==> parts[i] != [] && parts[i] != [DOT] && parts[i] != [DOT, DOT]
  {
    if parts != [] { NoComponentError(parts[1..]); }
  }

  /** The checks, in their order, come to this: every component is a plain name. */
  lemma ValidateMeans(s: Bytes)
    ensures Validate(s).Ok? <==> AllGood(Components(s))
    ensures Validate(s).Ok? ==> Validate(s).path == s
  {
    NulComponent(s);
    NoComponentError(Components(s));
    if s == [] || s[0] == SLASH { assert Components(s)[0] == []; }
  }

  predicate PlainName(name: Bytes) { name != [] && name != ['.' as int] && name != ['.' as int, '.' as int] }

  /** In so many characters: no NUL, and no part between the slashes that is empty, a dot or
      two dots. */
  lemma ValidateSpelled(s: Bytes)
    ensures Validate(s).Ok? <==>
      '\0' as int !in s && forall i: nat, j: nat :: Splitting.Part(s, '/' as int, i, j) ==> PlainName(s[i..j])
  {
    NulComponent(s);
    NoComponentError(Components(s));
    ValidateMeans(s);
    if Validate(s).Ok? {
      forall i: nat, j: nat | Splitting.Part(s, SLASH, i, j) ensures PlainName(s[i..j]) {
        var n := Splitting.PartAt(s, SLASH, i, j);
        assert Good(Components(s)[n]);
      }
    }
    if '\0' as int !in s && forall i: nat, j: nat :: Splitting.Part(s, '/' as int, i, j) ==> PlainName(s[i..j]) {
      forall n | 0 <= n < |Components(s)| ensures Good(Components(s)[n]) {
        var i, j := Splitting.PartOf(s, SLASH, n);
      }
    }
  }

  /** The error is that of the first component at fault. */
  lemma {:induction false} FirstFault(parts: seq<Bytes>, n: nat)
    requires n < |parts| && !PlainName(parts[n]) && forall k :: 0 <= k < n ==> PlainName(parts[k])
    ensures parts[n] == [] ==> ComponentError(parts) == Some(EmptyComponent)
    ensures parts[n] == ['.' as int] ==> ComponentError(parts) == Some(CurrentDirectory)
    ensures parts[n] == ['.' as int, '.' as int] ==> ComponentError(parts) == Some(ParentDirectory)
  {
    if n > 0 { FirstFault(parts[1..], n - 1); }
  }

  // ---- Native paths ----------------------------------------------------------------------

  function Names(components: seq<Native>): seq<Bytes>
    requires forall i :: 0 <= i < |components| ==> components[i].Normal?
  {
    seq(|components|, i requires 0 <= i < |components| => components[i].name)
  }

  lemma {:induction false} JoinedSnoc(parts: seq<Bytes>, last: Bytes)
    requires parts != []
    ensures Joined(parts + [last]) == Joined(parts) + [SLASH] + last
  {
    if |parts| == 1 {
      assert (parts + [last])[1..] == [last];
    } else {
      assert (parts + [last])[1..] == parts[1..] + [last];
      JoinedSnoc(parts[1..], last);
      assert parts[0] + [SLASH] + (Joined(parts[1..]) + [SLASH] + last) == parts[0] + [SLASH] + Joined(parts[1..]) + [SLASH] + last;
    }
  }

  ghost predicate AllNormal(components: seq<Native>) { forall i :: 0 <= i < |components| ==> components[i].Normal? }

  /** from_native: normal components with separators between them, then validated. The
      platform never yields an empty name or one with a separator in it. */
  method FromNative(components: seq<Native>) returns (r: Result)
    requires forall i :: 0 <= i < |components| && components[i].Normal? ==> components[i].name != [] && SLASH !in components[i].name
    ensures r.Ok? <==> components != [] && forall i :: 0 <= i < |components| ==> components[i].Normal? && Good(components[i].name)
    ensures r.Ok? ==> Components(r.path) == Names(components) && Validate(r.path) == r
    ensures forall k :: 0 <= k < |components| && !components[k].Normal? && AllNormal(components[..k]) ==>
      r == Err(if components[k].CurDir? then CurrentDirectory else if components[k].ParentDir? then ParentDirectory else NativePrefix)
    ensures components == [] ==> r == Err(Empty)
  {
    var bytes: Bytes := [];
    for k := 0 to |components|
      invariant forall i :: 0 <= i < k ==> components[i].Normal?
      invariant bytes == if k == 0 then [] else Joined(Names(components[..k]))
      invariant k > 0 ==> bytes != []
    {
      if !components[k].Normal? {
        return Err(match components[k] case CurDir => CurrentDirectory case ParentDir => ParentDirectory case _ => NativePrefix);
      }
      assert Names(components[..k+1]) == Names(components[..k]) + [components[k].name];
      if k > 0 { JoinedSnoc(Names(components[..k]), components[k].name); }
      if bytes != [] { bytes := bytes + [SLASH]; }
      bytes := bytes + components[k].name;
    }
    assert components[..|components|] == components;
    if components != [] { ComponentsJoined(Names(components)); }
    ValidateMeans(bytes);
    r := Validate(bytes);
    NamesGood(components);
  }

  lemma NamesGood(components: seq<Native>)
    requires forall i :: 0 <= i < |components| ==> components[i].Normal?
    ensures AllGood(Names(components)) <==> forall i :: 0 <= i < |components| ==> Good(components[i].name)
  {
    forall i | 0 <= i < |components| ensures Names(components)[i] == components[i].name {}
    if AllGood(Names(components)) {
      forall i | 0 <= i < |components| ensures Good(components[i].name) { assert Good(Names(components)[i]); }
    }
  }
}
