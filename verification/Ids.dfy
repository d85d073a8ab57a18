/** Pack names and snapshot tags: what is valid, how they are printed and read, and where
    loose indexes are put. */
module Ids {
  import opened ByteStrings
  import Splitting

  const LOOSE := "loose/"
  const INDEX_EXTENSION := ".pack.idx"
  const PACK_EXTRA_ID_CHARS: set<char> := {'-', '_', '/'}
  const FORBIDDEN_SNAPSHOT_CHARS: set<char> := {':', '\\', '<', '>', '\"', '|', '?', '*'}

  /** First letter of the Unicode general category; of control characters it is C. */
  type Category = char -> char

  ghost predicate ControlsAreControls(category: Category) { category('\n') == 'C' && category('\r') == 'C' }

  // ---- Text ----------------------------------------------------------------------------

  function Split(s: string): (r: seq<string>)
    ensures r != []
    ensures forall i :: 0 <= i < |r| ==> '/' !in r[i]
  {
    Splitting.Split(s, '/')
  }

  function Push(c: char, rest: seq<string>): seq<string>
    requires rest != []
  {
    if c == '/' then [[]] + rest else [[c] + rest[0]] + rest[1..]
  }

  /** The same parts, with something behind the last one. */
  function WithSuffix(parts: seq<string>, suffix: string): seq<string>
    requires parts != []
  {
    parts[..|parts|-1] + [parts[|parts|-1] + suffix]
  }

  function Lower(s: string): string {
    seq(|s|, i requires 0 <= i < |s| => if 'A' <= s[i] <= 'Z' then (s[i] as int + 32) as char else s[i])
  }

  function Upper(s: string): string {
    seq(|s|, i requires 0 <= i < |s| => if 'a' <= s[i] <= 'z' then (s[i] as int - 32) as char else s[i])
  }

  predicate EndsWith(s: string, suffix: string) { |suffix| <= |s| && s[|s|-|suffix|..] == suffix }

  function StripSuffix(s: string, c: char): string {
    if s != [] && s[|s|-1] == c then s[..|s|-1] else s
  }

  /** The part before the first dot. */
  function Stem(s: string): string {
    if s == [] || s[0] == '.' then [] else [s[0]] + Stem(s[1..])
  }

  // ---- Validity --------------------------------------------------------------------------

  predicate IsDeviceName(component: string) {
    var upper := Upper(Stem(component));
    || upper in {"CON", "PRN", "AUX", "NUL"}
    || (|upper| == 4 && upper[..3] in {"COM", "LPT"} && '1' <= upper[3] <= '9')
  }

  predicate TagChar(category: Category, c: char) {
    c == ' ' || (c !in FORBIDDEN_SNAPSHOT_CHARS && category(c) in {'L', 'M', 'N', 'P', 'S'})
  }

  predicate TagComponent(category: Category, component: string, final: bool) {
    && component != [] && component != "." && component != ".." && component[0] != ' '
    && component[|component|-1] != ' ' && component[|component|-1] != '.'
    && (final || !EndsWith(Lower(component), INDEX_EXTENSION))
    && ('.' in component ==> !IsDeviceName(component))
    && forall i :: 0 <= i < |component| ==> TagChar(category, component[i])
  }

  /** SnapshotId::is_valid. */
  predicate TagValid(category: Category, tag: string) {
    tag != [] && var parts := Split(tag);
    forall i :: 0 <= i < |parts| ==> TagComponent(category, parts[i], i == |parts| - 1)
  }

  predicate PackChar(c: char) {
    'a' <= c <= 'z' || 'A' <= c <= 'Z' || '0' <= c <= '9' || c in PACK_EXTRA_ID_CHARS
  }

  predicate RegularPack(name: string) {
    && name != [] && !(LOOSE <= name)
    && forall i :: 0 <= i < |Split(name)| ==> Split(name)[i] != [] && forall k :: 0 <= k < |Split(name)[i]| ==> PackChar(Split(name)[i][k])
  }

  datatype IdError = BadFormat | InvalidPack | InvalidSnapshot
  datatype Result<T> = Ok(value: T) | Err(error: IdError)

  /** PackId::validate. */
  function ValidatePack(category: Category, name: string): Result<string> {
    if LOOSE <= name then
      if TagValid(category, name[|LOOSE|..]) then Ok(name) else Err(InvalidSnapshot)
    else if RegularPack(name) then Ok(name) else Err(InvalidPack)
  }

  datatype SnapshotId = SnapshotId(pack: string, tag: string)

  function Print(id: SnapshotId): string { id.pack + ":" + id.tag }

  /** rsplit_once(':'). */
  function LastColon(s: string): (r: Option<nat>)
    ensures r.Some? ==> r.value < |s| && s[r.value] == ':' && ':' !in s[r.value+1..]
    ensures r.None? ==> ':' !in s
  {
    if s == [] then None
    else if s[|s|-1] == ':' then Some(|s| - 1)
    else LastColon(s[..|s|-1])
  }

  function Parse(category: Category, s: string): Result<SnapshotId> {
    var colon := LastColon(s);
    if colon.None? then Err(BadFormat)
    else
      var pack, tag := s[..colon.value], s[colon.value+1..];
      if pack == [] then Err(InvalidPack)
      else if ValidatePack(category, pack).Err? then Err(ValidatePack(category, pack).error)
      else if !TagValid(category, tag) then Err(InvalidSnapshot)
      else Ok(SnapshotId(pack, tag))
  }

  /** read_head: a line break at the end, of either kind, does not belong to the id. */
  function ParseHead(category: Category, text: string): Result<SnapshotId> {
    Parse(category, StripSuffix(StripSuffix(text, '\n'), '\r'))
  }

  // ---- What is valid, character by character ------------------------------------------------

  /** Letters and digits of ASCII, hyphens and underscores. */
  predicate PlainChar(c: char) {
    0x41 <= c as int <= 0x5A || 0x61 <= c as int <= 0x7A || 0x30 <= c as int <= 0x39 || c as int == 0x2D || c as int == 0x5F
  }

  ghost predicate AllPlain(s: string) { forall k :: 0 <= k < |s| ==> s[k] == '/' || PlainChar(s[k]) }

  /** No slash at the front, none at the end, and no two in a row. */
  ghost predicate Solid(s: string) { s != [] && s[0] != '/' && Apart(s) }

  ghost predicate Apart(s: string) {
    && (s != [] ==> s[|s|-1] != '/')
    && forall k :: 0 < k < |s| ==> !(s[k-1] == '/' && s[k] == '/')
  }

  ghost predicate NoneEmpty(parts: seq<string>, from: nat) { forall i :: from <= i < |parts| ==> parts[i] != [] }

  lemma ApartRest(s: string)
    requires s != []
    ensures Apart(s) <==> if s[0] == '/' then Solid(s[1..]) else Apart(s[1..])
  {
    var rest := s[1..];
    assert forall k :: 0 < k < |rest| ==> rest[k-1] == s[k] && rest[k] == s[k+1];
    if Apart(rest) && (s[0] == '/' ==> Solid(rest)) {
      forall k | 0 < k < |s| ensures !(s[k-1] == '/' && s[k] == '/') {
        if k > 1 { assert !(rest[k-2] == '/' && rest[k-1] == '/'); }
      }
    }
    if Apart(s) {
      forall k | 0 < k < |rest| ensures !(rest[k-1] == '/' && rest[k] == '/') { assert !(s[k] == '/' && s[k+1] == '/'); }
      if s[0] == '/' && rest != [] { assert !(s[0] == '/' && s[1] == '/'); }
    }
  }

  lemma {:induction false} PartsFilled(s: string)
    ensures Split(s)[0] != [] <==> s != [] && s[0] != '/'
    ensures NoneEmpty(Split(s), 1) <==> Apart(s)
    ensures NoneEmpty(Split(s), 0) <==> Solid(s)
  {
    if s != [] {
      var rest := Split(s[1..]);
      PartsFilled(s[1..]);
      ApartRest(s);
      hide Apart;
      if s[0] == '/' {
        assert forall i :: 0 <= i < |rest| ==> Split(s)[i+1] == rest[i];
      } else {
        assert forall i :: 1 <= i < |rest| ==> Split(s)[i] == rest[i];
      }
      var parts := Split(s);
      assert NoneEmpty(parts, 0) <==> parts[0] != [] && NoneEmpty(parts, 1);
    }
  }

  lemma PackCharPlain(c: char)
    ensures PackChar(c) <==> PlainChar(c) || c == '/'
  {}

  /** The names of packs: plain characters in parts that are not empty. */
  lemma RegularPackMeans(name: string)
    ensures RegularPack(name) <==> !("loose/" <= name) && Solid(name) && AllPlain(name)
  {
    PartsFilled(name);
    var parts := Split(name);
    if AllPlain(name) {
      forall i, k | 0 <= i < |parts| && 0 <= k < |parts[i]| ensures PackChar(parts[i][k]) {
        var at := PartsWithin(name, i, k);
        PackCharPlain(name[at]);
      }
    }
    if RegularPack(name) {
      forall k | 0 <= k < |name| && name[k] != '/' ensures PlainChar(name[k]) {
        var i, j := SplitCovers(name, k);
        PackCharPlain(parts[i][j]);
      }
    }
  }

  /** Every character of a part is one of the text. */
  lemma {:induction false} PartsWithin(s: string, i: nat, k: nat) returns (at: nat)
    requires i < |Split(s)| && k < |Split(s)[i]|
    ensures at < |s| && s[at] == Split(s)[i][k] && s[at] != '/'
  {
    var rest := Split(s[1..]);
    if s[0] == '/' {
      at := PartsWithin(s[1..], i - 1, k);
      at := at + 1;
    } else if i == 0 && k == 0 {
      at := 0;
    } else {
      at := PartsWithin(s[1..], i, if i == 0 then k - 1 else k);
      at := at + 1;
    }
  }

  /** What plain characters are to Unicode: letters, digits and punctuation. */
  ghost predicate PlainIsListed(category: Category) { forall c :: PlainChar(c) ==> category(c) in {'L', 'N', 'P'} }

  /** Every pack name would do as a tag: so do all plain texts without empty parts. */
  lemma PlainTags(category: Category, tag: string)
    requires PlainIsListed(category) && Solid(tag) && AllPlain(tag)
    ensures TagValid(category, tag)
  {
    PartsFilled(tag);
    var parts := Split(tag);
    forall i | 0 <= i < |parts| ensures TagComponent(category, parts[i], i == |parts| - 1) {
      forall k | 0 <= k < |parts[i]| ensures PlainChar(parts[i][k]) { var at := PartsWithin(tag, i, k); }
      PlainComponent(category, parts[i], i == |parts| - 1);
    }
  }

  lemma PlainComponent(category: Category, part: string, final: bool)
    requires PlainIsListed(category) && part != [] && forall k :: 0 <= k < |part| ==> PlainChar(part[k])
    ensures TagComponent(category, part, final)
  {
    assert PlainChar(part[0]) && PlainChar(part[|part|-1]);
    if |part| >= 9 {
      assert PlainChar(part[|part|-9]);
      assert Lower(part)[|part|-9..][0] != INDEX_EXTENSION[0];
    }
  }

  // ---- The rules for tags ------------------------------------------------------------------

  /** The text, written in capitals, in small letters or in both. */
  ghost predicate Spells(s: string, capitals: string, small: string) {
    |s| == |capitals| == |small| && forall i :: 0 <= i < |s| ==> s[i] == capitals[i] || s[i] == small[i]
  }

  ghost predicate Cases(capitals: string, small: string) {
    |capitals| == |small| && forall i :: 0 <= i < |small| ==>
      if 0x41 <= capitals[i] as int <= 0x5A then small[i] as int == capitals[i] as int + 0x20
      else small[i] == capitals[i] && !(0x61 <= small[i] as int <= 0x7A)
  }

  lemma LowerSpells(s: string, capitals: string, small: string)
    requires Cases(capitals, small)
    ensures Lower(s) == small <==> Spells(s, capitals, small)
  {
    assert Lower(s) == small ==> forall i :: 0 <= i < |s| ==> Lower(s)[i] == small[i];
  }

  lemma UpperSpells(s: string, capitals: string, small: string)
    requires Cases(capitals, small)
    ensures Upper(s) == capitals <==> Spells(s, capitals, small)
  {
    assert Upper(s) == capitals ==> forall i :: 0 <= i < |s| ==> Upper(s)[i] == capitals[i];
  }

  /** The devices of MS-DOS. */
  ghost predicate Device(stem: string) {
    || Spells(stem, "CON", "con") || Spells(stem, "PRN", "prn") || Spells(stem, "AUX", "aux") || Spells(stem, "NUL", "nul")
    || (|stem| == 4 && (Spells(stem[..3], "COM", "com") || Spells(stem[..3], "LPT", "lpt")) && 0x31 <= stem[3] as int <= 0x39)
  }

  lemma DeviceNamed(component: string)
    ensures IsDeviceName(component) <==> Device(Stem(component))
  {
    var stem := Stem(component);
    UpperSpells(stem, "CON", "con");
    UpperSpells(stem, "PRN", "prn");
    UpperSpells(stem, "AUX", "aux");
    UpperSpells(stem, "NUL", "nul");
    if |stem| == 4 {
      UpperSpells(stem[..3], "COM", "com");
      UpperSpells(stem[..3], "LPT", "lpt");
      assert Upper(stem)[..3] == Upper(stem[..3]);
      assert '1' <= Upper(stem)[3] <= '9' <==> '1' <= stem[3] <= '9';
    }
    hide Spells, Upper, Stem;
  }

  lemma {:induction false} StemEnds(component: string)
    ensures var n := |Stem(component)|;
      n <= |component| && Stem(component) == component[..n] && '.' !in component[..n] && (n < |component| ==> component[n] == '.')
  {
    if component != [] && component[0] != '.' {
      StemEnds(component[1..]);
      assert component[..|Stem(component)|] == [component[0]] + component[1..][..|Stem(component)|-1];
    }
  }

  /** The first dot ends the name of a device. */
  ghost predicate DeviceBeforeDot(s: string, n: nat) {
    n < |s| && s[n] == '.' && '.' !in s[..n] && Device(s[..n])
  }

  lemma DotEndsStem(component: string)
    ensures '.' in component && IsDeviceName(component) <==> exists n: nat :: DeviceBeforeDot(component, n)
  {
    StemEnds(component);
    DeviceNamed(component);
    hide Device, IsDeviceName, Stem;
    var m := |Stem(component)|;
    if m == |component| { assert component[..m] == component; }
    if '.' in component && IsDeviceName(component) {
      assert DeviceBeforeDot(component, m);
    }
    forall n: nat | DeviceBeforeDot(component, n) ensures n == m {
      assert forall k :: 0 <= k < n ==> component[..n][k] == component[k];
      assert forall k :: 0 <= k < m ==> component[..m][k] == component[k];
    }
  }

  ghost predicate TagText(category: Category, c: char) {
    || c as int == 0x20
    || (&& c as int !in {0x22, 0x2A, 0x3A, 0x3C, 0x3E, 0x3F, 0x5C, 0x7C}
        && (category(c) == 'L' || category(c) == 'M' || category(c) == 'N' || category(c) == 'P' || category(c) == 'S'))
  }

  /** What a part of a tag may not be: spaced, ended by a dot, a device, or a directory that
      looks like an index. */
  ghost predicate PartFits(part: string, final: bool) {
    && part != [] && part[0] as int != 0x20 && part[|part|-1] as int !in {0x20, 0x2E}
    && (!final && |part| >= 9 ==> !Spells(part[|part|-9..], ".PACK.IDX", ".pack.idx"))
    && !exists n: nat :: DeviceBeforeDot(part, n)
  }

  lemma ComponentMeans(category: Category, part: string, final: bool)
    ensures TagComponent(category, part, final) <==>
      PartFits(part, final) && forall k :: 0 <= k < |part| ==> TagText(category, part[k])
  {
    DotEndsStem(part);
    if |part| >= 9 {
      LowerSpells(part[|part|-9..], ".PACK.IDX", ".pack.idx");
      assert Lower(part)[|part|-9..] == Lower(part[|part|-9..]);
    }
    hide Spells, Lower, DeviceBeforeDot, IsDeviceName;
    assert forall k :: 0 <= k < |part| ==> (TagChar(category, part[k]) <==> TagText(category, part[k]));
  }

  ghost predicate TextFits(category: Category, tag: string) {
    forall k :: 0 <= k < |tag| ==> tag[k] == '/' || TagText(category, tag[k])
  }

  ghost predicate PartsFit(tag: string) {
    forall i: nat, j: nat :: Splitting.Part(tag, '/', i, j) ==> PartFits(tag[i..j], j == |tag|)
  }

  /** A tag is valid if and only if it is not empty, every character may stand in one, and
      so may every part. */
  lemma TagMeans(category: Category, tag: string)
    ensures TagValid(category, tag) <==> tag != [] && TextFits(category, tag) && PartsFit(tag)
  {
    hide PartFits, TagText, TagComponent;
    var parts := Split(tag);
    if TagValid(category, tag) {
      forall k | 0 <= k < |tag| && tag[k] != '/' ensures TagText(category, tag[k]) {
        var i, j := SplitCovers(tag, k);
        ComponentMeans(category, parts[i], i == |parts| - 1);
      }
      forall i: nat, j: nat | Splitting.Part(tag, '/', i, j) ensures PartFits(tag[i..j], j == |tag|) {
        var n := Splitting.PartAt(tag, '/', i, j);
        ComponentMeans(category, parts[n], n == |parts| - 1);
      }
    }
    if tag != [] && TextFits(category, tag) && PartsFit(tag) {
      forall n | 0 <= n < |parts| ensures TagComponent(category, parts[n], n == |parts| - 1) {
        var i, j := Splitting.PartOf(tag, '/', n);
        forall k | 0 <= k < |parts[n]| ensures TagText(category, parts[n][k]) { var at := PartsWithin(tag, n, k); }
        ComponentMeans(category, parts[n], n == |parts| - 1);
      }
    }
  }

  /** What is wrong with an id, if anything is, by its two halves. */
  lemma ParseMeans(category: Category, pack: string, tag: string)
    requires ':' !in tag
    ensures Parse(category, pack + ":" + tag) ==
      if "loose/" <= pack && !TagValid(category, pack[6..]) then Err(InvalidSnapshot)
      else if !("loose/" <= pack) && !RegularPack(pack) then Err(InvalidPack)
      else if !TagValid(category, tag) then Err(InvalidSnapshot)
      else Ok(SnapshotId(pack, tag))
    ensures Parse(category, tag) == Err(BadFormat)
  {
    var s := pack + ":" + tag;
    assert s[|pack|+1..] == tag && s[..|pack|] == pack;
    ColonAt(s, |pack|);
    assert LastColon(tag).None?;
    hide TagValid, RegularPack, LastColon;
    EmptyPack();
  }

  lemma EmptyPack()
    ensures !RegularPack("")
  {}

  // ---- Printing and parsing ----------------------------------------------------------------

  ghost predicate IdValid(category: Category, id: SnapshotId) {
    ValidatePack(category, id.pack).Ok? && TagValid(category, id.tag)
  }

  /** Every character of a text is a separator or in one of the parts. */
  lemma {:induction false} SplitCovers(s: string, k: nat) returns (i: nat, j: nat)
    requires k < |s| && s[k] != '/'
    ensures i < |Split(s)| && j < |Split(s)[i]| && Split(s)[i][j] == s[k]
    ensures k == |s| - 1 ==> i == |Split(s)| - 1 && j == |Split(s)[i]| - 1
  {
    var rest := Split(s[1..]);
    if k == 0 {
      i, j := 0, 0;
      if |s| == 1 { assert s[1..] == []; }
    } else {
      i, j := SplitCovers(s[1..], k - 1);
      if s[0] == '/' { i := i + 1; } else if i == 0 { j := j + 1; }
    }
  }

  lemma TagChars(category: Category, tag: string, k: nat)
    requires TagValid(category, tag) && k < |tag| && tag[k] != '/'
    ensures TagChar(category, tag[k])
  {
    var i, j := SplitCovers(tag, k);
    assert TagComponent(category, Split(tag)[i], i == |Split(tag)| - 1);
  }

  lemma TagWithoutColon(category: Category, tag: string)
    requires TagValid(category, tag)
    ensures ':' !in tag
  {
    forall k | 0 <= k < |tag| ensures tag[k] != ':' {
      if tag[k] == ':' { TagChars(category, tag, k); }
    }
  }

  lemma TagEnd(category: Category, tag: string)
    requires TagValid(category, tag) && ControlsAreControls(category)
    ensures tag[|tag|-1] != '\r' && tag[|tag|-1] != '\n'
  {
    if tag[|tag|-1] != '/' { TagChars(category, tag, |tag| - 1); }
  }

  lemma ColonAt(s: string, k: nat)
    requires k < |s| && s[k] == ':' && ':' !in s[k+1..]
    ensures LastColon(s) == Some(k)
  {}

  /** A printed id is read back as it was. */
  lemma PrintParse(category: Category, id: SnapshotId)
    requires IdValid(category, id)
    ensures Parse(category, Print(id)) == Ok(id)
  {
    var s := Print(id);
    TagWithoutColon(category, id.tag);
    assert s[|id.pack|+1..] == id.tag && s[..|id.pack|] == id.pack;
    ColonAt(s, |id.pack|);
  }

  /** What is read is valid and prints as what was read: no two spellings of one id. */
  lemma ParsePrint(category: Category, s: string)
    requires Parse(category, s).Ok?
    ensures IdValid(category, Parse(category, s).value) && Print(Parse(category, s).value) == s
  {}

  /** HEAD gives back the id that was written to it, whatever became of the line break. */
  lemma HeadRoundTrip(category: Category, id: SnapshotId, ending: string)
    requires IdValid(category, id) && ControlsAreControls(category) && ending in {"", "\n", "\r\n", "\r"}
    ensures ParseHead(category, Print(id) + ending) == Ok(id)
  {
    PrintParse(category, id);
    TagEnd(category, id.tag);
    assert id.tag != [];
    hide Parse, TagValid, ValidatePack;
    var s := Print(id);
    assert s[|s|-1] == id.tag[|id.tag|-1];
    if ending == "\r\n" {
      assert StripSuffix(s + ending, '\n') == s + "\r";
      assert StripSuffix(s + "\r", '\r') == s;
    } else if ending == "" {
      assert s + ending == s;
    } else {
      assert StripSuffix(s + ending, ending[0]) == s;
    }
  }

  // ---- Where loose indexes are put ------------------------------------------------------------

  /** PackId::for_loose_snapshot names a valid pack exactly for a valid tag. */
  lemma LoosePackValid(category: Category, tag: string)
    ensures ValidatePack(category, LOOSE + tag).Ok? <==> TagValid(category, tag)
  {}

  function IndexPath(tag: string): string { LOOSE + tag + INDEX_EXTENSION }

  /** from_index_path. */
  function FromIndexPath(path: string): Option<string> {
    if EndsWith(path, INDEX_EXTENSION) then Some(path[..|path|-|INDEX_EXTENSION|]) else None
  }

  lemma IndexPathNamesPack(tag: string)
    ensures FromIndexPath(IndexPath(tag)) == Some(LOOSE + tag)
  {}

  lemma {:induction false} NoSeparator(s: string)
    requires '/' !in s
    ensures Split(s) == [s]
  {
    if s != [] {
      NoSeparator(s[1..]);
      assert [s[0]] + s[1..] == s;
    }
  }

  /** A suffix without separators belongs to the last part. */
  lemma {:induction false} SplitSuffix(s: string, suffix: string)
    requires '/' !in suffix
    ensures Split(s + suffix) == WithSuffix(Split(s), suffix)
  {
    if s == [] {
      assert s + suffix == suffix && [] + suffix == suffix;
      NoSeparator(suffix);
    } else {
      assert (s + suffix)[1..] == s[1..] + suffix;
      SplitSuffix(s[1..], suffix);
      PushSuffix(s[0], Split(s[1..]), suffix);
    }
  }

  lemma PushSuffix(c: char, rest: seq<string>, suffix: string)
    requires rest != []
    ensures Push(c, WithSuffix(rest, suffix)) == WithSuffix(Push(c, rest), suffix)
  {
    if c != '/' && |rest| == 1 {
      assert [c] + (rest[0] + suffix) == ([c] + rest[0]) + suffix;
    } else if c != '/' {
      assert WithSuffix(rest, suffix)[1..] == WithSuffix(rest[1..], suffix);
      assert WithSuffix(Push(c, rest), suffix) == [[c] + rest[0]] + WithSuffix(rest[1..], suffix);
    }
  }

  /** What stands before the first separator is a part of its own. */
  lemma {:induction false} SplitPrefix(a: string, s: string)
    requires '/' !in a
    ensures Split(a + "/" + s) == [a] + Split(s)
  {
    var whole := a + "/" + s;
    if a == [] {
      assert whole[1..] == s;
    } else {
      assert whole[1..] == a[1..] + "/" + s;
      SplitPrefix(a[1..], s);
      assert [a[0]] + a[1..] == a;
    }
  }

  lemma SplitLoose(s: string)
    ensures Split(LOOSE + s) == ["loose"] + Split(s)
  {
    SplitPrefix("loose", s);
    assert LOOSE == "loose" + "/";
  }

  function LowerAll(parts: seq<string>): seq<string> {
    seq(|parts|, i requires 0 <= i < |parts| => Lower(parts[i]))
  }

  /** An index never is where another index needs a directory, not even on a file system
      that ignores the case of letters; and different tags have different files. */
  lemma LooseIndexesApart(category: Category, s: string, t: string)
    requires TagValid(category, s) && TagValid(category, t) && s != t
    ensures IndexPath(s) != IndexPath(t)
    ensures !(LowerAll(Split(IndexPath(s))) < LowerAll(Split(IndexPath(t))))
  {
    assert IndexPath(s)[|LOOSE|..|LOOSE|+|s|] == s && IndexPath(t)[|LOOSE|..|LOOSE|+|t|] == t;
    hide TagValid, Split, IndexPath, EndsWith, Lower, LOOSE;
    IndexParts(s);
    IndexParts(t);
    NoIndexAbove(category, Split(s), Split(t), t);
  }

  lemma NoIndexAbove(category: Category, above: seq<string>, below: seq<string>, t: string)
    requires TagValid(category, t) && below == Split(t) && above != []
    ensures !(LowerAll(["loose"] + WithSuffix(above, INDEX_EXTENSION)) < LowerAll(["loose"] + WithSuffix(below, INDEX_EXTENSION)))
  {
    hide Lower, Split, EndsWith;
    var a, b := ["loose"] + WithSuffix(above, INDEX_EXTENSION), ["loose"] + WithSuffix(below, INDEX_EXTENSION);
    var k := |a| - 1;
    if LowerAll(a) < LowerAll(b) {
      assert LowerAll(a)[k] == LowerAll(b)[k];
      assert b[k] == below[k-1] && k - 1 < |below| - 1;
      assert TagComponent(category, below[k-1], false);
      LowerKeepsExtension(above[|above|-1]);
    }
  }

  lemma IndexParts(tag: string)
    ensures Split(IndexPath(tag)) == ["loose"] + WithSuffix(Split(tag), INDEX_EXTENSION)
  {
    assert IndexPath(tag) == LOOSE + (tag + INDEX_EXTENSION);
    SplitLoose(tag + INDEX_EXTENSION);
    SplitSuffix(tag, INDEX_EXTENSION);
  }

  lemma LowerKeepsExtension(s: string)
    ensures EndsWith(Lower(s + INDEX_EXTENSION), INDEX_EXTENSION)
  {}
}
